/** Base64 text without padding, as tokens carry it, and its decoding by way of atob: the
    forgiving-base64 decode of the WHATWG Infra Standard. Bytes are numbers from 0 to 255. */
module Base64Url {
  import opened Common

  ghost predicate AreBytes(s: seq<int>) {
    forall i :: 0 <= i < |s| ==> 0 <= s[i] < 256
  }

  ghost predicate AreSextets(s: seq<int>) {
    forall i :: 0 <= i < |s| ==> 0 <= s[i] < 64
  }

  /** The URL-safe digits and, as the source replaces one by the other, those of plain base64. */
  function Sextet(c: char): (n: int)
    ensures n < 64
  {
    if 'A' <= c <= 'Z' then c as int - 'A' as int
    else if 'a' <= c <= 'z' then c as int - 'a' as int + 26
    else if '0' <= c <= '9' then c as int - '0' as int + 52
    else if c == '-' || c == '+' then 62
    else if c == '_' || c == '/' then 63
    else -1
  }

  function DigitOf(n: int): (c: char)
    requires 0 <= n < 64
    ensures Sextet(c) == n
  {
    if n < 26 then ('A' as int + n) as char
    else if n < 52 then ('a' as int + n - 26) as char
    else if n < 62 then ('0' as int + n - 52) as char
    else if n == 62 then '-' else '_'
  }

  /** The alphabet of RFC 4648 (section 5): letters, digits, minus and underscore, in this order. */
  lemma AlphabetIs(n: nat)
    requires n < 64
    ensures Sextet('A') == 0 && Sextet('a') == 26 && Sextet('0') == 52 && Sextet('-') == 62 && Sextet('_') == 63
    ensures Sextet('+') == 62 && Sextet('/') == 63
    ensures n !in {25, 51, 61, 62, 63} ==> DigitOf(n + 1) as int == DigitOf(n) as int + 1
    ensures DigitOf(0) == 'A' && DigitOf(26) == 'a' && DigitOf(52) == '0' && DigitOf(62) == '-' && DigitOf(63) == '_'
  {}

  // ---- Decoding ----

  /** The padding that the length of a text asks for. */
  function Pads(text: string): (pads: string)
    ensures |pads| <= 3 && forall i :: 0 <= i < |pads| ==> pads[i] == '='
  {
    match |text| % 4
    case 1 => "==="
    case 2 => "=="
    case 3 => "="
    case _ => ""
  }

  /** padEnd to a multiple of four. */
  function Padded(text: string): string {
    text + Pads(text)
  }

  predicate IsSpace(c: char) {
    c == ' ' || c == '\t' || c == '\n' || c == '\r' || c as int == 12
  }

  function WithoutSpaces(text: string): string {
    if text == "" then ""
    else WithoutSpaces(text[..|text| - 1]) + if IsSpace(text[|text| - 1]) then "" else [text[|text| - 1]]
  }

  predicate EndsInPad(text: string) {
    text != "" && text[|text| - 1] == '='
  }

  /** Up to two padding signs go, if the length is a multiple of four. */
  function WithoutPads(text: string): string {
    if |text| % 4 != 0 || !EndsInPad(text) then text
    else
      var once := text[..|text| - 1];
      if EndsInPad(once) then once[..|once| - 1] else once
  }

  function Sextets(text: string): (s: seq<int>)
    ensures |s| == |text|
  {
    seq(|text|, i requires 0 <= i < |text| => Sextet(text[i]))
  }

  /** Four digits are three bytes; what is left over of two or three is dropped. */
  function Bytes(s: seq<int>): seq<int> {
    if |s| < 2 then []
    else if |s| == 2 then [s[0] * 4 + s[1] / 16]
    else if |s| == 3 then [s[0] * 4 + s[1] / 16, s[1] % 16 * 16 + s[2] / 4]
    else [s[0] * 4 + s[1] / 16, s[1] % 16 * 16 + s[2] / 4, s[2] % 4 * 64 + s[3]] + Bytes(s[4..])
  }

  function DecodeDigits(body: string): Option<seq<int>> {
    if |body| % 4 == 1 || exists i :: 0 <= i < |body| && Sextet(body[i]) < 0 then None
    else Some(Bytes(Sextets(body)))
  }

  /** base64UrlDecode; None where atob throws. */
  function Decode(text: string): Option<seq<int>> {
    DecodeDigits(WithoutPads(WithoutSpaces(Padded(text))))
  }

  // ---- Encoding ----

  /** Three bytes in four digits. */
  function Group(a: int, b: int, c: int): (s: seq<int>)
    ensures |s| == 4
  {
    [a / 4, a % 4 * 16 + b / 16, b % 16 * 4 + c / 64, c % 64]
  }

  function SextetsOf(b: seq<int>): seq<int> {
    if b == [] then []
    else if |b| == 1 then Group(b[0], 0, 0)[..2]
    else if |b| == 2 then Group(b[0], b[1], 0)[..3]
    else Group(b[0], b[1], b[2]) + SextetsOf(b[3..])
  }

  lemma GroupBits(a: int, b: int, c: int)
    requires 0 <= a < 256 && 0 <= b < 256 && 0 <= c < 256
    ensures AreSextets(Group(a, b, c))
    ensures var s := Group(a, b, c);
            s[0] * 4 + s[1] / 16 == a && s[1] % 16 * 16 + s[2] / 4 == b && s[2] % 4 * 64 + s[3] == c
  {}

  lemma GroupReadsBack(s: seq<int>, rest: seq<int>)
    requires |s| == 4
    ensures Bytes(s + rest) == [s[0] * 4 + s[1] / 16, s[1] % 16 * 16 + s[2] / 4, s[2] % 4 * 64 + s[3]] + Bytes(rest)
  {
    assert (s + rest)[4..] == rest;
  }

  lemma JoinedSextets(a: seq<int>, b: seq<int>)
    requires AreSextets(a) && AreSextets(b)
    ensures AreSextets(a + b)
  {}

  lemma {:induction false} SextetsInRange(b: seq<int>)
    requires AreBytes(b)
    ensures AreSextets(SextetsOf(b))
  {
    if b != [] {
      GroupBits(b[0], if |b| > 1 then b[1] else 0, if |b| > 2 then b[2] else 0);
      hide Group;
      if |b| > 2 {
        SextetsInRange(b[3..]);
        JoinedSextets(Group(b[0], b[1], b[2]), SextetsOf(b[3..]));
        hide AreSextets;
      }
    }
  }

  /** The groups of a text, and the digits and bytes left over. */
  lemma {:induction false} SextetsLength(b: seq<int>) returns (n: nat, digits: nat, bytes: nat)
    ensures |SextetsOf(b)| == n * 4 + digits && |b| == n * 3 + bytes
    ensures (digits == bytes == 0) || (0 < bytes < 3 && digits == bytes + 1)
  {
    hide Group;
    if |b| > 2 {
      n, digits, bytes := SextetsLength(b[3..]);
      n := n + 1;
    } else {
      n, digits, bytes := 0, |SextetsOf(b)|, |b|;
    }
  }

  lemma SextetsAreSextets(b: seq<int>)
    requires AreBytes(b)
    ensures AreSextets(SextetsOf(b)) && |SextetsOf(b)| % 4 != 1
    ensures |SextetsOf(b)| % 4 == 0 <==> |b| % 3 == 0
  {
    SextetsInRange(b);
    hide *;
    var n, digits, bytes := SextetsLength(b);
    Remainder(n, 4, digits);
    Remainder(n, 3, bytes);
  }

  lemma Remainder(n: nat, d: nat, k: nat)
    requires 3 <= d <= 4 && k < d
    ensures (n * d + k) % d == k
  {
    if d == 3 {
      assert (n * 3 + k) % 3 == k;
    } else {
      assert (n * 4 + k) % 4 == k;
    }
  }

  lemma {:induction false} SextetsReadBack(b: seq<int>)
    requires AreBytes(b)
    ensures Bytes(SextetsOf(b)) == b
  {
    if b != [] {
      var second, third := if |b| > 1 then b[1] else 0, if |b| > 2 then b[2] else 0;
      GroupBits(b[0], second, third);
      hide Group, AreSextets;
      if |b| > 2 {
        SextetsReadBack(b[3..]);
        GroupReadsBack(Group(b[0], second, third), SextetsOf(b[3..]));
        assert b == [b[0], b[1], b[2]] + b[3..];
      }
    }
  }

  function Text(s: seq<int>): string
    requires AreSextets(s)
  {
    seq(|s|, i requires 0 <= i < |s| => DigitOf(s[i]))
  }

  /** base64Url. */
  ghost function Encode(b: seq<int>): string
    requires AreBytes(b)
  {
    SextetsAreSextets(b);
    Text(SextetsOf(b))
  }

  ghost predicate AllDigits(text: string) {
    forall i :: 0 <= i < |text| ==> Sextet(text[i]) >= 0
  }

  lemma {:induction false} NothingToRemove(text: string)
    requires forall i :: 0 <= i < |text| ==> !IsSpace(text[i])
    ensures WithoutSpaces(text) == text
  {
    hide IsSpace;
    if text != "" {
      NothingToRemove(text[..|text| - 1]);
    }
  }

  lemma DigitsAreNotSpaces(text: string)
    requires AllDigits(text)
    ensures WithoutSpaces(Padded(text)) == Padded(text)
  {
    hide Pads, WithoutSpaces;
    NothingToRemove(Padded(text));
  }

  lemma DigitsEndInNoPad(text: string)
    requires AllDigits(text)
    ensures !EndsInPad(text)
  {}

  lemma PadsAreRemoved(text: string)
    requires AllDigits(text) && |text| % 4 != 1
    ensures WithoutPads(Padded(text)) == text
  {
    DigitsEndInNoPad(text);
    hide Sextet, AllDigits;
    var all := Padded(text);
    if |text| % 4 == 3 {
      assert all[..|all| - 1] == text;
    } else if |text| % 4 == 2 {
      assert all[..|all| - 1] == text + "=" && (text + "=")[..|text|] == text;
    }
  }

  /** A text of digits decodes by its digits alone. */
  lemma DigitsDecode(text: string)
    requires AllDigits(text) && |text| % 4 != 1
    ensures Decode(text) == Some(Bytes(Sextets(text)))
  {
    DigitsAreNotSpaces(text);
    PadsAreRemoved(text);
    hide Padded, Pads, WithoutSpaces, WithoutPads, Sextet, Bytes, Sextets;
  }

  /** Decoding undoes encoding. */
  lemma RoundTrip(b: seq<int>)
    requires AreBytes(b)
    ensures Decode(Encode(b)) == Some(b)
  {
    SextetsAreSextets(b);
    SextetsReadBack(b);
    DigitsDecode(Encode(b));
    assert Sextets(Encode(b)) == SextetsOf(b);
  }

  // ---- Other spellings ----

  lemma PaddedIsAligned(text: string)
    ensures |Padded(text)| % 4 == 0 && Padded(Padded(text)) == Padded(text)
    ensures |text| % 4 != 0 ==> Padded(text) != text
  {
    assert Padded(text) + "" == Padded(text);
  }

  /** Padding may be written out. */
  lemma PaddingIsOptional(text: string)
    ensures Decode(Padded(text)) == Decode(text)
    ensures |text| % 4 != 0 ==> Padded(text) != text
  {
    PaddedIsAligned(text);
    hide Padded, Pads, WithoutSpaces, WithoutPads, DecodeDigits;
  }

  lemma {:induction false} SpareBitsAreDropped(s: seq<int>, last: int)
    requires AreSextets(s) && |s| % 4 == 3 && 0 <= last < 64 && last / 4 == s[|s| - 1] / 4
    ensures Bytes(s[|s| - 1 := last]) == Bytes(s)
  {
    if |s| > 3 {
      SpareBitsAreDropped(s[4..], last);
      assert s[|s| - 1 := last][4..] == s[4..][|s| - 5 := last];
    }
  }

  /** The last of 4n + 3 digits has two bits that do not count, so it can be written in four
      ways. */
  lemma LastDigitHasFourSpellings(text: string, last: int)
    requires AllDigits(text) && |text| % 4 == 3
    requires 0 <= last < 64 && last / 4 == Sextet(text[|text| - 1]) / 4
    ensures Decode(text[|text| - 1 := DigitOf(last)]) == Decode(text)
  {
    hide Decode, Sextet, Bytes;
    var other := text[|text| - 1 := DigitOf(last)];
    DigitsDecode(text);
    DigitsDecode(other);
    assert Sextets(other) == Sextets(text)[|text| - 1 := last];
    SpareBitsAreDropped(Sextets(text), last);
  }

  /** Bytes that are not three at a time have a second spelling, with its padding. */
  lemma EncodedHasTwoSpellings(b: seq<int>)
    requires AreBytes(b) && |b| % 3 != 0
    ensures Padded(Encode(b)) != Encode(b) && Decode(Padded(Encode(b))) == Some(b)
  {
    SextetsAreSextets(b);
    RoundTrip(b);
    PaddingIsOptional(Encode(b));
    hide Padded, Decode;
  }

  /** A base64 text is not empty unless its bytes are, and has no dots, padded or not. */
  lemma EncodedText(b: seq<int>)
    requires AreBytes(b)
    ensures var text := Encode(b);
            && (b != [] ==> text != "")
            && forall i :: 0 <= i < |Padded(text)| ==> Padded(text)[i] != '.'
    ensures forall i :: 0 <= i < |Encode(b)| ==> Encode(b)[i] != '.'
  {
    SextetsAreSextets(b);
    hide SextetsOf, AreBytes;
  }
}
