/** UTF-8 as section 3 of RFC 3629 defines it, and the decoder with replacement of the WHATWG
    Encoding Standard, which TextDecoder runs. */
module Utf8 {

  const REPLACEMENT: int := 0xFFFD
  const BYTE_ORDER_MARK: int := 0xFEFF

  predicate IsScalar(c: int) {
    0 <= c < 0xD800 || 0xE000 <= c <= 0x10FFFF
  }

  predicate AreScalars(cs: seq<int>) {
    forall i :: 0 <= i < |cs| ==> IsScalar(cs[i])
  }

  function Width(c: int): nat {
    if c < 0x80 then 1 else if c < 0x800 then 2 else if c < 0x10000 then 3 else 4
  }

  function EncodeOne(c: int): (b: seq<int>)
    ensures |b| == Width(c)
  {
    if c < 0x80 then [c]
    else if c < 0x800 then [0xC0 + c / 64, 0x80 + c % 64]
    else if c < 0x10000 then [0xE0 + c / 4096, 0x80 + c / 64 % 64, 0x80 + c % 64]
    else [0xF0 + c / 262144, 0x80 + c / 4096 % 64, 0x80 + c / 64 % 64, 0x80 + c % 64]
  }

  function Encode(cs: seq<int>): seq<int> {
    if cs == [] then [] else EncodeOne(cs[0]) + Encode(cs[1..])
  }

  // ---- The decoder ----

  /** `needed` continuation bytes are outstanding; the next must lie in lower..upper. */
  datatype State = State(codePoint: int, needed: nat, lower: int, upper: int)

  const INITIAL := State(0, 0, 0x80, 0xBF)

  function LeadState(b: int): State {
    if 0xC2 <= b <= 0xDF then State(b - 0xC0, 1, 0x80, 0xBF)
    else if 0xE0 <= b <= 0xEF then
      State(b - 0xE0, 2, if b == 0xE0 then 0xA0 else 0x80, if b == 0xED then 0x9F else 0xBF)
    else if 0xF0 <= b <= 0xF4 then
      State(b - 0xF0, 3, if b == 0xF0 then 0x90 else 0x80, if b == 0xF4 then 0x8F else 0xBF)
    else INITIAL
  }

  function DecodeFrom(bytes: seq<int>, s: State): seq<int>
    decreases |bytes|, s.needed
  {
    if bytes == [] then
      if s.needed > 0 then [REPLACEMENT] else []
    else
      var b := bytes[0];
      if s.needed == 0 then
        if 0 <= b <= 0x7F then [b] + DecodeFrom(bytes[1..], INITIAL)
        else if LeadState(b).needed > 0 then DecodeFrom(bytes[1..], LeadState(b))
        else [REPLACEMENT] + DecodeFrom(bytes[1..], INITIAL)
      else if !(s.lower <= b <= s.upper) then [REPLACEMENT] + DecodeFrom(bytes, INITIAL)
      else
        var codePoint := s.codePoint * 64 + (b - 0x80);
        if s.needed == 1 then [codePoint] + DecodeFrom(bytes[1..], INITIAL)
        else DecodeFrom(bytes[1..], State(codePoint, s.needed - 1, 0x80, 0xBF))
  }

  /** A byte order mark at the start is dropped. */
  function WithoutMark(cs: seq<int>): seq<int> {
    if cs != [] && cs[0] == BYTE_ORDER_MARK then cs[1..] else cs
  }

  function Decode(bytes: seq<int>): seq<int> {
    WithoutMark(DecodeFrom(bytes, INITIAL))
  }

  // ---- Whole characters ----

  /** One continuation byte: the state takes it when it is in range. */
  lemma Continue(b: int, rest: seq<int>, s: State)
    requires s.needed > 0 && s.lower <= b <= s.upper
    ensures DecodeFrom([b] + rest, s) ==
            if s.needed == 1 then [s.codePoint * 64 + (b - 0x80)] + DecodeFrom(rest, INITIAL)
            else DecodeFrom(rest, State(s.codePoint * 64 + (b - 0x80), s.needed - 1, 0x80, 0xBF))
  {
    assert ([b] + rest)[1..] == rest;
  }

  lemma Lead(b: int, rest: seq<int>)
    requires LeadState(b).needed > 0
    ensures DecodeFrom([b] + rest, INITIAL) == DecodeFrom(rest, LeadState(b))
  {
    assert ([b] + rest)[1..] == rest;
  }

  /** The bytes of a character of three bytes satisfy the decoder's tests. */
  lemma ThreeBytes(c: int)
    requires IsScalar(c) && 0x800 <= c < 0x10000
    ensures var e := EncodeOne(c); var s := LeadState(e[0]);
            && s.needed == 2 && s.lower <= e[1] <= s.upper && 0x80 <= e[2] <= 0xBF
            && s.codePoint * 64 + (e[1] - 0x80) == c / 64 && c / 64 * 64 + (e[2] - 0x80) == c
  {
    assert c / 64 / 64 == c / 4096;
  }

  lemma FourBytes(c: int)
    requires IsScalar(c) && 0x10000 <= c
    ensures var e := EncodeOne(c); var s := LeadState(e[0]);
            && s.needed == 3 && s.lower <= e[1] <= s.upper && 0x80 <= e[2] <= 0xBF && 0x80 <= e[3] <= 0xBF
            && s.codePoint * 64 + (e[1] - 0x80) == c / 4096 && c / 4096 * 64 + (e[2] - 0x80) == c / 64
            && c / 64 * 64 + (e[3] - 0x80) == c
  {
    assert c / 64 / 64 == c / 4096 && c / 4096 / 64 == c / 262144;
  }

  lemma DecodeThree(c: int, rest: seq<int>)
    requires IsScalar(c) && 0x800 <= c < 0x10000
    ensures DecodeFrom(EncodeOne(c) + rest, INITIAL) == [c] + DecodeFrom(rest, INITIAL)
  {
    var e := EncodeOne(c);
    ThreeBytes(c);
    hide DecodeFrom, LeadState, EncodeOne, IsScalar;
    assert e + rest == [e[0]] + ([e[1]] + ([e[2]] + rest));
    Lead(e[0], [e[1]] + ([e[2]] + rest));
    Continue(e[1], [e[2]] + rest, LeadState(e[0]));
    Continue(e[2], rest, State(c / 64, 1, 0x80, 0xBF));
  }

  lemma DecodeFour(c: int, rest: seq<int>)
    requires IsScalar(c) && 0x10000 <= c
    ensures DecodeFrom(EncodeOne(c) + rest, INITIAL) == [c] + DecodeFrom(rest, INITIAL)
  {
    var e := EncodeOne(c);
    FourBytes(c);
    hide DecodeFrom, LeadState, EncodeOne, IsScalar;
    assert e + rest == [e[0]] + ([e[1]] + ([e[2]] + ([e[3]] + rest)));
    Lead(e[0], [e[1]] + ([e[2]] + ([e[3]] + rest)));
    Continue(e[1], [e[2]] + ([e[3]] + rest), LeadState(e[0]));
    Continue(e[2], [e[3]] + rest, State(c / 4096, 2, 0x80, 0xBF));
    Continue(e[3], rest, State(c / 64, 1, 0x80, 0xBF));
  }

  /** The bytes of one character decode to it, whatever follows. */
  lemma DecodeOne(c: int, rest: seq<int>)
    requires IsScalar(c)
    ensures DecodeFrom(EncodeOne(c) + rest, INITIAL) == [c] + DecodeFrom(rest, INITIAL)
  {
    var e := EncodeOne(c);
    if c < 0x80 {
      assert (e + rest)[1..] == rest;
    } else if c < 0x800 {
      assert e + rest == [e[0]] + ([e[1]] + rest);
      Lead(e[0], [e[1]] + rest);
      Continue(e[1], rest, LeadState(e[0]));
    } else if c < 0x10000 {
      DecodeThree(c, rest);
    } else {
      DecodeFour(c, rest);
    }
  }

  /** A character cut short at the end of the input decodes to one replacement character. */
  lemma DecodePartial(c: int, k: nat)
    requires IsScalar(c) && 0 < k < Width(c)
    ensures DecodeFrom(EncodeOne(c)[..k], INITIAL) == [REPLACEMENT]
  {
    var e := EncodeOne(c);
    if c >= 0x10000 {
      FourBytes(c);
    } else if c >= 0x800 {
      ThreeBytes(c);
    }
    CutOff(e, k);
  }

  lemma CutOff(e: seq<int>, k: nat)
    requires 0 < k < |e| <= 4 && LeadState(e[0]).needed == |e| - 1
    requires 3 <= |e| ==> LeadState(e[0]).lower <= e[1] <= LeadState(e[0]).upper
    requires |e| == 4 ==> 0x80 <= e[2] <= 0xBF
    ensures DecodeFrom(e[..k], INITIAL) == [REPLACEMENT]
  {
    var s := LeadState(e[0]);
    assert DecodeFrom([], s) == [REPLACEMENT];
    if k == 1 {
      assert e[..1] == [e[0]] + [];
      Lead(e[0], []);
    } else {
      var s1 := State(s.codePoint * 64 + (e[1] - 0x80), s.needed - 1, 0x80, 0xBF);
      assert DecodeFrom([], s1) == [REPLACEMENT];
      hide LeadState;
      if k == 2 {
        assert e[..2] == [e[0]] + ([e[1]] + []);
        Lead(e[0], [e[1]] + []);
        Continue(e[1], [], s);
      } else {
        assert e[..3] == [e[0]] + ([e[1]] + ([e[2]] + []));
        Lead(e[0], [e[1]] + ([e[2]] + []));
        Continue(e[1], [e[2]] + [], s);
        Continue(e[2], [], s1);
      }
    }
  }

  // ---- Texts cut at a byte ----

  /** How many characters of the text fit whole into its first `n` bytes. */
  function WholeChars(cs: seq<int>, n: nat): (p: nat)
    ensures p <= |cs|
  {
    if cs == [] || n < Width(cs[0]) then 0 else 1 + WholeChars(cs[1..], n - Width(cs[0]))
  }

  /** How many bytes of a further character follow them. */
  function LooseBytes(cs: seq<int>, n: nat): (k: nat)
    ensures k <= n
  {
    if cs == [] then 0
    else if n < Width(cs[0]) then n
    else LooseBytes(cs[1..], n - Width(cs[0]))
  }

  lemma {:induction false} CutDecodes(cs: seq<int>, n: nat)
    requires AreScalars(cs) && n <= |Encode(cs)|
    ensures LooseBytes(cs, n) <= 3
    ensures |Encode(cs[..WholeChars(cs, n)])| == n - LooseBytes(cs, n)
    ensures DecodeFrom(Encode(cs)[..n], INITIAL)
              == cs[..WholeChars(cs, n)] + if LooseBytes(cs, n) > 0 then [REPLACEMENT] else []
  {
    assert DecodeFrom([], INITIAL) == [];
    hide IsScalar, DecodeFrom, EncodeOne;
    if cs != [] {
      if n < Width(cs[0]) {
        assert Encode(cs)[..n] == EncodeOne(cs[0])[..n];
        if n > 0 {
          DecodePartial(cs[0], n);
        }
      } else {
        WholeCharsOfMore(cs, n);
        CutDecodes(cs[1..], n - Width(cs[0]));
        hide Encode, WholeChars, LooseBytes;
        DecodeOneThenMore(cs, n);
      }
    }
  }

  lemma DecodeOneThenMore(cs: seq<int>, n: nat)
    requires AreScalars(cs) && cs != [] && Width(cs[0]) <= n <= |Encode(cs)|
    ensures n - Width(cs[0]) <= |Encode(cs[1..])|
    ensures DecodeFrom(Encode(cs)[..n], INITIAL)
              == [cs[0]] + DecodeFrom(Encode(cs[1..])[..n - Width(cs[0])], INITIAL)
  {
    hide IsScalar, DecodeFrom;
    var e := EncodeOne(cs[0]);
    assert Encode(cs)[..n] == e + Encode(cs[1..])[..n - |e|];
    DecodeOne(cs[0], Encode(cs[1..])[..n - |e|]);
  }

  lemma WholeCharsOfMore(cs: seq<int>, n: nat)
    requires AreScalars(cs) && cs != [] && Width(cs[0]) <= n <= |Encode(cs)|
    ensures var m := n - Width(cs[0]);
            && m <= |Encode(cs[1..])| && WholeChars(cs, n) == WholeChars(cs[1..], m) + 1
            && LooseBytes(cs, n) == LooseBytes(cs[1..], m)
            && cs[..WholeChars(cs, n)] == [cs[0]] + cs[1..][..WholeChars(cs[1..], m)]
            && |Encode(cs[..WholeChars(cs, n)])| == Width(cs[0]) + |Encode(cs[1..][..WholeChars(cs[1..], m)])|
  {
    hide IsScalar, EncodeOne;
    var p := WholeChars(cs, n);
    assert cs[..p] == [cs[0]] + cs[1..][..p - 1];
    assert cs[..p][1..] == cs[1..][..p - 1];
  }

  lemma {:induction false} EncodeAppend(a: seq<int>, b: seq<int>)
    ensures Encode(a + b) == Encode(a) + Encode(b)
  {
    if a == [] {
      assert a + b == b;
    } else {
      assert (a + b)[1..] == a[1..] + b;
      EncodeAppend(a[1..], b);
    }
  }

  /** Decoding undoes encoding, but for a byte order mark at the start. */
  lemma RoundTrip(cs: seq<int>)
    requires AreScalars(cs)
    ensures Decode(Encode(cs)) == WithoutMark(cs)
  {
    CutDecodes(cs, |Encode(cs)|);
    WholeText(cs);
    assert Encode(cs)[..|Encode(cs)|] == Encode(cs);
  }

  lemma {:induction false} WholeText(cs: seq<int>)
    ensures WholeChars(cs, |Encode(cs)|) == |cs| && LooseBytes(cs, |Encode(cs)|) == 0
  {
    if cs != [] {
      WholeText(cs[1..]);
    }
  }

  predicate StartsWithMark(cs: seq<int>, n: nat) {
    cs != [] && cs[0] == BYTE_ORDER_MARK && 3 <= n
  }

  /** The size of what a cut text decodes to: loose bytes become a replacement character of
      three bytes, and a byte order mark costs its three. */
  lemma CutSize(cs: seq<int>, n: nat)
    requires AreScalars(cs) && n <= |Encode(cs)|
    ensures |Encode(Decode(Encode(cs)[..n]))|
              == n + (if LooseBytes(cs, n) > 0 then 3 - LooseBytes(cs, n) else 0)
                   - (if StartsWithMark(cs, n) then 3 else 0)
  {
    var p := WholeChars(cs, n);
    var tail := if LooseBytes(cs, n) > 0 then [REPLACEMENT] else [];
    CutDecodes(cs, n);
    EncodeAppend(cs[..p], tail);
    var all := cs[..p] + tail;
    assert Encode(all) == if all == [] then [] else EncodeOne(all[0]) + Encode(all[1..]);
    assert |Encode(tail)| == if tail == [] then 0 else 3 by {
      if tail != [] {
        assert tail[1..] == [];
      }
    }
  }
}
