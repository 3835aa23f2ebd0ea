/** Octal numbers in the header fields of tar archives. */
module Octal {
  import opened Common

  type Byte = x: int | 0 <= x < 256

  predicate IsDigit(b: Byte) {
    48 <= b <= 55
  }

  ghost predicate AllDigits(s: seq<Byte>) {
    forall i :: 0 <= i < |s| ==> IsDigit(s[i])
  }

  function Pow8(n: nat): (p: nat)
    ensures p > 0
  {
    if n == 0 then 1 else 8 * Pow8(n - 1)
  }

  /** value.toString(8). */
  function Digits(value: nat): (s: seq<Byte>)
    ensures s != []
  {
    if value < 8 then [48 + value] else Digits(value / 8) + [48 + value % 8]
  }

  function Zeros(n: nat): seq<Byte> {
    seq(n, _ => 48)
  }

  function PadStart(s: seq<Byte>, n: nat): seq<Byte> {
    if |s| >= n then s else Zeros(n - |s|) + s
  }

  /** The bytes that writeOctal puts into a field: one byte fewer than the field holds, and a
      NUL. Digits that do not fit are lost from the end. */
  function OctalField(value: nat, length: nat): seq<Byte>
    requires 0 < length
  {
    PadStart(Digits(value), length - 1)[..length - 1] + [0]
  }

  function Value(s: seq<Byte>): int {
    if s == [] then 0 else 8 * Value(s[..|s| - 1]) - 48 + s[|s| - 1]
  }

  // ---- Reading ----

  function DigitCount(s: seq<Byte>): (k: nat)
    ensures k <= |s|
  {
    if s == [] || !IsDigit(s[0]) then 0 else 1 + DigitCount(s[1..])
  }

  /** Octal digits followed by a space or NUL, as the ustar format asks. */
  function ReadOctal(field: seq<Byte>): Option<int> {
    var k := DigitCount(field);
    if k == 0 || k == |field| || (field[k] != 0 && field[k] != 32) then None else Some(Value(field[..k]))
  }

  lemma {:induction false} DigitCountIs(s: seq<Byte>, terminator: Byte, rest: seq<Byte>)
    requires AllDigits(s) && !IsDigit(terminator)
    ensures DigitCount(s + [terminator] + rest) == |s|
  {
    var all := s + [terminator] + rest;
    if s != [] {
      assert all[1..] == s[1..] + [terminator] + rest;
      DigitCountIs(s[1..], terminator, rest);
    }
  }

  lemma ReadsDigits(s: seq<Byte>, terminator: Byte, rest: seq<Byte>)
    requires AllDigits(s) && s != [] && (terminator == 0 || terminator == 32)
    ensures ReadOctal(s + [terminator] + rest) == Some(Value(s))
  {
    DigitCountIs(s, terminator, rest);
    assert (s + [terminator] + rest)[..|s|] == s;
  }

  // ---- Values ----

  lemma {:induction false} DigitsHaveTheValue(value: nat)
    ensures AllDigits(Digits(value)) && Value(Digits(value)) == value
  {
    if value >= 8 {
      DigitsHaveTheValue(value / 8);
      assert Digits(value)[..|Digits(value)| - 1] == Digits(value / 8);
    } else {
      assert Value([48 + value]) == 8 * Value([]) + value by {
        assert [48 + value][..0] == [];
      }
    }
  }

  lemma {:induction false} DigitsFitWhen(value: nat, n: nat)
    requires 0 < n
    ensures |Digits(value)| <= n <==> value < Pow8(n)
  {
    if n == 1 {
      assert Pow8(1) == 8 * Pow8(0);
    } else if value >= 8 {
      DigitsFitWhen(value / 8, n - 1);
    } else {
      assert Pow8(n) == 8 * Pow8(n - 1);
    }
  }

  lemma {:induction false} ZerosDoNotCount(k: nat, s: seq<Byte>)
    ensures Value(Zeros(k) + s) == Value(s)
  {
    var all := Zeros(k) + s;
    if s != [] {
      assert all[..|all| - 1] == Zeros(k) + s[..|s| - 1];
      ZerosDoNotCount(k, s[..|s| - 1]);
    } else if k > 0 {
      assert all[..|all| - 1] == Zeros(k - 1) + [];
      ZerosDoNotCount(k - 1, []);
    }
  }

  lemma {:induction false} ValueIsBelow(s: seq<Byte>)
    requires AllDigits(s)
    ensures 0 <= Value(s) < Pow8(|s|)
  {
    if s != [] {
      ValueIsBelow(s[..|s| - 1]);
    }
  }

  lemma PaddedDigits(value: nat, n: nat)
    ensures AllDigits(PadStart(Digits(value), n)) && |PadStart(Digits(value), n)| >= n
    ensures Value(PadStart(Digits(value), n)) == value
    ensures 0 < n ==> (|PadStart(Digits(value), n)| == n <==> value < Pow8(n))
  {
    DigitsHaveTheValue(value);
    if 0 < n {
      DigitsFitWhen(value, n);
    }
    ZerosDoNotCount(if |Digits(value)| >= n then 0 else n - |Digits(value)|, Digits(value));
  }

  /** An octal field reads back as the number written if and only if the number has at most
      as many digits as the field has room for: 7 for 8 bytes, 11 for 12. */
  lemma OctalFieldReadsBackWhen(value: nat, length: nat)
    requires 2 <= length
    ensures |OctalField(value, length)| == length
    ensures ReadOctal(OctalField(value, length)) == Some(value) <==> value < Pow8(length - 1)
  {
    var padded := PadStart(Digits(value), length - 1);
    var kept := padded[..length - 1];
    PaddedDigits(value, length - 1);
    assert kept + [0] + [] == OctalField(value, length);
    ReadsDigits(kept, 0, []);
    ValueIsBelow(kept);
    if value < Pow8(length - 1) {
      assert kept == padded;
    }
  }

  /** The checksum field of the plugin archive: six digits, NUL, space. */
  lemma SixDigitsReadBack(value: nat)
    requires value < Pow8(6)
    ensures |PadStart(Digits(value), 6) + [0, 32]| == 8
    ensures ReadOctal(PadStart(Digits(value), 6) + [0, 32]) == Some(value)
  {
    PaddedDigits(value, 6);
    var s := PadStart(Digits(value), 6);
    assert s + [0] + [32] == s + [0, 32];
    ReadsDigits(s, 0, [32]);
  }

  /** The size field of the plugin archive: eleven digits and a NUL, cut at twelve bytes. */
  function CutField(value: nat): seq<Byte> {
    PaddedDigits(value, 11);
    (PadStart(Digits(value), 11) + [0])[..12]
  }

  lemma CutFieldReadsBackWhen(value: nat)
    ensures |CutField(value)| == 12
    ensures value < Pow8(11) ==> CutField(value) == OctalField(value, 12)
    ensures ReadOctal(CutField(value)) == Some(value) <==> value < Pow8(11)
  {
    PaddedDigits(value, 11);
    var padded := PadStart(Digits(value), 11);
    if value < Pow8(11) {
      OctalFieldReadsBackWhen(value, 12);
      assert padded[..11] == padded;
      assert (padded + [0])[..12] == padded + [0];
    } else {
      assert CutField(value) == padded[..12];
      AllDigitsAreCounted(padded[..12]);
    }
  }

  lemma {:induction false} AllDigitsAreCounted(s: seq<Byte>)
    requires AllDigits(s)
    ensures DigitCount(s) == |s|
  {
    if s != [] {
      AllDigitsAreCounted(s[1..]);
    }
  }
}
