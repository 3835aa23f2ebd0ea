/** The byte budget of source text in a model prompt, in the public and the delegated API. */
module ModelContext {
  import opened Common
  import opened Utf8

  /** slice(0, n) of the encoded text. */
  function Slice(bytes: seq<int>, n: nat): seq<int> {
    bytes[..Min(n, |bytes|)]
  }

  function TotalBytes(values: seq<seq<int>>): nat {
    if values == [] then 0 else TotalBytes(values[..|values| - 1]) + |Encode(values[|values| - 1])|
  }

  lemma TotalBytesAppend(values: seq<seq<int>>, v: seq<int>)
    ensures TotalBytes(values + [v]) == TotalBytes(values) + |Encode(v)|
  {
    assert (values + [v])[..|values|] == values;
  }

  ghost predicate AllScalars(chunks: seq<seq<int>>) {
    forall i :: 0 <= i < |chunks| ==> AreScalars(chunks[i])
  }

  /** A value placed in the prompt: the start of its chunk, without a byte order mark, and at
      most one replacement character in place of a character that was cut. */
  ghost predicate IsStartOf(value: seq<int>, chunk: seq<int>) {
    exists p | 0 <= p <= |chunk| ::
      value == WithoutMark(chunk[..p]) || (p < |chunk| && value == WithoutMark(chunk[..p] + [REPLACEMENT]))
  }

  /** A cut exceeds its allowance exactly when it leaves one or two bytes of a character and
      no byte order mark was dropped; it then does so by two bytes or by one. */
  lemma CutExceedsWhen(chunk: seq<int>, n: nat)
    requires AreScalars(chunk) && n <= |Encode(chunk)|
    ensures |Encode(Decode(Encode(chunk)[..n]))| > n <==>
            LooseBytes(chunk, n) in {1, 2} && !StartsWithMark(chunk, n)
    ensures |Encode(Decode(Encode(chunk)[..n]))| <= n + 2
  {
    CutDecodes(chunk, n);
    CutSize(chunk, n);
  }

  lemma CutIsAStart(chunk: seq<int>, n: nat)
    requires AreScalars(chunk)
    ensures IsStartOf(Decode(Slice(Encode(chunk), n)), chunk)
  {
    var m := Min(n, |Encode(chunk)|);
    var p := WholeChars(chunk, m);
    CutDecodes(chunk, m);
    LooseNeedsARest(chunk, m);
    assert chunk[..p] + [] == chunk[..p];
    assert 0 <= p <= |chunk|;
  }

  lemma {:induction false} LooseNeedsARest(cs: seq<int>, n: nat)
    ensures LooseBytes(cs, n) > 0 ==> WholeChars(cs, n) < |cs|
  {
    if cs != [] && Width(cs[0]) <= n {
      LooseNeedsARest(cs[1..], n - Width(cs[0]));
    }
  }

  lemma SliceExceedsByTwoAtMost(chunk: seq<int>, n: nat)
    requires AreScalars(chunk)
    ensures |Encode(Decode(Slice(Encode(chunk), n)))| <= |Slice(Encode(chunk), n)| + 2
  {
    CutExceedsWhen(chunk, Min(n, |Encode(chunk)|));
  }

  /** A chunk that fits is not cut. */
  lemma WholeSlice(chunk: seq<int>, n: nat)
    requires AreScalars(chunk) && |Encode(chunk)| <= n
    ensures Slice(Encode(chunk), n) == Encode(chunk)
    ensures Decode(Slice(Encode(chunk), n)) == WithoutMark(chunk)
    ensures |Encode(WithoutMark(chunk))| <= |Encode(chunk)|
  {
    RoundTrip(chunk);
  }

  lemma ChunkStep(chunks: seq<seq<int>>, i: nat)
    requires i < |chunks|
    ensures TotalBytes(chunks[..i + 1]) == TotalBytes(chunks[..i]) + |Encode(chunks[i])|
  {
    assert chunks[..i + 1][..i] == chunks[..i];
  }

  function PublicBudget(answerContextCharacters: int): int {
    Min(Max(answerContextCharacters, 1000), 32768)
  }

  /** The text that stands for `chunk` when `left` bytes of the budget remain. */
  function CutTo(chunk: seq<int>, left: int): seq<int>
    requires 0 < left
  {
    Decode(Slice(Encode(chunk), left))
  }

  lemma CutToFits(chunk: seq<int>, left: int)
    requires AreScalars(chunk) && 0 < left
    ensures IsStartOf(CutTo(chunk, left), chunk)
    ensures |Encode(CutTo(chunk, left))| <= |Slice(Encode(chunk), left)| + 2
    ensures |Encode(chunk)| <= left ==> |Encode(CutTo(chunk, left))| <= |Encode(chunk)| == |Slice(Encode(chunk), left)|
  {
    CutIsAStart(chunk, left);
    SliceExceedsByTwoAtMost(chunk, left);
    if |Encode(chunk)| <= left {
      WholeSlice(chunk, left);
    }
  }

  /** Every value is its chunk cut to what the values before it leave of the budget. */
  ghost predicate PublicValues(values: seq<seq<int>>, chunks: seq<seq<int>>, budget: int) {
    && |values| <= |chunks|
    && forall i :: 0 <= i < |values| ==> PublicValue(values, chunks, budget, i)
  }

  ghost predicate PublicValue(values: seq<seq<int>>, chunks: seq<seq<int>>, budget: int, i: nat)
    requires i < |values| <= |chunks|
  {
    var left := budget - TotalBytes(values[..i]);
    && left > 0 && values[i] == Decode(Encode(chunks[i])[..Min(left, |Encode(chunks[i])|)])
    && IsStartOf(values[i], chunks[i])
  }

  lemma PublicValueFits(values: seq<seq<int>>, chunks: seq<seq<int>>, budget: int, left: int, value: seq<int>)
    requires |values| < |chunks| && AllScalars(chunks) && PublicValues(values, chunks, budget)
    requires 0 < left == budget - TotalBytes(values) && value == CutTo(chunks[|values|], left)
    ensures PublicValues(values + [value], chunks, budget)
  {
    CutToFits(chunks[|values|], left);
    hide CutTo, IsStartOf, TotalBytes, AllScalars, PublicValue;
    forall i | 0 <= i <= |values|
      ensures PublicValue(values + [value], chunks, budget, i)
    {
      if i < |values| {
        assert PublicValue(values, chunks, budget, i);
      }
      PublicValueStays(values, value, chunks, budget, i);
    }
  }

  lemma PublicValueStays(values: seq<seq<int>>, value: seq<int>, chunks: seq<seq<int>>, budget: int, i: nat)
    requires i <= |values| < |chunks|
    requires i < |values| ==> PublicValue(values, chunks, budget, i)
    requires i == |values| ==>
               var left := budget - TotalBytes(values);
               left > 0 && value == CutTo(chunks[i], left) && IsStartOf(value, chunks[i])
    ensures PublicValue(values + [value], chunks, budget, i)
  {
    hide IsStartOf, TotalBytes, Encode, Decode;
    assert (values + [value])[..i] == values[..i];
    if i == |values| {
      assert values[..i] == values;
    }
  }

  /** buildModelRequest: the budget shrinks by the size of each decoded text, and can be
      exceeded by two bytes but by no more. */
  method BuildModelRequest(chunks: seq<seq<int>>, answerContextCharacters: int) returns (values: seq<seq<int>>)
    requires AllScalars(chunks)
    ensures var budget := if answerContextCharacters < 1000 then 1000
                          else if answerContextCharacters > 32768 then 32768 else answerContextCharacters;
            && TotalBytes(values) <= budget + 2 && PublicValues(values, chunks, budget)
            && |values| <= 5 && |values| <= |chunks|
            && (|values| < 5 && |values| < |chunks| ==> TotalBytes(values) >= budget)
  {
    var budget := PublicBudget(answerContextCharacters);
    var remaining := budget;
    values := [];
    for i := 0 to Min(5, |chunks|)
      invariant |values| <= i && (remaining > 0 ==> |values| == i)
      invariant -2 <= remaining == budget - TotalBytes(values)
      invariant PublicValues(values, chunks, budget)
    {
      hide PublicValues, TotalBytes, CutTo;
      if remaining > 0 {
        var value := CutTo(chunks[i], remaining);
        CutToFits(chunks[i], remaining);
        PublicValueFits(values, chunks, budget, remaining, value);
        TotalBytesAppend(values, value);
        remaining := remaining - |Encode(value)|;
        values := values + [value];
      }
    }
  }

  const DELEGATED_BUDGET: int := 32768

  /** Every value is its chunk cut to what the chunks before it leave of the budget. */
  ghost predicate DelegatedValues(values: seq<seq<int>>, chunks: seq<seq<int>>) {
    && |values| <= |chunks|
    && forall i :: 0 <= i < |values| ==> DelegatedValue(values, chunks, i)
  }

  ghost predicate DelegatedValue(values: seq<seq<int>>, chunks: seq<seq<int>>, i: nat)
    requires i < |values| <= |chunks|
  {
    var left := 32768 - TotalBytes(chunks[..i]);
    && left > 0 && values[i] == Decode(Encode(chunks[i])[..Min(left, |Encode(chunks[i])|)])
    && IsStartOf(values[i], chunks[i])
  }

  lemma DelegatedValueFits(values: seq<seq<int>>, chunks: seq<seq<int>>, left: int, value: seq<int>)
    requires |values| < |chunks| && AllScalars(chunks) && DelegatedValues(values, chunks)
    requires 0 < left == DELEGATED_BUDGET - TotalBytes(chunks[..|values|]) && value == CutTo(chunks[|values|], left)
    ensures DelegatedValues(values + [value], chunks)
  {
    CutToFits(chunks[|values|], left);
    hide CutTo, IsStartOf, TotalBytes, AllScalars, DelegatedValue;
    forall i | 0 <= i <= |values|
      ensures DelegatedValue(values + [value], chunks, i)
    {
      if i < |values| {
        assert DelegatedValue(values, chunks, i);
      }
      DelegatedValueStays(values, value, chunks, i);
    }
  }

  lemma DelegatedValueStays(values: seq<seq<int>>, value: seq<int>, chunks: seq<seq<int>>, i: nat)
    requires i <= |values| < |chunks|
    requires i < |values| ==> DelegatedValue(values, chunks, i)
    requires i == |values| ==>
               var left := DELEGATED_BUDGET - TotalBytes(chunks[..i]);
               left > 0 && value == CutTo(chunks[i], left) && IsStartOf(value, chunks[i])
    ensures DelegatedValue(values + [value], chunks, i)
  {
    hide IsStartOf, TotalBytes, Encode, Decode;
  }

  /** modelRequest: the budget shrinks by the size of each slice, before it is decoded. */
  method ModelRequest(chunks: seq<seq<int>>) returns (values: seq<seq<int>>)
    requires AllScalars(chunks)
    ensures TotalBytes(values) <= 32768 + 2 && DelegatedValues(values, chunks)
    ensures |values| <= 5 && |values| <= |chunks|
    ensures |values| < 5 && |values| < |chunks| ==> TotalBytes(chunks[..|values|]) >= 32768
  {
    var remaining := DELEGATED_BUDGET;
    values := [];
    for i := 0 to Min(5, |chunks|)
      invariant 0 <= remaining && |values| <= i && (remaining > 0 ==> |values| == i)
      invariant TotalBytes(values) <= DELEGATED_BUDGET - remaining + if remaining > 0 then 0 else 2
      invariant remaining > 0 ==> remaining == DELEGATED_BUDGET - TotalBytes(chunks[..i])
      invariant remaining == 0 ==> TotalBytes(chunks[..|values|]) >= DELEGATED_BUDGET
      invariant DelegatedValues(values, chunks)
    {
      if remaining > 0 {
        var bytes := Slice(Encode(chunks[i]), remaining);
        var value := Decode(bytes);
        assert value == CutTo(chunks[i], remaining);
        hide DelegatedValues, TotalBytes, CutTo, Encode, Decode;
        CutToFits(chunks[i], remaining);
        DelegatedValueFits(values, chunks, remaining, value);
        ChunkStep(chunks, i);
        TotalBytesAppend(values, value);
        remaining := remaining - |bytes|;
        values := values + [value];
      }
    }
  }
}
