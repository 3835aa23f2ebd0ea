/** A map that lists its entries in the order of their first insertion, as the Map objects of
    ECMA-262 (section 24.1) do: setting a known key replaces its value in place. */
module OrderedMap {

  datatype Entry<+V> = Entry(key: string, value: V)

  /** The position of `key`, or the number of entries. */
  function Find<V>(entries: seq<Entry<V>>, key: string): (i: nat)
    ensures i <= |entries|
    ensures i < |entries| ==> entries[i].key == key
    ensures forall k :: 0 <= k < i ==> entries[k].key != key
  {
    if entries == [] then 0
    else if entries[0].key == key then 0
    else 1 + Find(entries[1..], key)
  }

  predicate Has<V>(entries: seq<Entry<V>>, key: string) {
    Find(entries, key) < |entries|
  }

  function Put<V>(entries: seq<Entry<V>>, key: string, value: V): seq<Entry<V>> {
    var i := Find(entries, key);
    if i < |entries| then entries[i := Entry(key, value)] else entries + [Entry(key, value)]
  }

  ghost predicate DistinctKeys<V>(entries: seq<Entry<V>>) {
    forall i, j :: 0 <= i < j < |entries| ==> entries[i].key != entries[j].key
  }

  /** Replacing a value keeps every look-up. */
  lemma FindAfterUpdate<V>(entries: seq<Entry<V>>, i: nat, value: V, key: string)
    requires i < |entries|
    ensures Find(entries[i := Entry(entries[i].key, value)], key) == Find(entries, key)
  {
    forall k | 0 <= k < |entries|
      ensures entries[i := Entry(entries[i].key, value)][k].key == entries[k].key
    {}
  }

  /** A new entry goes to the end and keeps every look-up but its own. */
  lemma FindAfterAppend<V>(entries: seq<Entry<V>>, e: Entry<V>, key: string)
    requires !Has(entries, e.key)
    ensures Find(entries + [e], key) == if key == e.key then |entries| else
                                        if Has(entries, key) then Find(entries, key) else |entries| + 1
  {
    var k := Find(entries + [e], key);
    forall j | 0 <= j < |entries|
      ensures (entries + [e])[j] == entries[j]
    {}
    assert (entries + [e])[|entries|] == e;
    assert k < |entries| ==> entries[k].key == key;
  }

  lemma PutKeepsDistinct<V>(entries: seq<Entry<V>>, key: string, value: V)
    requires DistinctKeys(entries)
    ensures DistinctKeys(Put(entries, key, value))
  {
    var i, after := Find(entries, key), Put(entries, key, value);
    forall j | 0 <= j < |after|
      ensures after[j].key == if j < |entries| then entries[j].key else key
    {}
  }

  lemma FindAfterPut<V>(entries: seq<Entry<V>>, key: string, value: V, other: string)
    ensures var after := Put(entries, key, value);
            && (DistinctKeys(entries) ==> DistinctKeys(after))
            && (Has(after, other) <==> other == key || Has(entries, other))
            && Has(after, key) && after[Find(after, key)] == Entry(key, value)
            && (other != key && Has(entries, other) ==> after[Find(after, other)] == entries[Find(entries, other)])
  {
    var i := Find(entries, key);
    if DistinctKeys(entries) {
      PutKeepsDistinct(entries, key, value);
    }
    hide DistinctKeys, Find;
    if i < |entries| {
      FindAfterUpdate(entries, i, value, other);
      FindAfterUpdate(entries, i, value, key);
    } else {
      FindAfterAppend(entries, Entry(key, value), other);
      FindAfterAppend(entries, Entry(key, value), key);
    }
  }

  /** Exactly one entry has the key, with this value, and all others are as they were. */
  ghost predicate FiledUnder<V>(before: seq<Entry<V>>, after: seq<Entry<V>>, key: string, value: V) {
    && (exists i :: 0 <= i < |after| && after[i] == Entry(key, value))
    && (forall i, j :: 0 <= i < j < |after| ==> after[i].key != after[j].key)
    && (forall i :: 0 <= i < |before| && before[i].key != key ==> i < |after| && after[i] == before[i])
    && (forall i :: 0 <= i < |after| && after[i].key != key ==> i < |before| && after[i] == before[i])
  }

  lemma PutFiles<V>(entries: seq<Entry<V>>, key: string, value: V)
    requires DistinctKeys(entries)
    ensures FiledUnder(entries, Put(entries, key, value), key, value)
  {
    PutKeepsDistinct(entries, key, value);
    var i := Find(entries, key);
    assert Put(entries, key, value)[i] == Entry(key, value);
    hide Find;
  }
}
