/** Stores ordered by an integer index: sorting by it lists a plain log of writes newest first. */
module IndexedStore {

  type Indices = map<string, int>

  /** The keys, each once, a highest index first: what sorted(..., reverse=True) may return. */
  ghost predicate Sorted(idx: Indices, keys: seq<string>)
    decreases keys
  {
    if keys == [] then idx == map[]
    else
      && keys[0] in idx && (forall k :: k in idx ==> idx[k] <= idx[keys[0]])
      && Sorted(idx - {keys[0]}, keys[1..])
  }

  /** Sorted, with no two equal indices. */
  ghost predicate Listing(idx: Indices, keys: seq<string>)
    decreases keys
  {
    if keys == [] then idx == map[]
    else
      && keys[0] in idx && (forall k :: k in idx && k != keys[0] ==> idx[k] < idx[keys[0]])
      && Listing(idx - {keys[0]}, keys[1..])
  }

  /** Without ties there is only one way to sort. */
  lemma {:induction false} ListingIsUnique(idx: Indices, keys: seq<string>, listing: seq<string>)
    requires Sorted(idx, keys) && Listing(idx, listing)
    ensures keys == listing
    decreases |listing|
  {
    if listing != [] {
      assert keys[0] == listing[0];
      ListingIsUnique(idx - {keys[0]}, keys[1..], listing[1..]);
    }
  }

  /** A listing holds exactly the keys, at decreasing indices. */
  lemma {:induction false} ListingMeaning(idx: Indices, keys: seq<string>)
    requires Listing(idx, keys)
    ensures forall k :: k in keys <==> k in idx
    ensures forall i, j :: 0 <= i < j < |keys| ==> keys[i] in idx && keys[j] in idx && idx[keys[i]] > idx[keys[j]]
    decreases |keys|
  {
    if keys != [] {
      var head, rest := keys[0], keys[1..];
      ListingMeaning(idx - {head}, rest);
      assert forall k :: k in keys <==> k == head || k in rest;
      forall i, j | 0 <= i < j < |keys| ensures keys[i] in idx && keys[j] in idx && idx[keys[i]] > idx[keys[j]] {
        assert keys[j] == rest[j - 1] && rest[j - 1] in rest;
        if i > 0 { assert keys[i] == rest[i - 1]; }
      }
    }
  }

  /** A key with the highest index. */
  method HighestKey(idx: Indices) returns (best: string)
    requires idx != map[]
    ensures best in idx && forall k :: k in idx ==> idx[k] <= idx[best]
  {
    best :| best in idx;
    var rest := idx.Keys - {best};
    while rest != {}
      invariant best in idx && rest <= idx.Keys
      invariant forall k :: k in idx && k !in rest ==> idx[k] <= idx[best]
      decreases rest
    {
      var k :| k in rest;
      if idx[k] > idx[best] { best := k; }
      rest := rest - {k};
    }
  }

  method SortDescending(idx: Indices) returns (keys: seq<string>)
    ensures Sorted(idx, keys)
    decreases idx.Keys
  {
    if idx == map[] { return []; }
    var k := HighestKey(idx);
    var rest := SortDescending(idx - {k});
    return [k] + rest;
  }

  // ----- The log -----

  function Without(keys: seq<string>, k: string): seq<string> {
    if keys == [] then []
    else if keys[0] == k then Without(keys[1..], k)
    else [keys[0]] + Without(keys[1..], k)
  }

  /** The keys of a log of writes, last write per key only, newest first. */
  function Newest(log: seq<string>): seq<string> {
    if log == [] then []
    else [log[|log| - 1]] + Without(Newest(log[..|log| - 1]), log[|log| - 1])
  }

  lemma {:induction false} WithoutListing(idx: Indices, keys: seq<string>, k: string)
    requires Listing(idx, keys)
    ensures Listing(idx - {k}, Without(keys, k))
    decreases |keys|
  {
    if keys != [] {
      var head := keys[0];
      WithoutListing(idx - {head}, keys[1..], k);
      if head == k {
        assert idx - {k} - {k} == idx - {k};
      } else {
        assert idx - {k} - {head} == idx - {head} - {k};
        assert ([head] + Without(keys[1..], k))[1..] == Without(keys[1..], k);
      }
    }
  }

  /** Writing a key with an index above all others puts it in front and drops its older place. */
  lemma WriteExtendsListing(idx: Indices, keys: seq<string>, k: string, n: int)
    requires Listing(idx, keys) && forall x :: x in idx && x != k ==> idx[x] < n
    ensures Listing(idx[k := n], [k] + Without(keys, k))
  {
    WithoutListing(idx, keys, k);
    assert idx[k := n] - {k} == idx - {k};
    assert ([k] + Without(keys, k))[1..] == Without(keys, k);
  }

  /** The last position at which a log writes the key. */
  function LastWrite(log: seq<string>, k: string): (i: nat)
    requires k in log
    ensures i < |log| && log[i] == k
    ensures forall j :: i < j < |log| ==> log[j] != k
  {
    if log[|log| - 1] == k then |log| - 1 else LastWrite(log[..|log| - 1], k)
  }

  /** The position of every key's last write. */
  function Positions(log: seq<string>): Indices {
    if log == [] then map[] else Positions(log[..|log| - 1])[log[|log| - 1] := |log| - 1]
  }

  lemma {:induction false} PositionsAreLastWrites(log: seq<string>)
    ensures forall k :: k in Positions(log) <==> k in log
    ensures forall k :: k in log ==> Positions(log)[k] == LastWrite(log, k)
  {
    if log != [] {
      var before, last := log[..|log| - 1], log[|log| - 1];
      PositionsAreLastWrites(before);
      assert forall k :: k in log <==> k == last || k in before;
    }
  }

  lemma {:induction false} PositionsBelow(log: seq<string>)
    ensures forall k :: k in Positions(log) ==> 0 <= Positions(log)[k] < |log|
  {
    if log != [] { PositionsBelow(log[..|log| - 1]); }
  }

  lemma {:induction false} NewestByPosition(log: seq<string>)
    ensures Listing(Positions(log), Newest(log))
  {
    if log != [] {
      var before := log[..|log| - 1];
      NewestByPosition(before);
      PositionsBelow(before);
      WriteExtendsListing(Positions(before), Newest(before), log[|log| - 1], |log| - 1);
    }
  }

  /** `Newest` lists exactly the keys of the log, each once, by decreasing last write. */
  lemma NewestIsByLastWrite(log: seq<string>)
    ensures forall k :: k in Newest(log) <==> k in log
    ensures forall i, j :: 0 <= i < j < |Newest(log)| ==>
      Newest(log)[i] in log && Newest(log)[j] in log
      && LastWrite(log, Newest(log)[i]) > LastWrite(log, Newest(log)[j])
  {
    PositionsAreLastWrites(log);
    NewestByPosition(log);
    ListingMeaning(Positions(log), Newest(log));
  }
}
