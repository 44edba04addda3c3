/** The feedback store: one summary per run, the most recent one found by index. */
module FeedbackStore {
  import opened Wrappers
  import opened IndexedStore

  datatype Json = Number(n: int) | Other(text: string)

  type Summary = map<string, Json>

  type Store = map<string, Summary>

  const IDX := "_idx"

  /** The integer index of an entry, if it has one. */
  function IndexOf(entry: Summary): Option<int> {
    if IDX in entry && entry[IDX].Number? then Some(entry[IDX].n) else None
  }

  /** The entries that have an integer index. */
  function IndicesOf(store: Store): Indices {
    map r | r in store && IndexOf(store[r]).Some? :: IndexOf(store[r]).value
  }

  /** The stored form of a summary; a summary's own index key would win. */
  function Indexed(idx: int, summary: Summary): Summary {
    map[IDX := Number(idx)] + summary
  }

  function Strip(entry: Summary): Summary {
    entry - {IDX}
  }

  lemma IndexedShape(idx: int, summary: Summary)
    requires IDX !in summary
    ensures IndexOf(Indexed(idx, summary)) == Some(idx) && Strip(Indexed(idx, summary)) == summary
  {
  }

  /** The highest of the indices, or -1 if none is higher. */
  ghost function Highest(idx: Indices): int {
    if idx == map[] then -1
    else
      var r :| r in idx;
      var m := Highest(idx - {r});
      if idx[r] > m then idx[r] else m
  }

  ghost predicate IsHighest(idx: Indices, m: int) {
    m >= -1 && (forall r :: r in idx ==> idx[r] <= m) && (m == -1 || exists r :: r in idx && idx[r] == m)
  }

  lemma {:induction false} HighestIs(idx: Indices)
    ensures IsHighest(idx, Highest(idx))
    decreases |idx|
  {
    if idx != map[] {
      var r :| r in idx && Highest(idx) == (var m := Highest(idx - {r}); if idx[r] > m then idx[r] else m);
      HighestIs(idx - {r});
      assert forall x :: x in idx && x != r ==> x in idx - {r};
    }
  }

  lemma HighestIsUnique(idx: Indices, m: int)
    requires IsHighest(idx, m)
    ensures Highest(idx) == m
  {
    HighestIs(idx);
  }

  datatype Save = Save(runId: string, summary: Summary)

  /** A save gives its entry the index after the highest one among the other runs. */
  ghost function Put(store: Store, s: Save): Store {
    store[s.runId := Indexed(Highest(IndicesOf(store - {s.runId})) + 1, s.summary)]
  }

  /** The store after a log of saves. */
  ghost function After(log: seq<Save>): Store {
    if log == [] then map[] else Put(After(log[..|log| - 1]), log[|log| - 1])
  }

  ghost predicate NoOwnIndex(log: seq<Save>) {
    forall i :: 0 <= i < |log| ==> IDX !in log[i].summary
  }

  function Runs(log: seq<Save>): (runs: seq<string>)
    ensures |runs| == |log|
  {
    if log == [] then [] else Runs(log[..|log| - 1]) + [log[|log| - 1].runId]
  }

  /** Every stored entry has an index, and the indices list the runs newest save first. */
  ghost predicate Ordered(store: Store, runs: seq<string>) {
    && (forall r :: r in store ==> IndexOf(store[r]).Some?)
    && Listing(IndicesOf(store), Newest(runs))
  }

  lemma PutIndices(store: Store, s: Save)
    requires IDX !in s.summary
    ensures
      var n := Highest(IndicesOf(store - {s.runId})) + 1;
      && IndexOf(Put(store, s)[s.runId]) == Some(n)
      && IndicesOf(Put(store, s)) == IndicesOf(store)[s.runId := n]
      && forall r :: r in IndicesOf(store) && r != s.runId ==> IndicesOf(store)[r] < n
  {
    var n := Highest(IndicesOf(store - {s.runId})) + 1;
    HighestIs(IndicesOf(store - {s.runId}));
    IndexedShape(n, s.summary);
    forall r | r in IndicesOf(store) && r != s.runId ensures IndicesOf(store)[r] < n {
      assert r in IndicesOf(store - {s.runId});
    }
  }

  lemma PutKeepsOrder(store: Store, runs: seq<string>, s: Save)
    requires Ordered(store, runs) && IDX !in s.summary
    ensures Ordered(Put(store, s), runs + [s.runId])
  {
    PutIndices(store, s);
    WriteExtendsListing(IndicesOf(store), Newest(runs), s.runId, Highest(IndicesOf(store - {s.runId})) + 1);
    assert (runs + [s.runId])[..|runs|] == runs;
  }

  /** Whatever runs are saved again and again, the indices stay pairwise distinct and order the runs
      by their last save. */
  lemma {:induction false} SavesAreOrdered(log: seq<Save>)
    requires NoOwnIndex(log)
    ensures Ordered(After(log), Runs(log))
  {
    if log != [] {
      var n := |log| - 1;
      SavesAreOrdered(log[..n]);
      PutKeepsOrder(After(log[..n]), Runs(log[..n]), log[n]);
    }
  }

  /** The last saved summary of a run. */
  function LastSaved(log: seq<Save>, runId: string): Option<Summary> {
    if log == [] then None
    else if log[|log| - 1].runId == runId then Some(log[|log| - 1].summary)
    else LastSaved(log[..|log| - 1], runId)
  }

  function LoadFeedback(store: Store, runId: string): Option<Summary> {
    if runId in store then Some(Strip(store[runId])) else None
  }

  lemma StripIndexed(idx: int, summary: Summary)
    ensures Strip(Indexed(idx, summary)) == Strip(summary)
    ensures Strip(summary) == summary <==> IDX !in summary
  {
  }

  /** After any saves each run loads its last saved summary without the index key, so unchanged
      exactly when that summary did not carry the key itself. */
  lemma {:induction false} LoadsLastSaved(log: seq<Save>, runId: string)
    ensures
      var loaded, saved := LoadFeedback(After(log), runId), LastSaved(log, runId);
      && loaded == (if saved.None? then None else Some(Strip(saved.value)))
      && (loaded == saved <==> saved.None? || IDX !in saved.value)
  {
    if log != [] {
      var n := |log| - 1;
      LoadsLastSaved(log[..n], runId);
      StripIndexed(Highest(IndicesOf(After(log[..n]) - {log[n].runId})) + 1, log[n].summary);
    }
  }

  // ----- The latest run -----

  /** Python's < on strings. */
  predicate Precedes(a: string, b: string) {
    b != "" && (a == "" || a[0] < b[0] || (a[0] == b[0] && Precedes(a[1..], b[1..])))
  }

  /** The text is a proper prefix of the other, or smaller at the first place where they differ. */
  ghost predicate DiffersBelow(a: string, b: string, i: nat) {
    && i <= |a| && i < |b| && a[..i] == b[..i]
    && (i == |a| || a[i] < b[i])
  }

  lemma {:induction false} PrecedesMeans(a: string, b: string) returns (i: nat)
    requires Precedes(a, b)
    ensures DiffersBelow(a, b, i)
  {
    if a == "" || a[0] < b[0] {
      i := 0;
    } else {
      var k := PrecedesMeans(a[1..], b[1..]);
      i := k + 1;
      assert a[..i] == [a[0]] + a[1..][..k] && b[..i] == [b[0]] + b[1..][..k];
    }
  }

  lemma {:induction false} PrecedesWhen(a: string, b: string, i: nat)
    requires DiffersBelow(a, b, i)
    ensures Precedes(a, b)
    decreases i
  {
    if i > 0 {
      assert a[0] == a[..i][0] == b[..i][0] == b[0];
      assert a[1..][..i - 1] == a[..i][1..] && b[1..][..i - 1] == b[..i][1..];
      PrecedesWhen(a[1..], b[1..], i - 1);
    }
  }

  lemma {:induction false} PrecedesTotal(a: string, b: string)
    ensures a == b || Precedes(a, b) || Precedes(b, a)
    ensures !(Precedes(a, b) && Precedes(b, a)) && !Precedes(a, a)
  {
    if a != "" {
      PrecedesTotal(a[1..], a[1..]);
      if b != "" {
        PrecedesTotal(a[1..], b[1..]);
        assert a == [a[0]] + a[1..] && b == [b[0]] + b[1..];
      }
    }
  }

  lemma {:induction false} PrecedesTransitive(a: string, b: string, c: string)
    requires Precedes(a, b) && Precedes(b, c)
    ensures Precedes(a, c)
  {
    if a != "" && a[0] == b[0] == c[0] { PrecedesTransitive(a[1..], b[1..], c[1..]); }
  }

  /** One run is later than another: a higher index, or the same one and the greater run id. */
  predicate Later(i: int, r: string, j: int, q: string) {
    i > j || (i == j && Precedes(q, r))
  }

  ghost predicate IsLatest(idx: Indices, r: string) {
    r in idx && forall q :: q in idx && q != r ==> Later(idx[r], r, idx[q], q)
  }

  /** The run that max() picks by index and run id. */
  method LatestRun(idx: Indices) returns (best: string)
    requires idx != map[]
    ensures IsLatest(idx, best)
  {
    best :| best in idx;
    var rest := idx.Keys - {best};
    while rest != {}
      invariant best in idx && best !in rest && rest <= idx.Keys
      invariant forall q :: q in idx && q !in rest && q != best ==> Later(idx[best], best, idx[q], q)
      decreases rest
    {
      var k :| k in rest;
      PrecedesTotal(k, best);
      if Later(idx[k], k, idx[best], best) {
        forall q | q in idx && q !in rest && q != best ensures Later(idx[k], k, idx[q], q) {
          if idx[k] == idx[best] == idx[q] { PrecedesTransitive(q, best, k); }
        }
        best := k;
      }
      rest := rest - {k};
    }
  }

  /** Whether a save makes its run the latest: its summary carries no index key of its own, or one
      that is a number and beats the indices of all other runs. */
  ghost predicate Wins(store: Store, s: Save) {
    || IDX !in s.summary
    || (s.summary[IDX].Number? && forall r :: r in IndicesOf(store) && r != s.runId ==>
          Later(s.summary[IDX].n, s.runId, IndicesOf(store)[r], r))
  }

  lemma PutOwnIndex(store: Store, s: Save)
    requires IDX in s.summary
    ensures IndexOf(Put(store, s)[s.runId]) == IndexOf(s.summary)
    ensures forall r :: r != s.runId ==> (r in IndicesOf(Put(store, s)) <==> r in IndicesOf(store))
    ensures forall r :: r != s.runId && r in IndicesOf(store) ==> IndicesOf(Put(store, s))[r] == IndicesOf(store)[r]
  {
  }

  /** From any store, re-saving an old run included, the latest run is the one just saved exactly
      when that save wins. */
  lemma LatestIffWins(store: Store, s: Save, latest: string)
    requires IsLatest(IndicesOf(Put(store, s)), latest)
    ensures latest == s.runId <==> Wins(store, s)
  {
    PrecedesTotal(latest, s.runId);
    var idx := IndicesOf(Put(store, s));
    if IDX !in s.summary {
      PutIndices(store, s);
      assert s.runId in idx;
    } else {
      PutOwnIndex(store, s);
      assert s.runId in idx <==> s.summary[IDX].Number?;
      if latest == s.runId {
        assert forall r :: r in IndicesOf(store) && r != s.runId ==> r in idx;
      } else if s.runId in idx {
        assert latest in IndicesOf(store) && Later(idx[latest], latest, s.summary[IDX].n, s.runId);
      }
    }
  }

  /** A save that wins leaves an index to be found. */
  lemma WinnerHasIndex(store: Store, s: Save)
    requires Wins(store, s)
    ensures s.runId in IndicesOf(Put(store, s))
  {
    if IDX !in s.summary { PutIndices(store, s); }
  }

  lemma AfterSnoc(log: seq<Save>, s: Save)
    ensures After(log + [s]) == Put(After(log), s)
  {
    assert (log + [s])[..|log|] == log;
  }

  /** The JSON file and the functions over it. */
  class JsonFeedbackStore {
    var store: Store
    ghost var log: seq<Save>

    /** The file is what the saves made so far leave behind. */
    ghost predicate Valid()
      reads this
    {
      store == After(log)
    }

    constructor ()
      ensures Valid() && log == []
    {
      store, log := map[], [];
    }

    /** The highest index among the other runs. */
    method HighestOther(runId: string) returns (currentMax: int)
      ensures currentMax == Highest(IndicesOf(store - {runId}))
    {
      ghost var others := IndicesOf(store - {runId});
      currentMax := -1;
      var rest := store.Keys;
      while rest != {}
        invariant rest <= store.Keys && currentMax >= -1
        invariant forall r :: r in others && r !in rest ==> others[r] <= currentMax
        invariant currentMax == -1 || exists r :: r in others && others[r] == currentMax
        decreases rest
      {
        var r :| r in rest;
        if r != runId {
          var idx := IndexOf(store[r]);
          if idx.Some? && idx.value > currentMax {
            assert r in others && others[r] == idx.value;
            currentMax := idx.value;
          }
        }
        rest := rest - {r};
      }
      HighestIsUnique(others, currentMax);
    }

    method SaveFeedback(runId: string, summary: Summary)
      requires Valid()
      modifies this
      ensures Valid() && log == old(log) + [Save(runId, summary)]
    {
      var currentMax := HighestOther(runId);
      AfterSnoc(log, Save(runId, summary));
      store := store[runId := Indexed(currentMax + 1, summary)];
      log := log + [Save(runId, summary)];
    }

    method LoadRun(runId: string) returns (summary: Option<Summary>)
      requires Valid()
      ensures
        var saved := LastSaved(log, runId);
        summary == if saved.None? then None else Some(Strip(saved.value))
    {
      LoadsLastSaved(log, runId);
      if runId !in store { return None; }
      return Some(Strip(store[runId]));
    }

    /** The summary saved last, exactly when that save wins; otherwise another run's, or none. */
    method LoadLatest() returns (latest: Option<Summary>)
      requires Valid()
      ensures log == [] ==> latest == None
      ensures log != [] ==>
        var before, last := After(log[..|log| - 1]), log[|log| - 1];
        if Wins(before, last) then latest == Some(Strip(last.summary))
        else latest == None || exists r :: r != last.runId && IsLatest(IndicesOf(store), r) && latest == Some(Strip(store[r]))
    {
      var valid := IndicesOf(store);
      if valid == map[] {
        if log != [] && Wins(After(log[..|log| - 1]), log[|log| - 1]) {
          WinnerHasIndex(After(log[..|log| - 1]), log[|log| - 1]);
        }
        return None;
      }
      var runId := LatestRun(valid);
      assert log != [];
      LatestIffWins(After(log[..|log| - 1]), log[|log| - 1], runId);
      LoadsLastSaved(log, runId);
      return Some(Strip(store[runId]));
    }
  }

  /** A summary that carries its own index defeats the order: saved last with a negative one, it is
      not the latest. */
  lemma OwnIndexDefeatsOrder(first: string, second: string, low: int)
    requires first != second && low < 0
    ensures
      var idx := IndicesOf(After([Save(first, map[]), Save(second, map[IDX := Number(low)])]));
      first in idx && second in idx && idx[second] < idx[first]
  {
    var a, b := Save(first, map[]), Save(second, map[IDX := Number(low)]);
    assert [a, b][..1] == [a] && [a][..0] == [];
    assert IndicesOf(map[]) == map[];
    HighestIsUnique(map[], -1);
    assert After([]) - {first} == map[];
    IndexedShape(0, map[]);
    assert After([a]) == map[first := Indexed(0, map[])];
    assert After([a, b]) == Put(After([a]), b);
    assert After([a, b])[first] == Indexed(0, map[]);
  }
}
