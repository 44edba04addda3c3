/** The creator store: entries keyed by run and creator, ordered by a global index. */
module CreatorStore {
  import opened Wrappers
  import opened IndexedStore

  /** A creator's media fields, as a JSON object. */
  type Media = string

  /** normalize_creator_fields. */
  type Normalizer = Media -> Media

  datatype Creator = Creator(id: string, media: Media)

  /** The arguments of one record_creators call. */
  datatype Batch = Batch(
    runId: string,
    creators: seq<Creator>,
    approvedIds: seq<string>,
    creatorPrompt: Option<string>,
    videoPrompt: Option<string>,
    offer: Option<string>)

  datatype Record = Record(
    runId: string,
    creatorId: string,
    media: Media,
    creatorPrompt: Option<string>,
    videoPrompt: Option<string>,
    offer: Option<string>,
    approved: bool)

  datatype Entry = Entry(idx: int, record: Record)

  type Store = map<string, Entry>

  function KeyOf(runId: string, creatorId: string): string {
    runId + ":" + creatorId
  }

  function RecordOf(normalize: Normalizer, b: Batch, c: Creator): Record {
    Record(b.runId, c.id, normalize(c.media), b.creatorPrompt, b.videoPrompt, b.offer, c.id in b.approvedIds)
  }

  // ----- The log of writes the store stands for -----

  datatype Write = Write(key: string, record: Record)

  function Writes(normalize: Normalizer, b: Batch, n: nat): (writes: seq<Write>)
    requires n <= |b.creators|
    ensures |writes| == n
  {
    if n == 0 then []
    else
      Writes(normalize, b, n - 1)
      + [Write(KeyOf(b.runId, b.creators[n - 1].id), RecordOf(normalize, b, b.creators[n - 1]))]
  }

  /** What a recorded batch writes: for each creator, in order, under its run and id, its normalized
      media, the batch's prompts and offer, and whether its id was approved. */
  lemma {:induction false} WritesHold(normalize: Normalizer, b: Batch, n: nat, i: nat)
    requires i < n <= |b.creators|
    ensures
      var w, c := Writes(normalize, b, n)[i], b.creators[i];
      && w.key == b.runId + ":" + c.id
      && w.record.runId == b.runId && w.record.creatorId == c.id && w.record.media == normalize(c.media)
      && w.record.creatorPrompt == b.creatorPrompt && w.record.videoPrompt == b.videoPrompt && w.record.offer == b.offer
      && (w.record.approved <==> exists k :: 0 <= k < |b.approvedIds| && b.approvedIds[k] == c.id)
  {
    if i < n - 1 { WritesHold(normalize, b, n - 1, i); }
  }

  function Keys(log: seq<Write>): (keys: seq<string>)
    ensures |keys| == |log|
  {
    if log == [] then [] else Keys(log[..|log| - 1]) + [log[|log| - 1].key]
  }

  /** The store after a log of writes, each stored under its position. */
  function Stored(log: seq<Write>): Store {
    if log == [] then map[]
    else Stored(log[..|log| - 1])[log[|log| - 1].key := Entry(|log| - 1, log[|log| - 1].record)]
  }

  lemma StoredNext(log: seq<Write>, w: Write)
    ensures Stored(log + [w]) == Stored(log)[w.key := Entry(|log|, w.record)]
  {
    assert (log + [w])[..|log|] == log;
  }

  function IndicesOf(store: Store): Indices {
    map k | k in store :: store[k].idx
  }

  /** Loading normalizes the media fields again. */
  function Present(normalize: Normalizer, r: Record): Record {
    r.(media := normalize(r.media))
  }

  lemma {:induction false} StoredIndices(log: seq<Write>)
    ensures IndicesOf(Stored(log)) == Positions(Keys(log))
  {
    if log != [] {
      var before := log[..|log| - 1];
      StoredIndices(before);
      assert Keys(log)[..|log| - 1] == Keys(before);
    }
  }

  /** The store holds, for exactly the keys written, the record of the last write and its position. */
  lemma {:induction false} StoredIsLastWrite(log: seq<Write>, k: string)
    ensures k in Stored(log) <==> k in Keys(log)
    ensures k in Keys(log) ==>
      var p := LastWrite(Keys(log), k);
      log[p].key == k && Stored(log)[k] == Entry(p, log[p].record)
  {
    if log != [] {
      var before := log[..|log| - 1];
      StoredIsLastWrite(before, k);
      assert Keys(log)[..|log| - 1] == Keys(before);
      assert k in Keys(log) <==> k == log[|log| - 1].key || k in Keys(before);
    }
  }

  function WithoutKey(writes: seq<Write>, k: string): seq<Write> {
    if writes == [] then []
    else if writes[0].key == k then WithoutKey(writes[1..], k)
    else [writes[0]] + WithoutKey(writes[1..], k)
  }

  /** The log with only the last write per key kept, newest first. */
  function NewestWrites(log: seq<Write>): seq<Write> {
    if log == [] then []
    else [log[|log| - 1]] + WithoutKey(NewestWrites(log[..|log| - 1]), log[|log| - 1].key)
  }

  /** The writes are what the store holds for the keys, in the same order. */
  ghost predicate Shows(store: Store, keys: seq<string>, writes: seq<Write>) {
    |writes| == |keys|
    && forall i :: 0 <= i < |keys| ==>
         writes[i].key == keys[i] && keys[i] in store && store[keys[i]].record == writes[i].record
  }

  lemma {:induction false} WithoutShows(store: Store, store': Store, keys: seq<string>, writes: seq<Write>, k: string)
    requires Shows(store, keys, writes)
    requires forall x :: x in store && x != k ==> x in store' && store'[x] == store[x]
    ensures Shows(store', Without(keys, k), WithoutKey(writes, k))
    decreases |keys|
  {
    if keys != [] {
      assert writes[0].key == keys[0];
      WithoutShows(store, store', keys[1..], writes[1..], k);
    }
  }

  /** The newest writes of the log are what the store holds under the newest keys. */
  lemma {:induction false} NewestShown(log: seq<Write>)
    ensures Shows(Stored(log), Newest(Keys(log)), NewestWrites(log))
  {
    if log != [] {
      var before := log[..|log| - 1];
      NewestShown(before);
      assert Keys(log)[..|log| - 1] == Keys(before);
      WithoutShows(Stored(before), Stored(log), Newest(Keys(before)), NewestWrites(before), log[|log| - 1].key);
    }
  }

  /** What load_creators presents for a sequence of writes. */
  function Presented(normalize: Normalizer, writes: seq<Write>): (records: seq<Record>)
    ensures |records| == |writes|
  {
    if writes == [] then []
    else Presented(normalize, writes[..|writes| - 1]) + [Present(normalize, writes[|writes| - 1].record)]
  }

  /** Loading presents each write with its media normalized once more and nothing else changed. */
  lemma {:induction false} PresentedAt(normalize: Normalizer, writes: seq<Write>, i: nat)
    requires i < |writes|
    ensures Presented(normalize, writes)[i] == writes[i].record.(media := normalize(writes[i].record.media))
  {
    if i < |writes| - 1 { PresentedAt(normalize, writes[..|writes| - 1], i); }
  }

  lemma {:induction false} KeysAt(log: seq<Write>, i: nat)
    requires i < |log|
    ensures Keys(log)[i] == log[i].key
  {
    if i < |log| - 1 { KeysAt(log[..|log| - 1], i); }
  }

  /** The last write has the highest index, so the next one gets the next position. */
  lemma HighestIndex(log: seq<Write>)
    ensures forall k :: k in Stored(log) ==> 0 <= Stored(log)[k].idx < |log|
    ensures log != [] ==>
      log[|log| - 1].key in Stored(log) && Stored(log)[log[|log| - 1].key].idx == |log| - 1
  {
    StoredIndices(log);
    PositionsBelow(Keys(log));
    forall k | k in Stored(log) ensures 0 <= Stored(log)[k].idx < |log| {
      assert k in IndicesOf(Stored(log));
    }
  }

  /** Sorting the stored entries by index, highest first, lists the last write of every key, newest
      write first; no two entries share an index. */
  lemma LoadIsNewestFirst(log: seq<Write>, keys: seq<string>)
    requires Sorted(IndicesOf(Stored(log)), keys)
    ensures keys == Newest(Keys(log))
    ensures Listing(IndicesOf(Stored(log)), keys)
  {
    StoredIndices(log);
    NewestByPosition(Keys(log));
    ListingIsUnique(IndicesOf(Stored(log)), keys, Newest(Keys(log)));
  }

  ghost predicate Matches(r: Record, creatorId: string, runId: Option<string>) {
    r.creatorId == creatorId && (runId.Some? ==> r.runId == runId.value)
  }

  ghost predicate IsFirstMatch(loaded: seq<Record>, creatorId: string, runId: Option<string>, i: int) {
    && 0 <= i < |loaded| && Matches(loaded[i], creatorId, runId)
    && forall j :: 0 <= j < i ==> !Matches(loaded[j], creatorId, runId)
  }

  /** The JSON file and the functions over it. */
  class JsonCreatorStore {
    const normalize: Normalizer
    var store: Store
    ghost var log: seq<Write>

    /** The file stands for the log of all writes made so far. */
    ghost predicate Valid()
      reads this
    {
      store == Stored(log)
    }

    constructor (normalize: Normalizer)
      ensures Valid() && log == [] && this.normalize == normalize
    {
      this.normalize := normalize;
      store, log := map[], [];
    }

    method MaxIndex() returns (m: int)
      requires Valid()
      ensures m == |log| - 1
    {
      m := -1;
      HighestIndex(log);
      if store != map[] {
        var k := HighestKey(IndicesOf(store));
        m := store[k].idx;
        assert log != [];
        assert log[|log| - 1].key in IndicesOf(store);
      } else {
        assert log == [];
      }
    }

    /** Store one entry under the next index. */
    method Put(key: string, idx: int, record: Record)
      requires Valid() && idx == |log|
      modifies this
      ensures Valid() && log == old(log) + [Write(key, record)]
    {
      StoredNext(log, Write(key, record));
      store := store[key := Entry(idx, record)];
      log := log + [Write(key, record)];
    }

    method RecordCreators(b: Batch)
      requires Valid()
      modifies this
      ensures Valid() && log == old(log) + Writes(normalize, b, |b.creators|)
    {
      var currentMax := MaxIndex();
      for i := 0 to |b.creators|
        invariant Valid() && log == old(log) + Writes(normalize, b, i)
        invariant currentMax == |log| - 1
      {
        var creator := b.creators[i];
        currentMax := currentMax + 1;
        Put(KeyOf(b.runId, creator.id), currentMax, RecordOf(normalize, b, creator));
      }
    }

    /** The log with only the last write per key kept, newest first. */
    method LoadCreators() returns (records: seq<Record>)
      requires Valid()
      ensures records == Presented(normalize, NewestWrites(log))
    {
      var keys := SortDescending(IndicesOf(store));
      LoadIsNewestFirst(log, keys);
      NewestShown(log);
      records := PresentKeys(keys, NewestWrites(log));
    }

    method PresentKeys(keys: seq<string>, ghost writes: seq<Write>) returns (records: seq<Record>)
      requires Shows(store, keys, writes)
      ensures records == Presented(normalize, writes)
    {
      records := [];
      for i := 0 to |keys|
        invariant records == Presented(normalize, writes[..i])
      {
        assert writes[..i + 1][..i] == writes[..i];
        records := records + [Present(normalize, store[keys[i]].record)];
      }
      assert writes[..|keys|] == writes;
    }

    /** The most recent entry of the creator, within a run if one is given. */
    method FindCreator(creatorId: string, runId: Option<string>) returns (found: Option<Record>)
      requires Valid()
      ensures
        var loaded := Presented(normalize, NewestWrites(log));
        match found
        case None => forall i :: 0 <= i < |loaded| ==> !Matches(loaded[i], creatorId, runId)
        case Some(r) => exists i :: IsFirstMatch(loaded, creatorId, runId, i) && loaded[i] == r
    {
      var loaded := LoadCreators();
      for i := 0 to |loaded|
        invariant forall j :: 0 <= j < i ==> !Matches(loaded[j], creatorId, runId)
      {
        if loaded[i].creatorId == creatorId && (runId.None? || loaded[i].runId == runId.value) {
          assert IsFirstMatch(loaded, creatorId, runId, i);
          return Some(loaded[i]);
        }
      }
      return None;
    }
  }
}
