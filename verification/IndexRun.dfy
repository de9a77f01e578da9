/** Whole indexing runs, from a slice and from an iterator, and a run repeated. */
module IndexRun {
  import opened Common
  import opened IndexSpec
  import opened RecordManager
  import opened Indexing

  // ----- what holds between batches -----

  ghost predicate Progress(o: Options, start: nat, r0: Records, s0: Store, processed: seq<Document>, r: Records, s: Store) {
    && (forall d :: d in processed ==> o.encode(d).Some?)
    && (EncoderLaw(o.encode) && Consistent(o, r0, s0, start) ==>
          Synced(o, r0, s0, r, s, processed, ScopeAfter(o, processed), start))
    && (EncoderLaw(o.encode) && Backed(r0, s0) ==> Backed(r, s))
  }

  lemma ProgressStarts(o: Options, start: nat, r0: Records, s0: Store)
    ensures Progress(o, start, r0, s0, [], r0, s0)
  {
    assert Keys(o, []) == {} && Groups(o, []) == {};
  }

  lemma ProgressStep(o: Options, start: nat, r0: Records, s0: Store, processed: seq<Document>, batch: seq<Document>,
                     r: Records, s: Store, r': Records, s': Store)
    requires Progress(o, start, r0, s0, processed, r, s)
    requires BatchOutcome(o, start, r0, s0, processed, batch, r, s, r', s', false)
    ensures Progress(o, start, r0, s0, processed + batch, r', s')
  {
  }

  /** A key has a record when the documents after the processed ones are looked at. */
  ghost predicate Present(o: Options, r0: Records, processed: seq<Document>, k: string) {
    k in Keys(o, processed) || (k in r0 && !ScopeAfter(o, processed).Covers(r0[k].group))
  }

  lemma RecordedIffPresent(o: Options, start: nat, r0: Records, s0: Store, processed: seq<Document>, r: Records, s: Store)
    requires EncoderLaw(o.encode) && Consistent(o, r0, s0, start) && Progress(o, start, r0, s0, processed, r, s)
    ensures forall k :: k in r <==> Present(o, r0, processed, k)
  {
    forall k
      ensures k in r <==> Present(o, r0, processed, k)
    {
      if k in Keys(o, processed) {
        var d :| d in processed && o.Key(d) == k;
      } else if k in r0 && Present(o, r0, processed, k) {
        assert Same(r0, r, k);
      }
    }
  }

  function End(docs: seq<Document>, from: nat, size: nat): nat {
    if from + size <= |docs| then from + size else |docs|
  }

  /** Batch by batch from a boundary on, every document's key is present when its batch is reached. */
  ghost predicate KnownFrom(o: Options, r0: Records, docs: seq<Document>, from: nat)
    decreases |docs| - from
  {
    from >= |docs|
    || (var to := End(docs, from, o.BatchSize());
        && (forall d :: d in docs[from..to] ==> Present(o, r0, docs[..from], o.Key(d)))
        && KnownFrom(o, r0, docs, to))
  }

  /** What a run does to the stores. */
  ghost predicate RunOutcome(o: Options, start: nat, r0: Records, s0: Store, docs: seq<Document>, r: Records, s: Store, failed: bool) {
    && (!failed && EncoderLaw(o.encode) && Consistent(o, r0, s0, start) ==>
          Synced(o, r0, s0, r, s, docs, FinalScope(o, docs), start))
    && (EncoderLaw(o.encode) && Backed(r0, s0) ==> FreshBacked(r, s, start) && (!failed ==> Backed(r, s)))
  }

  /** The distinct keys of a batch that have no record when it is reached. */
  ghost function Unrecorded(o: Options, r0: Records, docs: seq<Document>, from: nat, to: nat): set<string>
    requires from <= to <= |docs|
  {
    set k | k in Keys(o, docs[from..to]) && !Present(o, r0, docs[..from], k)
  }

  /** Batch by batch from a boundary on, how many keys have no record when their batch is reached. */
  ghost function AddedFrom(o: Options, r0: Records, docs: seq<Document>, from: nat): nat
    decreases |docs| - from
  {
    if from >= |docs| then 0
    else
      var to := End(docs, from, o.BatchSize());
      |Unrecorded(o, r0, docs, from, to)| + AddedFrom(o, r0, docs, to)
  }

  /** Batch by batch from a boundary on, how many documents repeat a key of their own batch. */
  ghost function RepeatsFrom(o: Options, docs: seq<Document>, from: nat): int
    decreases |docs| - from
  {
    if from >= |docs| then 0
    else
      var to := End(docs, from, o.BatchSize());
      (to - from) - |Keys(o, docs[from..to])| + RepeatsFrom(o, docs, to)
  }

  /** What a run reports. */
  ghost predicate RunCounts(o: Options, start: nat, r0: Records, s0: Store, docs: seq<Document>, r: Records, result: IndexingResult) {
    && result.added + result.updated + result.skipped == |docs|
    && |r| == |r0| + result.added - result.deleted
    && (if o.forceUpdate then result.skipped == RepeatsFrom(o, docs, 0) else result.updated == 0)
    && (EncoderLaw(o.encode) && Consistent(o, r0, s0, start) ==> result.added == AddedFrom(o, r0, docs, 0))
  }

  /** The counters after the processed documents; before the next batch they are still short of its answer. */
  ghost predicate CountsSoFar(o: Options, start: nat, r0: Records, s0: Store, docs: seq<Document>, from: nat,
                              r: Records, result: IndexingResult) {
    && result.added + result.updated + result.skipped == from <= |docs|
    && |r| == |r0| + result.added - result.deleted
    && (if o.forceUpdate then result.skipped + RepeatsFrom(o, docs, from) == RepeatsFrom(o, docs, 0) else result.updated == 0)
    && (EncoderLaw(o.encode) && Consistent(o, r0, s0, start) ==>
          result.added + AddedFrom(o, r0, docs, from) == AddedFrom(o, r0, docs, 0))
  }

  lemma SumCounted(o: Options, keys: set<string>, r: Records, before: IndexingResult, after: IndexingResult)
    requires KeysCounted(o, keys, r, before, after)
    ensures after.added + after.updated + after.skipped == before.added + before.updated + before.skipped + |keys|
  {
    SplitSize(keys, r.Keys);
  }

  lemma CountsStep(o: Options, start: nat, r0: Records, s0: Store, docs: seq<Document>, from: nat, to: nat,
                   r: Records, s: Store, r': Records, before: IndexingResult, after: IndexingResult)
    requires from < |docs| && to == End(docs, from, o.BatchSize())
    requires Progress(o, start, r0, s0, docs[..from], r, s)
    requires CountsSoFar(o, start, r0, s0, docs, from, r, before)
    requires BatchCounts(o, docs[from..to], to - from, r, r', before, after)
    ensures CountsSoFar(o, start, r0, s0, docs, to, r', after)
  {
    hide Progress, Synced, Present, EncoderLaw, Consistent, Keys;
    var keys := Keys(o, docs[from..to]);
    SumCounted(o, keys, r, before.(skipped := before.skipped + (to - from) - |keys|), after);
    if EncoderLaw(o.encode) && Consistent(o, r0, s0, start) {
      UnrecordedAre(o, start, r0, s0, docs, from, to, r, s);
    }
    hide Unrecorded;
  }

  lemma UnrecordedAre(o: Options, start: nat, r0: Records, s0: Store, docs: seq<Document>, from: nat, to: nat, r: Records, s: Store)
    requires EncoderLaw(o.encode) && Consistent(o, r0, s0, start) && from <= to <= |docs|
    requires Progress(o, start, r0, s0, docs[..from], r, s)
    ensures Unrecorded(o, r0, docs, from, to) == Keys(o, docs[from..to]) - r.Keys
  {
    RecordedIffPresent(o, start, r0, s0, docs[..from], r, s);
  }

  lemma RunEnds(o: Options, start: nat, r0: Records, s0: Store, docs: seq<Document>, r: Records, s: Store,
                r': Records, s': Store, failed: bool)
    requires Progress(o, start, r0, s0, docs, r, s)
    requires EncoderLaw(o.encode) ==> FinishOutcome(o, start, r0, s0, docs, r, s, r', s', failed)
    ensures RunOutcome(o, start, r0, s0, docs, r', s', failed)
  {
  }

  lemma RunAborts(o: Options, start: nat, r0: Records, s0: Store, processed: seq<Document>, batch: seq<Document>, docs: seq<Document>,
                  r: Records, s: Store, r': Records, s': Store)
    requires Progress(o, start, r0, s0, processed, r, s)
    requires BatchOutcome(o, start, r0, s0, processed, batch, r, s, r', s', true)
    ensures RunOutcome(o, start, r0, s0, docs, r', s', true)
  {
  }

  /** The options a run accepts. */
  predicate ValidOptions(o: Options) {
    && !o.cleanup.Unknown?
    && (o.cleanup == CleanupIncremental || o.cleanup == CleanupScopedFull ==> o.sourceIDKey != "")
  }

  /** The state of a run between batches. */
  ghost predicate Between(rm: InMemoryRecordManager, dest: InMemoryDocumentIndex, state: IndexState, o: Options,
                          r0: Records, s0: Store, docs: seq<Document>, from: nat)
    reads rm, dest, state
  {
    && from <= |docs| && rm.Valid() && 0 < state.indexStart <= rm.clock
    && Progress(o, state.indexStart, r0, s0, docs[..from], rm.View(), dest.store)
    && CountsSoFar(o, state.indexStart, r0, s0, docs, from, rm.View(), state.result)
    && (EncoderLaw(o.encode) && o.sourceIDKey != "" ==> state.touchedGroups == Groups(o, docs[..from]))
  }

  /** Index the next batch of a run. */
  method Advance(batch: seq<Document>, rm: InMemoryRecordManager, dest: InMemoryDocumentIndex, o: Options, state: IndexState,
                 ghost r0: Records, ghost s0: Store, ghost docs: seq<Document>, ghost from: nat, ghost to: nat)
    returns (failed: bool)
    requires ValidOptions(o) && Between(rm, dest, state, o, r0, s0, docs, from)
    requires from < |docs| && to == End(docs, from, o.BatchSize()) && batch == docs[from..to]
    modifies rm, dest, state
    ensures rm.Valid() && rm.clock >= old(rm.clock)
    ensures failed ==> RunOutcome(o, state.indexStart, r0, s0, docs, rm.View(), dest.store, true)
    ensures !failed ==> Between(rm, dest, state, o, r0, s0, docs, to)
  {
    hide Progress, RunOutcome, BatchOutcome, BatchCounts, EncoderLaw, AddedFrom, RepeatsFrom, Consistent, Groups,
      InMemoryRecordManager.View, InMemoryRecordManager.Valid;
    ghost var r, s, before := rm.View(), dest.store, state.result;
    assert docs[..to] == docs[..from] + batch;
    failed := IndexBatch(batch, rm, dest, o, o.CleanupBatchSize(), state, r0, s0, docs[..from]);
    if failed {
      RunAborts(o, state.indexStart, r0, s0, docs[..from], batch, docs, r, s, rm.View(), dest.store);
      return;
    }
    ProgressStep(o, state.indexStart, r0, s0, docs[..from], batch, r, s, rm.View(), dest.store);
    CountsStep(o, state.indexStart, r0, s0, docs, from, to, r, s, rm.View(), before, state.result);
    KeysAppend(o, docs[..from], batch);
  }

  method IndexDocuments(docs: seq<Document>, rm: InMemoryRecordManager, dest: InMemoryDocumentIndex, o: Options)
    returns (failed: bool, result: IndexingResult, ghost start: nat)
    requires rm.Valid()
    modifies rm, dest
    ensures rm.Valid() && (ValidOptions(o) ==> old(rm.clock) <= start <= rm.clock)
    ensures !ValidOptions(o) ==> failed && rm.View() == old(rm.View()) && dest.store == old(dest.store)
    ensures RunOutcome(o, start, old(rm.View()), old(dest.store), docs, rm.View(), dest.store, failed)
    ensures !failed ==> RunCounts(o, start, old(rm.View()), old(dest.store), docs, rm.View(), result)
  {
    hide Progress, RunOutcome, BatchOutcome, BatchCounts, FinishOutcome, EncoderLaw, AddedFrom, RepeatsFrom, Consistent, Groups,
      InMemoryRecordManager.View, InMemoryRecordManager.Valid;
    ghost var r0, s0 := rm.View(), dest.store;
    if !ValidOptions(o) {
      UnchangedOutcome(o, 0, r0, s0, docs);
      return true, IndexingResult(0, 0, 0, 0), 0;
    }
    failed := Unavailable();
    if failed {
      UnchangedOutcome(o, rm.clock, r0, s0, docs);
      return failed, IndexingResult(0, 0, 0, 0), rm.clock;
    }
    var indexStart := rm.GetTime();
    start := indexStart;
    var state := new IndexState(indexStart);
    ProgressStarts(o, start, r0, s0);
    TouchedStarts(o);
    var from := 0;
    while from < |docs|
      invariant fresh(state) && start == state.indexStart
      invariant Between(rm, dest, state, o, r0, s0, docs, from)
    {
      var to := End(docs, from, o.BatchSize());
      failed := Advance(docs[from..to], rm, dest, o, state, r0, s0, docs, from, to);
      if failed {
        return failed, state.result, start;
      }
      from := to;
    }
    assert docs[..from] == docs;
    failed, result := Finish(rm, dest, o, state, r0, s0, docs);
  }

  lemma TouchedStarts(o: Options)
    ensures Groups(o, []) == {}
  {
  }

  lemma UnchangedOutcome(o: Options, start: nat, r0: Records, s0: Store, docs: seq<Document>)
    ensures RunOutcome(o, start, r0, s0, docs, r0, s0, true)
  {
  }

  /** The cleanup after the last batch and the report. */
  method Finish(rm: InMemoryRecordManager, dest: InMemoryDocumentIndex, o: Options, state: IndexState,
                ghost r0: Records, ghost s0: Store, ghost docs: seq<Document>) returns (failed: bool, result: IndexingResult)
    requires ValidOptions(o) && Between(rm, dest, state, o, r0, s0, docs, |docs|)
    modifies rm, dest, state
    ensures rm.Valid() && rm.clock >= old(rm.clock)
    ensures RunOutcome(o, state.indexStart, r0, s0, docs, rm.View(), dest.store, failed)
    ensures !failed ==> RunCounts(o, state.indexStart, r0, s0, docs, rm.View(), result)
  {
    hide Progress, RunOutcome, FinishOutcome, EncoderLaw, Consistent, InMemoryRecordManager.View, InMemoryRecordManager.Valid;
    ghost var r, s := rm.View(), dest.store;
    assert docs[..|docs|] == docs;
    failed := FinishCleanup(rm, dest, o, o.CleanupBatchSize(), state, r0, s0, docs);
    RunEnds(o, state.indexStart, r0, s0, docs, r, s, rm.View(), dest.store, failed);
    result := state.result;
  }

  /**
   The same run fed by an iterator, which may fail at any document; the buffer is flushed when it is
   full and once more at the end.
   */
  method IndexDocumentIterator(items: seq<Document>, rm: InMemoryRecordManager, dest: InMemoryDocumentIndex, o: Options)
    returns (failed: bool, result: IndexingResult, ghost start: nat)
    requires rm.Valid()
    modifies rm, dest
    ensures rm.Valid() && (ValidOptions(o) ==> old(rm.clock) <= start <= rm.clock)
    ensures !ValidOptions(o) ==> failed && rm.View() == old(rm.View()) && dest.store == old(dest.store)
    ensures RunOutcome(o, start, old(rm.View()), old(dest.store), items, rm.View(), dest.store, failed)
    ensures !failed ==> RunCounts(o, start, old(rm.View()), old(dest.store), items, rm.View(), result)
  {
    hide Progress, RunOutcome, BatchOutcome, BatchCounts, FinishOutcome, EncoderLaw, AddedFrom, RepeatsFrom, Consistent, Groups,
      InMemoryRecordManager.View, InMemoryRecordManager.Valid;
    ghost var r0, s0 := rm.View(), dest.store;
    if !ValidOptions(o) {
      UnchangedOutcome(o, 0, r0, s0, items);
      return true, IndexingResult(0, 0, 0, 0), 0;
    }
    failed := Unavailable();
    if failed {
      UnchangedOutcome(o, rm.clock, r0, s0, items);
      return failed, IndexingResult(0, 0, 0, 0), rm.clock;
    }
    var indexStart := rm.GetTime();
    start := indexStart;
    var state := new IndexState(indexStart);
    ProgressStarts(o, start, r0, s0);
    TouchedStarts(o);
    var batch: seq<Document> := [];
    ghost var flushed := 0;
    var next := 0;
    while true
      invariant flushed + |batch| == next <= |items| && batch == items[flushed..next]
      invariant |batch| < o.BatchSize()
      invariant fresh(state) && start == state.indexStart
      invariant Between(rm, dest, state, o, r0, s0, items, flushed)
      decreases |items| - next
    {
      failed := Cancelled();
      var broken: bool := *;
      if failed || broken {
        ProgressAborts(o, start, r0, s0, items[..flushed], items, rm.View(), dest.store);
        return true, state.result, start;
      }
      if next == |items| {
        break;
      }
      assert items[flushed..next + 1] == items[flushed..next] + [items[next]];
      batch := batch + [items[next]];
      next := next + 1;
      if |batch| < o.BatchSize() {
        continue;
      }
      failed := Advance(batch, rm, dest, o, state, r0, s0, items, flushed, next);
      if failed {
        return failed, state.result, start;
      }
      flushed := next;
      batch := [];
    }
    if |batch| > 0 {
      failed := Advance(batch, rm, dest, o, state, r0, s0, items, flushed, next);
      if failed {
        return failed, state.result, start;
      }
    }
    assert items[..next] == items;
    failed, result := Finish(rm, dest, o, state, r0, s0, items);
  }

  lemma ProgressAborts(o: Options, start: nat, r0: Records, s0: Store, processed: seq<Document>, docs: seq<Document>, r: Records, s: Store)
    requires Progress(o, start, r0, s0, processed, r, s)
    ensures RunOutcome(o, start, r0, s0, docs, r, s, true)
  {
  }

  // ----- comparing runs -----

  /**
   From the same stores and input, two successful runs end with the same destination and, timestamps
   aside, the same records, whatever the batch sizes; incremental and scoped_full count as one mode.
   */
  lemma BatchSizeDoesNotMatter(o1: Options, o2: Options, r0: Records, s0: Store, docs: seq<Document>,
                               start1: nat, r1: Records, s1: Store, start2: nat, r2: Records, s2: Store)
    requires EncoderLaw(o1.encode) && o1.encode == o2.encode && o1.sourceIDKey == o2.sourceIDKey
    requires o1.cleanup == o2.cleanup || (o1.cleanup == CleanupIncremental && o2.cleanup == CleanupScopedFull)
    requires Consistent(o1, r0, s0, start1) && Consistent(o2, r0, s0, start2)
    requires RunOutcome(o1, start1, r0, s0, docs, r1, s1, false)
    requires RunOutcome(o2, start2, r0, s0, docs, r2, s2, false)
    ensures s1 == s2
    ensures r1.Keys == r2.Keys && forall k :: k in r1 ==> r1[k].group == r2[k].group
  {
    IncrementalCleansLikeScopedFull(o1, o2, docs);
    EndStateIsDetermined(o1, o2, r0, s0, docs, r1, s1, start1, r2, s2, start2);
  }

  /** A successful run keeps the two stores' keys equal, and these are the keys that remain. */
  lemma RunKeepsAgreement(o: Options, start: nat, r0: Records, s0: Store, docs: seq<Document>, r: Records, s: Store)
    requires EncoderLaw(o.encode) && Consistent(o, r0, s0, start) && r0.Keys == s0.Keys
    requires RunOutcome(o, start, r0, s0, docs, r, s, false)
    ensures r.Keys == s.Keys
    ensures r.Keys == Keys(o, docs) + (set k | k in r0 && k !in Keys(o, docs) && !FinalScope(o, docs).Covers(r0[k].group))
    ensures o.cleanup == CleanupFull ==> r.Keys == Keys(o, docs)
    ensures o.cleanup == CleanupNone ==> r.Keys == Keys(o, docs) + r0.Keys
  {
    StoresAgree(o, r0, s0, r, s, docs, start);
  }

  // ----- the same input again -----

  /**
   Batch by batch, no document's group was cleaned by an earlier batch unless the document was in
   that part of the input itself.  Only incremental cleanup can violate it.
   */
  ghost predicate SettledFrom(o: Options, docs: seq<Document>, from: nat)
    decreases |docs| - from
  {
    from >= |docs|
    || (var to := End(docs, from, o.BatchSize());
        && (forall d :: d in docs[from..to] ==>
              o.cleanup != CleanupIncremental || o.Key(d) in Keys(o, docs[..from]) || o.Group(d) !in Groups(o, docs[..from]))
        && SettledFrom(o, docs, to))
  }

  lemma StillConsistent(o: Options, start1: nat, r0: Records, s0: Store, docs: seq<Document>, r1: Records, s1: Store, start2: nat)
    requires EncoderLaw(o.encode) && Consistent(o, r0, s0, start1)
    requires forall d :: d in docs ==> o.encode(d).Some?
    requires Synced(o, r0, s0, r1, s1, docs, FinalScope(o, docs), start1)
    requires forall k :: k in r1 ==> r1[k].stamp < start2
    ensures Consistent(o, r1, s1, start2)
  {
    forall k | k in r1
      ensures k in s1 && s1[k].id == k && o.encode(s1[k]) == Some(k)
    {
      if k in Keys(o, docs) {
        var d :| d in docs && o.Key(d) == k;
        assert o.encode(o.Stored(d)) == o.encode(d);
      } else {
        assert k in r0 && Same(r0, r1, k) && Same(s0, s1, k);
      }
    }
  }

  lemma KnownIffSettled(o: Options, start: nat, r0: Records, r1: Records, docs: seq<Document>, from: nat)
    requires RecordsSynced(o, r0, r1, docs, FinalScope(o, docs), start)
    ensures KnownFrom(o, r1, docs, from) <==> SettledFrom(o, docs, from)
    decreases |docs| - from
  {
    if from < |docs| {
      var to := End(docs, from, o.BatchSize());
      KnownIffSettled(o, start, r0, r1, docs, to);
      forall d | d in docs[from..to]
        ensures Present(o, r1, docs[..from], o.Key(d)) <==>
                o.cleanup != CleanupIncremental || o.Key(d) in Keys(o, docs[..from]) || o.Group(d) !in Groups(o, docs[..from])
      {
        assert d in docs;
      }
    }
  }

  /** Nothing is to be added exactly when every key is present when its batch is reached. */
  lemma {:induction false} KnownIffNoneAdded(o: Options, r0: Records, docs: seq<Document>, from: nat)
    ensures KnownFrom(o, r0, docs, from) <==> AddedFrom(o, r0, docs, from) == 0
    decreases |docs| - from
  {
    if from < |docs| {
      var to := End(docs, from, o.BatchSize());
      KnownIffNoneAdded(o, r0, docs, to);
      if d :| d in docs[from..to] && !Present(o, r0, docs[..from], o.Key(d)) {
        assert o.Key(d) in Unrecorded(o, r0, docs, from, to);
      }
    }
  }

  /**
   Running the same input again: the stores end as they were (timestamps aside), nothing is updated,
   and nothing is added or deleted exactly when the input is settled.
   */
  lemma RerunChangesNothing(o: Options, start1: nat, r0: Records, s0: Store, docs: seq<Document>, r1: Records, s1: Store,
                            start2: nat, r2: Records, s2: Store, result: IndexingResult)
    requires EncoderLaw(o.encode) && Consistent(o, r0, s0, start1) && !o.forceUpdate
    requires forall d :: d in docs ==> o.encode(d).Some?
    requires RunOutcome(o, start1, r0, s0, docs, r1, s1, false)
    requires forall k :: k in r1 ==> r1[k].stamp < start2
    requires RunOutcome(o, start2, r1, s1, docs, r2, s2, false) && RunCounts(o, start2, r1, s1, docs, r2, result)
    ensures s2 == s1 && r2.Keys == r1.Keys && forall k :: k in r1 ==> r2[k].group == r1[k].group
    ensures result.updated == 0 && result.added == result.deleted
    ensures result == IndexingResult(0, 0, 0, |docs|) <==> SettledFrom(o, docs, 0)
  {
    StillConsistent(o, start1, r0, s0, docs, r1, s1, start2);
    KnownIffSettled(o, start1, r0, r1, docs, 0);
    KnownIffNoneAdded(o, r1, docs, 0);
    RerunKeepsStores(o, start1, r0, s0, docs, r1, s1, start2, r2, s2);
    assert |r1.Keys| == |r2.Keys|;
  }

  lemma RerunKeepsStores(o: Options, start1: nat, r0: Records, s0: Store, docs: seq<Document>, r1: Records, s1: Store,
                         start2: nat, r2: Records, s2: Store)
    requires Synced(o, r0, s0, r1, s1, docs, FinalScope(o, docs), start1)
    requires Synced(o, r1, s1, r2, s2, docs, FinalScope(o, docs), start2)
    ensures s2 == s1 && r2.Keys == r1.Keys && forall k :: k in r1 ==> r2[k].group == r1[k].group
  {
    forall k: string
      ensures Same(s1, s2, k) && (k in r1 <==> k in r2) && (k in r1 ==> r2[k].group == r1[k].group)
    {
      if k in Keys(o, docs) {
        var d :| d in docs && o.Key(d) == k;
      } else if k in r1 {
        assert k in r0 && Same(r0, r1, k);
        assert !FinalScope(o, docs).Covers(r1[k].group);
        assert Same(r1, r2, k) && Same(s1, s2, k);
      } else {
        assert Same(s1, s2, k);
      }
    }
    StoresEqual(s1, s2);
  }

  /** Without incremental cleanup every input is settled. */
  lemma {:induction false} NonIncrementalIsSettled(o: Options, docs: seq<Document>, from: nat)
    requires o.cleanup != CleanupIncremental
    ensures SettledFrom(o, docs, from)
    decreases |docs| - from
  {
    if from < |docs| {
      NonIncrementalIsSettled(o, docs, End(docs, from, o.BatchSize()));
    }
  }

  /** Incremental cleanup with one group in two batches is not: the second batch's document was deleted by the first. */
  lemma GroupAcrossBatchesIsNotSettled(o: Options, d: Document, e: Document)
    requires o.cleanup == CleanupIncremental && o.batchSize == 1
    requires o.Key(d) != o.Key(e) && o.Group(d) == o.Group(e)
    ensures !SettledFrom(o, [d, e], 0)
  {
    var docs := [d, e];
    assert docs[..1] == [d] && docs[1..2] == [e];
    assert d in docs[..1] && e in docs[1..2];
    assert End(docs, 0, o.BatchSize()) == 1 && End(docs, 1, o.BatchSize()) == 2;
    assert !SettledFrom(o, docs, 1);
  }
}
