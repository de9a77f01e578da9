/**
 The indexing run: batches are hashed, deduplicated, added to the destination and stamped in the
 record manager; stale records are cleaned after each batch or at the end.  The context may be
 cancelled at every check and the destination may fail part of the way through any call.
 */
module Indexing {
  import opened Common
  import opened IndexSpec
  import opened RecordManager

  datatype IndexingResult = IndexingResult(added: nat, updated: nat, deleted: nat, skipped: nat)

  class IndexState {
    var result: IndexingResult
    var touchedGroups: set<string>
    const indexStart: nat

    constructor (indexStart: nat)
      ensures result == IndexingResult(0, 0, 0, 0) && touchedGroups == {} && this.indexStart == indexStart
    {
      result := IndexingResult(0, 0, 0, 0);
      touchedGroups := {};
      this.indexStart := indexStart;
    }
  }

  /** ctx.Err: the caller may cancel at any moment. */
  method Cancelled() returns (cancelled: bool) {
    cancelled := *;
  }

  /** A call of the record manager may fail instead of taking effect. */
  method Unavailable() returns (failed: bool) {
    failed := *;
  }

  /** The destination may stop after any number of documents; nothing it held is lost. */
  method AddDocuments(dest: InMemoryDocumentIndex, docs: seq<Document>) returns (failed: bool)
    modifies dest
    ensures old(dest.store).Keys <= dest.store.Keys
    ensures !failed && (forall i :: 0 <= i < |docs| ==> docs[i].id != "") ==> dest.store == Overwrite(old(dest.store), docs)
  {
    var upTo: nat :| upTo <= |docs|;
    var succeeded;
    failed, succeeded := dest.Upsert(docs[..upTo]);
    assert docs[..|docs|] == docs;
    failed := failed || upTo < |docs|;
  }

  method DeleteIDs(dest: InMemoryDocumentIndex, ids: seq<string>) returns (failed: bool)
    modifies dest
    ensures forall k :: k !in ids ==> Same(old(dest.store), dest.store, k)
    ensures !failed ==> dest.store == old(dest.store) - KeySet(ids)
  {
    var upTo: nat :| upTo <= |ids|;
    var succeeded;
    failed, succeeded := dest.Delete(Some(ids[..upTo]));
    assert ids[..|ids|] == ids;
    failed := upTo < |ids|;
  }

  /** One round: list some stale keys, delete their documents, then their records. */
  method CleanupRound(rm: InMemoryRecordManager, dest: InMemoryDocumentIndex, groupIDs: seq<string>, before: nat, limit: nat)
    returns (failed: bool, keys: seq<string>)
    requires rm.Valid() && limit > 0
    modifies rm`records, dest
    ensures rm.Valid() && NoDuplicates(keys) && KeySet(keys) <= Stale(old(rm.View()), groupIDs, before)
    ensures failed ==> rm.View() == old(rm.View())
    ensures failed ==> forall k :: k !in KeySet(keys) ==> Same(old(dest.store), dest.store, k)
    ensures !failed ==> rm.View() == old(rm.View()) - KeySet(keys) && dest.store == old(dest.store) - KeySet(keys)
    ensures !failed && keys == [] ==> Stale(old(rm.View()), groupIDs, before) == {}
  {
    keys := [];
    failed := Cancelled();
    if failed {
      return;
    }
    failed := Unavailable();
    if failed {
      return;
    }
    keys := rm.ListKeys(groupIDs, before, limit);
    if |keys| == 0 {
      assert rm.View() - KeySet(keys) == rm.View() && dest.store - KeySet(keys) == dest.store;
      return;
    }
    failed := DeleteIDs(dest, keys);
    if failed {
      return;
    }
    failed := Unavailable();
    if failed {
      return;   // the documents are gone, their records are not
    }
    rm.DeleteKeys(keys);
  }

  /** Only stale records and their documents go; on success all of them have gone.  Each record was counted. */
  method CleanupKeys(rm: InMemoryRecordManager, dest: InMemoryDocumentIndex, groupIDs: seq<string>, before: nat, limit: int)
    returns (failed: bool, deleted: nat, ghost gone: set<string>)
    requires rm.Valid()
    modifies rm`records, dest
    ensures rm.Valid()
    ensures gone <= Stale(old(rm.View()), groupIDs, before) && deleted == |gone|
    ensures rm.View() == old(rm.View()) - gone
    ensures forall k :: k !in Stale(old(rm.View()), groupIDs, before) ==> Same(old(dest.store), dest.store, k)
    ensures !failed ==> gone == Stale(old(rm.View()), groupIDs, before) && dest.store == old(dest.store) - gone
  {
    hide InMemoryRecordManager.View, InMemoryRecordManager.Valid, Stale, KeySet, NoDuplicates, Same;
    var atMost := if limit <= 0 then 100 else limit;
    ghost var records, store := rm.View(), dest.store;
    ghost var stale := Stale(records, groupIDs, before);
    gone, deleted := {}, 0;
    assert records - gone == records && store - gone == store;
    while true
      invariant rm.Valid() && gone <= stale && |gone| == deleted
      invariant rm.View() == records - gone && dest.store == store - gone
      decreases |stale - gone|
    {
      var keys;
      failed, keys := CleanupRound(rm, dest, groupIDs, before, atMost);
      StaleMinus(records, gone, groupIDs, before);
      OnlyTheseGone(store, stale, gone);
      if failed {
        StoreSameFrom(store, store - gone, dest.store, stale, KeySet(keys));
        return;
      }
      MinusTwice(records, gone, KeySet(keys));
      MinusTwice(store, gone, KeySet(keys));
      if |keys| == 0 {
        NothingLeft(stale, gone, keys);
        return;
      }
      CleanupShrinks(stale, gone, keys);
      gone := gone + KeySet(keys);
      deleted := deleted + |keys|;
    }
  }

  lemma MinusTwice<T>(m: map<string, T>, a: set<string>, b: set<string>)
    ensures (m - a) - b == m - (a + b)
  {
  }

  lemma NothingLeft(stale: set<string>, gone: set<string>, keys: seq<string>)
    requires gone <= stale && stale - gone == {} && keys == []
    ensures gone == stale && gone + KeySet(keys) == stale
  {
    assert KeySet(keys) == {};
    assert stale == gone + (stale - gone);
  }

  lemma StaleMinus(records: Records, gone: set<string>, groupIDs: seq<string>, before: nat)
    ensures Stale(records - gone, groupIDs, before) == Stale(records, groupIDs, before) - gone
  {
  }

  lemma OnlyTheseGone(store: Store, stale: set<string>, gone: set<string>)
    requires gone <= stale
    ensures forall k :: k !in stale ==> Same(store, store - gone, k)
  {
  }

  lemma StoreSameFrom(s0: Store, s1: Store, s2: Store, stale: set<string>, keys: set<string>)
    requires keys <= stale && forall k :: k !in stale ==> Same(s0, s1, k)
    requires forall k :: k !in keys ==> Same(s1, s2, k)
    ensures forall k :: k !in stale ==> Same(s0, s2, k)
  {
    forall k | k !in stale
      ensures Same(s0, s2, k)
    {
      assert k !in keys && Same(s0, s1, k) && Same(s1, s2, k);
    }
  }

  /** The stale set shrinks by the listed keys. */
  lemma CleanupShrinks(stale: set<string>, gone: set<string>, keys: seq<string>)
    requires gone <= stale && NoDuplicates(keys) && |keys| > 0
    requires KeySet(keys) <= stale - gone
    ensures |gone + KeySet(keys)| == |gone| + |keys|
    ensures |stale - (gone + KeySet(keys))| < |stale - gone|
  {
    KeySetSize(keys);
    assert gone !! KeySet(keys);
    assert keys[0] in KeySet(keys);
    assert stale - gone == (stale - (gone + KeySet(keys))) + KeySet(keys);
  }

  /** The batch's distinct keys with their documents, and one source ID each when those are configured. */
  ghost predicate Collected(o: Options, batch: seq<Document>, keys: seq<string>, groupIDs: seq<string>, docs: seq<Document>) {
    && BatchOf(o, batch, keys, docs) && |keys| <= |batch|
    && (if o.sourceIDKey == "" then groupIDs == [] else |groupIDs| == |keys|)
    && (forall i :: 0 <= i < |keys| ==> GroupAt(groupIDs, i) == o.Group(docs[i]))
    && "" !in groupIDs
  }

  lemma CollectSeen(o: Options, batch: seq<Document>, keys: seq<string>, groupIDs: seq<string>, docs: seq<Document>, doc: Document)
    requires Collected(o, batch, keys, groupIDs, docs)
    requires o.encode(doc).Some? && o.Key(doc) in keys
    ensures Collected(o, batch + [doc], keys, groupIDs, docs)
  {
  }

  lemma CollectNew(o: Options, batch: seq<Document>, keys: seq<string>, groupIDs: seq<string>, docs: seq<Document>, doc: Document)
    requires Collected(o, batch, keys, groupIDs, docs)
    requires o.encode(doc).Some? && o.Key(doc) !in keys && (o.sourceIDKey != "" ==> o.Source(doc).Some?)
    ensures Collected(o, batch + [doc], keys + [o.Key(doc)],
                      if o.sourceIDKey == "" then [] else groupIDs + [o.Source(doc).value], docs + [doc])
  {
    var longer := keys + [o.Key(doc)];
    forall d | d in batch + [doc]
      ensures o.encode(d).Some? && o.Key(d) in longer
    {
      if d != doc {
        assert o.Key(d) in keys;
      } else {
        assert longer[|keys|] == o.Key(doc);
      }
    }
  }

  /** Hash, drop repeated keys, look up the source IDs. */
  method CollectBatch(batch: seq<Document>, o: Options, state: IndexState)
    returns (failed: bool, keys: seq<string>, groupIDs: seq<string>, docs: seq<Document>)
    modifies state
    ensures state.result.(skipped := old(state.result.skipped)) == old(state.result)
    ensures !failed ==> Collected(o, batch, keys, groupIDs, docs)
    ensures !failed ==> state.result.skipped == old(state.result.skipped) + |batch| - |keys|
    ensures !failed ==> state.touchedGroups == old(state.touchedGroups) + KeySet(groupIDs)
  {
    keys, groupIDs, docs := [], [], [];
    var seenKeys: set<string> := {};
    for i := 0 to |batch|
      invariant state.result.(skipped := old(state.result.skipped)) == old(state.result)
      invariant Collected(o, batch[..i], keys, groupIDs, docs) && seenKeys == KeySet(keys)
      invariant state.result.skipped == old(state.result.skipped) + i - |keys|
      invariant state.touchedGroups == old(state.touchedGroups) + KeySet(groupIDs)
    {
      var doc := batch[i];
      assert batch[..i + 1] == batch[..i] + [doc];
      var key := o.encode(doc);
      if key.None? {
        return true, keys, groupIDs, docs;
      }
      if key.value in seenKeys {
        CollectSeen(o, batch[..i], keys, groupIDs, docs, doc);
        state.result := state.result.(skipped := state.result.skipped + 1);
        continue;
      }
      seenKeys := seenKeys + {key.value};
      var source := o.Source(doc);
      if o.sourceIDKey != "" && source.None? {
        return true, keys, groupIDs, docs;
      }
      CollectNew(o, batch[..i], keys, groupIDs, docs, doc);
      keys := keys + [key.value];
      docs := docs + [doc];
      if o.sourceIDKey != "" {
        groupIDs := groupIDs + [source.value];
        state.touchedGroups := state.touchedGroups + {source.value};
      }
    }
    assert batch[..|batch|] == batch;
    failed := false;
  }

  /** The documents to write: those not recorded yet, or all of them when the update is forced. */
  function ToAdd(o: Options, r: Records, keys: seq<string>, docs: seq<Document>): seq<Document>
    requires |keys| == |docs|
  {
    if keys == [] then []
    else
      var last := |keys| - 1;
      ToAdd(o, r, keys[..last], docs[..last])
      + (if keys[last] in r && !o.forceUpdate then [] else [docs[last].WithID(keys[last])])
  }

  method SelectDocuments(ghost r: Records, keys: seq<string>, docs: seq<Document>, exists_: seq<bool>, o: Options, state: IndexState)
    returns (toAdd: seq<Document>)
    requires |keys| == |docs| == |exists_| && forall i :: 0 <= i < |keys| ==> (exists_[i] <==> keys[i] in r)
    modifies state`result
    ensures toAdd == ToAdd(o, r, keys, docs)
    ensures state.result.deleted == old(state.result.deleted)
    ensures state.result.added == old(state.result.added) + NewKeys(r, keys)
    ensures state.result.updated == old(state.result.updated) + if o.forceUpdate then |keys| - NewKeys(r, keys) else 0
    ensures state.result.skipped == old(state.result.skipped) + if o.forceUpdate then 0 else |keys| - NewKeys(r, keys)
  {
    toAdd := [];
    for i := 0 to |docs|
      invariant toAdd == ToAdd(o, r, keys[..i], docs[..i])
      invariant state.result.deleted == old(state.result.deleted)
      invariant state.result.added == old(state.result.added) + NewKeys(r, keys[..i])
      invariant state.result.updated == old(state.result.updated) + if o.forceUpdate then i - NewKeys(r, keys[..i]) else 0
      invariant state.result.skipped == old(state.result.skipped) + if o.forceUpdate then 0 else i - NewKeys(r, keys[..i])
    {
      assert keys[..i + 1][..i] == keys[..i] && docs[..i + 1][..i] == docs[..i];
      if exists_[i] && !o.forceUpdate {
        state.result := state.result.(skipped := state.result.skipped + 1);
      } else {
        toAdd := toAdd + [docs[i].WithID(keys[i])];
        if exists_[i] {
          state.result := state.result.(updated := state.result.updated + 1);
        } else {
          state.result := state.result.(added := state.result.added + 1);
        }
      }
    }
    assert keys[..|keys|] == keys && docs[..|docs|] == docs;
  }

  lemma {:induction false} ToAddFills(o: Options, r: Records, s: Store, keys: seq<string>, docs: seq<Document>)
    requires |keys| == |docs| && NoDuplicates(keys)
    ensures StoreFilled(o, r, s, Overwrite(s, ToAdd(o, r, keys, docs)), keys, docs)
    ensures forall i :: 0 <= i < |ToAdd(o, r, keys, docs)| ==> ToAdd(o, r, keys, docs)[i].id in keys
  {
    if keys != [] {
      var last := |keys| - 1;
      var k, stored := keys[last], docs[last].WithID(keys[last]);
      var before, added := ToAdd(o, r, keys[..last], docs[..last]), ToAdd(o, r, keys, docs);
      assert added == if k in r && !o.forceUpdate then before else before + [stored];
      OverwriteOne(s, before, stored);
      hide ToAdd, Overwrite, StoreFilled, NoDuplicates;
      NoDuplicatesTake(keys, last);
      ToAddFills(o, r, s, keys[..last], docs[..last]);
      FillOne(o, r, s, Overwrite(s, before), keys, docs);
      assert keys == keys[..last] + [k];
    }
  }

  lemma NoDuplicatesTake(keys: seq<string>, n: nat)
    requires NoDuplicates(keys) && n < |keys|
    ensures NoDuplicates(keys[..n]) && keys[n] !in keys[..n]
  {
  }

  lemma OverwriteOne(store: Store, items: seq<Document>, d: Document)
    ensures Overwrite(store, items + [d]) == Overwrite(store, items)[d.id := d]
  {
    assert (items + [d])[..|items|] == items;
  }

  /** One more key, skipped or written. */
  lemma FillOne(o: Options, r: Records, s: Store, s1: Store, keys: seq<string>, docs: seq<Document>)
    requires |keys| == |docs| > 0 && NoDuplicates(keys)
    requires StoreFilled(o, r, s, s1, keys[..|keys| - 1], docs[..|docs| - 1])
    ensures var (k, stored) := (keys[|keys| - 1], docs[|keys| - 1].WithID(keys[|keys| - 1]));
            StoreFilled(o, r, s, if k in r && !o.forceUpdate then s1 else s1[k := stored], keys, docs)
  {
    var last := |keys| - 1;
    var k, stored, shorter := keys[last], docs[last].WithID(keys[last]), keys[..last];
    var s2 := if k in r && !o.forceUpdate then s1 else s1[k := stored];
    NoDuplicatesTake(keys, last);
    assert Same(s, s1, k);
    forall other | other !in keys
      ensures Same(s, s2, other)
    {
      assert other !in shorter && other != k;
    }
    forall i | 0 <= i < last
      ensures keys[i] == shorter[i] != k
    {
    }
  }

  lemma {:induction false} NewKeysCount(r: Records, keys: seq<string>)
    requires NoDuplicates(keys)
    ensures NewKeys(r, keys) == |KeySet(keys) - r.Keys|
  {
    if keys != [] {
      var last := |keys| - 1;
      assert NewKeys(r, keys) == NewKeys(r, keys[..last]) + if keys[last] in r then 0 else 1;
      assert keys[..last + 1] == keys;
      hide NewKeys, KeySet;
      NoDuplicatesTake(keys, last);
      NotInKeySet(keys[..last], keys[last]);
      hide NoDuplicates;
      NewKeysCount(r, keys[..last]);
      KeySetTake(keys, last);
      OneMoreKey(KeySet(keys[..last]), keys[last], r.Keys);
    }
  }

  lemma NotInKeySet(keys: seq<string>, k: string)
    requires k !in keys
    ensures k !in KeySet(keys)
  {
  }

  lemma OneMoreKey(keys: set<string>, k: string, known: set<string>)
    requires k !in keys
    ensures |(keys + {k}) - known| == |keys - known| + if k in known then 0 else 1
  {
    assert (keys + {k}) - known == if k in known then keys - known else (keys - known) + {k};
  }

  method UniqueStrings(values: seq<string>) returns (out: seq<string>)
    ensures KeySet(out) == KeySet(values) - {""}
    ensures NoDuplicates(out)
  {
    var seen: set<string> := {};
    out := [];
    for i := 0 to |values|
      invariant KeySet(out) == seen == KeySet(values[..i]) - {""}
      invariant NoDuplicates(out)
    {
      KeySetTake(values, i);
      var value := values[i];
      if value != "" && value !in seen {
        assert value !in KeySet(out);
        seen := seen + {value};
        out := out + [value];
      }
    }
    assert values[..|values|] == values;
  }

  // ----- one batch -----

  /** Every record has its document. */
  ghost predicate Backed(r: Records, s: Store) {
    r.Keys <= s.Keys
  }

  /** Every record stamped in this run has its document. */
  ghost predicate FreshBacked(r: Records, s: Store, start: nat) {
    forall k :: k in r && r[k].stamp >= start ==> k in s
  }

  lemma StampedFromView(o: Options, r: Records, keys: seq<string>, groupIDs: seq<string>, docs: seq<Document>,
                        batch: seq<Document>, now: nat)
    requires Collected(o, batch, keys, groupIDs, docs)
    ensures RecordsStamped(o, r, Stamp(r, keys, groupIDs, now), keys, docs, now)
    ensures |Stamp(r, keys, groupIDs, now)| == |r| + NewKeys(r, keys)
  {
    StampDistinct(r, keys, groupIDs, now);
  }

  /** The counters after a set of distinct keys: new ones are added, known ones updated if that is forced, skipped if not. */
  ghost predicate KeysCounted(o: Options, keys: set<string>, r: Records, before: IndexingResult, after: IndexingResult) {
    && after.added == before.added + |keys - r.Keys|
    && after.updated == before.updated + (if o.forceUpdate then |keys * r.Keys| else 0)
    && after.skipped == before.skipped + (if o.forceUpdate then 0 else |keys * r.Keys|)
  }

  lemma SelectionCounts(o: Options, batch: seq<Document>, keys: seq<string>, groupIDs: seq<string>, docs: seq<Document>,
                        r: Records, before: IndexingResult, after: IndexingResult)
    requires Collected(o, batch, keys, groupIDs, docs)
    requires after.added == before.added + NewKeys(r, keys)
    requires after.updated == before.updated + if o.forceUpdate then |keys| - NewKeys(r, keys) else 0
    requires after.skipped == before.skipped + if o.forceUpdate then 0 else |keys| - NewKeys(r, keys)
    ensures |keys| == |Keys(o, batch)|
    ensures KeysCounted(o, Keys(o, batch), r, before, after)
  {
    KeySetIsKeys(o, batch, keys, groupIDs, docs);
    hide Collected, Keys, KeySet, NewKeys;
    KeySetSize(keys);
    NewKeysCount(r, keys);
    SplitSize(KeySet(keys), r.Keys);
  }

  lemma KeySetIsKeys(o: Options, batch: seq<Document>, keys: seq<string>, groupIDs: seq<string>, docs: seq<Document>)
    requires Collected(o, batch, keys, groupIDs, docs)
    ensures KeySet(keys) == Keys(o, batch) && NoDuplicates(keys)
  {
    BatchKeys(o, batch, keys, docs);
  }

  lemma SplitSize(keys: set<string>, known: set<string>)
    ensures |keys| == |keys - known| + |keys * known|
  {
    assert keys == (keys - known) + (keys * known);
  }

  lemma FilledByAdding(o: Options, r: Records, s: Store, keys: seq<string>, groupIDs: seq<string>, docs: seq<Document>, batch: seq<Document>)
    requires EncoderLaw(o.encode) && Collected(o, batch, keys, groupIDs, docs)
    ensures StoreFilled(o, r, s, Overwrite(s, ToAdd(o, r, keys, docs)), keys, docs)
    ensures forall i :: 0 <= i < |ToAdd(o, r, keys, docs)| ==> ToAdd(o, r, keys, docs)[i].id != ""
  {
    ToAddFills(o, r, s, keys, docs);
    forall k | k in keys
      ensures k != ""
    {
      var i :| 0 <= i < |keys| && keys[i] == k;
      assert o.encode(docs[i]) == Some(k);
    }
  }

  lemma FillKeepsBacked(o: Options, r: Records, s: Store, r1: Records, s1: Store, keys: seq<string>, docs: seq<Document>, now: nat)
    requires Backed(r, s) && |keys| == |docs|
    requires RecordsStamped(o, r, r1, keys, docs, now) && StoreFilled(o, r, s, s1, keys, docs)
    ensures Backed(r1, s1)
  {
    forall k | k in r1
      ensures k in s1
    {
      if i :| 0 <= i < |keys| && keys[i] == k {
        assert Same(s, s1, keys[i]) || k in s1;
      } else {
        assert Same(r, r1, k) && Same(s, s1, k);
      }
    }
  }

  lemma CollectedFacts(o: Options, batch: seq<Document>, keys: seq<string>, groupIDs: seq<string>, docs: seq<Document>)
    requires Collected(o, batch, keys, groupIDs, docs)
    ensures forall d :: d in batch ==> o.encode(d).Some?
    ensures |keys| == |docs| <= |batch|
    ensures keys == [] ==> batch == [] && KeySet(groupIDs) == {} == Groups(o, batch)
  {
    if batch != [] {
      assert o.Key(batch[0]) in keys;
    }
  }

  /** The part of a batch between the existence check and its cleanup: add to the destination, stamp. */
  method WriteBatch(rm: InMemoryRecordManager, dest: InMemoryDocumentIndex, o: Options, state: IndexState, ghost batch: seq<Document>,
                    keys: seq<string>, groupIDs: seq<string>, docs: seq<Document>, exists_: seq<bool>) returns (failed: bool)
    requires rm.Valid() && 0 < state.indexStart <= rm.clock
    requires Collected(o, batch, keys, groupIDs, docs)
    requires |exists_| == |keys| && forall i :: 0 <= i < |keys| ==> (exists_[i] <==> keys[i] in rm.View())
    modifies rm, dest, state`result
    ensures rm.Valid() && rm.clock >= old(rm.clock)
    ensures state.result.deleted == old(state.result.deleted) && |keys| == |Keys(o, batch)|
    ensures KeysCounted(o, Keys(o, batch), old(rm.View()), old(state.result), state.result)
    ensures failed ==> rm.View() == old(rm.View()) && old(dest.store).Keys <= dest.store.Keys
    ensures !failed ==> RecordsStamped(o, old(rm.View()), rm.View(), keys, docs, rm.clock)
    ensures !failed ==> |rm.View()| == |old(rm.View())| + state.result.added - old(state.result.added)
    ensures !failed && EncoderLaw(o.encode) ==> StoreFilled(o, old(rm.View()), old(dest.store), dest.store, keys, docs)
  {
    hide EncoderLaw, RecordsStamped, StoreFilled, Collected, InMemoryRecordManager.View, InMemoryRecordManager.Valid,
      KeySet, Stamp, ToAdd, NewKeys;
    CollectedFacts(o, batch, keys, groupIDs, docs);
    ghost var r, s, before := rm.View(), dest.store, state.result;
    var toAdd := SelectDocuments(r, keys, docs, exists_, o, state);
    SelectionCounts(o, batch, keys, groupIDs, docs, r, before, state.result);
    hide Keys, KeysCounted;
    failed := false;
    if |toAdd| > 0 {
      failed := AddDocuments(dest, toAdd);
    }
    if EncoderLaw(o.encode) {
      FilledByAdding(o, r, s, keys, groupIDs, docs, batch);
    }
    if failed {
      return;
    }
    failed := Unavailable();
    if failed {
      return;   // the documents are there, their records are not stamped
    }
    failed := rm.Update(keys, groupIDs, state.indexStart);
    StampedFromView(o, r, keys, groupIDs, docs, batch, rm.clock);
  }

  lemma CollectedGroups(o: Options, batch: seq<Document>, keys: seq<string>, groupIDs: seq<string>, docs: seq<Document>)
    requires EncoderLaw(o.encode) && Collected(o, batch, keys, groupIDs, docs) && o.sourceIDKey != ""
    ensures KeySet(groupIDs) == Groups(o, batch)
  {
    forall d | d in batch
      ensures o.Group(d) in groupIDs
    {
      var i :| 0 <= i < |keys| && keys[i] == o.Key(d);
      SameKeySameDocument(o, d, docs[i]);
      assert groupIDs[i] == GroupAt(groupIDs, i);
    }
    forall g | g in groupIDs
      ensures g in Groups(o, batch)
    {
      var i :| 0 <= i < |groupIDs| && groupIDs[i] == g;
      assert GroupAt(groupIDs, i) == o.Group(docs[i]);
    }
  }

  lemma WidenedScope(o: Options, processed: seq<Document>, batch: seq<Document>, groupIDs: seq<string>, unique: seq<string>)
    requires o.cleanup == CleanupIncremental && groupIDs != [] && "" !in groupIDs
    requires KeySet(unique) == KeySet(groupIDs) - {""} && KeySet(groupIDs) == Groups(o, batch)
    ensures Widen(ScopeAfter(o, processed), unique) == ScopeAfter(o, processed + batch)
  {
    KeysAppend(o, processed, batch);
    assert groupIDs[0] in KeySet(unique);
    assert (set g | g in unique) == KeySet(unique);
    assert KeySet(unique) == Groups(o, batch);
  }

  /** A batch, with its cleanup in incremental mode, takes the stores from one synchronised state to the next. */
  lemma BatchAdvances(o: Options, r0: Records, s0: Store, r: Records, s: Store, r1: Records, s1: Store,
                      processed: seq<Document>, batch: seq<Document>, keys: seq<string>, groupIDs: seq<string>,
                      docs: seq<Document>, unique: seq<string>, start: nat, now: nat)
    requires EncoderLaw(o.encode) && Consistent(o, r0, s0, start) && 0 < start <= now
    requires forall d :: d in processed ==> o.encode(d).Some?
    requires Synced(o, r0, s0, r, s, processed, ScopeAfter(o, processed), start)
    requires Collected(o, batch, keys, groupIDs, docs) && keys != []
    requires RecordsStamped(o, r, r1, keys, docs, now) && StoreFilled(o, r, s, s1, keys, docs)
    requires KeySet(unique) == KeySet(groupIDs) - {""}
    ensures o.cleanup != CleanupIncremental ==>
              Synced(o, r0, s0, r1, s1, processed + batch, ScopeAfter(o, processed + batch), start)
    ensures o.cleanup == CleanupIncremental && o.sourceIDKey != "" ==>
              var stale := Stale(r1, unique, start);
              Synced(o, r0, s0, r1 - stale, s1 - stale, processed + batch, ScopeAfter(o, processed + batch), start)
  {
    hide RecordsSynced, StoreSynced, Consistent, EncoderLaw, RecordsStamped, StoreFilled, Stale;
    var scope := ScopeAfter(o, processed);
    BatchKeepsRecords(o, r0, r, r1, processed, batch, keys, docs, scope, start, now);
    BatchKeepsStore(o, r0, s0, r, s, s1, processed, batch, keys, docs, scope, start);
    if o.cleanup == CleanupIncremental && o.sourceIDKey != "" {
      CleanupKeepsSynced(o, r0, s0, r1, s1, processed + batch, scope, unique, start);
      CollectedGroups(o, batch, keys, groupIDs, docs);
      KeysAppend(o, processed, batch);
      WidenedScope(o, processed, batch, groupIDs, unique);
    }
  }

  /** What a cleanup, finished or not, leaves backed. */
  lemma CleanupKeepsBacked(r: Records, s: Store, s': Store, groups: seq<string>, start: nat, gone: set<string>, finished: bool)
    requires Backed(r, s) && start > 0 && gone <= Stale(r, groups, start)
    requires forall k :: k !in Stale(r, groups, start) ==> Same(s, s', k)
    requires finished ==> s' == s - gone
    ensures FreshBacked(r - gone, s', start)
    ensures finished ==> Backed(r - gone, s')
  {
    forall k | k in r - gone && r[k].stamp >= start
      ensures k in s'
    {
      assert k !in Stale(r, groups, start);
      assert Same(s, s', k);
    }
  }

  lemma CleanupCount(r: Records, groups: seq<string>, start: nat, gone: set<string>)
    requires gone <= Stale(r, groups, start)
    ensures |r - gone| == |r| - |gone|
  {
    assert r.Keys == (r - gone).Keys + gone;
  }

  /**
   What a batch does to the two stores.  On success it continues a synchronised run; and if every
   record had its document before, then afterwards every fresh record has, even if the batch failed.
   */
  ghost predicate BatchOutcome(o: Options, start: nat, r0: Records, s0: Store, processed: seq<Document>, batch: seq<Document>,
                               r: Records, s: Store, r': Records, s': Store, failed: bool) {
    && (!failed ==> forall d :: d in batch ==> o.encode(d).Some?)
    && (!failed && EncoderLaw(o.encode) && Consistent(o, r0, s0, start) && (forall d :: d in processed ==> o.encode(d).Some?)
        && Synced(o, r0, s0, r, s, processed, ScopeAfter(o, processed), start) ==>
          Synced(o, r0, s0, r', s', processed + batch, ScopeAfter(o, processed + batch), start))
    && (EncoderLaw(o.encode) && Backed(r, s) ==> FreshBacked(r', s', start) && (!failed ==> Backed(r', s')))
  }

  /** The counters after n more documents, and the record count they account for.  Repeats in the batch are skipped. */
  ghost predicate BatchCounts(o: Options, batch: seq<Document>, n: int, r: Records, r': Records,
                              before: IndexingResult, after: IndexingResult) {
    && |Keys(o, batch)| <= n
    && KeysCounted(o, Keys(o, batch), r, before.(skipped := before.skipped + n - |Keys(o, batch)|), after)
    && |r'| + after.deleted - after.added == |r| + before.deleted - before.added
  }

  lemma CountsWritten(o: Options, batch: seq<Document>, n: int, r: Records, r1: Records, before: IndexingResult, after: IndexingResult)
    requires KeysCounted(o, Keys(o, batch), r, before, after) && n == |Keys(o, batch)|
    requires after.deleted == before.deleted && |r1| == |r| + after.added - before.added
    ensures BatchCounts(o, batch, n, r, r1, before, after)
  {
  }

  /** The repeats of the batch were counted before its keys. */
  lemma CountsWithRepeats(o: Options, batch: seq<Document>, keys: nat, n: nat, r: Records, r': Records,
                          before: IndexingResult, collected: IndexingResult, after: IndexingResult)
    requires keys <= n && collected == before.(skipped := before.skipped + n - keys)
    requires BatchCounts(o, batch, keys, r, r', collected, after)
    ensures BatchCounts(o, batch, n, r, r', before, after)
  {
  }

  lemma CountsCleaned(o: Options, batch: seq<Document>, n: int, r: Records, r1: Records, r2: Records,
                      before: IndexingResult, after: IndexingResult, deleted: nat)
    requires BatchCounts(o, batch, n, r, r1, before, after) && |r2| == |r1| - deleted
    ensures BatchCounts(o, batch, n, r, r2, before, after.(deleted := after.deleted + deleted))
  {
  }

  lemma FailedOutcome(o: Options, start: nat, r0: Records, s0: Store, processed: seq<Document>, batch: seq<Document>,
                      r: Records, s: Store, s': Store)
    requires s.Keys <= s'.Keys
    ensures BatchOutcome(o, start, r0, s0, processed, batch, r, s, r, s', true)
  {
  }

  /** Written but not cleaned: the whole batch unless the mode is incremental. */
  lemma WrittenOutcome(o: Options, start: nat, r0: Records, s0: Store, processed: seq<Document>, batch: seq<Document>,
                       keys: seq<string>, groupIDs: seq<string>, docs: seq<Document>, unique: seq<string>, now: nat,
                       r: Records, s: Store, r1: Records, s1: Store)
    requires Collected(o, batch, keys, groupIDs, docs) && keys != [] && 0 < start <= now && o.cleanup != CleanupIncremental
    requires RecordsStamped(o, r, r1, keys, docs, now) && (EncoderLaw(o.encode) ==> StoreFilled(o, r, s, s1, keys, docs))
    requires KeySet(unique) == KeySet(groupIDs) - {""}
    ensures BatchOutcome(o, start, r0, s0, processed, batch, r, s, r1, s1, false)
  {
    hide Synced, Consistent, EncoderLaw, RecordsStamped, StoreFilled, ScopeAfter, KeySet;
    if EncoderLaw(o.encode) && Consistent(o, r0, s0, start) && (forall d :: d in processed ==> o.encode(d).Some?)
       && Synced(o, r0, s0, r, s, processed, ScopeAfter(o, processed), start) {
      BatchAdvances(o, r0, s0, r, s, r1, s1, processed, batch, keys, groupIDs, docs, unique, start, now);
    }
    if EncoderLaw(o.encode) && Backed(r, s) {
      FillKeepsBacked(o, r, s, r1, s1, keys, docs, now);
    }
  }

  lemma CleanedOutcome(o: Options, start: nat, r0: Records, s0: Store, processed: seq<Document>, batch: seq<Document>,
                       keys: seq<string>, groupIDs: seq<string>, docs: seq<Document>, unique: seq<string>, now: nat,
                       r: Records, s: Store, r1: Records, s1: Store, gone: set<string>, s2: Store, failed: bool)
    requires Collected(o, batch, keys, groupIDs, docs) && keys != [] && 0 < start <= now
    requires o.cleanup == CleanupIncremental && o.sourceIDKey != ""
    requires RecordsStamped(o, r, r1, keys, docs, now) && (EncoderLaw(o.encode) ==> StoreFilled(o, r, s, s1, keys, docs))
    requires KeySet(unique) == KeySet(groupIDs) - {""}
    requires gone <= Stale(r1, unique, start) && forall k :: k !in Stale(r1, unique, start) ==> Same(s1, s2, k)
    requires !failed ==> gone == Stale(r1, unique, start) && s2 == s1 - gone
    ensures BatchOutcome(o, start, r0, s0, processed, batch, r, s, r1 - gone, s2, failed)
  {
    hide Synced, Consistent, EncoderLaw, RecordsStamped, StoreFilled, ScopeAfter, KeySet, Stale, Backed, FreshBacked, Same;
    if !failed && EncoderLaw(o.encode) && Consistent(o, r0, s0, start) && (forall d :: d in processed ==> o.encode(d).Some?)
       && Synced(o, r0, s0, r, s, processed, ScopeAfter(o, processed), start) {
      BatchAdvances(o, r0, s0, r, s, r1, s1, processed, batch, keys, groupIDs, docs, unique, start, now);
    }
    if EncoderLaw(o.encode) && Backed(r, s) {
      FillKeepsBacked(o, r, s, r1, s1, keys, docs, now);
      CleanupKeepsBacked(r1, s1, s2, unique, start, gone, !failed);
    }
  }

  /** The batch from the existence check on. */
  method CommitBatch(rm: InMemoryRecordManager, dest: InMemoryDocumentIndex, o: Options, limit: nat, state: IndexState,
                     keys: seq<string>, groupIDs: seq<string>, docs: seq<Document>,
                     ghost r0: Records, ghost s0: Store, ghost processed: seq<Document>, ghost batch: seq<Document>)
    returns (failed: bool)
    requires rm.Valid() && 0 < state.indexStart <= rm.clock
    requires o.cleanup == CleanupIncremental ==> o.sourceIDKey != ""
    requires Collected(o, batch, keys, groupIDs, docs) && keys != []
    modifies rm, dest, state`result
    ensures rm.Valid() && rm.clock >= old(rm.clock)
    ensures BatchOutcome(o, state.indexStart, r0, s0, processed, batch, old(rm.View()), old(dest.store), rm.View(), dest.store, failed)
    ensures !failed ==> BatchCounts(o, batch, |keys|, old(rm.View()), rm.View(), old(state.result), state.result)
  {
    hide BatchOutcome, BatchCounts, KeysCounted, Keys, RecordsStamped, StoreFilled, Collected, EncoderLaw, KeySet, Stale,
      InMemoryRecordManager.View, InMemoryRecordManager.Valid;
    ghost var r, s := rm.View(), dest.store;
    CollectedFacts(o, batch, keys, groupIDs, docs);
    failed := Unavailable();
    if failed {
      FailedOutcome(o, state.indexStart, r0, s0, processed, batch, r, s, s);
      return;
    }
    var exists_ := rm.Exists(keys);
    failed := WriteBatch(rm, dest, o, state, batch, keys, groupIDs, docs, exists_);
    ghost var r1, s1, now := rm.View(), dest.store, rm.clock;
    if failed {
      FailedOutcome(o, state.indexStart, r0, s0, processed, batch, r, s, s1);
      return;
    }
    ghost var written := state.result;
    CountsWritten(o, batch, |keys|, r, r1, old(state.result), written);
    var unique := UniqueStrings(groupIDs);
    if o.cleanup == CleanupIncremental {
      var deleted;
      ghost var gone;
      failed, deleted, gone := CleanupKeys(rm, dest, unique, state.indexStart, limit);
      CleanedOutcome(o, state.indexStart, r0, s0, processed, batch, keys, groupIDs, docs, unique, now, r, s, r1, s1,
                     gone, dest.store, failed);
      if failed {
        return;
      }
      CleanupCount(r1, unique, state.indexStart, gone);
      ghost var r2 := rm.View();
      CountsCleaned(o, batch, |keys|, r, r1, r2, old(state.result), written, deleted);
      state.result := state.result.(deleted := state.result.deleted + deleted);
      assert state.result == written.(deleted := written.deleted + deleted) && rm.View() == r2;
    } else {
      WrittenOutcome(o, state.indexStart, r0, s0, processed, batch, keys, groupIDs, docs, unique, now, r, s, r1, s1);
    }
  }

  method IndexBatch(batch: seq<Document>, rm: InMemoryRecordManager, dest: InMemoryDocumentIndex, o: Options, limit: nat,
                    state: IndexState, ghost r0: Records, ghost s0: Store, ghost processed: seq<Document>)
    returns (failed: bool)
    requires rm.Valid() && 0 < state.indexStart <= rm.clock
    requires o.cleanup == CleanupIncremental ==> o.sourceIDKey != ""
    modifies rm, dest, state
    ensures rm.Valid() && rm.clock >= old(rm.clock)
    ensures BatchOutcome(o, state.indexStart, r0, s0, processed, batch, old(rm.View()), old(dest.store), rm.View(), dest.store, failed)
    ensures !failed ==> BatchCounts(o, batch, |batch|, old(rm.View()), rm.View(), old(state.result), state.result)
    ensures !failed && EncoderLaw(o.encode) && o.sourceIDKey != "" ==>
              state.touchedGroups == old(state.touchedGroups) + Groups(o, batch)
  {
    hide BatchOutcome, BatchCounts, KeysCounted, Keys, Collected, EncoderLaw, KeySet, Groups,
      InMemoryRecordManager.View, InMemoryRecordManager.Valid;
    FailedOutcome(o, state.indexStart, r0, s0, processed, batch, rm.View(), dest.store, dest.store);
    failed := Cancelled();
    if failed {
      return;
    }
    var keys, groupIDs, docs;
    failed, keys, groupIDs, docs := CollectBatch(batch, o, state);
    if failed {
      return;
    }
    CollectedFacts(o, batch, keys, groupIDs, docs);
    if EncoderLaw(o.encode) && o.sourceIDKey != "" {
      CollectedGroups(o, batch, keys, groupIDs, docs);
    }
    if |keys| == 0 {
      EmptyOutcome(o, state.indexStart, r0, s0, processed, batch, rm.View(), dest.store);
      EmptyCounts(o, rm.View(), state.result);
      return;
    }
    ghost var collected, r := state.result, rm.View();
    failed := CommitBatch(rm, dest, o, limit, state, keys, groupIDs, docs, r0, s0, processed, batch);
    if !failed {
      CountsWithRepeats(o, batch, |keys|, |batch|, r, rm.View(), old(state.result), collected, state.result);
    }
  }

  lemma EmptyCounts(o: Options, r: Records, result: IndexingResult)
    ensures BatchCounts(o, [], 0, r, r, result, result)
  {
    assert Keys(o, []) == {};
  }

  lemma EmptyOutcome(o: Options, start: nat, r0: Records, s0: Store, processed: seq<Document>, batch: seq<Document>,
                     r: Records, s: Store)
    requires batch == []
    ensures BatchOutcome(o, start, r0, s0, processed, batch, r, s, r, s, false)
  {
    assert processed + batch == processed;
  }

  // ----- the whole run -----

  method ToSeq(values: set<string>) returns (out: seq<string>)
    ensures KeySet(out) == values
  {
    out := [];
    var rest := values;
    while rest != {}
      invariant rest <= values && KeySet(out) == values - rest
      decreases rest
    {
      var value :| value in rest;
      rest := rest - {value};
      out := out + [value];
      KeySetTake(out, |out| - 1);
      assert out[..|out|] == out && out[..|out| - 1] + [value] == out;
    }
  }

  /** The end of a run: cleaning every group, the touched groups, or nothing. */
  ghost predicate FinishOutcome(o: Options, start: nat, r0: Records, s0: Store, docs: seq<Document>,
                                r: Records, s: Store, r': Records, s': Store, failed: bool) {
    && (!failed && Consistent(o, r0, s0, start) && Synced(o, r0, s0, r, s, docs, ScopeAfter(o, docs), start) ==>
          Synced(o, r0, s0, r', s', docs, FinalScope(o, docs), start))
    && (Backed(r, s) ==> FreshBacked(r', s', start) && (!failed ==> Backed(r', s')))
  }

  lemma FinishedOutcome(o: Options, start: nat, r0: Records, s0: Store, docs: seq<Document>, groups: seq<string>,
                        r: Records, s: Store, gone: set<string>, s': Store, failed: bool)
    requires start > 0
    requires match o.cleanup
             case CleanupFull => groups == []
             case CleanupScopedFull => groups != [] && KeySet(groups) == Groups(o, docs)
             case _ => false
    requires gone <= Stale(r, groups, start) && forall k :: k !in Stale(r, groups, start) ==> Same(s, s', k)
    requires !failed ==> gone == Stale(r, groups, start) && s' == s - gone
    ensures FinishOutcome(o, start, r0, s0, docs, r, s, r - gone, s', failed)
  {
    hide Synced, Consistent, Stale, Backed, FreshBacked, Same, Groups;
    assert KeySet(groups) == set g | g in groups;
    assert Widen(ScopeAfter(o, docs), groups) == FinalScope(o, docs);
    if Consistent(o, r0, s0, start) && Synced(o, r0, s0, r, s, docs, ScopeAfter(o, docs), start) {
      CleanupKeepsSynced(o, r0, s0, r, s, docs, ScopeAfter(o, docs), groups, start);
    }
    if Backed(r, s) {
      CleanupKeepsBacked(r, s, s', groups, start, gone, !failed);
    }
  }

  lemma UnfinishedOutcome(o: Options, start: nat, r0: Records, s0: Store, docs: seq<Document>, r: Records, s: Store)
    requires match o.cleanup
             case CleanupFull => false
             case CleanupScopedFull => Groups(o, docs) == {}
             case _ => true
    ensures FinishOutcome(o, start, r0, s0, docs, r, s, r, s, false)
  {
  }

  method FinishCleanup(rm: InMemoryRecordManager, dest: InMemoryDocumentIndex, o: Options, limit: nat, state: IndexState,
                       ghost r0: Records, ghost s0: Store, ghost docs: seq<Document>) returns (failed: bool)
    requires rm.Valid() && state.indexStart > 0
    modifies rm`records, dest, state`result
    ensures rm.Valid() && state.result.(deleted := old(state.result.deleted)) == old(state.result)
    ensures (o.cleanup == CleanupScopedFull ==> state.touchedGroups == Groups(o, docs)) ==>
              FinishOutcome(o, state.indexStart, r0, s0, docs, old(rm.View()), old(dest.store), rm.View(), dest.store, failed)
    ensures !failed ==> |rm.View()| + state.result.deleted == |old(rm.View())| + old(state.result.deleted)
  {
    hide FinishOutcome, Stale, InMemoryRecordManager.View, InMemoryRecordManager.Valid, KeySet, Groups;
    ghost var r, s := rm.View(), dest.store;
    var groups: seq<string> := [];
    ghost var known := o.cleanup == CleanupScopedFull ==> state.touchedGroups == Groups(o, docs);
    if o.cleanup == CleanupScopedFull {
      groups := ToSeq(state.touchedGroups);
    }
    EmptyKeySet(groups);
    if o.cleanup == CleanupFull || (o.cleanup == CleanupScopedFull && |groups| > 0) {
      var deleted;
      ghost var gone;
      failed, deleted, gone := CleanupKeys(rm, dest, groups, state.indexStart, limit);
      if known {
        FinishedOutcome(o, state.indexStart, r0, s0, docs, groups, r, s, gone, dest.store, failed);
      }
      if failed {
        return;
      }
      CleanupCount(r, groups, state.indexStart, gone);
      state.result := state.result.(deleted := state.result.deleted + deleted);
    } else {
      failed := false;
      if known {
        UnfinishedOutcome(o, state.indexStart, r0, s0, docs, r, s);
      }
    }
  }

  lemma EmptyKeySet(keys: seq<string>)
    ensures keys == [] <==> KeySet(keys) == {}
  {
    if keys != [] {
      assert keys[0] in KeySet(keys);
    }
  }
}
