/**
 What an indexing run is meant to do to the two stores, stated on maps: the record manager's view
 (key to record) and the destination's contents (ID to document).
 */
module IndexSpec {
  import opened Common

  /** Metadata values are arbitrary; only a string can serve as a source ID. */
  datatype MetaValue = Text(text: string) | Opaque(code: int)
  datatype Document = Document(id: string, content: string, metadata: map<string, MetaValue>)
  {
    function WithID(newId: string): Document { this.(id := newId) }
  }

  datatype Record = Record(group: string, stamp: nat)
  type Records = map<string, Record>
  type Store = map<string, Document>

  datatype CleanupMode = CleanupNone | CleanupIncremental | CleanupFull | CleanupScopedFull | Unknown(name: string)

  /** encode is the key encoder: it fails or derives the deduplication key. */
  datatype Options = Options(
    batchSize: int,
    cleanupBatchSize: int,
    forceUpdate: bool,
    sourceIDKey: string,
    cleanup: CleanupMode,
    encode: Document -> Option<string>)
  {
    function BatchSize(): nat { if batchSize <= 0 then 100 else batchSize }
    function CleanupBatchSize(): nat { if cleanupBatchSize <= 0 then 1000 else cleanupBatchSize }
    function Key(d: Document): string { if encode(d).Some? then encode(d).value else "" }

    /** The document's source ID: a non-empty string under the configured metadata key. */
    function Source(d: Document): Option<string> {
      if sourceIDKey in d.metadata && d.metadata[sourceIDKey].Text? && d.metadata[sourceIDKey].text != ""
      then Some(d.metadata[sourceIDKey].text) else None
    }

    function Group(d: Document): string {
      if sourceIDKey == "" || Source(d).None? then "" else Source(d).value
    }

    /** What the destination holds for d after it has been added. */
    function Stored(d: Document): Document { d.WithID(Key(d)) }
  }

  /** Hashing: equal keys exactly for equal content and metadata, and never the empty key. */
  ghost predicate EncoderLaw(encode: Document -> Option<string>) {
    && (forall d: Document, e: Document :: encode(d).Some? && encode(d) == encode(e) ==> d.content == e.content && d.metadata == e.metadata)
    && (forall d: Document, e: Document :: d.content == e.content && d.metadata == e.metadata ==> encode(d) == encode(e))
    && (forall d: Document :: encode(d) != Some(""))
  }

  ghost function Keys(o: Options, docs: seq<Document>): set<string> { set d | d in docs :: o.Key(d) }
  ghost function Groups(o: Options, docs: seq<Document>): set<string> { set d | d in docs :: o.Group(d) }

  /** Which groups a cleanup has been through. */
  datatype Scope = Everything | InGroups(groups: set<string>)
  {
    predicate Covers(group: string) { Everything? || group in groups }
  }

  ghost function ScopeAfter(o: Options, processed: seq<Document>): Scope {
    InGroups(if o.cleanup == CleanupIncremental then Groups(o, processed) else {})
  }

  /** The batch size does not occur here, and incremental is not told from scoped_full. */
  ghost function FinalScope(o: Options, docs: seq<Document>): Scope {
    match o.cleanup
    case CleanupFull => Everything
    case CleanupIncremental => InGroups(Groups(o, docs))
    case CleanupScopedFull => InGroups(Groups(o, docs))
    case _ => InGroups({})
  }

  ghost predicate Same<T>(m: map<string, T>, n: map<string, T>, k: string) {
    (k in m <==> k in n) && (k in m ==> m[k] == n[k])
  }

  /** Every record was stamped before start, and its document is the one its key was derived from. */
  ghost predicate Consistent(o: Options, r0: Records, s0: Store, start: nat) {
    forall k :: k in r0 ==>
      && r0[k].stamp < start
      && k in s0 && s0[k].id == k && o.encode(s0[k]) == Some(k)
  }

  /** The records after docs have been processed and the records in scope have been cleaned, from r0. */
  ghost predicate RecordsSynced(o: Options, r0: Records, r: Records, docs: seq<Document>, scope: Scope, start: nat) {
    && (forall d :: d in docs ==> o.Key(d) in r && r[o.Key(d)].group == o.Group(d) && r[o.Key(d)].stamp >= start)
    && (forall k :: k in r0 && k !in Keys(o, docs) ==>
                      if scope.Covers(r0[k].group) then k !in r else Same(r0, r, k))
    && (forall k :: k !in r0 && k !in Keys(o, docs) ==> k !in r)
  }

  /** The destination at the same point. */
  ghost predicate StoreSynced(o: Options, r0: Records, s0: Store, s: Store, docs: seq<Document>, scope: Scope) {
    && (forall d :: d in docs ==> o.Key(d) in s && s[o.Key(d)] == o.Stored(d))
    && (forall k :: k in r0 && k !in Keys(o, docs) ==>
                      if scope.Covers(r0[k].group) then k !in s else Same(s0, s, k))
    && (forall k :: k !in r0 && k !in Keys(o, docs) ==> Same(s0, s, k))
  }

  ghost predicate Synced(o: Options, r0: Records, s0: Store, r: Records, s: Store,
                         docs: seq<Document>, scope: Scope, start: nat) {
    RecordsSynced(o, r0, r, docs, scope, start) && StoreSynced(o, r0, s0, s, docs, scope)
  }

  // ----- the effect of one batch and of one cleanup on the maps -----

  /** keys are the batch's distinct keys, docs the documents they were first derived from. */
  ghost predicate BatchOf(o: Options, batch: seq<Document>, keys: seq<string>, docs: seq<Document>) {
    && |keys| == |docs|
    && (forall i :: 0 <= i < |keys| ==> docs[i] in batch && o.encode(docs[i]) == Some(keys[i]))
    && (forall i, j :: 0 <= i < j < |keys| ==> keys[i] != keys[j])
    && (forall d :: d in batch ==> o.encode(d).Some? && o.Key(d) in keys)
  }

  ghost predicate RecordsStamped(o: Options, r: Records, r': Records, keys: seq<string>, docs: seq<Document>, now: nat)
    requires |keys| == |docs|
  {
    && (forall i :: 0 <= i < |keys| ==> keys[i] in r' && r'[keys[i]] == Record(o.Group(docs[i]), now))
    && (forall k :: k !in keys ==> Same(r, r', k))
  }

  /** Existing keys are skipped unless the update is forced. */
  ghost predicate StoreFilled(o: Options, r: Records, s: Store, s': Store, keys: seq<string>, docs: seq<Document>)
    requires |keys| == |docs|
  {
    && (forall i :: 0 <= i < |keys| ==>
                      if keys[i] in r && !o.forceUpdate then Same(s, s', keys[i])
                      else keys[i] in s' && s'[keys[i]] == docs[i].WithID(keys[i]))
    && (forall k :: k !in keys ==> Same(s, s', k))
  }

  /** No groups named means every group. */
  predicate Matches(record: Record, groups: seq<string>, before: nat) {
    (groups == [] || record.group in groups) && (before == 0 || record.stamp < before)
  }

  ghost function Stale(r: Records, groups: seq<string>, before: nat): set<string> {
    set k | k in r && Matches(r[k], groups, before)
  }

  ghost function Widen(scope: Scope, groups: seq<string>): Scope {
    if groups == [] || scope.Everything? then Everything else InGroups(scope.groups + set g | g in groups)
  }

  // ----- every step keeps the synchronisation -----

  lemma SameKeySameDocument(o: Options, d: Document, e: Document)
    requires EncoderLaw(o.encode) && o.encode(d).Some? && o.encode(d) == o.encode(e)
    ensures o.Group(d) == o.Group(e) && o.Stored(d) == o.Stored(e)
  {
  }

  lemma KeysAppend(o: Options, a: seq<Document>, b: seq<Document>)
    ensures Keys(o, a + b) == Keys(o, a) + Keys(o, b)
    ensures Groups(o, a + b) == Groups(o, a) + Groups(o, b)
  {
  }

  lemma BatchKeys(o: Options, batch: seq<Document>, keys: seq<string>, docs: seq<Document>)
    requires BatchOf(o, batch, keys, docs)
    ensures forall k :: k in Keys(o, batch) <==> k in keys
  {
    forall k | k in keys
      ensures k in Keys(o, batch)
    {
      var i :| 0 <= i < |keys| && keys[i] == k;
      assert docs[i] in batch && o.Key(docs[i]) == k;
    }
  }

  lemma BatchKeepsRecords(o: Options, r0: Records, r: Records, r': Records, processed: seq<Document>,
                          batch: seq<Document>, keys: seq<string>, docs: seq<Document>, scope: Scope, start: nat, now: nat)
    requires EncoderLaw(o.encode) && start <= now
    requires forall d :: d in processed ==> o.encode(d).Some?
    requires RecordsSynced(o, r0, r, processed, scope, start)
    requires BatchOf(o, batch, keys, docs) && RecordsStamped(o, r, r', keys, docs, now)
    ensures RecordsSynced(o, r0, r', processed + batch, scope, start)
  {
    KeysAppend(o, processed, batch);
    BatchKeys(o, batch, keys, docs);
    forall d | d in processed + batch
      ensures o.Key(d) in r' && r'[o.Key(d)].group == o.Group(d) && r'[o.Key(d)].stamp >= start
    {
      BatchRecord(o, r0, r, r', processed, batch, keys, docs, scope, start, now, d);
    }
    hide EncoderLaw, BatchOf, RecordsSynced;
    forall k | k !in Keys(o, processed + batch)
      ensures Same(r, r', k) && k !in Keys(o, processed)
    {
    }
    hide Keys, RecordsStamped;
    RecordsStaySynced(o, r0, r, r', processed, processed + batch, scope, start);
  }

  /** The records of all have been stamped, and the others have stayed. */
  lemma RecordsStaySynced(o: Options, r0: Records, r: Records, r': Records, processed: seq<Document>, all: seq<Document>,
                          scope: Scope, start: nat)
    requires RecordsSynced(o, r0, r, processed, scope, start)
    requires forall d :: d in all ==> o.Key(d) in r' && r'[o.Key(d)].group == o.Group(d) && r'[o.Key(d)].stamp >= start
    requires forall k :: k !in Keys(o, all) ==> Same(r, r', k) && k !in Keys(o, processed)
    ensures RecordsSynced(o, r0, r', all, scope, start)
  {
    hide Keys, Options.Key, Options.Group;
  }

  lemma BatchRecord(o: Options, r0: Records, r: Records, r': Records, processed: seq<Document>,
                    batch: seq<Document>, keys: seq<string>, docs: seq<Document>, scope: Scope, start: nat, now: nat, d: Document)
    requires EncoderLaw(o.encode) && start <= now
    requires forall e :: e in processed ==> o.encode(e).Some?
    requires RecordsSynced(o, r0, r, processed, scope, start)
    requires BatchOf(o, batch, keys, docs) && RecordsStamped(o, r, r', keys, docs, now)
    requires d in processed || d in batch
    ensures o.Key(d) in r' && r'[o.Key(d)].group == o.Group(d) && r'[o.Key(d)].stamp >= start
  {
    if i :| 0 <= i < |keys| && keys[i] == o.Key(d) {
      SameKeySameDocument(o, d, docs[i]);
    } else {
      assert o.Key(d) !in keys;
      assert Same(r, r', o.Key(d));
    }
  }

  /** A key that is skipped because it is recorded already has its document in the destination. */
  lemma RecordedIsStored(o: Options, r0: Records, s0: Store, r: Records, s: Store, processed: seq<Document>,
                         scope: Scope, start: nat, d: Document)
    requires EncoderLaw(o.encode) && Consistent(o, r0, s0, start)
    requires forall e :: e in processed ==> o.encode(e).Some?
    requires Synced(o, r0, s0, r, s, processed, scope, start)
    requires o.encode(d).Some? && o.Key(d) in r
    ensures o.Key(d) in s && s[o.Key(d)] == o.Stored(d)
  {
    var k := o.Key(d);
    if k in Keys(o, processed) {
      var e :| e in processed && o.Key(e) == k;
      SameKeySameDocument(o, d, e);
    } else {
      assert k in r0 && Same(s0, s, k);
      SameKeySameDocument(o, d, s0[k]);
    }
  }

  lemma BatchDocumentIsStored(o: Options, r0: Records, s0: Store, r: Records, s: Store, s': Store, processed: seq<Document>,
                              batch: seq<Document>, keys: seq<string>, docs: seq<Document>, scope: Scope, start: nat, d: Document)
    requires EncoderLaw(o.encode) && Consistent(o, r0, s0, start)
    requires forall d :: d in processed ==> o.encode(d).Some?
    requires Synced(o, r0, s0, r, s, processed, scope, start)
    requires BatchOf(o, batch, keys, docs) && StoreFilled(o, r, s, s', keys, docs)
    requires d in processed || d in batch
    ensures o.Key(d) in s' && s'[o.Key(d)] == o.Stored(d)
  {
    if i :| 0 <= i < |keys| && keys[i] == o.Key(d) {
      hide Consistent, Synced, Options.Key, Options.Stored;
      KeyMeans(o, d, docs[i], keys[i]);
      if keys[i] in r && !o.forceUpdate {
        RecordedIsStored(o, r0, s0, r, s, processed, scope, start, d);
        assert Same(s, s', keys[i]);
      }
    } else {
      hide Consistent, EncoderLaw;
      assert o.Key(d) !in keys;
      assert Same(s, s', o.Key(d));
    }
  }

  lemma KeyMeans(o: Options, d: Document, e: Document, k: string)
    requires EncoderLaw(o.encode) && o.encode(e) == Some(k) && k == o.Key(d)
    ensures o.encode(d).Some? && o.encode(d).value == k && o.Stored(d) == e.WithID(k)
  {
    if o.encode(d).Some? {
      SameKeySameDocument(o, d, e);
    }
  }

  lemma BatchKeepsStore(o: Options, r0: Records, s0: Store, r: Records, s: Store, s': Store, processed: seq<Document>,
                        batch: seq<Document>, keys: seq<string>, docs: seq<Document>, scope: Scope, start: nat)
    requires EncoderLaw(o.encode) && Consistent(o, r0, s0, start)
    requires forall d :: d in processed ==> o.encode(d).Some?
    requires Synced(o, r0, s0, r, s, processed, scope, start)
    requires BatchOf(o, batch, keys, docs) && StoreFilled(o, r, s, s', keys, docs)
    ensures StoreSynced(o, r0, s0, s', processed + batch, scope)
  {
    KeysAppend(o, processed, batch);
    BatchKeys(o, batch, keys, docs);
    forall d | d in processed + batch
      ensures o.Key(d) in s' && s'[o.Key(d)] == o.Stored(d)
    {
      BatchDocumentIsStored(o, r0, s0, r, s, s', processed, batch, keys, docs, scope, start, d);
    }
    UntouchedKeys(o, r0, s0, s, s', processed, scope, Keys(o, batch));
  }

  /** Outside the keys of a batch the destination stays as the scope demands. */
  lemma UntouchedKeys(o: Options, r0: Records, s0: Store, s: Store, s': Store, processed: seq<Document>,
                      scope: Scope, touched: set<string>)
    requires StoreSynced(o, r0, s0, s, processed, scope)
    requires forall k :: k !in touched ==> Same(s, s', k)
    ensures forall k :: k in r0 && k !in Keys(o, processed) + touched ==>
                          if scope.Covers(r0[k].group) then k !in s' else Same(s0, s', k)
    ensures forall k :: k !in r0 && k !in Keys(o, processed) + touched ==> Same(s0, s', k)
  {
    forall k | k !in Keys(o, processed) + touched
      ensures k in r0 ==> if scope.Covers(r0[k].group) then k !in s' else Same(s0, s', k)
      ensures k !in r0 ==> Same(s0, s', k)
    {
      assert Same(s, s', k);
      assert k !in r0 || !scope.Covers(r0[k].group) ==> Same(s0, s, k);
    }
  }

  lemma CleanupKeepsSynced(o: Options, r0: Records, s0: Store, r: Records, s: Store, docs: seq<Document>,
                           scope: Scope, groups: seq<string>, start: nat)
    requires Consistent(o, r0, s0, start) && start > 0
    requires Synced(o, r0, s0, r, s, docs, scope, start)
    ensures var stale := Stale(r, groups, start);
            Synced(o, r0, s0, r - stale, s - stale, docs, Widen(scope, groups), start)
  {
    var stale, wider := Stale(r, groups, start), Widen(scope, groups);
    StaleIsWidened(o, r0, s0, r, docs, scope, groups, start);
    RemovalKeepsRecords(o, r0, r, docs, scope, wider, start, stale);
    RemovalKeepsStore(o, r0, s0, s, docs, scope, wider, stale);
  }

  /** Of the old records outside the input, the stale ones are exactly those of the newly covered groups. */
  lemma StaleIsWidened(o: Options, r0: Records, s0: Store, r: Records, docs: seq<Document>,
                       scope: Scope, groups: seq<string>, start: nat)
    requires Consistent(o, r0, s0, start) && start > 0
    requires RecordsSynced(o, r0, r, docs, scope, start)
    ensures Removable(o, r0, docs, scope, Widen(scope, groups), Stale(r, groups, start))
  {
    forall k | k in r0 && k !in Keys(o, docs) && !scope.Covers(r0[k].group)
      ensures Widen(scope, groups).Covers(r0[k].group) <==> k in Stale(r, groups, start)
    {
      assert Same(r0, r, k);
    }
  }

  ghost predicate Removable(o: Options, r0: Records, docs: seq<Document>, scope: Scope, wider: Scope, stale: set<string>) {
    && (forall k :: k in Keys(o, docs) ==> k !in stale)
    && (forall k :: k !in r0 && k !in Keys(o, docs) ==> k !in stale)
    && (forall k :: k in r0 && k !in Keys(o, docs) ==>
                      && (scope.Covers(r0[k].group) ==> wider.Covers(r0[k].group))
                      && (!scope.Covers(r0[k].group) ==> (wider.Covers(r0[k].group) <==> k in stale)))
  }

  lemma RemovalKeepsRecords(o: Options, r0: Records, r: Records, docs: seq<Document>, scope: Scope, wider: Scope,
                            start: nat, stale: set<string>)
    requires Removable(o, r0, docs, scope, wider, stale) && RecordsSynced(o, r0, r, docs, scope, start)
    ensures RecordsSynced(o, r0, r - stale, docs, wider, start)
  {
  }

  lemma RemovalKeepsStore(o: Options, r0: Records, s0: Store, s: Store, docs: seq<Document>, scope: Scope, wider: Scope,
                          stale: set<string>)
    requires Removable(o, r0, docs, scope, wider, stale) && StoreSynced(o, r0, s0, s, docs, scope)
    ensures StoreSynced(o, r0, s0, s - stale, docs, wider)
  {
  }

  // ----- what being synchronised means for the caller -----

  /** Two synchronised end states of the same input agree at every key. */
  lemma EndStatesAgreeAt(o1: Options, o2: Options, r0: Records, s0: Store, docs: seq<Document>, scope: Scope,
                         r1: Records, s1: Store, start1: nat, r2: Records, s2: Store, start2: nat, k: string)
    requires o1.encode == o2.encode && o1.sourceIDKey == o2.sourceIDKey
    requires Synced(o1, r0, s0, r1, s1, docs, scope, start1)
    requires Synced(o2, r0, s0, r2, s2, docs, scope, start2)
    ensures Same(s1, s2, k)
    ensures (k in r1 <==> k in r2) && (k in r1 ==> r1[k].group == r2[k].group)
    ensures k in r1 && k !in Keys(o1, docs) ==> r1[k] == r2[k]
  {
    assert forall d :: o1.Key(d) == o2.Key(d) && o1.Group(d) == o2.Group(d);
    if k in Keys(o1, docs) {
      var d :| d in docs && o1.Key(d) == k;
      assert o2.Key(d) == k;
    } else {
      assert k !in Keys(o2, docs);
      if k in r0 && !scope.Covers(r0[k].group) {
        assert Same(s0, s1, k) && Same(s0, s2, k) && Same(r0, r1, k) && Same(r0, r2, k);
      }
      if k !in r0 {
        assert Same(s0, s1, k) && Same(s0, s2, k);
      }
    }
  }

  /**
   The end state is a function of the start state and the input: whatever the batch sizes, and with
   incremental and scoped_full interchangeable, two runs end with the same destination and, timestamps
   aside, the same records.
   */
  lemma EndStateIsDetermined(o1: Options, o2: Options, r0: Records, s0: Store, docs: seq<Document>,
                             r1: Records, s1: Store, start1: nat, r2: Records, s2: Store, start2: nat)
    requires o1.encode == o2.encode && o1.sourceIDKey == o2.sourceIDKey
    requires FinalScope(o1, docs) == FinalScope(o2, docs)
    requires Synced(o1, r0, s0, r1, s1, docs, FinalScope(o1, docs), start1)
    requires Synced(o2, r0, s0, r2, s2, docs, FinalScope(o2, docs), start2)
    ensures s1 == s2
    ensures r1.Keys == r2.Keys && forall k :: k in r1 ==> r1[k].group == r2[k].group
    ensures forall k :: k in r1 && k !in Keys(o1, docs) ==> r1[k] == r2[k]
  {
    var scope := FinalScope(o1, docs);
    forall k: string
      ensures Same(s1, s2, k) && (k in r1 <==> k in r2) && (k in r1 ==> r1[k].group == r2[k].group)
      ensures k in r1 && k !in Keys(o1, docs) ==> r1[k] == r2[k]
    {
      EndStatesAgreeAt(o1, o2, r0, s0, docs, scope, r1, s1, start1, r2, s2, start2, k);
    }
    StoresEqual(s1, s2);
  }

  /** Incremental, batch by batch, and scoped_full, once at the end, clean the same groups. */
  lemma IncrementalCleansLikeScopedFull(o1: Options, o2: Options, docs: seq<Document>)
    requires o1.encode == o2.encode && o1.sourceIDKey == o2.sourceIDKey
    requires o1.cleanup == o2.cleanup || (o1.cleanup == CleanupIncremental && o2.cleanup == CleanupScopedFull)
    ensures FinalScope(o1, docs) == FinalScope(o2, docs)
  {
    assert forall d :: o1.Group(d) == o2.Group(d);
    assert Groups(o1, docs) == Groups(o2, docs);
  }

  lemma StoresEqual(s1: Store, s2: Store)
    requires forall k :: Same(s1, s2, k)
    ensures s1 == s2
  {
    assert forall k :: k in s1 ==> Same(s1, s2, k);
    assert forall k :: k in s2 ==> Same(s1, s2, k);
  }

  /** The two stores agree on their keys, and the surviving keys are these. */
  lemma StoresAgree(o: Options, r0: Records, s0: Store, r: Records, s: Store, docs: seq<Document>, start: nat)
    requires Synced(o, r0, s0, r, s, docs, FinalScope(o, docs), start)
    requires r0.Keys == s0.Keys
    ensures r.Keys == s.Keys
    ensures r.Keys == Keys(o, docs) + (set k | k in r0 && k !in Keys(o, docs) && !FinalScope(o, docs).Covers(r0[k].group))
    ensures o.cleanup == CleanupFull ==> r.Keys == Keys(o, docs)
    ensures o.cleanup == CleanupNone ==> r.Keys == Keys(o, docs) + r0.Keys
  {
    forall k
      ensures k in r <==> k in s
      ensures k in r <==> k in Keys(o, docs) || (k in r0 && !FinalScope(o, docs).Covers(r0[k].group))
    {
      if k in Keys(o, docs) {
        var d :| d in docs && o.Key(d) == k;
      }
    }
  }
}
