/** The in-memory record manager and the in-memory document index, updated in place. */
module RecordManager {
  import opened Common
  import opened IndexSpec

  /** records with the entry of every listed key replaced; a later duplicate wins. */
  function Stamp(records: Records, keys: seq<string>, groups: seq<string>, now: nat): Records
    requires groups == [] || |groups| == |keys|
  {
    if keys == [] then records
    else
      var last := |keys| - 1;
      Stamp(records, keys[..last], if groups == [] then [] else groups[..last], now)
        [keys[last] := Record(if groups == [] then "" else groups[last], now)]
  }

  lemma {:induction false} KeySetSize(keys: seq<string>)
    requires NoDuplicates(keys)
    ensures |KeySet(keys)| == |keys|
  {
    if keys != [] {
      var last := |keys| - 1;
      KeySetSize(keys[..last]);
      KeySetTake(keys, last);
      assert keys[..last + 1] == keys;
    }
  }

  predicate NoDuplicates(keys: seq<string>) {
    forall i, j :: 0 <= i < j < |keys| ==> keys[i] != keys[j]
  }

  function GroupAt(groups: seq<string>, i: nat): string {
    if i < |groups| then groups[i] else ""
  }

  /** What Stamp does when the keys are distinct: those keys are set, no other changes, and the count grows by the new ones. */
  lemma {:induction false} StampDistinct(records: Records, keys: seq<string>, groups: seq<string>, now: nat)
    requires groups == [] || |groups| == |keys|
    requires NoDuplicates(keys)
    ensures var r := Stamp(records, keys, groups, now);
            && (forall i :: 0 <= i < |keys| ==> keys[i] in r && r[keys[i]] == Record(GroupAt(groups, i), now))
            && (forall k :: k !in keys ==> Same(records, r, k))
            && |r| == |records| + NewKeys(records, keys)
  {
    if keys != [] {
      var last := |keys| - 1;
      var shorter := keys[..last];
      var less := if groups == [] then [] else groups[..last];
      StampDistinct(records, shorter, less, now);
      var before := Stamp(records, shorter, less, now);
      var record := Record(GroupAt(groups, last), now);
      assert Stamp(records, keys, groups, now) == before[keys[last] := record];
      assert NewKeys(records, keys) == NewKeys(records, shorter) + if keys[last] in records then 0 else 1;
      hide Stamp, NewKeys;
      assert Same(records, before, keys[last]);
      MapPutSize(before, keys[last], record);
      forall k | k !in keys
        ensures Same(records, before[keys[last] := record], k)
      {
        assert k !in shorter && k != keys[last];
      }
      forall i | 0 <= i < |keys|
        ensures keys[i] in before[keys[last] := record] && before[keys[last] := record][keys[i]] == Record(GroupAt(groups, i), now)
      {
        assert i < last ==> shorter[i] == keys[i] && GroupAt(less, i) == GroupAt(groups, i);
      }
    }
  }

  lemma MapPutSize<T>(m: map<string, T>, k: string, v: T)
    ensures |m[k := v]| == |m| + (if k in m then 0 else 1)
  {
    assert m[k := v].Keys == m.Keys + {k};
  }

  function KeySet(keys: seq<string>): set<string> { set k | k in keys }

  lemma KeySetTake(keys: seq<string>, i: nat)
    requires i < |keys|
    ensures KeySet(keys[..i + 1]) == KeySet(keys[..i]) + {keys[i]}
  {
    assert keys[..i + 1] == keys[..i] + [keys[i]];
  }

  /** How many of the keys have no record. */
  function NewKeys(records: Records, keys: seq<string>): nat {
    if keys == [] then 0
    else NewKeys(records, keys[..|keys| - 1]) + (if keys[|keys| - 1] in records then 0 else 1)
  }

  class InMemoryRecordManager {
    const namespace: string
    var records: Records
    var clock: nat

    constructor (namespace: string, now: nat)
      requires now > 0
      ensures Valid() && View() == map[] && clock == now
    {
      this.namespace := namespace;
      records := map[];
      clock := now;
    }

    function Namespaced(key: string): string {
      if namespace == "" then key else namespace + ":" + key
    }

    function Unnamespaced(key: string): string {
      var prefix := namespace + ":";
      if namespace != "" && |key| >= |prefix| && key[..|prefix|] == prefix then key[|prefix|..] else key
    }

    lemma NamespaceRoundTrip(key: string)
      ensures Unnamespaced(Namespaced(key)) == key
    {
      if namespace != "" {
        assert (namespace + ":" + key)[|namespace + ":"|..] == key;
      }
    }

    /** Only namespaced keys are ever stored. */
    ghost predicate Valid()
      reads this
    {
      clock > 0 && forall stored :: stored in records ==> Namespaced(Unnamespaced(stored)) == stored
    }

    /** The records by the caller's keys. */
    ghost function View(): Records
      reads this
    {
      var keys := set stored | stored in records :: Unnamespaced(stored);
      map k | k in keys && Namespaced(k) in records :: records[Namespaced(k)]
    }

    lemma ViewFacts()
      requires Valid()
      ensures forall k {:trigger Namespaced(k)} :: Unnamespaced(Namespaced(k)) == k
      ensures forall k {:trigger Namespaced(k)} {:trigger k in View()} :: k in View() <==> Namespaced(k) in records
      ensures forall k :: k in View() ==> View()[k] == records[Namespaced(k)]
    {
      forall k {:trigger Namespaced(k)}
        ensures Unnamespaced(Namespaced(k)) == k
      {
        NamespaceRoundTrip(k);
      }
    }

    lemma StoredIff(key: string)
      requires Valid()
      ensures key in View() <==> Namespaced(key) in records
    {
      ViewFacts();
    }

    /** The wall clock: it never runs backwards. */
    method GetTime() returns (now: nat)
      requires Valid()
      modifies this`clock
      ensures Valid() && now == clock >= old(clock) && View() == old(View())
    {
      var tick: nat :| true;
      clock := clock + tick;
      now := clock;
    }

    method Update(keys: seq<string>, groupIDs: seq<string>, timeAtLeast: nat) returns (failed: bool)
      requires Valid()
      modifies this
      ensures Valid() && clock >= old(clock)
      ensures |groupIDs| > 0 && |keys| != |groupIDs| ==> failed
      ensures failed ==> (|groupIDs| > 0 && |keys| != |groupIDs|) || clock < timeAtLeast
      ensures failed ==> View() == old(View())
      ensures !failed ==> clock >= timeAtLeast && View() == Stamp(old(View()), keys, groupIDs, clock)
    {
      if |groupIDs| > 0 && |keys| != |groupIDs| {
        return true;
      }
      var now := GetTime();
      if timeAtLeast != 0 && now < timeAtLeast {
        return true;
      }
      ghost var before := View();
      for i := 0 to |keys|
        invariant Valid() && clock == now
        invariant View() == Stamp(before, keys[..i], if groupIDs == [] then [] else groupIDs[..i], now)
      {
        var group := if |groupIDs| > 0 then groupIDs[i] else "";
        assert keys[..i + 1][..i] == keys[..i];
        assert groupIDs != [] ==> groupIDs[..i + 1][..i] == groupIDs[..i];
        Put(keys[i], Record(group, now));
      }
      assert keys[..|keys|] == keys && groupIDs[..|groupIDs|] == groupIDs;
      failed := false;
    }

    method Put(key: string, record: Record)
      requires Valid()
      modifies this`records
      ensures Valid() && View() == old(View())[key := record]
    {
      NamespaceRoundTrip(key);
      ghost var before := View();
      records := records[Namespaced(key) := record];
      assert forall k :: k in View() <==> k in before || k == key;
    }

    method Remove(key: string)
      requires Valid()
      modifies this`records
      ensures Valid() && View() == old(View()) - {key}
    {
      NamespaceRoundTrip(key);
      ghost var before := View();
      records := records - {Namespaced(key)};
      assert forall k :: k in View() <==> k in before && k != key;
    }

    method Exists(keys: seq<string>) returns (out: seq<bool>)
      requires Valid()
      ensures |out| == |keys| && forall i :: 0 <= i < |keys| ==> (out[i] <==> keys[i] in View())
    {
      hide View, Valid, Namespaced;
      out := [];
      for i := 0 to |keys|
        invariant |out| == i && forall j :: 0 <= j < i ==> (out[j] <==> keys[j] in View())
      {
        StoredIff(keys[i]);
        out := out + [Namespaced(keys[i]) in records];
      }
    }

    method DeleteKeys(keys: seq<string>)
      requires Valid()
      modifies this`records
      ensures Valid() && View() == old(View()) - KeySet(keys)
    {
      for i := 0 to |keys|
        invariant Valid() && View() == old(View()) - KeySet(keys[..i])
      {
        Remove(keys[i]);
        KeySetTake(keys, i);
      }
      assert keys[..|keys|] == keys;
    }

    /** Up to limit distinct keys of matching records, in no particular order. */
    method ListKeys(groupIDs: seq<string>, before: nat, limit: int) returns (out: seq<string>)
      requires Valid()
      ensures forall k :: k in out ==> k in Stale(View(), groupIDs, before)
      ensures forall i, j :: 0 <= i < j < |out| ==> out[i] != out[j]
      ensures limit > 0 ==> |out| <= limit
      ensures limit <= 0 || |out| < limit ==> forall k :: k in Stale(View(), groupIDs, before) ==> k in out
    {
      out := [];
      var rest := records.Keys;
      while rest != {}
        invariant rest <= records.Keys
        invariant forall k :: k in out ==> k in Stale(View(), groupIDs, before) && Namespaced(k) !in rest
        invariant forall i, j :: 0 <= i < j < |out| ==> out[i] != out[j]
        invariant limit > 0 ==> |out| < limit
        invariant forall k :: k in Stale(View(), groupIDs, before) ==> k in out || Namespaced(k) in rest
        decreases rest
      {
        var stored :| stored in rest;
        rest := rest - {stored};
        var key := Unnamespaced(stored);
        ViewFacts();
        var record := records[stored];
        if Matches(record, groupIDs, before) {
          out := out + [key];
          if limit > 0 && |out| >= limit {
            break;
          }
        }
      }
    }
  }

  class InMemoryDocumentIndex {
    var store: Store

    constructor ()
      ensures store == map[]
    {
      store := map[];
    }

    /** Items without an ID get a generated one, which may fail to be generated. */
    method Upsert(items: seq<Document>) returns (failed: bool, succeeded: seq<string>)
      modifies this
      ensures (forall i :: 0 <= i < |items| ==> items[i].id != "") ==>
                !failed && store == Overwrite(old(store), items) && |succeeded| == |items|
                && forall i :: 0 <= i < |items| ==> succeeded[i] == items[i].id
      ensures old(store).Keys <= store.Keys
    {
      succeeded := [];
      for i := 0 to |items|
        invariant (forall j :: 0 <= j < i ==> items[j].id != "") ==>
                    store == Overwrite(old(store), items[..i]) && |succeeded| == i
                    && forall j :: 0 <= j < i ==> succeeded[j] == items[j].id
        invariant old(store).Keys <= store.Keys
      {
        var item := items[i];
        var id := item.id;
        if id == "" {
          var generated: string := *;
          if generated == "" {
            return true, [];
          }
          id := generated;
          item := item.WithID(id);
        }
        assert items[..i + 1][..i] == items[..i];
        store := store[id := item];
        succeeded := succeeded + [id];
      }
      assert items[..|items|] == items;
      failed := false;
    }

    /** A nil slice is an error; otherwise the listed IDs that exist are removed, each reported once. */
    method Delete(ids: Option<seq<string>>) returns (failed: bool, succeeded: seq<string>)
      modifies this
      ensures failed <==> ids.None?
      ensures failed ==> store == old(store)
      ensures !failed ==> store == old(store) - KeySet(ids.value)
      ensures !failed ==> succeeded == Removed(old(store), ids.value)
    {
      succeeded := [];
      if ids.None? {
        return true, [];
      }
      var wanted := ids.value;
      for i := 0 to |wanted|
        invariant store == old(store) - KeySet(wanted[..i])
        invariant succeeded == Removed(old(store), wanted[..i])
      {
        KeySetTake(wanted, i);
        assert wanted[..i + 1][..i] == wanted[..i];
        if wanted[i] in store {
          store := store - {wanted[i]};
          succeeded := succeeded + [wanted[i]];
        }
      }
      assert wanted[..|wanted|] == wanted;
      failed := false;
    }

    /** The documents whose IDs exist, in the order of the IDs. */
    method Get(ids: seq<string>) returns (out: seq<Document>)
      ensures out == Lookup(store, ids)
    {
      out := [];
      for i := 0 to |ids|
        invariant out + Lookup(store, ids[i..]) == Lookup(store, ids)
      {
        if ids[i] in store {
          out := out + [store[ids[i]]];
        }
      }
    }
  }

  /** The IDs a delete reports: each existing one once, at its first mention. */
  function Removed(store: Store, ids: seq<string>): seq<string> {
    if ids == [] then []
    else
      var last := |ids| - 1;
      Removed(store, ids[..last])
      + (if ids[last] in store && ids[last] !in KeySet(ids[..last]) then [ids[last]] else [])
  }

  /** The reported IDs are the existing ones. */
  lemma {:induction false} RemovedMembers(store: Store, ids: seq<string>, id: string)
    ensures id in Removed(store, ids) <==> id in store && id in ids
  {
    if ids != [] {
      var last := |ids| - 1;
      RemovedMembers(store, ids[..last], id);
      assert ids == ids[..last] + [ids[last]];
    }
  }

  /** Their number is what the index has lost. */
  lemma {:induction false} RemovedIsTheLoss(store: Store, ids: seq<string>)
    ensures |store| == |store - KeySet(ids)| + |Removed(store, ids)|
  {
    if ids == [] {
      assert store - KeySet(ids) == store;
    } else {
      var last := |ids| - 1;
      RemovedIsTheLoss(store, ids[..last]);
      KeySetTake(ids, last);
      assert ids[..last + 1] == ids;
      RemoveOneSize(store, KeySet(ids[..last]), ids[last]);
    }
  }

  lemma RemoveOneSize<T>(m: map<string, T>, gone: set<string>, k: string)
    ensures |m - (gone + {k})| == |m - gone| - (if k in m && k !in gone then 1 else 0)
  {
    var left, less := (m - gone).Keys, (m - (gone + {k})).Keys;
    assert |m - gone| == |left| && |m - (gone + {k})| == |less|;
    assert less == left - {k};
    assert k in left <==> k in m && k !in gone;
  }

  function Lookup(store: Store, ids: seq<string>): seq<Document> {
    if ids == [] then []
    else (if ids[0] in store then [store[ids[0]]] else []) + Lookup(store, ids[1..])
  }

  /** The contents after the items have been stored in order. */
  function Overwrite(store: Store, items: seq<Document>): Store {
    if items == [] then store
    else
      var last := |items| - 1;
      Overwrite(store, items[..last])[items[last].id := items[last]]
  }

  lemma {:induction false} OverwriteDistinct(store: Store, items: seq<Document>)
    requires forall i, j :: 0 <= i < j < |items| ==> items[i].id != items[j].id
    ensures var s := Overwrite(store, items);
            && (forall i :: 0 <= i < |items| ==> items[i].id in s && s[items[i].id] == items[i])
            && (forall k :: (forall i :: 0 <= i < |items| ==> items[i].id != k) ==> Same(store, s, k))
  {
    if items != [] {
      var last := |items| - 1;
      OverwriteDistinct(store, items[..last]);
      forall k | forall i :: 0 <= i < |items| ==> items[i].id != k
        ensures Same(store, Overwrite(store, items), k)
      {
        assert items[last].id != k;
        assert Same(store, Overwrite(store, items[..last]), k);
      }
    }
  }

  /** What is got after an upsert of documents with distinct IDs is what was put, in the order asked for. */
  lemma {:induction false} GetAfterUpsert(store: Store, items: seq<Document>, ids: seq<string>)
    requires forall i, j :: 0 <= i < j < |items| ==> items[i].id != items[j].id
    requires |ids| <= |items| && forall i :: 0 <= i < |ids| ==> ids[i] == items[i].id
    ensures Lookup(Overwrite(store, items), ids) == items[..|ids|]
  {
    OverwriteDistinct(store, items);
    LookupAll(Overwrite(store, items), ids, items[..|ids|]);
  }

  lemma {:induction false} LookupAll(store: Store, ids: seq<string>, docs: seq<Document>)
    requires |ids| == |docs|
    requires forall i :: 0 <= i < |ids| ==> ids[i] in store && store[ids[i]] == docs[i]
    ensures Lookup(store, ids) == docs
  {
    if ids != [] {
      LookupAll(store, ids[1..], docs[1..]);
    }
  }
}
