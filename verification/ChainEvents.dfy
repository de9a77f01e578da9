/**
 Chain events: the log a tree of runs emits, the bracket discipline of such a log, and the registry
 that rebuilds each run's ancestor chain from the log alone.
 */
module ChainEvents {
  import opened Common

  /** A run ID; 0 is the empty string. */
  type ID = nat

  datatype Kind = ChainStart | ChainEnd | ChainError
  datatype Event = Event(kind: Kind, run: ID, parent: ID)

  /** What runs inside a run: a function body, a Passthrough hook, or the children of another combinator. */
  datatype Role = Body | Hook | Combinator

  /** One run and the runs it started, in order; key tells invocations apart even when they share a run ID. */
  datatype RunTree = RunTree(key: nat, role: Role, id: ID, parent: ID, ok: bool, children: seq<RunTree>)

  function Log(t: RunTree): seq<Event> {
    [Event(ChainStart, t.id, t.parent)] + LogAll(t.children)
    + [Event(if t.ok then ChainEnd else ChainError, t.id, t.parent)]
  }

  function LogAll(ts: seq<RunTree>): seq<Event> {
    if ts == [] then [] else Log(ts[0]) + LogAll(ts[1..])
  }

  function Ids(t: RunTree): seq<ID> { [t.id] + IdsAll(t.children) }

  function IdsAll(ts: seq<RunTree>): seq<ID> {
    if ts == [] then [] else Ids(ts[0]) + IdsAll(ts[1..])
  }

  ghost predicate Distinct(ids: seq<ID>) {
    forall i, j :: 0 <= i < j < |ids| ==> ids[i] != ids[j]
  }

  // ----- the bracket discipline -----

  /** The innermost open run, root first; none is the empty ID. */
  function Top(stack: seq<ID>): ID { if stack == [] then 0 else stack[|stack| - 1] }

  /** A start names the innermost open run as its parent; an end or error closes the innermost open run. */
  function ReplayOne(stack: seq<ID>, e: Event): Option<seq<ID>> {
    if e.kind == ChainStart then
      if e.parent == Top(stack) then Some(stack + [e.run]) else None
    else if stack != [] && Top(stack) == e.run && Top(stack[..|stack| - 1]) == e.parent then Some(stack[..|stack| - 1])
    else None
  }

  function Replay(stack: seq<ID>, log: seq<Event>): Option<seq<ID>>
    decreases |log|
  {
    if log == [] then Some(stack)
    else
      var next := ReplayOne(stack, log[0]);
      if next.None? then None else Replay(next.value, log[1..])
  }

  lemma {:induction false} ReplayAppend(stack: seq<ID>, a: seq<Event>, b: seq<Event>)
    ensures Replay(stack, a + b) == if Replay(stack, a).None? then None else Replay(Replay(stack, a).value, b)
    decreases |a|
  {
    if a == [] {
      assert a + b == b;
    } else {
      assert (a + b)[1..] == a[1..] + b && (a + b)[0] == a[0];
      var next := ReplayOne(stack, a[0]);
      if next.Some? {
        ReplayAppend(next.value, a[1..], b);
      }
    }
  }

  /** Every run names the run that started it as its parent. */
  predicate Proper(t: RunTree) {
    AllProper(t.children, t.id)
  }

  predicate AllProper(ts: seq<RunTree>, parent: ID) {
    ts == [] || (ts[0].parent == parent && Proper(ts[0]) && AllProper(ts[1..], parent))
  }

  /** A run tree's log is well bracketed below the innermost open run exactly when every run names its starter. */
  lemma {:induction false} LogIsBracketed(t: RunTree, stack: seq<ID>)
    requires Top(stack) == t.parent
    ensures Replay(stack, Log(t)) == if Proper(t) then Some(stack) else None
    decreases t, 1
  {
    var open := [Event(ChainStart, t.id, t.parent)];
    var close := [Event(if t.ok then ChainEnd else ChainError, t.id, t.parent)];
    var inner := stack + [t.id];
    assert inner[..|inner| - 1] == stack;
    assert Replay(stack, open) == Replay(inner, open[1..]) == Some(inner);
    LogAllIsBracketed(t.children, inner);
    ReplayAppend(stack, open, LogAll(t.children));
    ReplayAppend(stack, open + LogAll(t.children), close);
    assert Replay(inner, close) == Replay(stack, close[1..]) == Some(stack);
  }

  lemma {:induction false} LogAllIsBracketed(ts: seq<RunTree>, stack: seq<ID>)
    ensures Replay(stack, LogAll(ts)) == if AllProper(ts, Top(stack)) then Some(stack) else None
    decreases ts, 0
  {
    if ts != [] {
      ReplayAppend(stack, Log(ts[0]), LogAll(ts[1..]));
      if ts[0].parent == Top(stack) {
        LogIsBracketed(ts[0], stack);
        LogAllIsBracketed(ts[1..], stack);
      } else {
        assert Log(ts[0])[0] == Event(ChainStart, ts[0].id, ts[0].parent);
        assert Replay(stack, Log(ts[0])) == None;
      }
    }
  }

  // ----- which option each role hands on -----

  /** Hooks receive the options of their own run, bodies one derived configuration, other children one each. */
  predicate Shaped(t: RunTree) {
    && t.parent != t.id
    && (t.role == Body ==> forall j, k :: 0 <= j < k < |t.children| ==> t.children[j].id == t.children[k].id)
    && AllShaped(t.children, if t.role == Hook then t.parent else t.id)
  }

  predicate AllShaped(ts: seq<RunTree>, parent: ID) {
    ts == [] || (ts[0].parent == parent && Shaped(ts[0]) && AllShaped(ts[1..], parent))
  }

  /** No hook called a runnable with the options it received. */
  predicate HooksQuiet(t: RunTree) {
    (t.role == Hook ==> t.children == []) && AllHooksQuiet(t.children)
  }

  predicate AllHooksQuiet(ts: seq<RunTree>) {
    ts == [] || (HooksQuiet(ts[0]) && AllHooksQuiet(ts[1..]))
  }

  /** No function body called more than one runnable with the options it received. */
  predicate BodiesCallOnce(t: RunTree) {
    (t.role == Body ==> |t.children| <= 1) && AllBodiesCallOnce(t.children)
  }

  predicate AllBodiesCallOnce(ts: seq<RunTree>) {
    ts == [] || (BodiesCallOnce(ts[0]) && AllBodiesCallOnce(ts[1..]))
  }

  predicate Quiet(t: RunTree) { HooksQuiet(t) && BodiesCallOnce(t) }
  predicate AllQuiet(ts: seq<RunTree>) { AllHooksQuiet(ts) && AllBodiesCallOnce(ts) }

  /** A hook's callee names the wrong parent, nothing else does. */
  lemma {:induction false} ProperIffHooksQuiet(t: RunTree)
    requires Shaped(t)
    ensures Proper(t) <==> HooksQuiet(t)
    decreases t, 1
  {
    if t.role != Hook {
      AllProperIffHooksQuiet(t.children, t.id);
    }
  }

  lemma {:induction false} AllProperIffHooksQuiet(ts: seq<RunTree>, parent: ID)
    requires AllShaped(ts, parent)
    ensures AllProper(ts, parent) <==> AllHooksQuiet(ts)
    decreases ts, 0
  {
    if ts != [] {
      ProperIffHooksQuiet(ts[0]);
      AllProperIffHooksQuiet(ts[1..], parent);
    }
  }

  lemma DistinctParts(a: seq<ID>, b: seq<ID>)
    requires Distinct(a + b)
    ensures Distinct(a) && Distinct(b)
    ensures forall x :: x in a ==> x !in b
  {
    var all := a + b;
    forall i, j | 0 <= i < j < |a| ensures a[i] != a[j] {
      assert all[i] != all[j];
    }
    forall i, j | 0 <= i < j < |b| ensures b[i] != b[j] {
      assert all[|a| + i] != all[|a| + j];
    }
    forall i, j | 0 <= i < |a| && 0 <= j < |b| ensures a[i] != b[j] {
      assert all[i] != all[|a| + j];
    }
  }

  lemma SharedIDRepeats(ts: seq<RunTree>)
    requires |ts| > 1 && ts[0].id == ts[1].id
    ensures !Distinct(IdsAll(ts))
  {
    var all, k := IdsAll(ts), |Ids(ts[0])|;
    var rest := ts[1..];
    assert rest[0] == ts[1] && IdsAll(rest) == Ids(rest[0]) + IdsAll(rest[1..]);
    assert all == Ids(ts[0]) + IdsAll(rest);
    assert all[0] == ts[0].id && all[k] == ts[1].id;
  }

  /** Two calls with one minted ID open it twice. */
  lemma {:induction false} DistinctCallsOnce(t: RunTree)
    requires Shaped(t) && Distinct(Ids(t))
    ensures BodiesCallOnce(t)
    decreases t, 1
  {
    DistinctParts([t.id], IdsAll(t.children));
    AllDistinctCallOnce(t.children, if t.role == Hook then t.parent else t.id);
    if t.role == Body && |t.children| > 1 {
      SharedIDRepeats(t.children);
    }
  }

  lemma {:induction false} AllDistinctCallOnce(ts: seq<RunTree>, parent: ID)
    requires AllShaped(ts, parent) && Distinct(IdsAll(ts))
    ensures AllBodiesCallOnce(ts)
    decreases ts, 0
  {
    if ts != [] {
      DistinctParts(Ids(ts[0]), IdsAll(ts[1..]));
      DistinctCallsOnce(ts[0]);
      AllDistinctCallOnce(ts[1..], parent);
    }
  }

  // ----- every run opens once and closes once -----

  function Opened(log: seq<Event>): seq<ID> {
    if log == [] then []
    else (if log[0].kind == ChainStart then [log[0].run] else []) + Opened(log[1..])
  }

  function Closed(log: seq<Event>): seq<ID> {
    if log == [] then []
    else (if log[0].kind != ChainStart then [log[0].run] else []) + Closed(log[1..])
  }

  function Times(ids: seq<ID>, id: ID): nat { multiset(ids)[id] }

  lemma TimesAppend(a: seq<ID>, b: seq<ID>, id: ID)
    ensures Times(a + b, id) == Times(a, id) + Times(b, id)
  {
  }

  /** Whatever replays from one stack to another: what was open or opened is what is closed or still open. */
  lemma {:induction false} OpensMatchCloses(stack: seq<ID>, log: seq<Event>, id: ID)
    requires Replay(stack, log).Some?
    ensures Times(stack, id) + Times(Opened(log), id) == Times(Closed(log), id) + Times(Replay(stack, log).value, id)
    decreases |log|
  {
    hide Times;
    if log != [] {
      var e, rest := log[0], log[1..];
      var next := ReplayOne(stack, e).value;
      OpensMatchCloses(next, rest, id);
      if e.kind == ChainStart {
        TimesAppend(stack, [e.run], id);
        TimesAppend([e.run], Opened(rest), id);
        assert Opened(log) == [e.run] + Opened(rest) && Closed(log) == Closed(rest);
      } else {
        assert stack == next + [e.run];
        TimesAppend(next, [e.run], id);
        TimesAppend([e.run], Closed(rest), id);
        assert Closed(log) == [e.run] + Closed(rest) && Opened(log) == Opened(rest);
      }
    }
  }

  lemma {:induction false} OpenedAppend(a: seq<Event>, b: seq<Event>)
    ensures Opened(a + b) == Opened(a) + Opened(b)
  {
    if a == [] {
      assert a + b == b;
    } else {
      var head := if a[0].kind == ChainStart then [a[0].run] else [];
      assert (a + b)[1..] == a[1..] + b && (a + b)[0] == a[0];
      assert Opened(a + b) == head + Opened(a[1..] + b) && Opened(a) == head + Opened(a[1..]);
      hide Opened;
      OpenedAppend(a[1..], b);
      Associative(head, Opened(a[1..]), Opened(b));
    }
  }

  lemma {:induction false} OpenedIsIds(t: RunTree)
    ensures Opened(Log(t)) == Ids(t)
    decreases t, 1
  {
    var open := [Event(ChainStart, t.id, t.parent)];
    var close := [Event(if t.ok then ChainEnd else ChainError, t.id, t.parent)];
    OpenedAppend(open, LogAll(t.children));
    OpenedAppend(open + LogAll(t.children), close);
    assert Opened(open) == [t.id] + Opened(open[1..]);
    assert Opened(close) == Opened(close[1..]) == [];
    OpenedAllIsIds(t.children);
  }

  lemma {:induction false} OpenedAllIsIds(ts: seq<RunTree>)
    ensures Opened(LogAll(ts)) == IdsAll(ts)
    decreases ts, 0
  {
    if ts != [] {
      OpenedIsIds(ts[0]);
      OpenedAllIsIds(ts[1..]);
      OpenedAppend(Log(ts[0]), LogAll(ts[1..]));
    }
  }

  lemma {:induction false} DistinctTimes(ids: seq<ID>, id: ID)
    requires Distinct(ids)
    ensures Times(ids, id) == if id in ids then 1 else 0
  {
    if ids != [] {
      DistinctTimes(ids[1..], id);
      assert ids == [ids[0]] + ids[1..];
      TimesAppend([ids[0]], ids[1..], id);
    }
  }

  /** In the log of a proper tree with distinct IDs every run of the tree opens exactly once and closes exactly once. */
  lemma EachRunOpensAndClosesOnce(t: RunTree, id: ID)
    requires Distinct(Ids(t)) && Proper(t)
    ensures Times(Opened(Log(t)), id) == (if id in Ids(t) then 1 else 0)
    ensures Times(Closed(Log(t)), id) == (if id in Ids(t) then 1 else 0)
  {
    hide Log, Ids, Times, Distinct, Proper;
    OpenedIsIds(t);
    DistinctTimes(Ids(t), id);
    var stack := if t.parent == 0 then [] else [t.parent];
    LogIsBracketed(t, stack);
    OpensMatchCloses(stack, Log(t), id);
  }

  /**
   The log replays and opens no run twice exactly when no hook called a runnable with its options and no body called
   two.
   */
  lemma SoundLogIffQuiet(t: RunTree, stack: seq<ID>)
    requires Shaped(t) && Top(stack) == t.parent
    requires Quiet(t) ==> Distinct(Ids(t))
    ensures Replay(stack, Log(t)) == if HooksQuiet(t) then Some(stack) else None
    ensures Replay(stack, Log(t)).Some? && Distinct(Opened(Log(t))) <==> Quiet(t)
  {
    hide Shaped, Log, Ids, Distinct, Proper, HooksQuiet, BodiesCallOnce;
    LogIsBracketed(t, stack);
    ProperIffHooksQuiet(t);
    OpenedIsIds(t);
    if Distinct(Ids(t)) {
      DistinctCallsOnce(t);
    }
  }

  // ----- rebuilding the ancestor chains -----

  type Parents = map<ID, seq<ID>>

  /** The chain resolve returns for one event. */
  function ChainOf(parents: Parents, run: ID, parent: ID): seq<ID> {
    if parent == 0 then []
    else if run in parents && run != 0 then parents[run]
    else (if parent in parents then parents[parent] else []) + [parent]
  }

  /** What it leaves in the cache. */
  function Cached(parents: Parents, run: ID, parent: ID): Parents {
    if parent == 0 || run == 0 || run in parents then parents
    else parents[run := ChainOf(parents, run, parent)]
  }

  class ParentIDRegistry {
    var parents: Parents

    constructor ()
      ensures parents == map[]
    {
      parents := map[];
    }

    /** The ancestors of a run, root first, itself excluded. */
    method Resolve(run: ID, parent: ID) returns (chain: seq<ID>)
      modifies this
      ensures chain == ChainOf(old(parents), run, parent)
      ensures parents == Cached(old(parents), run, parent)
    {
      if parent == 0 {
        return [];
      }
      if run in parents && run != 0 {
        return parents[run];
      }
      var prefix := if parent in parents then parents[parent] else [];
      chain := prefix + [parent];
      if run != 0 {
        parents := parents[run := chain];
      }
    }
  }

  function Chains(parents: Parents, log: seq<Event>): seq<seq<ID>>
    decreases |log|
  {
    if log == [] then []
    else [ChainOf(parents, log[0].run, log[0].parent)]
         + Chains(Cached(parents, log[0].run, log[0].parent), log[1..])
  }

  /** The runs open around each event's own run, root first. */
  function Ancestors(stack: seq<ID>, log: seq<Event>): seq<seq<ID>>
    requires Replay(stack, log).Some?
    decreases |log|
  {
    if log == [] then []
    else
      var next := ReplayOne(stack, log[0]).value;
      [if log[0].kind == ChainStart then stack else next] + Ancestors(next, log[1..])
  }

  /** Drive the registry over a log, as the event projector does. */
  method ProjectAll(log: seq<Event>) returns (chains: seq<seq<ID>>)
    ensures chains == Chains(map[], log)
  {
    var registry := new ParentIDRegistry();
    chains := [];
    assert log[0..] == log && [] + Chains(map[], log) == Chains(map[], log);
    for k := 0 to |log|
      invariant chains + Chains(registry.parents, log[k..]) == Chains(map[], log)
    {
      ghost var before := registry.parents;
      var chain := registry.Resolve(log[k].run, log[k].parent);
      assert log[k..][1..] == log[k + 1..];
      assert Chains(before, log[k..]) == [chain] + Chains(registry.parents, log[k + 1..]);
      chains := chains + [chain];
    }
  }

  /** The cache knows the chain of every open run but the outermost, and nothing of runs to come. */
  ghost predicate RegistryKnows(parents: Parents, stack: seq<ID>, coming: seq<ID>) {
    && (forall i :: 1 <= i < |stack| ==> stack[i] in parents && parents[stack[i]] == stack[..i])
    && (stack != [] ==> stack[0] !in parents)
    && (forall id :: id in coming ==> id !in parents && id !in stack && id != 0)
    && (forall id :: id in stack ==> id != 0)
  }

  lemma ChainOfOpening(parents: Parents, stack: seq<ID>, run: ID, coming: seq<ID>)
    requires RegistryKnows(parents, stack, [run] + coming)
    ensures run !in parents && run !in stack && run != 0 && ChainOf(parents, run, Top(stack)) == stack
  {
    assert run in [run] + coming;
    if stack != [] {
      assert Top(stack) in stack && stack == stack[..|stack| - 1] + [Top(stack)];
    }
  }

  lemma OpeningIsKnown(parents: Parents, stack: seq<ID>, run: ID, coming: seq<ID>)
    requires RegistryKnows(parents, stack, [run] + coming) && Distinct([run] + coming)
    ensures RegistryKnows(Cached(parents, run, Top(stack)), stack + [run], coming) && Distinct(coming)
  {
    ChainOfOpening(parents, stack, run, coming);
    var all, inner := [run] + coming, stack + [run];
    forall i, j | 0 <= i < j < |coming|
      ensures coming[i] != coming[j]
    {
      assert all[i + 1] != all[j + 1];
    }
    forall id | id in coming
      ensures id in all && id != run
    {
      var k :| 0 <= k < |coming| && coming[k] == id;
      assert all[0] != all[k + 1];
    }
    var after := Cached(parents, run, Top(stack));
    forall i | 1 <= i < |inner|
      ensures inner[i] in after && after[inner[i]] == inner[..i]
    {
      if i < |stack| {
        assert inner[..i] == stack[..i] && stack[i] in stack;
      } else {
        assert inner[..i] == stack && Top(stack) in stack;
      }
    }
    if stack != [] {
      assert stack[0] in stack;
    }
  }

  lemma ClosingIsKnown(parents: Parents, stack: seq<ID>, run: ID, coming: seq<ID>)
    requires RegistryKnows(parents, stack + [run], coming)
    ensures ChainOf(parents, run, Top(stack)) == stack && Cached(parents, run, Top(stack)) == parents
    ensures RegistryKnows(parents, stack, coming)
  {
    var inner := stack + [run];
    assert inner[|stack|] == run && inner[..|stack|] == stack;
    if stack != [] {
      assert inner[|stack| - 1] == Top(stack) && Top(stack) in inner;
    }
    forall i | 1 <= i < |stack|
      ensures stack[i] in parents && parents[stack[i]] == stack[..i]
    {
      assert inner[i] == stack[i] && inner[..i] == stack[..i];
    }
    assert stack != [] ==> inner[0] == stack[0];
    assert forall id :: id in stack ==> id in inner;
  }

  /** Replaying a well-bracketed log with fresh run IDs through the registry gives every event its full ancestor chain. */
  lemma {:induction false} ResolveRebuildsAncestors(parents: Parents, stack: seq<ID>, log: seq<Event>)
    requires Replay(stack, log).Some? && Distinct(Opened(log)) && RegistryKnows(parents, stack, Opened(log))
    ensures Chains(parents, log) == Ancestors(stack, log)
    decreases |log|
  {
    if log != [] {
      var e := log[0];
      var next := ReplayOne(stack, e).value;
      if e.kind == ChainStart {
        assert Opened(log) == [e.run] + Opened(log[1..]);
        ChainOfOpening(parents, stack, e.run, Opened(log[1..]));
        OpeningIsKnown(parents, stack, e.run, Opened(log[1..]));
      } else {
        assert stack == next + [e.run] && Opened(log) == Opened(log[1..]);
        ClosingIsKnown(parents, next, e.run, Opened(log));
      }
      ResolveRebuildsAncestors(Cached(parents, e.run, e.parent), next, log[1..]);
    }
  }

  /** The same for a run tree, rooted or below a given run, starting from an empty registry. */
  lemma TreeChains(t: RunTree)
    requires Proper(t) && Distinct(Ids(t)) && 0 !in Ids(t) && t.parent !in Ids(t)
    ensures var stack := if t.parent == 0 then [] else [t.parent];
            Replay(stack, Log(t)) == Some(stack) && Chains(map[], Log(t)) == Ancestors(stack, Log(t))
  {
    var stack := if t.parent == 0 then [] else [t.parent];
    LogIsBracketed(t, stack);
    OpenedIsIds(t);
    ResolveRebuildsAncestors(map[], stack, Log(t));
  }

  // ----- what goes wrong otherwise -----

  lemma LogOfTwo(t: RunTree, inner: RunTree)
    requires t.children == [inner] && inner.children == []
    ensures Log(t) == [Event(ChainStart, t.id, t.parent), Event(ChainStart, inner.id, inner.parent),
                       Event(if inner.ok then ChainEnd else ChainError, inner.id, inner.parent),
                       Event(if t.ok then ChainEnd else ChainError, t.id, t.parent)]
    ensures Ids(t) == [t.id, inner.id]
  {
    assert [inner][1..] == [] && LogAll(inner.children) == [];
    assert Log(inner) == [Event(ChainStart, inner.id, inner.parent)] + [Event(if inner.ok then ChainEnd else ChainError, inner.id, inner.parent)];
    assert LogAll([inner]) == Log(inner) + LogAll([]);
    assert IdsAll([inner]) == Ids(inner) + IdsAll([]) && IdsAll(inner.children) == [];
  }

  /**
   A hook that calls a runnable with its options, which carry a run ID: that run opens twice, the inner start does not
   name the innermost open run, and the log does not replay.
   */
  lemma HookReusesRun(t: RunTree, inner: RunTree, stack: seq<ID>)
    requires t.role == Hook && t.children == [inner] && inner.children == []
    requires inner.id == t.id != t.parent == inner.parent == Top(stack)
    ensures Log(t) == [Event(ChainStart, t.id, t.parent), Event(ChainStart, t.id, t.parent),
                       Event(if inner.ok then ChainEnd else ChainError, t.id, t.parent),
                       Event(if t.ok then ChainEnd else ChainError, t.id, t.parent)]
    ensures Times(Opened(Log(t)), t.id) == 2 && Replay(stack, Log(t)) == None
  {
    hide Ids, Log, Replay, Opened;
    LogOfTwo(t, inner);
    OpenedIsIds(t);
    LogIsBracketed(t, stack);
  }

  /** Without a run ID in the options the inner run gets one of its own, but the chain of its starter, not the longer one. */
  lemma HookLosesAncestor(t: RunTree, inner: RunTree, stack: seq<ID>)
    requires t.role == Hook && t.children == [inner] && inner.children == []
    requires inner.parent == t.parent == Top(stack) && t.id !in [0, inner.id, t.parent] && inner.id !in [0, t.parent]
    ensures Replay(stack, Log(t)) == None
    ensures var chain := if t.parent == 0 then [] else [t.parent];
            Chains(map[], Log(t)) == [chain, chain, chain, chain]
  {
    hide Log, Replay;
    LogOfTwo(t, inner);
    LogIsBracketed(t, stack);
    var e, f := Event(ChainStart, t.id, t.parent), Event(ChainStart, inner.id, t.parent);
    var g := Event(if inner.ok then ChainEnd else ChainError, inner.id, t.parent);
    var h := Event(if t.ok then ChainEnd else ChainError, t.id, t.parent);
    assert Log(t) == [e, f, g, h];
    var p1 := Cached(map[], t.id, t.parent);
    var p2 := Cached(p1, inner.id, t.parent);
    assert [e, f, g, h][1..] == [f, g, h] && [f, g, h][1..] == [g, h] && [g, h][1..] == [h] && [h][1..] == [];
    assert Cached(p2, inner.id, t.parent) == p2 && Cached(p2, t.id, t.parent) == p2;
    assert Chains(p2, [h]) == [ChainOf(p2, t.id, t.parent)];
    assert Chains(p2, [g, h]) == [ChainOf(p2, inner.id, t.parent)] + Chains(p2, [h]);
    assert Chains(map[], [e, f, g, h]) == [ChainOf(map[], t.id, t.parent)] + Chains(p1, [f, g, h]);
    assert Chains(p1, [f, g, h]) == [ChainOf(p1, inner.id, t.parent)] + Chains(p2, [g, h]);
    var chain := if t.parent == 0 then [] else [t.parent];
    assert [] + [t.parent] == [t.parent];
    assert ChainOf(map[], t.id, t.parent) == chain && ChainOf(p1, inner.id, t.parent) == chain;
    assert ChainOf(p2, inner.id, t.parent) == chain && ChainOf(p2, t.id, t.parent) == chain;
    hide Chains, ChainOf, Cached;
  }

  /** A body that calls two runnables with its options opens the run ID they carry twice, though the log replays. */
  lemma BodyOpensTwice(t: RunTree, first: RunTree, second: RunTree, stack: seq<ID>)
    requires t.role == Body && t.children == [first, second] && first.children == [] && second.children == []
    requires first.id == second.id != t.id && first.parent == second.parent == t.id && t.parent == Top(stack)
    ensures Times(Opened(Log(t)), first.id) == 2 && Replay(stack, Log(t)) == Some(stack)
  {
    assert [first, second][1..] == [second] && [second][1..] == [];
    var none: seq<RunTree> := [];
    assert AllProper(none, t.id) && AllProper(none, first.id);
    assert Proper(first) && Proper(second);
    assert AllProper([second], t.id);
    assert AllProper([first, second], t.id);
    LogIsBracketed(t, stack);
    OpenedIsIds(t);
    assert IdsAll(first.children) == [] == IdsAll(second.children);
    assert IdsAll([second]) == Ids(second) + IdsAll([]) && Ids(first) == [first.id] && Ids(second) == [first.id];
    assert IdsAll([first, second]) == Ids(first) + IdsAll([second]);
    assert Ids(t) == [t.id, first.id, second.id];
  }
}
