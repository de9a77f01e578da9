/**
 Invoking instrumented combinators.  A program tree says which runnables a combinator holds; what a
 leaf, a condition or a retry policy decides is looked up per run, so one runnable invoked twice may
 behave differently.  Every invocation returns the events it emitted and, as ghost results, the tree
 of runs behind them.
 */
module Combinators {
  import opened Common
  import opened ChainEvents

  datatype Case = Case(condition: Node, runnable: Node)

  datatype Node =
    | Func(body: seq<Node>)                // the body calls any of these with the options it receives
    | Passthrough(hook: seq<Node>)         // so does the hook, with the options of the Passthrough itself
    | Pick(picked: Node)
    | SeqN(steps: seq<Node>)
    | Branch(cases: seq<Case>, default_: Node)
    | WithFallbacks(primary: Node, fallbacks: seq<Node>)
    | Assign(fields: seq<Node>)
    | Retry(retried: Node, maxAttempts: int)
    | Router(routes: seq<Node>)

  /** What the parts outside the combinators decide, by the key of the invocation they are part of. */
  datatype World = World(
    verdict: nat -> bool,                  // whether a body, a hook or a selection succeeds
    calls: nat -> seq<nat>,                // the calls a body or hook makes, in order
    chosen: (nat, nat) -> bool,            // the value condition k returned
    fits: nat -> bool,                     // whether a sequence's last value has the output type
    handled: (nat, nat) -> bool,           // whether the error of failed attempt k activates the next fallback
    retryable: (nat, nat) -> bool,         // ShouldRetry of the error of failed attempt k
    interrupted: (nat, nat) -> bool,       // ctx.Err before attempt k
    awoken: (nat, nat) -> bool,            // whether the sleep after attempt k was cut short
    route: nat -> Option<nat>)             // the selected route, if the key is known

  /** The identity part of a Config. */
  datatype Config = Config(runID: ID, parentID: ID)

  function RoleOf(node: Node): Role {
    if node.Func? then Body else if node.Passthrough? then Hook else Combinator
  }

  /** The calls made, among n callees. */
  function CallsOf(w: World, key: nat, n: nat): seq<nat> {
    if forall k :: 0 <= k < |w.calls(key)| ==> w.calls(key)[k] < n then w.calls(key) else []
  }

  // ----- what one invocation is allowed to do -----

  /** t is a run of node: its children are runs of the right runnables, as many as the combinator starts. */
  ghost predicate Executes(w: World, node: Node, t: RunTree)
    decreases t, 1
  {
    && t.role == RoleOf(node)
    && match node
       case Func(body) => CallsRun(w, body, CallsOf(w, t.key, |body|), t.children) && t.ok == w.verdict(t.key)
       case Passthrough(hook) => CallsRun(w, hook, CallsOf(w, t.key, |hook|), t.children) && t.ok == w.verdict(t.key)
       case Pick(picked) =>
         |t.children| == 1 && Executes(w, picked, t.children[0])
         && t.ok == (t.children[0].ok && w.verdict(t.key))
       case SeqN(steps) =>
         StepsRun(w, steps, t.children) && t.ok == (AllOk(t.children, |steps|) && w.fits(t.key))
       case Branch(cases, default_) => exists m: nat :: BranchRun(w, t.key, cases, default_, m, t.children, t.ok)
       case WithFallbacks(primary, fallbacks) => AttemptsRun(w, t.key, [primary] + fallbacks, t.children, t.ok)
       case Assign(fields) =>
         exists order: seq<nat> :: InSomeOrder(order, |fields|) && FieldsRun(w, fields, order, t.children)
                                   && t.ok == AllOk(t.children, |fields|)
       case Retry(retried, maxAttempts) =>
         RetryRun(w, retried, t.key, AtLeastOne(maxAttempts), t.children, t.ok)
       case Router(routes) =>
         match w.route(t.key)
         case Some(k) =>
           if k < |routes| then |t.children| == 1 && Executes(w, routes[k], t.children[0]) && t.ok == t.children[0].ok
           else t.children == [] && !t.ok
         case None => t.children == [] && !t.ok
  }

  /** One run per call, whatever the calls return. */
  ghost predicate CallsRun(w: World, callees: seq<Node>, calls: seq<nat>, children: seq<RunTree>)
    decreases children, 0
  {
    && |children| == |calls|
    && forall k :: 0 <= k < |children| ==> calls[k] < |callees| && Executes(w, callees[calls[k]], children[k])
  }

  /** All n parts ran and every one succeeded. */
  ghost predicate AllOk(children: seq<RunTree>, n: nat) {
    |children| == n && forall k :: 0 <= k < |children| ==> children[k].ok
  }

  /** In order, stopping at the first failure. */
  ghost predicate StopsAtFailure(children: seq<RunTree>, n: nat) {
    && |children| <= n
    && (forall k :: 0 <= k < |children| - 1 ==> children[k].ok)
    && (|children| < n ==> children != [] && !children[|children| - 1].ok)
  }

  ghost predicate StepsRun(w: World, steps: seq<Node>, children: seq<RunTree>)
    decreases children, 0
  {
    StopsAtFailure(children, |steps|) && forall k :: 0 <= k < |children| ==> Executes(w, steps[k], children[k])
  }

  ghost predicate InSomeOrder(order: seq<nat>, n: nat) {
    (forall k :: 0 <= k < |order| ==> order[k] < n) && forall j, k :: 0 <= j < k < |order| ==> order[j] != order[k]
  }

  /** The fields in some order (map iteration), stopping at the first failure. */
  ghost predicate FieldsRun(w: World, fields: seq<Node>, order: seq<nat>, children: seq<RunTree>)
    requires InSomeOrder(order, |fields|)
    decreases children, 0
  {
    && |children| == |order| && StopsAtFailure(children, |fields|)
    && forall k :: 0 <= k < |children| ==> Executes(w, fields[order[k]], children[k])
  }

  /** The first m conditions did not hold; then a failing condition, or one that holds and its runnable, or the default. */
  ghost predicate BranchRun(w: World, key: nat, cases: seq<Case>, default_: Node, m: nat, children: seq<RunTree>, ok: bool)
    decreases children, 0
  {
    && m <= |cases| && m < |children|
    && (forall k :: 0 <= k < m ==>
          Executes(w, cases[k].condition, children[k]) && children[k].ok && !w.chosen(key, k))
    && if m == |cases| then |children| == m + 1 && Executes(w, default_, children[m]) && ok == children[m].ok
       else
         && Executes(w, cases[m].condition, children[m])
         && if !children[m].ok then |children| == m + 1 && !ok
            else
              && w.chosen(key, m) && |children| == m + 2
              && Executes(w, cases[m].runnable, children[m + 1]) && ok == children[m + 1].ok
  }

  predicate LastOk(children: seq<RunTree>) {
    children != [] && children[|children| - 1].ok
  }

  /** No further attempt follows this one. */
  predicate EndsAttempts(w: World, key: nat, k: nat, attempt: RunTree) {
    attempt.ok || !w.handled(key, k)
  }

  /** Attempts in order until one succeeds or fails with an unhandled error. */
  ghost predicate AttemptsRun(w: World, key: nat, attempts: seq<Node>, children: seq<RunTree>, ok: bool)
    decreases children, 0
  {
    && |children| <= |attempts| && ok == LastOk(children)
    && (forall k :: 0 <= k < |children| ==> Executes(w, attempts[k], children[k]))
    && (forall k :: 0 <= k < |children| - 1 ==> !EndsAttempts(w, key, k, children[k]))
    && (|children| < |attempts| ==> children != [] && EndsAttempts(w, key, |children| - 1, children[|children| - 1]))
  }

  function AtLeastOne(n: int): nat { if n <= 0 then 1 else n }

  /** Attempt k (counted from 1) succeeded, must not be retried, or its sleep was cut short. */
  predicate EndsRetry(w: World, key: nat, k: nat, attempt: RunTree) {
    attempt.ok || !w.retryable(key, k) || w.awoken(key, k)
  }

  /** Attempts 1, 2, .. while the context is live and the policy retries, at most max of them. */
  ghost predicate RetryRun(w: World, node: Node, key: nat, max: nat, children: seq<RunTree>, ok: bool)
    decreases children, 0
  {
    var n := |children|;
    && n <= max && ok == LastOk(children)
    && (forall j :: 1 <= j <= n ==> !w.interrupted(key, j))
    && (forall k :: 0 <= k < n ==> Executes(w, node, children[k]))
    && (forall k :: 0 <= k < n - 1 ==> !EndsRetry(w, key, k + 1, children[k]))
    && (n < max ==> if n > 0 && EndsRetry(w, key, n, children[n - 1]) then true else w.interrupted(key, n + 1))
  }

  // ----- fresh IDs -----

  /** ids are distinct and were minted between from and to. */
  ghost predicate MintedIn(ids: seq<ID>, from: ID, to: ID) {
    from <= to && Distinct(ids) && forall id :: id in ids ==> from <= id < to
  }

  lemma MintedAppend(a: seq<ID>, b: seq<ID>, from: ID, mid: ID, to: ID)
    requires MintedIn(a, from, mid) && MintedIn(b, mid, to)
    ensures MintedIn(a + b, from, to)
  {
    forall i, j | 0 <= i < j < |a + b|
      ensures (a + b)[i] != (a + b)[j]
    {
      if i < |a| <= j {
        assert a[i] in a && b[j - |a|] in b;
      }
    }
  }

  lemma {:induction false} AllAppend(ts: seq<RunTree>, t: RunTree, parent: ID)
    ensures LogAll(ts + [t]) == LogAll(ts) + Log(t)
    ensures IdsAll(ts + [t]) == IdsAll(ts) + Ids(t)
    ensures AllShaped(ts + [t], parent) <==> AllShaped(ts, parent) && t.parent == parent && Shaped(t)
    ensures AllQuiet(ts + [t]) <==> AllQuiet(ts) && Quiet(t)
  {
    hide Log, Ids, Shaped, HooksQuiet, BodiesCallOnce;
    if ts == [] {
      assert ts + [t] == [t] && [t][1..] == [];
    } else {
      var first, rest := ts[0], ts[1..];
      assert (ts + [t])[1..] == rest + [t] && (ts + [t])[0] == first;
      assert LogAll(ts + [t]) == Log(first) + LogAll(rest + [t]) && LogAll(ts) == Log(first) + LogAll(rest);
      assert IdsAll(ts + [t]) == Ids(first) + IdsAll(rest + [t]) && IdsAll(ts) == Ids(first) + IdsAll(rest);
      hide LogAll, IdsAll;
      AllAppend(rest, t, parent);
      Associative(Log(first), LogAll(rest), Log(t));
      Associative(Ids(first), IdsAll(rest), Ids(t));
    }
  }

  /** The children a run has started so far account for the events and, when all were quiet, for the IDs so far. */
  ghost predicate Started(events: seq<Event>, children: seq<RunTree>, id: ID, from: ID, next: ID) {
    && events == LogAll(children) && AllShaped(children, id) && from <= next
    && (AllQuiet(children) ==> MintedIn(IdsAll(children), from, next))
  }

  /** A run below id with the ID first minted for it; its own run left the supply at next. */
  ghost predicate Child(w: World, node: Node, id: ID, minted: ID, events: seq<Event>, ok: bool, next: ID, t: RunTree) {
    && t.ok == ok && t.id == minted && t.parent == id && minted < next
    && Executes(w, node, t) && Shaped(t) && events == Log(t)
    && (Quiet(t) ==> MintedIn(Ids(t), minted, next))
  }

  /** One more child. */
  lemma StartedOne(w: World, node: Node, events: seq<Event>, children: seq<RunTree>, id: ID, from: ID, minted: ID, next: ID,
                   more: seq<Event>, ok: bool, child: RunTree)
    requires Started(events, children, id, from, minted)
    requires Child(w, node, id, minted, more, ok, next, child)
    ensures Started(events + more, children + [child], id, from, next)
    ensures child.ok == ok && Executes(w, node, child)
  {
    hide Executes, Shaped, HooksQuiet, BodiesCallOnce, MintedIn, AllShaped;
    AllAppend(children, child, id);
    if AllQuiet(children) && Quiet(child) {
      MintedAppend(IdsAll(children), Ids(child), from, minted, next);
    }
  }

  lemma NothingStarted(id: ID, from: ID)
    ensures Started([], [], id, from, from)
  {
  }

  // ----- the combinators -----

  /** The invocation a run belongs to, its ID and its parent. */
  datatype Run = Run(key: nat, id: ID, parent: ID)

  function Tree(node: Node, run: Run, ok: bool, children: seq<RunTree>): RunTree {
    RunTree(run.key, RoleOf(node), run.id, run.parent, ok, children)
  }

  /** What runs between the start and the end event of node's own run. */
  ghost predicate Inside(w: World, node: Node, run: Run, events: seq<Event>, ok: bool, from: ID, next: ID, children: seq<RunTree>) {
    var t := Tree(node, run, ok, children);
    && from <= next && Executes(w, node, t) && Shaped(t) && events == LogAll(children)
    && (Quiet(t) ==> MintedIn(IdsAll(children), from, next))
  }

  /** Children that were each given a configuration of their own. */
  lemma InsideCombinator(w: World, node: Node, run: Run, events: seq<Event>, ok: bool, from: ID, next: ID, children: seq<RunTree>)
    requires RoleOf(node) == Combinator && run.id != run.parent
    requires Started(events, children, run.id, from, next) && Executes(w, node, Tree(node, run, ok, children))
    ensures Inside(w, node, run, events, ok, from, next, children)
  {
    hide Executes;
  }

  /** The outcome of invoking node: the events are the log of one run tree that node may produce, its IDs fresh when it is quiet. */
  ghost predicate Outcome(w: World, node: Node, cfg: Config, next: ID, events: seq<Event>, ok: bool, next': ID, t: RunTree) {
    && next <= next' && t.ok == ok && Executes(w, node, t) && Shaped(t)
    && events == Log(t) && t.parent == cfg.parentID
    && t.id == (if cfg.runID != 0 then cfg.runID else next)
    && (Quiet(t) ==> if cfg.runID != 0 then MintedIn(IdsAll(t.children), next, next') else MintedIn(Ids(t), next, next'))
  }

  /** A configuration from before the IDs that are still to be minted. */
  predicate Earlier(cfg: Config, next: ID) {
    0 < next && cfg.runID < next && cfg.parentID < next && (cfg.runID != 0 ==> cfg.runID != cfg.parentID)
  }

  method Invoke(w: World, node: Node, cfg: Config, next: ID) returns (events: seq<Event>, ok: bool, next': ID, ghost t: RunTree)
    requires Earlier(cfg, next)
    ensures Outcome(w, node, cfg, next, events, ok, next', t)
    ensures next < next' && |events| >= 2
    ensures events[0] == Event(ChainStart, if cfg.runID != 0 then cfg.runID else next, cfg.parentID)
    ensures events[|events| - 1] == Event(if ok then ChainEnd else ChainError, events[0].run, cfg.parentID)
    decreases node, 2
  {
    hide Executes, Shaped, HooksQuiet, BodiesCallOnce;
    // the caller's run ID, or a minted one
    var run := Run(next, if cfg.runID == 0 then next else cfg.runID, cfg.parentID);
    var n := next + 1;
    ghost var children;
    match node {
      case Func(_) => events, ok, next', children := InvokeFunc(w, node, run, n);
      case Passthrough(_) => events, ok, next', children := InvokePassthrough(w, node, cfg, run, n);
      case Pick(_) => events, ok, next', children := InvokePick(w, node, run, n);
      case SeqN(_) => events, ok, next', children := InvokeSeqN(w, node, run, n);
      case Branch(_, _) => events, ok, next', children := InvokeBranch(w, node, run, n);
      case WithFallbacks(_, _) => events, ok, next', children := InvokeWithFallbacks(w, node, run, n);
      case Assign(_) => events, ok, next', children := InvokeAssign(w, node, run, n);
      case Retry(_, _) => events, ok, next', children := InvokeRetry(w, node, run, n);
      case Router(_) => events, ok, next', children := InvokeRouter(w, node, run, n);
    }
    t := Tree(node, run, ok, children);
    if Quiet(t) {
      Minting(cfg, next, next', t);
    }
    events := [Event(ChainStart, run.id, run.parent)] + events
              + [Event(if ok then ChainEnd else ChainError, run.id, run.parent)];
  }

  lemma Minting(cfg: Config, next: ID, next': ID, t: RunTree)
    requires MintedIn(IdsAll(t.children), next + 1, next')
    requires t.id == if cfg.runID != 0 then cfg.runID else next
    ensures if cfg.runID != 0 then MintedIn(IdsAll(t.children), next, next') else MintedIn(Ids(t), next, next')
  {
    assert MintedIn([next], next, next + 1);
    MintedAppend([next], IdsAll(t.children), next, next + 1, next');
  }

  /** run.child: the run's ID becomes the child's parent and a fresh ID its own; then the child is invoked. */
  method InvokeChild(w: World, node: Node, id: ID, next: ID) returns (events: seq<Event>, ok: bool, next': ID, ghost t: RunTree)
    requires 0 < next && id < next
    ensures Child(w, node, id, next, events, ok, next', t)
    ensures next < next' && |events| >= 2 && events[0] == Event(ChainStart, next, id)
    ensures events[|events| - 1] == Event(if ok then ChainEnd else ChainError, next, id)
    decreases node, 3
  {
    hide Executes, Shaped, HooksQuiet, BodiesCallOnce;
    events, ok, next', t := Invoke(w, node, Config(next, id), next + 1);
    if Quiet(t) {
      assert MintedIn([next], next, next + 1);
      MintedAppend([next], IdsAll(t.children), next, next + 1, next');
    }
  }

  /** Calls made by user code, all with the one configuration it was handed. */
  method InvokeCalls(w: World, ghost node: Node, callees: seq<Node>, calls: seq<nat>, cfg: Config, next: ID)
    returns (events: seq<Event>, next': ID, ghost children: seq<RunTree>)
    requires Earlier(cfg, next) && forall k :: 0 <= k < |calls| ==> calls[k] < |callees|
    requires forall k :: 0 <= k < |callees| ==> callees[k] < node
    ensures next <= next' && events == LogAll(children) && AllShaped(children, cfg.parentID)
    ensures CallsRun(w, callees, calls, children)
    ensures cfg.runID != 0 ==> forall k :: 0 <= k < |children| ==> children[k].id == cfg.runID
    ensures |children| == 1 && Quiet(children[0]) && cfg.runID != 0 ==> MintedIn(IdsAll(children[0].children), next, next')
    ensures calls == [] ==> events == [] && next' == next
    decreases node, 0
  {
    hide Executes, Shaped, HooksQuiet, BodiesCallOnce, MintedIn;
    events, next', children := [], next, [];
    for i := 0 to |calls|
      invariant next <= next' && events == LogAll(children) && AllShaped(children, cfg.parentID) && |children| == i
      invariant i == 0 ==> events == [] && next' == next
      invariant forall k :: 0 <= k < i ==> Executes(w, callees[calls[k]], children[k])
      invariant cfg.runID != 0 ==> forall k :: 0 <= k < i ==> children[k].id == cfg.runID
      invariant i == 1 && Quiet(children[0]) && cfg.runID != 0 ==> MintedIn(IdsAll(children[0].children), next, next')
    {
      var more, ok;
      ghost var t;
      more, ok, next', t := Invoke(w, callees[calls[i]], cfg, next');
      AllAppend(children, t, cfg.parentID);
      events, children := events + more, children + [t];
    }
  }

  /** fnChildOptions mints one ID for the body, used or not; every call the body makes carries it. */
  method InvokeFunc(w: World, node: Node, run: Run, next: ID)
    returns (events: seq<Event>, ok: bool, next': ID, ghost children: seq<RunTree>)
    requires node.Func? && run.id < next && run.id != run.parent && 0 < next
    ensures Inside(w, node, run, events, ok, next, next', children)
    ensures next < next' && ok == w.verdict(run.key)
    ensures CallsOf(w, run.key, |node.body|) == [] ==> events == [] && next' == next + 1
    decreases node, 1
  {
    hide Executes;
    var calls := CallsOf(w, run.key, |node.body|);
    events, next', children := InvokeCalls(w, node, node.body, calls, Config(next, run.id), next + 1);
    ok := w.verdict(run.key);
    FuncRuns(w, node, run, calls, children);
    hide Shaped, CallsRun, MintedIn;
    if |children| == 1 && Quiet(children[0]) {
      OneChildMinted(children[0], next, next');
      assert children == [children[0]];
    }
    InsideFunc(w, node, run, events, ok, next, next', children);
  }

  lemma InsideFunc(w: World, node: Node, run: Run, events: seq<Event>, ok: bool, from: ID, next: ID, children: seq<RunTree>)
    requires node.Func? && run.id != run.parent && from <= next && events == LogAll(children) && AllShaped(children, run.id)
    requires Executes(w, node, Tree(node, run, ok, children))
    requires forall k :: 0 <= k < |children| ==> children[k].id == from
    requires |children| == 1 && Quiet(children[0]) ==> MintedIn(IdsAll(children), from, next)
    ensures Inside(w, node, run, events, ok, from, next, children)
  {
    hide Executes;
    if children == [] {
      assert MintedIn(IdsAll(children), from, next);
    }
    var t := Tree(node, run, ok, children);
    assert Shaped(t);
    if Quiet(t) {
      assert |children| <= 1 && AllQuiet(children);
      if |children| == 1 {
        assert Quiet(children[0]);
      }
    }
  }

  lemma FuncRuns(w: World, node: Node, run: Run, calls: seq<nat>, children: seq<RunTree>)
    requires node.Func? && calls == CallsOf(w, run.key, |node.body|) && CallsRun(w, node.body, calls, children)
    ensures Executes(w, node, Tree(node, run, w.verdict(run.key), children))
  {
  }

  lemma OneChildMinted(t: RunTree, next: ID, next': ID)
    requires t.id == next && MintedIn(IdsAll(t.children), next + 1, next')
    ensures MintedIn(IdsAll([t]), next, next')
  {
    assert MintedIn([next], next, next + 1);
    MintedAppend([next], IdsAll(t.children), next, next + 1, next');
    assert [t][1..] == [] && IdsAll([t]) == Ids(t) + IdsAll([]);
  }

  /** The hook gets the options of the Passthrough itself, run ID included. */
  method InvokePassthrough(w: World, node: Node, cfg: Config, run: Run, next: ID)
    returns (events: seq<Event>, ok: bool, next': ID, ghost children: seq<RunTree>)
    requires node.Passthrough? && Earlier(cfg, next) && run.parent == cfg.parentID != run.id
    ensures Inside(w, node, run, events, ok, next, next', children)
    ensures next <= next' && ok == w.verdict(run.key)
    ensures CallsOf(w, run.key, |node.hook|) == [] ==> events == [] && next' == next
    decreases node, 1
  {
    hide Executes;
    var calls := CallsOf(w, run.key, |node.hook|);
    events, next', children := InvokeCalls(w, node, node.hook, calls, cfg, next);
    ok := w.verdict(run.key);
    HookRuns(w, node, run, calls, children);
  }

  lemma HookRuns(w: World, node: Node, run: Run, calls: seq<nat>, children: seq<RunTree>)
    requires node.Passthrough? && calls == CallsOf(w, run.key, |node.hook|) && CallsRun(w, node.hook, calls, children)
    ensures Executes(w, node, Tree(node, run, w.verdict(run.key), children))
  {
  }

  /** Nothing yet, or first the start of a child with the first ID minted. */
  predicate BeginsWithChild(events: seq<Event>, id: ID, next: ID, next': ID) {
    if events == [] then next' == next else next < next' && events[0] == Event(ChainStart, next, id)
  }

  method InvokePick(w: World, node: Node, run: Run, next: ID)
    returns (events: seq<Event>, ok: bool, next': ID, ghost children: seq<RunTree>)
    requires node.Pick? && run.id < next && run.id != run.parent && 0 < next
    ensures Inside(w, node, run, events, ok, next, next', children)
    ensures BeginsWithChild(events, run.id, next, next') && events != [] && (ok ==> w.verdict(run.key))
    decreases node, 1
  {
    hide Started, Child;
    ghost var t;
    events, ok, next', t := InvokeChild(w, node.picked, run.id, next);
    NothingStarted(run.id, next);
    StartedOne(w, node.picked, [], [], run.id, next, next, next', events, ok, t);
    children := [] + [t];
    assert [] + events == events;
    ok := ok && w.verdict(run.key);
    InsideCombinator(w, node, run, events, ok, next, next', children);
  }

  method InvokeSeqN(w: World, node: Node, run: Run, next: ID)
    returns (events: seq<Event>, ok: bool, next': ID, ghost children: seq<RunTree>)
    requires node.SeqN? && run.id < next && run.id != run.parent && 0 < next
    ensures Inside(w, node, run, events, ok, next, next', children)
    ensures BeginsWithChild(events, run.id, next, next') && (ok ==> w.fits(run.key))
    decreases node, 1
  {
    hide Started, Child, Inside;
    events, next', children, ok := [], next, [], true;
    NothingStarted(run.id, next);
    for i := 0 to |node.steps|
      invariant BeginsWithChild(events, run.id, next, next')
      invariant next <= next' && Started(events, children, run.id, next, next') && ok
      invariant |children| == i && (forall k :: 0 <= k < i ==> children[k].ok && Executes(w, node.steps[k], children[k]))
    {
      var more;
      ghost var minted := next';
      ghost var t;
      more, ok, next', t := InvokeChild(w, node.steps[i], run.id, next');
      Grows(w, node.steps[i], run.id, minted, more, ok, next', t);
      StartedOne(w, node.steps[i], events, children, run.id, next, minted, next', more, ok, t);
      events, children := events + more, children + [t];
      if !ok {
        InsideCombinator(w, node, run, events, ok, next, next', children);
        return;
      }
    }
    ok := w.fits(run.key);
    InsideCombinator(w, node, run, events, ok, next, next', children);
  }

  lemma Grows(w: World, node: Node, id: ID, minted: ID, events: seq<Event>, ok: bool, next: ID, t: RunTree)
    requires Child(w, node, id, minted, events, ok, next, t)
    ensures minted < next
  {
  }

  method InvokeBranch(w: World, node: Node, run: Run, next: ID)
    returns (events: seq<Event>, ok: bool, next': ID, ghost children: seq<RunTree>)
    requires node.Branch? && run.id < next && run.id != run.parent && 0 < next
    ensures Inside(w, node, run, events, ok, next, next', children)
    ensures BeginsWithChild(events, run.id, next, next') && events != []
    decreases node, 1
  {
    hide Started, Child, Inside;
    events, next', children := [], next, [];
    NothingStarted(run.id, next);
    var more;
    ghost var t, minted;
    for i := 0 to |node.cases|
      invariant BeginsWithChild(events, run.id, next, next') && (i > 0 ==> events != [])
      invariant next <= next' && Started(events, children, run.id, next, next') && |children| == i
      invariant forall k :: 0 <= k < i ==>
                  Executes(w, node.cases[k].condition, children[k]) && children[k].ok && !w.chosen(run.key, k)
    {
      minted := next';
      more, ok, next', t := InvokeChild(w, node.cases[i].condition, run.id, next');
      Grows(w, node.cases[i].condition, run.id, minted, more, ok, next', t);
      StartedOne(w, node.cases[i].condition, events, children, run.id, next, minted, next', more, ok, t);
      events, children := events + more, children + [t];
      if !ok {
        assert BranchRun(w, run.key, node.cases, node.default_, i, children, ok);
        InsideCombinator(w, node, run, events, ok, next, next', children);
        return;
      }
      if w.chosen(run.key, i) {
        minted := next';
        more, ok, next', t := InvokeChild(w, node.cases[i].runnable, run.id, next');
        StartedOne(w, node.cases[i].runnable, events, children, run.id, next, minted, next', more, ok, t);
        events, children := events + more, children + [t];
        assert BranchRun(w, run.key, node.cases, node.default_, i, children, ok);
        InsideCombinator(w, node, run, events, ok, next, next', children);
        return;
      }
    }
    minted := next';
    more, ok, next', t := InvokeChild(w, node.default_, run.id, next');
    StartedOne(w, node.default_, events, children, run.id, next, minted, next', more, ok, t);
    events, children := events + more, children + [t];
    assert BranchRun(w, run.key, node.cases, node.default_, |node.cases|, children, ok);
    InsideCombinator(w, node, run, events, ok, next, next', children);
  }

  method InvokeWithFallbacks(w: World, node: Node, run: Run, next: ID)
    returns (events: seq<Event>, ok: bool, next': ID, ghost children: seq<RunTree>)
    requires node.WithFallbacks? && run.id < next && run.id != run.parent && 0 < next
    ensures Inside(w, node, run, events, ok, next, next', children)
    ensures BeginsWithChild(events, run.id, next, next') && events != []
    decreases node, 1
  {
    hide Started, Child, Inside;
    events, next', children, ok := [], next, [], false;
    NothingStarted(run.id, next);
    ghost var attempts := [node.primary] + node.fallbacks;
    for i := 0 to 1 + |node.fallbacks|
      invariant BeginsWithChild(events, run.id, next, next') && (i > 0 ==> events != [])
      invariant next <= next' && Started(events, children, run.id, next, next') && |children| == i && !ok
      invariant forall k :: 0 <= k < i ==> Executes(w, attempts[k], children[k]) && !EndsAttempts(w, run.key, k, children[k])
    {
      var more := [];
      ghost var minted := next';
      ghost var t;
      more, ok, next', t := InvokeChild(w, if i == 0 then node.primary else node.fallbacks[i - 1], run.id, next');
      Grows(w, attempts[i], run.id, minted, more, ok, next', t);
      StartedOne(w, attempts[i], events, children, run.id, next, minted, next', more, ok, t);
      events, children := events + more, children + [t];
      if ok || !w.handled(run.key, i) {
        InsideCombinator(w, node, run, events, ok, next, next', children);
        return;
      }
    }
    InsideCombinator(w, node, run, events, ok, next, next', children);
  }

  /** Map iteration: the fields are taken in an order nobody chose. */
  method InvokeAssign(w: World, node: Node, run: Run, next: ID)
    returns (events: seq<Event>, ok: bool, next': ID, ghost children: seq<RunTree>)
    requires node.Assign? && run.id < next && run.id != run.parent && 0 < next
    ensures Inside(w, node, run, events, ok, next, next', children)
    ensures BeginsWithChild(events, run.id, next, next')
    decreases node, 1
  {
    hide Started, Child, Inside, Executes, Taken, FieldsDone, InSomeOrder, EveryOk;
    NothingStarted(run.id, next);
    NothingTaken(w, node.fields);
    events, next', children := [], next, [];
    ghost var order: seq<nat> := [];
    var rest := Below(|node.fields|);
    assert Remaining(rest, order, |node.fields|);
    hide Remaining, Below;
    while rest != {}
      invariant BeginsWithChild(events, run.id, next, next')
      invariant next <= next' && Started(events, children, run.id, next, next')
      invariant |children| == |order| && InSomeOrder(order, |node.fields|)
      invariant Remaining(rest, order, |node.fields|)
      invariant FieldsDone(w, node.fields, order, children) && EveryOk(children)
      decreases rest
    {
      var field: nat :| field in rest;
      TakeField(rest, order, field, |node.fields|);
      rest := rest - {field};
      var more;
      ghost var minted := next';
      ghost var t;
      more, ok, next', t := InvokeChild(w, node.fields[field], run.id, next');
      Grows(w, node.fields[field], run.id, minted, more, ok, next', t);
      StartedOne(w, node.fields[field], events, children, run.id, next, minted, next', more, ok, t);
      FieldDone(w, node.fields, order, children, field, t);
      if !ok {
        AssignStops(w, node, run, order + [field], children, t);
        events, children := events + more, children + [t];
        InsideCombinator(w, node, run, events, ok, next, next', children);
        return;
      }
      events, children := events + more, children + [t];
      order := order + [field];
    }
    ok := true;
    FullOrder(rest, order, |node.fields|);
    AllFieldsOk(w, node.fields, order, children);
    AssignRuns(w, node, run, order, children, true);
    InsideCombinator(w, node, run, events, ok, next, next', children);
  }

  lemma AssignStops(w: World, node: Node, run: Run, order: seq<nat>, children: seq<RunTree>, t: RunTree)
    requires node.Assign? && InSomeOrder(order, |node.fields|) && FieldsDone(w, node.fields, order, children + [t])
    requires |order| <= |node.fields| && !t.ok && EveryOk(children)
    ensures Executes(w, node, Tree(node, run, false, children + [t]))
  {
    assert (children + [t])[|children|] == t;
    AssignRuns(w, node, run, order, children + [t], false);
  }

  lemma AssignRuns(w: World, node: Node, run: Run, order: seq<nat>, children: seq<RunTree>, ok: bool)
    requires node.Assign? && InSomeOrder(order, |node.fields|) && FieldsDone(w, node.fields, order, children)
    requires StopsAtFailure(children, |node.fields|)
    requires ok == AllOk(children, |node.fields|)
    ensures Executes(w, node, Tree(node, run, ok, children))
  {
    assert FieldsRun(w, node.fields, order, children);
  }

  ghost function Taken(order: seq<nat>): set<nat> { set k | k in order }

  /** The fields taken so far, one child each. */
  ghost predicate FieldsDone(w: World, fields: seq<Node>, order: seq<nat>, children: seq<RunTree>) {
    && |children| == |order| && (forall k :: 0 <= k < |order| ==> order[k] < |fields|)
    && forall k :: 0 <= k < |children| ==> Executes(w, fields[order[k]], children[k])
  }

  ghost predicate EveryOk(children: seq<RunTree>) {
    forall k :: 0 <= k < |children| ==> children[k].ok
  }

  lemma AllFieldsOk(w: World, fields: seq<Node>, order: seq<nat>, children: seq<RunTree>)
    requires FieldsDone(w, fields, order, children) && EveryOk(children) && |order| == |fields|
    ensures AllOk(children, |fields|) && StopsAtFailure(children, |fields|)
  {
  }

  lemma NothingTaken(w: World, fields: seq<Node>)
    ensures Taken([]) == {} && FieldsDone(w, fields, [], []) && InSomeOrder([], |fields|) && EveryOk([])
  {
  }

  lemma FieldDone(w: World, fields: seq<Node>, order: seq<nat>, children: seq<RunTree>, field: nat, t: RunTree)
    requires FieldsDone(w, fields, order, children) && field < |fields| && Executes(w, fields[field], t)
    ensures FieldsDone(w, fields, order + [field], children + [t])
    ensures EveryOk(children) && t.ok ==> EveryOk(children + [t])
  {
  }

  lemma OrderExtends(order: seq<nat>, field: nat, n: nat)
    requires InSomeOrder(order, n) && field < n && field !in Taken(order)
    ensures InSomeOrder(order + [field], n) && |order + [field]| <= n
    ensures Taken(order + [field]) == Taken(order) + {field}
  {
    OrderSize(order + [field], n);
  }

  lemma OrderSize(order: seq<nat>, n: nat)
    requires InSomeOrder(order, n)
    ensures |order| <= n
    ensures |Taken(order)| == |order|
  {
    var log := seq(|order|, k requires 0 <= k < |order| => (order[k], ()));
    assert forall j, k :: 0 <= j < k < |log| ==> log[j].0 != log[k].0;
    forall k | k in order
      ensures k in Indexes(log)
    {
      var i :| 0 <= i < |order| && order[i] == k;
      assert log[i].0 == k;
    }
    assert Indexes(log) == Taken(order);
    DistinctCount(log);
    DistinctAndFullCovers(log, n);
  }

  /** The fields that have not been taken yet. */
  ghost predicate Remaining(rest: set<nat>, order: seq<nat>, n: nat) {
    rest !! Taken(order) && rest + Taken(order) == Below(n)
  }

  lemma TakeField(rest: set<nat>, order: seq<nat>, field: nat, n: nat)
    requires Remaining(rest, order, n) && InSomeOrder(order, n) && field in rest
    ensures field < n && InSomeOrder(order + [field], n) && |order + [field]| <= n
    ensures Remaining(rest - {field}, order + [field], n)
  {
    assert field in Below(n);
    OrderExtends(order, field, n);
  }

  lemma FullOrder(rest: set<nat>, order: seq<nat>, n: nat)
    requires InSomeOrder(order, n) && Remaining(rest, order, n) && rest == {}
    ensures |order| == n
  {
    OrderSize(order, n);
  }

  method InvokeRetry(w: World, node: Node, run: Run, next: ID)
    returns (events: seq<Event>, ok: bool, next': ID, ghost children: seq<RunTree>)
    requires node.Retry? && run.id < next && run.id != run.parent && 0 < next
    ensures Inside(w, node, run, events, ok, next, next', children)
    ensures BeginsWithChild(events, run.id, next, next') && (events == [] ==> !ok)
    decreases node, 1
  {
    hide Started, Child, Inside;
    var max := AtLeastOne(node.maxAttempts);
    events, next', children, ok := [], next, [], false;
    NothingStarted(run.id, next);
    for i := 0 to max
      invariant BeginsWithChild(events, run.id, next, next') && (i > 0 ==> events != [])
      invariant next <= next' && Started(events, children, run.id, next, next') && |children| == i && !ok
      invariant forall j :: 1 <= j <= i ==> !w.interrupted(run.key, j)
      invariant forall k :: 0 <= k < i ==> Executes(w, node.retried, children[k]) && !EndsRetry(w, run.key, k + 1, children[k])
    {
      if w.interrupted(run.key, i + 1) {
        InsideCombinator(w, node, run, events, ok, next, next', children);
        return;
      }
      var more := [];
      ghost var minted := next';
      ghost var t;
      more, ok, next', t := InvokeChild(w, node.retried, run.id, next');
      Grows(w, node.retried, run.id, minted, more, ok, next', t);
      StartedOne(w, node.retried, events, children, run.id, next, minted, next', more, ok, t);
      events, children := events + more, children + [t];
      if ok || i + 1 == max || !w.retryable(run.key, i + 1) || w.awoken(run.key, i + 1) {
        InsideCombinator(w, node, run, events, ok, next, next', children);
        return;
      }
    }
    InsideCombinator(w, node, run, events, ok, next, next', children);
  }

  method InvokeRouter(w: World, node: Node, run: Run, next: ID)
    returns (events: seq<Event>, ok: bool, next': ID, ghost children: seq<RunTree>)
    requires node.Router? && run.id < next && run.id != run.parent && 0 < next
    ensures Inside(w, node, run, events, ok, next, next', children)
    ensures BeginsWithChild(events, run.id, next, next')
    ensures events == [] <==> w.route(run.key).None? || w.route(run.key).value >= |node.routes|
    decreases node, 1
  {
    hide Started, Child, Inside;
    NothingStarted(run.id, next);
    var route := w.route(run.key);
    if route.None? || route.value >= |node.routes| {
      events, ok, next', children := [], false, next, [];
      InsideCombinator(w, node, run, events, ok, next, next', children);
      return;
    }
    ghost var t;
    events, ok, next', t := InvokeChild(w, node.routes[route.value], run.id, next);
    StartedOne(w, node.routes[route.value], [], [], run.id, next, next, next', events, ok, t);
    children := [] + [t];
    assert [] + events == events;
    InsideCombinator(w, node, run, events, ok, next, next', children);
  }

  // ----- the event stream of one invocation -----

  /**
   One Invoke emits a log that is well bracketed and opens no run twice exactly when no Passthrough hook called a
   runnable with the options it received and no function body called two.  Then every run opens and closes once and
   replaying the log through the registry gives every event its full root-first ancestor chain.  The root always
   closes with an end event exactly when the call succeeds.
   */
  method InvokeAndProject(w: World, node: Node, cfg: Config, next: ID)
    returns (events: seq<Event>, ok: bool, chains: seq<seq<ID>>, ghost t: RunTree)
    requires Earlier(cfg, next)
    ensures Executes(w, node, t) && events == Log(t) && t.parent == cfg.parentID && chains == Chains(map[], events)
    ensures var stack := if cfg.parentID == 0 then [] else [cfg.parentID];
            && Replay(stack, events) == (if HooksQuiet(t) then Some(stack) else None)
            && (Replay(stack, events).Some? && Distinct(Opened(events)) <==> HooksQuiet(t) && BodiesCallOnce(t))
            && (HooksQuiet(t) && BodiesCallOnce(t) ==> chains == Ancestors(stack, events))
    ensures HooksQuiet(t) && BodiesCallOnce(t) ==>
              forall id :: Times(Opened(events), id) == Times(Closed(events), id) == if id in Ids(t) then 1 else 0
    ensures |events| >= 2 && events[0] == Event(ChainStart, t.id, cfg.parentID)
    ensures events[|events| - 1] == Event(if ok then ChainEnd else ChainError, t.id, cfg.parentID)
  {
    hide Executes, Times, Shaped, HooksQuiet, BodiesCallOnce, Proper, Chains, Ancestors;
    var next';
    events, ok, next', t := Invoke(w, node, cfg, next);
    chains := ProjectAll(events);
    if Quiet(t) {
      FreshTree(t, cfg, next, next');
      ProperIffHooksQuiet(t);
      TreeChains(t);
      forall id
        ensures Times(Opened(events), id) == Times(Closed(events), id) == if id in Ids(t) then 1 else 0
      {
        EachRunOpensAndClosesOnce(t, id);
      }
    }
    SoundLogIffQuiet(t, if cfg.parentID == 0 then [] else [cfg.parentID]);
  }

  lemma FreshTree(t: RunTree, cfg: Config, next: ID, next': ID)
    requires Earlier(cfg, next) && t.parent == cfg.parentID
    requires if cfg.runID != 0 then t.id == cfg.runID && MintedIn(IdsAll(t.children), next, next')
             else t.id == next && MintedIn(Ids(t), next, next')
    ensures Distinct(Ids(t)) && 0 !in Ids(t) && t.parent !in Ids(t)
  {
    if cfg.runID != 0 {
      assert MintedIn([t.id], t.id, t.id + 1);
      assert MintedIn(IdsAll(t.children), t.id + 1, next');
      MintedAppend([t.id], IdsAll(t.children), t.id, t.id + 1, next');
    }
  }
}
