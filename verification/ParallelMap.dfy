/**
 The order-preserving fan-out: the calling goroutine dispatches indexes to a fixed pool over an
 unbuffered channel, drains on cancellation, closes the channel and waits.  Every slot of the result
 slices is written without a lock, so the model logs each write and proves that no slot is written
 twice.  Scheduling, `select` and the moment of cancellation are nondeterministic.
 */
module ParallelMap {
  import opened Common

  /** What one call returns, and what a slot of (outputs, errs) holds. */
  datatype Outcome<O, E> = Ok(output: O) | Err(error: E)
  datatype Slot<O, E> = Empty | Ran(outcome: Outcome<O, E>) | Skipped

  datatype Worker = Receiving | Checking(index: nat) | Invoking(index: nat) | Exited

  /** Program points of the calling goroutine. */
  datatype Caller = Offering | Draining | Closing | Joining | Returned

  datatype State<!O, !E> = State(
    f: nat -> Outcome<O, E>,
    n: nat,
    caller: Caller,
    next: nat,
    workers: seq<Worker>,
    cancelled: bool,
    indexesClosed: bool,
    panicked: bool,
    slots: seq<Slot<O, E>>,
    writes: seq<(nat, Slot<O, E>)>)

  datatype Step =
    | Hand(w: nat)
    | NoticeCancel
    | DrainOne
    | LoopDone
    | CloseIndexes
    | SeeClosed(w: nat)
    | Check(w: nat)
    | Call(w: nat)
    | Join
    | Cancel

  function Start<O, E>(f: nat -> Outcome<O, E>, n: nat, limit: nat): State<O, E> {
    State(f, n, Offering, 0, seq(limit, _ => Receiving), false, false, false, seq(n, _ => Empty), [])
  }

  predicate Enabled<O, E>(s: State<O, E>, step: Step) {
    match step
    case Hand(w) => s.caller == Offering && s.next < s.n && w < |s.workers| && s.workers[w].Receiving?
    case NoticeCancel => s.caller == Offering && s.next < s.n && s.cancelled
    case DrainOne => s.caller == Draining && s.next < s.n
    case LoopDone => s.caller in {Offering, Draining} && s.next == s.n
    case CloseIndexes => s.caller == Closing
    case SeeClosed(w) => w < |s.workers| && s.workers[w].Receiving? && s.indexesClosed
    case Check(w) => w < |s.workers| && s.workers[w].Checking?
    case Call(w) => w < |s.workers| && s.workers[w].Invoking?
    case Join => s.caller == Joining && forall w :: 0 <= w < |s.workers| ==> s.workers[w].Exited?
    case Cancel => !s.cancelled
  }

  /** Writing outside the slices, sending on a closed channel and a second close panic in Go. */
  function Write<O, E>(s: State<O, E>, i: nat, slot: Slot<O, E>): State<O, E> {
    if i < |s.slots| then s.(slots := s.slots[i := slot], writes := s.writes + [(i, slot)])
    else s.(panicked := true)
  }

  function SetWorker<O, E>(s: State<O, E>, w: nat, worker: Worker): State<O, E>
    requires w < |s.workers|
  {
    s.(workers := s.workers[w := worker])
  }

  function Apply<O, E>(s: State<O, E>, step: Step): (t: State<O, E>)
    requires Enabled(s, step)
    ensures t.n == s.n && t.f == s.f && |t.workers| == |s.workers| && |t.slots| == |s.slots|
  {
    match step
    case Hand(w) =>
      SetWorker(s, w, Checking(s.next)).(next := s.next + 1, panicked := s.panicked || s.indexesClosed)
    case NoticeCancel => s.(caller := Draining)
    case DrainOne => Write(s, s.next, Skipped).(next := s.next + 1)
    case LoopDone => s.(caller := Closing)
    case CloseIndexes => s.(caller := Joining, indexesClosed := true, panicked := s.panicked || s.indexesClosed)
    case SeeClosed(w) => SetWorker(s, w, Exited)
    case Check(w) =>
      var i := s.workers[w].index;
      if s.cancelled then SetWorker(Write(s, i, Skipped), w, Receiving) else SetWorker(s, w, Invoking(i))
    case Call(w) =>
      var i := s.workers[w].index;
      SetWorker(Write(s, i, Ran(s.f(i))), w, Receiving)
    case Join => s.(caller := Returned)
    case Cancel => s.(cancelled := true)
  }

  ghost predicate Run<O, E>(s: State<O, E>, steps: seq<Step>, t: State<O, E>)
    decreases |steps|
  {
    if steps == [] then s == t
    else Enabled(s, steps[0]) && Run(Apply(s, steps[0]), steps[1..], t)
  }

  // ----- the inductive invariant -----

  predicate Holding(worker: Worker) {
    worker.Checking? || worker.Invoking?
  }

  ghost function Held(workers: seq<Worker>): set<nat> {
    set w | 0 <= w < |workers| && Holding(workers[w]) :: workers[w].index
  }

  ghost predicate Control<O, E>(s: State<O, E>) {
    && s.next <= s.n == |s.slots|
    && !s.panicked
    && (s.indexesClosed <==> s.caller in {Joining, Returned})
    && (s.caller !in {Offering, Draining} ==> s.next == s.n)
    && (s.caller == Draining ==> s.cancelled)
    && (forall w :: 0 <= w < |s.workers| && s.workers[w].Exited? ==> s.indexesClosed)
    && (s.caller == Returned ==> forall w :: 0 <= w < |s.workers| ==> s.workers[w].Exited?)
  }

  /** Every dispatched index is held by one worker or has been written, never both, never twice. */
  ghost predicate Ownership<O, E>(s: State<O, E>) {
    && DistinctIndexes(s.writes)
    && (forall i :: i in Indexes(s.writes) ==> i < s.next)
    && (forall w :: 0 <= w < |s.workers| && Holding(s.workers[w]) ==>
                      s.workers[w].index < s.next && s.workers[w].index !in Indexes(s.writes))
    && (forall v, w :: 0 <= v < w < |s.workers| && Holding(s.workers[v]) && Holding(s.workers[w]) ==>
                         s.workers[v].index != s.workers[w].index)
    && (forall i: nat :: i < s.next ==> i in Indexes(s.writes) || i in Held(s.workers))
  }

  ghost predicate Contents<O, E>(s: State<O, E>) {
    && (forall i :: 0 <= i < |s.slots| ==> (s.slots[i] != Empty <==> i in Indexes(s.writes)))
    && (forall i :: 0 <= i < |s.slots| && s.slots[i].Ran? ==> s.slots[i].outcome == s.f(i))
    && (forall i :: 0 <= i < |s.slots| && s.slots[i] == Skipped ==> s.cancelled)
  }

  ghost predicate Inv<O, E>(s: State<O, E>) {
    Control(s) && Ownership(s) && Contents(s)
  }

  lemma HeldUpdate(workers: seq<Worker>, w: nat, worker: Worker)
    requires w < |workers|
    ensures var after := Held(workers[w := worker]);
            && (forall i :: i in Held(workers) && !(Holding(workers[w]) && workers[w].index == i) ==> i in after)
            && (Holding(worker) ==> worker.index in after)
  {
    var updated := workers[w := worker];
    assert updated[w] == worker;
    forall i | i in Held(workers) && !(Holding(workers[w]) && workers[w].index == i)
      ensures i in Held(updated)
    {
      var v :| 0 <= v < |workers| && Holding(workers[v]) && workers[v].index == i;
      assert updated[v] == workers[v];
    }
  }

  /** A write by the worker that holds the index, or by the caller at the index it has not dispatched. */
  lemma WriteKeepsDistinct<O, E>(s: State<O, E>, i: nat, slot: Slot<O, E>)
    requires Inv(s) && i < |s.slots| && i !in Indexes(s.writes)
    ensures DistinctIndexes(Write(s, i, slot).writes)
    ensures Indexes(Write(s, i, slot).writes) == Indexes(s.writes) + {i}
  {
    IndexesAppend(s.writes, (i, slot));
    forall k | 0 <= k < |s.writes|
      ensures s.writes[k].0 != i
    {
      assert s.writes[k].0 in Indexes(s.writes);
    }
  }

  lemma WorkerWriteKeepsOwnership<O, E>(s: State<O, E>, w: nat, slot: Slot<O, E>)
    requires Inv(s) && w < |s.workers| && Holding(s.workers[w])
    ensures Ownership(SetWorker(Write(s, s.workers[w].index, slot), w, Receiving))
  {
    WriteKeepsDistinct(s, s.workers[w].index, slot);
    HeldUpdate(s.workers, w, Receiving);
  }

  lemma WorkerWriteKeepsInv<O, E>(s: State<O, E>, step: Step)
    requires Inv(s) && Enabled(s, step) && (step.Call? || (step.Check? && s.cancelled))
    ensures Inv(Apply(s, step))
  {
    var slot := Apply(s, step).slots[s.workers[step.w].index];
    WorkerWriteKeepsOwnership(s, step.w, slot);
    WriteKeepsDistinct(s, s.workers[step.w].index, slot);
  }

  lemma DispatchKeepsInv<O, E>(s: State<O, E>, step: Step)
    requires Inv(s) && Enabled(s, step) && (step.Hand? || step.SeeClosed? || (step.Check? && !s.cancelled))
    ensures Inv(Apply(s, step))
  {
    var t := Apply(s, step);
    assert t.writes == s.writes && t.slots == s.slots;
    assert forall v :: 0 <= v < |t.workers| && v != step.w ==> t.workers[v] == s.workers[v];
    hide Held, Indexes, DistinctIndexes;
    assert Control(t) && Contents(t);
    hide Control, Contents;
    if step.Hand? {
      HandKeepsOwnership(s, t, step.w);
    } else {
      OthersKeepOwnership(s, t, step.w);
    }
  }

  lemma HandKeepsOwnership<O, E>(s: State<O, E>, t: State<O, E>, w: nat)
    requires Ownership(s) && t.writes == s.writes && w < |s.workers| && !Holding(s.workers[w])
    requires t.workers == s.workers[w := Checking(s.next)] && t.next == s.next + 1
    ensures Ownership(t)
  {
    HeldUpdate(s.workers, w, Checking(s.next));
    hide Held, Indexes, DistinctIndexes;
  }

  /** The worker keeps its index, or had none. */
  lemma OthersKeepOwnership<O, E>(s: State<O, E>, t: State<O, E>, w: nat)
    requires Ownership(s) && t.writes == s.writes && t.next == s.next && w < |s.workers| == |t.workers|
    requires t.workers == s.workers[w := t.workers[w]]
    requires if Holding(s.workers[w]) then Holding(t.workers[w]) && t.workers[w].index == s.workers[w].index
             else !Holding(t.workers[w])
    ensures Ownership(t)
  {
    HeldUpdate(s.workers, w, t.workers[w]);
    hide Held, Indexes, DistinctIndexes;
  }

  /** Steps that neither write a slot nor move a worker. */
  lemma QuietKeepsInv<O, E>(s: State<O, E>, step: Step)
    requires Inv(s) && Enabled(s, step)
    requires step in {NoticeCancel, LoopDone, CloseIndexes, Join, Cancel}
    ensures Inv(Apply(s, step))
  {
    assert Apply(s, step).writes == s.writes && Apply(s, step).workers == s.workers;
    hide Held, Indexes, DistinctIndexes;
  }

  /** The caller writes the slot of an index it has not dispatched. */
  lemma DrainKeepsInv<O, E>(s: State<O, E>)
    requires Inv(s) && Enabled(s, DrainOne)
    ensures Inv(Apply(s, DrainOne))
  {
    WriteKeepsDistinct(s, s.next, Skipped);
    hide DistinctIndexes;
  }

  lemma StepKeepsInv<O, E>(s: State<O, E>, step: Step)
    requires Inv(s) && Enabled(s, step)
    ensures Inv(Apply(s, step))
    ensures var t := Apply(s, step);
            t.n == s.n && t.f == s.f && |t.workers| == |s.workers|
  {
    hide Inv, Apply;
    match step
    case Check(_) => if s.cancelled { WorkerWriteKeepsInv(s, step); } else { DispatchKeepsInv(s, step); }
    case Call(_) => WorkerWriteKeepsInv(s, step);
    case Hand(_) => DispatchKeepsInv(s, step);
    case SeeClosed(_) => DispatchKeepsInv(s, step);
    case DrainOne => DrainKeepsInv(s);
    case _ => QuietKeepsInv(s, step);
  }

  lemma {:induction false} RunKeepsInv<O, E>(s: State<O, E>, steps: seq<Step>, t: State<O, E>)
    requires Inv(s) && Run(s, steps, t)
    ensures Inv(t) && t.n == s.n && t.f == s.f && |t.workers| == |s.workers|
    decreases |steps|
  {
    if steps != [] {
      StepKeepsInv(s, steps[0]);
      RunKeepsInv(Apply(s, steps[0]), steps[1..], t);
    }
  }

  // ----- the results -----

  /** When the call returns every slot has been written, exactly once, by one party. */
  lemma EverySlotWrittenOnce<O, E>(f: nat -> Outcome<O, E>, n: nat, limit: nat, steps: seq<Step>, t: State<O, E>)
    requires Run(Start(f, n, limit), steps, t)
    ensures DistinctIndexes(t.writes) && |t.writes| <= n && !t.panicked
    ensures t.caller == Returned ==> |t.writes| == n && Indexes(t.writes) == Below(n)
    ensures t.caller == Returned ==> |t.slots| == n && forall i :: 0 <= i < n ==> t.slots[i] != Empty
  {
    RunKeepsInv(Start(f, n, limit), steps, t);
    hide Run, Inv, DistinctIndexes, Indexes;
    WrittenOnce(t);
  }

  lemma WrittenOnce<O, E>(t: State<O, E>)
    requires Inv(t)
    ensures DistinctIndexes(t.writes) && |t.writes| <= t.n && !t.panicked && |t.slots| == t.n
    ensures t.caller == Returned ==> |t.writes| == t.n && Indexes(t.writes) == Below(t.n)
    ensures t.caller == Returned ==> forall i :: 0 <= i < t.n ==> t.slots[i] != Empty
  {
    hide DistinctIndexes, Indexes;
    if t.caller == Returned {
      NothingHeld(t);
    }
    hide Held;
    assert Indexes(t.writes) <= Below(t.n);
    DistinctAndFullCovers(t.writes, t.n);
  }

  lemma NothingHeld<O, E>(t: State<O, E>)
    requires Control(t) && t.caller == Returned
    ensures Held(t.workers) == {} && t.next == t.n
  {
  }

  /** The sequential map in input order. */
  function SequentialMap<O, E>(f: nat -> Outcome<O, E>, n: nat): seq<Slot<O, E>> {
    seq(n, i requires 0 <= i => Ran(f(i)))
  }

  /** Uncancelled, the concurrent map is the sequential map; cancelled, each slot ran or holds the cause. */
  lemma ResultIsSequentialMap<O, E>(f: nat -> Outcome<O, E>, n: nat, limit: nat, steps: seq<Step>, t: State<O, E>)
    requires Run(Start(f, n, limit), steps, t) && t.caller == Returned
    ensures !t.cancelled ==> t.slots == SequentialMap(f, n)
    ensures |t.slots| == n && forall i :: 0 <= i < n ==> t.slots[i] == Ran(f(i)) || (t.slots[i] == Skipped && t.cancelled)
    ensures Failures(t.slots) == [] <==> forall i :: 0 <= i < n ==> t.slots[i].Ran? && f(i).Ok?
  {
    hide Run, DistinctIndexes, Indexes, Contents, SequentialMap, Failures;
    EverySlotWrittenOnce(f, n, limit, steps, t);
    RunHasContents(f, n, limit, steps, t);
    FullSlots(t);
  }

  lemma RunHasContents<O, E>(f: nat -> Outcome<O, E>, n: nat, limit: nat, steps: seq<Step>, t: State<O, E>)
    requires Run(Start(f, n, limit), steps, t)
    ensures |t.slots| == t.n == n && t.f == f && Contents(t)
  {
    RunKeepsInv(Start(f, n, limit), steps, t);
  }

  lemma FullSlots<O, E>(t: State<O, E>)
    requires |t.slots| == t.n && Contents(t)
    requires forall i :: 0 <= i < t.n ==> t.slots[i] != Empty
    ensures !t.cancelled ==> t.slots == SequentialMap(t.f, t.n)
    ensures forall i :: 0 <= i < t.n ==> t.slots[i] == Ran(t.f(i)) || (t.slots[i] == Skipped && t.cancelled)
  {
  }

  /** errors.Join over the error slots: the non-nil errors in input order; Skipped carries the cause. */
  function Failures<O, E>(slots: seq<Slot<O, E>>): (r: seq<Slot<O, E>>)
    ensures r == [] <==> forall i :: 0 <= i < |slots| ==> slots[i].Empty? || (slots[i].Ran? && slots[i].outcome.Ok?)
  {
    if slots == [] then []
    else
      var last := slots[|slots| - 1];
      Failures(slots[..|slots| - 1]) + (if HasError(last) then [last] else [])
  }

  predicate HasError<O, E>(slot: Slot<O, E>) {
    slot.Skipped? || (slot.Ran? && slot.outcome.Err?)
  }

  /** failures are the slots with an error, all of them, in input order; at says where they stand. */
  ghost predicate InInputOrder<O, E>(slots: seq<Slot<O, E>>, failures: seq<Slot<O, E>>, at: seq<nat>) {
    && |at| == |failures|
    && (forall j, k :: 0 <= j < k < |at| ==> at[j] < at[k])
    && (forall k :: 0 <= k < |at| ==> at[k] < |slots| && failures[k] == slots[at[k]])
    && (forall i :: 0 <= i < |slots| ==> (HasError(slots[i]) <==> i in at))
  }

  lemma InOrderAppend<O, E>(slots: seq<Slot<O, E>>, failures: seq<Slot<O, E>>, at: seq<nat>, last: Slot<O, E>)
    requires InInputOrder(slots, failures, at)
    ensures InInputOrder(slots + [last], failures + (if HasError(last) then [last] else []),
                         at + (if HasError(last) then [|slots|] else []))
  {
    hide HasError;
    var longer := at + (if HasError(last) then [|slots|] else []);
    forall i | 0 <= i < |slots| + 1
      ensures HasError((slots + [last])[i]) <==> i in longer
    {
      if i < |slots| {
        assert HasError(slots[i]) <==> i in at;
      } else {
        assert i !in at;
      }
    }
  }

  lemma {:induction false} FailuresInInputOrder<O, E>(slots: seq<Slot<O, E>>) returns (at: seq<nat>)
    ensures InInputOrder(slots, Failures(slots), at)
  {
    if slots == [] {
      at := [];
    } else {
      var n := |slots| - 1;
      assert slots == slots[..n] + [slots[n]];
      assert Failures(slots) == Failures(slots[..n]) + if HasError(slots[n]) then [slots[n]] else [];
      hide InInputOrder, Failures, HasError;
      at := FailuresInInputOrder(slots[..n]);
      InOrderAppend(slots[..n], Failures(slots[..n]), at, slots[n]);
      at := at + if HasError(slots[n]) then [n] else [];
    }
  }

  /** After a cancellation the caller writes the cause for every input not handed out yet, without any worker. */
  lemma {:induction false} CausesNeedNoWorker<O, E>(s: State<O, E>) returns (steps: seq<Step>, t: State<O, E>)
    requires Inv(s) && s.cancelled && s.caller in {Offering, Draining}
    ensures Run(s, steps, t) && t.workers == s.workers && t.n == s.n && t.next == s.n == |t.slots|
    ensures forall i :: 0 <= i < s.n ==> t.slots[i] == if i < s.next then s.slots[i] else Skipped
    ensures forall step :: step in steps ==> step in {NoticeCancel, DrainOne}
    decreases s.n - s.next, s.caller == Offering
  {
    if s.next == s.n {
      steps, t := [], s;
    } else {
      var step := if s.caller == Offering then NoticeCancel else DrainOne;
      StepKeepsInv(s, step);
      steps, t := CausesNeedNoWorker(Apply(s, step));
      assert ([step] + steps)[1..] == steps;
      steps := [step] + steps;
    }
  }

  /** The calls of the user's function that worker w completes along a schedule. */
  function CallsBy(steps: seq<Step>, w: nat): nat {
    if steps == [] then 0
    else (if steps[0] == Call(w) then 1 else 0) + CallsBy(steps[1..], w)
  }

  /** Once the context is cancelled no worker starts a call; one that is under way may still return. */
  lemma {:induction false} NoCallAfterCancel<O, E>(s: State<O, E>, steps: seq<Step>, t: State<O, E>, w: nat)
    requires Inv(s) && s.cancelled && Run(s, steps, t) && w < |s.workers|
    ensures CallsBy(steps, w) <= if s.workers[w].Invoking? then 1 else 0
    decreases |steps|
  {
    if steps != [] {
      var u := Apply(s, steps[0]);
      StepKeepsInv(s, steps[0]);
      CancelledStep(s, steps[0], w);
      hide Apply, Enabled, Inv;
      NoCallAfterCancel(u, steps[1..], t, w);
    }
  }

  lemma CancelledStep<O, E>(s: State<O, E>, step: Step, w: nat)
    requires s.cancelled && Enabled(s, step) && w < |s.workers|
    ensures var t := Apply(s, step);
            && t.cancelled
            && (if t.workers[w].Invoking? then 1 else 0) + (if step == Call(w) then 1 else 0)
               <= (if s.workers[w].Invoking? then 1 else 0)
  {
  }

  lemma AtMostLimitInFlight<O, E>(f: nat -> Outcome<O, E>, n: nat, limit: nat, steps: seq<Step>, t: State<O, E>)
    requires Run(Start(f, n, limit), steps, t)
    ensures |set w | 0 <= w < |t.workers| && t.workers[w].Invoking?| <= |t.workers| == limit
  {
    RunKeepsInv(Start(f, n, limit), steps, t);
    hide Run, Inv;
    var busy := set w | 0 <= w < |t.workers| && t.workers[w].Invoking?;
    AtMostBelow(busy, |t.workers|);
  }

  // ----- liveness -----

  lemma SomeStep<O, E>(s: State<O, E>) returns (step: Step)
    requires Inv(s) && s.caller != Returned && |s.workers| > 0
    ensures step != Cancel && Enabled(s, step)
  {
    if w: nat :| w < |s.workers| && Holding(s.workers[w]) {
      step := if s.workers[w].Checking? then Check(w) else Call(w);
    } else if Enabled(s, LoopDone) {
      step := LoopDone;
    } else if s.caller == Closing {
      step := CloseIndexes;
    } else if s.caller == Draining {
      step := DrainOne;
    } else if w: nat :| Enabled(s, SeeClosed(w)) {
      step := SeeClosed(w);
    } else if s.caller == Offering {
      assert s.workers[0].Receiving?;
      step := Hand(0);
    } else {
      forall w | 0 <= w < |s.workers|
        ensures s.workers[w].Exited?
      {
        assert !Enabled(s, SeeClosed(w));
      }
      step := Join;
    }
  }

  function WorkerRank(worker: Worker): nat {
    match worker
    case Exited => 0
    case Receiving => 1
    case Invoking(_) => 2
    case Checking(_) => 3
  }

  function Measure<O, E>(s: State<O, E>): int {
    3 * (s.n - s.next) + PoolRank(WorkerRank, s.workers)
    + (match s.caller case Offering => 4 case Draining => 3 case Closing => 2 case Joining => 1 case Returned => 0)
    + (if s.cancelled then 0 else 1)
  }

  lemma MeasureFalls<O, E>(s: State<O, E>, step: Step)
    requires Inv(s) && Enabled(s, step)
    ensures Measure(Apply(s, step)) < Measure(s)
  {
    if step.Hand? || step.SeeClosed? || step.Check? || step.Call? {
      hide Control, Ownership, Contents;
      PoolRankUpdate(WorkerRank, s.workers, step.w, Apply(s, step).workers[step.w]);
      hide PoolRank;
    }
  }

  lemma {:induction false} RunLength<O, E>(s: State<O, E>, steps: seq<Step>, t: State<O, E>)
    requires Inv(s) && Run(s, steps, t)
    ensures |steps| <= Measure(s)
    decreases |steps|
  {
    if steps != [] {
      MeasureFalls(s, steps[0]);
      StepKeepsInv(s, steps[0]);
      RunLength(Apply(s, steps[0]), steps[1..], t);
    }
  }

  /** Every schedule has at most 3n + limit + 5 steps; one that cannot be extended has returned with every worker gone. */
  lemma EveryScheduleEnds<O, E>(f: nat -> Outcome<O, E>, n: nat, limit: nat, steps: seq<Step>, t: State<O, E>)
    requires limit > 0
    requires Run(Start(f, n, limit), steps, t)
    ensures |steps| <= 3 * n + limit + 5
    ensures (forall step :: step != Cancel ==> !Enabled(t, step)) ==>
              t.caller == Returned && forall w :: 0 <= w < |t.workers| ==> t.workers[w].Exited?
  {
    var s := Start(f, n, limit);
    RunLength(s, steps, t);
    IdlePoolRank(WorkerRank, s.workers);
    RunKeepsInv(s, steps, t);
    if t.caller != Returned {
      var step := SomeStep(t);
    }
  }

  // ----- the path without goroutines -----

  /**
   One worker or one input: the calling goroutine loops itself.  cancelled(i) is what the context
   reports when input i is reached; a cancelled context stays cancelled.
   */
  method MapInPlace<O, E>(f: nat -> Outcome<O, E>, n: nat, cancelled: nat -> bool) returns (slots: seq<Slot<O, E>>)
    requires forall i, j :: i <= j && cancelled(i) ==> cancelled(j)
    ensures |slots| == n
    ensures forall i :: 0 <= i < n ==> slots[i] == if cancelled(i) then Skipped else Ran(f(i))
    ensures exists k: nat :: k <= n && slots[..k] == SequentialMap(f, k) && forall i :: k <= i < n ==> slots[i] == Skipped
  {
    slots := [];
    ghost var k: nat := 0;
    for i := 0 to n
      invariant |slots| == i
      invariant forall j :: 0 <= j < i ==> slots[j] == if cancelled(j) then Skipped else Ran(f(j))
      invariant k <= i && (forall j :: 0 <= j < k ==> !cancelled(j)) && (k < i ==> cancelled(k))
    {
      if cancelled(i) {
        slots := slots + [Skipped];
      } else {
        slots := slots + [Ran(f(i))];
        k := i + 1;
      }
    }
    assert slots[..k] == SequentialMap(f, k);
  }
}
