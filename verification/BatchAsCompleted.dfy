/**
 The completion-ordered fan-out: a dispatcher goroutine, a fixed pool of workers and the consumer
 that ranges over the sequence, joined by the unbuffered channels `indexes` and `results`, the
 channel `done` and the caller's context.  A rendezvous on an unbuffered channel is one step of two
 parties.  Every choice of the scheduler and of a `select` is nondeterministic; the caller may
 cancel its context at any moment and may stop ranging after any pair.
 */
module BatchAsCompleted {
  import opened Common

  /** What one input yields: the (output, error) pair of its invocation, or the cancellation cause. */
  datatype Result<R> = Returned(value: R) | Skipped

  /** Program points of a worker; `Receiving` is the head of its range loop over `indexes`. */
  datatype Worker<R> =
    | Receiving
    | Checking(index: nat)
    | Invoking(index: nat)
    | Sending(index: nat, result: Result<R>)
    | Exited

  /** Program points of the dispatcher; `Leaving` runs the deferred close of `indexes`. */
  datatype Dispatcher = Offering | Reporting | Leaving | Gone

  /** Program points of the consumer; `Closing` and `Joining` are the deferred close and wait. */
  datatype Consumer = Awaiting | Yielding | Closing | Joining | Returned

  datatype State<R> = State(
    n: nat,
    dispatcher: Dispatcher,
    next: nat,
    workers: seq<Worker<R>>,
    consumer: Consumer,
    stopped: bool,
    cancelled: bool,
    indexesClosed: bool,
    doneClosed: bool,
    panicked: bool,
    delivered: seq<(nat, Result<R>)>,
    calls: seq<(nat, R)>)

  datatype Step<R> =
    | Hand(w: nat)                // dispatcher sends its index to worker w
    | StopDispatch                // dispatcher sees done
    | NoticeCancel                // dispatcher sees ctx.Done
    | ReportSkipped               // dispatcher sends a cancellation outcome to the consumer
    | CloseIndexes                // deferred close(indexes)
    | SeeClosed(w: nat)           // worker w finds indexes closed
    | Check(w: nat)               // worker w looks at the context
    | Call(w: nat, value: R)      // worker w's invocation returns value
    | SendResult(w: nat)          // worker w sends its outcome to the consumer
    | Abandon(w: nat)             // worker w sees done
    | Yield(more: bool)           // the range body returns
    | CloseDone                   // deferred close(done)
    | Join                        // wg.Wait returns
    | Cancel                      // the caller cancels the context

  function Min(a: int, b: int): int { if a <= b then a else b }

  /** The worker count: MaxConcurrency when positive, the shared default otherwise, at most one per input. */
  function Limit(n: nat, maxConcurrency: int, defaultParallelism: int): nat
    requires defaultParallelism >= 1
  {
    Min(if maxConcurrency <= 0 then defaultParallelism else maxConcurrency, n)
  }

  /** The state in which the goroutines have just been started; without inputs none ever is. */
  function Start<R>(n: nat, maxConcurrency: int, defaultParallelism: int): State<R>
    requires defaultParallelism >= 1
  {
    if n == 0 then
      State(0, Gone, 0, [], Consumer.Returned, false, false, true, true, false, [], [])
    else
      State(n, Offering, 0, seq(Limit(n, maxConcurrency, defaultParallelism), _ => Receiving),
            Awaiting, false, false, false, false, false, [], [])
  }

  predicate Enabled<R>(s: State<R>, step: Step<R>) {
    match step
    case Hand(w) => s.dispatcher == Offering && s.next < s.n && w < |s.workers| && s.workers[w].Receiving?
    case StopDispatch => s.dispatcher in {Offering, Reporting} && s.next < s.n && s.doneClosed
    case NoticeCancel => s.dispatcher == Offering && s.next < s.n && s.cancelled
    case ReportSkipped => s.dispatcher == Reporting && s.next < s.n && s.consumer == Awaiting
    case CloseIndexes => s.dispatcher == Leaving || (s.dispatcher in {Offering, Reporting} && s.next == s.n)
    case SeeClosed(w) => w < |s.workers| && s.workers[w].Receiving? && s.indexesClosed
    case Check(w) => w < |s.workers| && s.workers[w].Checking?
    case Call(w, _) => w < |s.workers| && s.workers[w].Invoking?
    case SendResult(w) => w < |s.workers| && s.workers[w].Sending? && s.consumer == Awaiting
    case Abandon(w) => w < |s.workers| && s.workers[w].Sending? && s.doneClosed
    case Yield(_) => s.consumer == Yielding
    case CloseDone => s.consumer == Closing
    case Join => s.consumer == Joining && forall w :: 0 <= w < |s.workers| ==> s.workers[w].Exited?
    case Cancel => !s.cancelled
  }

  function SetWorker<R>(s: State<R>, w: nat, worker: Worker<R>): State<R>
    requires w < |s.workers|
  {
    s.(workers := s.workers[w := worker])
  }

  /** Sending on a closed channel and closing a channel twice panic in Go. */
  function Apply<R>(s: State<R>, step: Step<R>): State<R>
    requires Enabled(s, step)
  {
    match step
    case Hand(w) =>
      SetWorker(s, w, Checking(s.next)).(next := s.next + 1, panicked := s.panicked || s.indexesClosed)
    case StopDispatch => s.(dispatcher := Leaving)
    case NoticeCancel => s.(dispatcher := Reporting)
    case ReportSkipped =>
      s.(next := s.next + 1, consumer := Yielding, delivered := s.delivered + [(s.next, Skipped)])
    case CloseIndexes => s.(dispatcher := Gone, indexesClosed := true, panicked := s.panicked || s.indexesClosed)
    case SeeClosed(w) => SetWorker(s, w, Exited)
    case Check(w) =>
      var i := s.workers[w].index;
      SetWorker(s, w, if s.cancelled then Sending(i, Skipped) else Invoking(i))
    case Call(w, value) =>
      var i := s.workers[w].index;
      SetWorker(s, w, Sending(i, Result.Returned(value))).(calls := s.calls + [(i, value)])
    case SendResult(w) =>
      SetWorker(s, w, Receiving).(consumer := Yielding,
                                  delivered := s.delivered + [(s.workers[w].index, s.workers[w].result)])
    case Abandon(w) => SetWorker(s, w, Exited)
    case Yield(more) =>
      if !more then s.(consumer := Closing, stopped := true)
      else if |s.delivered| < s.n then s.(consumer := Awaiting)
      else s.(consumer := Closing)
    case CloseDone => s.(consumer := Joining, doneClosed := true, panicked := s.panicked || s.doneClosed)
    case Join => s.(consumer := Consumer.Returned)
    case Cancel => s.(cancelled := true)
  }

  /** steps is a schedule the runtime may follow from s, and it ends in t. */
  ghost predicate Run<R>(s: State<R>, steps: seq<Step<R>>, t: State<R>)
    decreases |steps|
  {
    if steps == [] then s == t
    else Enabled(s, steps[0]) && Run(Apply(s, steps[0]), steps[1..], t)
  }

  /** Everything has exited: the iterator returned, every worker and the dispatcher are gone. */
  ghost predicate Terminal<R>(s: State<R>) {
    && s.consumer == Consumer.Returned
    && s.dispatcher == Gone
    && forall w :: 0 <= w < |s.workers| ==> s.workers[w].Exited?
  }

  // ----- the inductive invariant -----

  predicate Holding<R>(worker: Worker<R>) {
    worker.Checking? || worker.Invoking? || worker.Sending?
  }

  /** The indexes the workers own. */
  ghost function Held<R>(workers: seq<Worker<R>>): set<nat> {
    set w | 0 <= w < |workers| && Holding(workers[w]) :: workers[w].index
  }

  /** Which program points can go together, and what the two flags mean. */
  ghost predicate Control<R>(s: State<R>) {
    && s.next <= s.n
    && !s.panicked
    && (s.n > 0 ==> |s.workers| > 0)
    && (s.indexesClosed <==> s.dispatcher == Gone)
    && (s.doneClosed <==> s.consumer in {Joining, Consumer.Returned})
    && (s.dispatcher == Leaving ==> s.doneClosed)
    && (s.dispatcher == Gone && !s.doneClosed ==> s.next == s.n)
    && (s.dispatcher == Reporting ==> s.cancelled)
    && (s.consumer == Awaiting ==> |s.delivered| < s.n)
    && (s.consumer !in {Awaiting, Yielding} && !s.stopped ==> |s.delivered| == s.n)
    && (s.stopped ==> s.consumer !in {Awaiting, Yielding})
    && (forall w :: 0 <= w < |s.workers| && s.workers[w].Exited? ==> s.doneClosed || s.indexesClosed)
    && (s.consumer == Consumer.Returned ==> forall w :: 0 <= w < |s.workers| ==> s.workers[w].Exited?)
  }

  /** No index is in two places, and none is lost while the consumer still listens. */
  ghost predicate Ownership<R>(s: State<R>) {
    && DistinctIndexes(s.delivered)
    && (forall i :: i in Indexes(s.delivered) ==> i < s.next)
    && (forall w :: 0 <= w < |s.workers| && Holding(s.workers[w]) ==>
                      s.workers[w].index < s.next && s.workers[w].index !in Indexes(s.delivered))
    && (forall v, w :: 0 <= v < w < |s.workers| && Holding(s.workers[v]) && Holding(s.workers[w]) ==>
                         s.workers[v].index != s.workers[w].index)
    && (!s.doneClosed ==> forall i: nat :: i < s.next ==> i in Indexes(s.delivered) || i in Held(s.workers))
  }

  ghost predicate Justified<R>(s: State<R>, i: nat, result: Result<R>) {
    match result
    case Returned(v) => (i, v) in s.calls
    case Skipped => s.cancelled && i !in Indexes(s.calls)
  }

  /** Each input is invoked at most once and what travels is the outcome of that invocation. */
  ghost predicate Faithful<R>(s: State<R>) {
    && DistinctIndexes(s.calls)
    && (forall i :: i in Indexes(s.calls) ==> i < s.next)
    && (forall w :: 0 <= w < |s.workers| && (s.workers[w].Checking? || s.workers[w].Invoking?) ==>
                      s.workers[w].index !in Indexes(s.calls))
    && (forall w :: 0 <= w < |s.workers| && s.workers[w].Sending? ==>
                      Justified(s, s.workers[w].index, s.workers[w].result))
    && (forall k :: 0 <= k < |s.delivered| ==> Justified(s, s.delivered[k].0, s.delivered[k].1))
  }

  ghost predicate Inv<R>(s: State<R>) {
    Control(s) && Ownership(s) && Faithful(s)
  }

  lemma DeliveredBound<R>(s: State<R>)
    requires Control(s) && Ownership(s)
    ensures |s.delivered| <= s.n
    ensures |s.delivered| == s.n <==> Indexes(s.delivered) == Below(s.n)
  {
    DistinctAndFullCovers(s.delivered, s.n);
  }

  /** Changing one worker changes what is held by at most that worker's index. */
  lemma HeldUpdate<R>(workers: seq<Worker<R>>, w: nat, worker: Worker<R>)
    requires w < |workers|
    ensures var after := Held(workers[w := worker]);
            && (forall i :: i in Held(workers) && !(Holding(workers[w]) && workers[w].index == i) ==> i in after)
            && (Holding(worker) ==> worker.index in after)
  {
    var updated := workers[w := worker];
    assert updated[w] == worker;
    forall i | i in Held(workers) && !(Holding(workers[w]) && workers[w].index == i)
      ensures i in Held(updated)
    {
      var v :| 0 <= v < |workers| && Holding(workers[v]) && workers[v].index == i;
      assert updated[v] == workers[v];
    }
  }

  lemma HandKeepsOwnership<R>(s: State<R>, w: nat)
    requires Inv(s) && Enabled(s, Hand(w))
    ensures Ownership(Apply(s, Hand(w)))
  {
    HeldUpdate(s.workers, w, Checking(s.next));
  }

  /** Checking, calling: the worker keeps the index it has. */
  lemma ProgressKeepsOwnership<R>(s: State<R>, step: Step<R>)
    requires Inv(s) && Enabled(s, step) && (step.Check? || step.Call?)
    ensures Ownership(Apply(s, step))
  {
    HeldUpdate(s.workers, step.w, Apply(s, step).workers[step.w]);
  }

  lemma SendKeepsOwnership<R>(s: State<R>, w: nat)
    requires Inv(s) && Enabled(s, SendResult(w))
    ensures Ownership(Apply(s, SendResult(w)))
  {
    IndexesAppend(s.delivered, (s.workers[w].index, s.workers[w].result));
    HeldUpdate(s.workers, w, Receiving);
    forall k | 0 <= k < |s.delivered|
      ensures s.delivered[k].0 != s.workers[w].index
    {
      assert s.delivered[k].0 in Indexes(s.delivered);
    }
  }

  lemma ReportKeepsOwnership<R>(s: State<R>)
    requires Inv(s) && Enabled(s, ReportSkipped)
    ensures Ownership(Apply(s, ReportSkipped))
  {
    IndexesAppend(s.delivered, (s.next, Skipped));
    forall k | 0 <= k < |s.delivered|
      ensures s.delivered[k].0 != s.next
    {
      assert s.delivered[k].0 in Indexes(s.delivered);
    }
  }

  lemma ExitKeepsOwnership<R>(s: State<R>, step: Step<R>)
    requires Inv(s) && Enabled(s, step) && (step.SeeClosed? || step.Abandon?)
    ensures Ownership(Apply(s, step))
  {
    HeldUpdate(s.workers, step.w, Exited);
  }

  /** Steps that touch neither a worker nor what was delivered. */
  lemma QuietKeepsOwnership<R>(s: State<R>, step: Step<R>)
    requires Inv(s) && Enabled(s, step)
    requires step.StopDispatch? || step.NoticeCancel? || step.CloseIndexes? || step.Yield? || step.CloseDone?
             || step.Join? || step.Cancel?
    ensures Ownership(Apply(s, step))
  {
    var t := Apply(s, step);
    assert t.workers == s.workers && t.delivered == s.delivered && t.next == s.next && (s.doneClosed ==> t.doneClosed);
    hide Apply, Enabled, Control, Faithful, Held, Indexes, DistinctIndexes;
  }

  lemma OwnershipStep<R>(s: State<R>, step: Step<R>)
    requires Inv(s) && Enabled(s, step)
    ensures Ownership(Apply(s, step))
  {
    match step
    case Hand(w) => HandKeepsOwnership(s, w);
    case Check(_) => ProgressKeepsOwnership(s, step);
    case Call(_, _) => ProgressKeepsOwnership(s, step);
    case SendResult(w) => SendKeepsOwnership(s, w);
    case ReportSkipped => ReportKeepsOwnership(s);
    case SeeClosed(_) => ExitKeepsOwnership(s, step);
    case Abandon(_) => ExitKeepsOwnership(s, step);
    case _ => QuietKeepsOwnership(s, step);
  }

  /** What the log of calls justifies stays justified when an index that is new to it is added. */
  lemma CallKeepsFaithful<R>(s: State<R>, w: nat, value: R)
    requires Inv(s) && Enabled(s, Call(w, value))
    ensures Faithful(Apply(s, Call(w, value)))
  {
    var t := Apply(s, Call(w, value));
    var i := s.workers[w].index;
    IndexesAppend(s.calls, (i, value));
    assert t.calls[|s.calls|] == (i, value);
    forall k | 0 <= k < |s.calls|
      ensures s.calls[k].0 != i
    {
      assert s.calls[k].0 in Indexes(s.calls);
    }
    forall k | 0 <= k < |t.delivered|
      ensures Justified(t, t.delivered[k].0, t.delivered[k].1)
    {
      assert t.delivered[k].0 in Indexes(s.delivered);
      assert Justified(s, s.delivered[k].0, s.delivered[k].1);
    }
    forall v | 0 <= v < |t.workers| && t.workers[v].Sending?
      ensures Justified(t, t.workers[v].index, t.workers[v].result)
    {
      if v != w {
        assert Justified(s, s.workers[v].index, s.workers[v].result);
      }
    }
  }

  /** Steps that neither call nor deliver leave every justification as it was. */
  lemma QuietKeepsFaithful<R>(s: State<R>, step: Step<R>)
    requires Inv(s) && Enabled(s, step)
    requires !step.Call? && !step.SendResult? && !step.ReportSkipped? && !step.Check? && !step.Hand?
    ensures Faithful(Apply(s, step))
  {
    var t := Apply(s, step);
    hide Apply, Enabled, Control, Ownership, Faithful;
    QuietLeaves(s, step);
    StaysFaithful(s, t);
  }

  lemma QuietLeaves<R>(s: State<R>, step: Step<R>)
    requires Enabled(s, step)
    requires !step.Call? && !step.SendResult? && !step.ReportSkipped? && !step.Check? && !step.Hand?
    ensures var t := Apply(s, step);
            && t.calls == s.calls && t.delivered == s.delivered && t.next == s.next && (s.cancelled ==> t.cancelled)
            && forall w :: 0 <= w < |s.workers| ==> t.workers[w] == s.workers[w] || t.workers[w].Exited?
  {
    if !step.SeeClosed? && !step.Abandon? {
      assert Apply(s, step).workers == s.workers;
    }
  }

  lemma StaysFaithful<R>(s: State<R>, t: State<R>)
    requires Faithful(s) && t.calls == s.calls && t.delivered == s.delivered && t.next == s.next && (s.cancelled ==> t.cancelled)
    requires |t.workers| == |s.workers| && forall w :: 0 <= w < |s.workers| ==> t.workers[w] == s.workers[w] || t.workers[w].Exited?
    ensures Faithful(t)
  {
    hide Indexes, DistinctIndexes;
    forall w | 0 <= w < |t.workers| && t.workers[w].Sending?
      ensures Justified(t, t.workers[w].index, t.workers[w].result)
    {
      assert Justified(s, s.workers[w].index, s.workers[w].result);
    }
    forall k | 0 <= k < |t.delivered|
      ensures Justified(t, t.delivered[k].0, t.delivered[k].1)
    {
      assert Justified(s, s.delivered[k].0, s.delivered[k].1);
    }
  }

  lemma DeliveryKeepsFaithful<R>(s: State<R>, step: Step<R>)
    requires Inv(s) && Enabled(s, step) && (step.SendResult? || step.ReportSkipped?)
    ensures Faithful(Apply(s, step))
  {
    var t := Apply(s, step);
    forall k | 0 <= k < |t.delivered|
      ensures Justified(t, t.delivered[k].0, t.delivered[k].1)
    {
      if k < |s.delivered| {
        assert Justified(s, s.delivered[k].0, s.delivered[k].1);
      } else if step.SendResult? {
        assert Justified(s, s.workers[step.w].index, s.workers[step.w].result);
      }
    }
    forall w | 0 <= w < |t.workers| && t.workers[w].Sending?
      ensures Justified(t, t.workers[w].index, t.workers[w].result)
    {
      assert Justified(s, s.workers[w].index, s.workers[w].result);
    }
  }

  lemma DispatchKeepsFaithful<R>(s: State<R>, step: Step<R>)
    requires Inv(s) && Enabled(s, step) && (step.Hand? || step.Check?)
    ensures Faithful(Apply(s, step))
  {
    var t := Apply(s, step);
    forall w | 0 <= w < |t.workers| && t.workers[w].Sending?
      ensures Justified(t, t.workers[w].index, t.workers[w].result)
    {
      if w != step.w {
        assert Justified(s, s.workers[w].index, s.workers[w].result);
      }
    }
    forall k | 0 <= k < |t.delivered|
      ensures Justified(t, t.delivered[k].0, t.delivered[k].1)
    {
      assert Justified(s, s.delivered[k].0, s.delivered[k].1);
    }
  }

  lemma FaithfulStep<R>(s: State<R>, step: Step<R>)
    requires Inv(s) && Enabled(s, step)
    ensures Faithful(Apply(s, step))
  {
    match step
    case Call(w, value) => CallKeepsFaithful(s, w, value);
    case SendResult(_) => DeliveryKeepsFaithful(s, step);
    case ReportSkipped => DeliveryKeepsFaithful(s, step);
    case Hand(_) => DispatchKeepsFaithful(s, step);
    case Check(_) => DispatchKeepsFaithful(s, step);
    case _ => QuietKeepsFaithful(s, step);
  }

  lemma ControlStep<R>(s: State<R>, step: Step<R>)
    requires Control(s) && |s.delivered| <= s.n && Enabled(s, step)
    ensures Control(Apply(s, step)) && Apply(s, step).n == s.n && |Apply(s, step).workers| == |s.workers|
  {
    if step.Hand? || step.SeeClosed? || step.Check? || step.Call? || step.SendResult? || step.Abandon? {
      WorkerControl(s, step);
    } else if step.StopDispatch? || step.NoticeCancel? || step.ReportSkipped? || step.CloseIndexes? {
      DispatcherControl(s, step);
    } else {
      ConsumerControl(s, step);
    }
  }

  /** A step of one worker. */
  lemma WorkerControl<R>(s: State<R>, step: Step<R>)
    requires Control(s) && |s.delivered| <= s.n && Enabled(s, step)
    requires step.Hand? || step.SeeClosed? || step.Check? || step.Call? || step.SendResult? || step.Abandon?
    ensures Control(Apply(s, step)) && Apply(s, step).n == s.n && |Apply(s, step).workers| == |s.workers|
  {
    var t := Apply(s, step);
    assert forall v :: 0 <= v < |t.workers| && v != step.w ==> t.workers[v] == s.workers[v];
    assert s.consumer != Consumer.Returned;
  }

  lemma DispatcherControl<R>(s: State<R>, step: Step<R>)
    requires Control(s) && |s.delivered| <= s.n && Enabled(s, step)
    requires step.StopDispatch? || step.NoticeCancel? || step.ReportSkipped? || step.CloseIndexes?
    ensures Control(Apply(s, step)) && Apply(s, step).n == s.n && |Apply(s, step).workers| == |s.workers|
  {
    assert Apply(s, step).workers == s.workers;
  }

  /** A step of the consumer or the caller. */
  lemma ConsumerControl<R>(s: State<R>, step: Step<R>)
    requires Control(s) && |s.delivered| <= s.n && Enabled(s, step)
    requires step.Yield? || step.CloseDone? || step.Join? || step.Cancel?
    ensures Control(Apply(s, step)) && Apply(s, step).n == s.n && |Apply(s, step).workers| == |s.workers|
  {
    assert Apply(s, step).workers == s.workers;
  }

  lemma StepKeepsInv<R>(s: State<R>, step: Step<R>)
    requires Inv(s) && Enabled(s, step)
    ensures Inv(Apply(s, step))
    ensures Apply(s, step).n == s.n && |Apply(s, step).workers| == |s.workers|
  {
    hide Apply, Enabled, Control, Ownership, Faithful;
    DeliveredBound(s);
    ControlStep(s, step);
    OwnershipStep(s, step);
    FaithfulStep(s, step);
  }

  lemma {:induction false} RunKeepsInv<R>(s: State<R>, steps: seq<Step<R>>, t: State<R>)
    requires Inv(s) && Run(s, steps, t)
    ensures Inv(t) && t.n == s.n && |t.workers| == |s.workers|
    decreases |steps|
  {
    if steps != [] {
      StepKeepsInv(s, steps[0]);
      RunKeepsInv(Apply(s, steps[0]), steps[1..], t);
    }
  }

  ghost predicate Reachable<R(!new)>(n: nat, maxConcurrency: int, defaultParallelism: int, t: State<R>)
    requires defaultParallelism >= 1
  {
    exists steps :: Run(Start<R>(n, maxConcurrency, defaultParallelism), steps, t)
  }

  lemma ReachableInv<R(!new)>(n: nat, maxConcurrency: int, defaultParallelism: int, t: State<R>)
    requires defaultParallelism >= 1
    requires Reachable(n, maxConcurrency, defaultParallelism, t)
    ensures Inv(t) && t.n == n && |t.workers| == Limit(n, maxConcurrency, defaultParallelism)
  {
    var s := Start<R>(n, maxConcurrency, defaultParallelism);
    var steps :| Run(s, steps, t);
    RunKeepsInv(s, steps, t);
  }

  // ----- safety -----

  /** A consumer that ranges to the end receives exactly one pair per input. */
  lemma ExactlyOneResultPerInput<R(!new)>(n: nat, maxConcurrency: int, defaultParallelism: int, t: State<R>)
    requires defaultParallelism >= 1
    requires Reachable(n, maxConcurrency, defaultParallelism, t)
    requires t.consumer !in {Awaiting, Yielding} && !t.stopped
    ensures |t.delivered| == n
    ensures forall i: nat :: i < n <==> i in Indexes(t.delivered)
    ensures forall j, k :: 0 <= j < k < n ==> t.delivered[j].0 != t.delivered[k].0
  {
    ReachableInv(n, maxConcurrency, defaultParallelism, t);
    DeliveredBound(t);
  }

  /** While the consumer listens every index is in exactly one place: undispatched, with one worker, or delivered. */
  lemma NoIndexLostOrDuplicated<R(!new)>(n: nat, maxConcurrency: int, defaultParallelism: int, t: State<R>, i: nat)
    requires defaultParallelism >= 1
    requires Reachable(n, maxConcurrency, defaultParallelism, t)
    requires i < n
    ensures i >= t.next ==> i !in Held(t.workers) && i !in Indexes(t.delivered) && i !in Indexes(t.calls)
    ensures i in Held(t.workers) ==> i !in Indexes(t.delivered)
    ensures forall v, w :: 0 <= v < w < |t.workers| && Holding(t.workers[v]) && Holding(t.workers[w]) ==>
                             !(t.workers[v].index == i == t.workers[w].index)
    ensures DistinctIndexes(t.delivered)
    ensures !t.doneClosed && i < t.next ==> i in Held(t.workers) || i in Indexes(t.delivered)
  {
    ReachableInv(n, maxConcurrency, defaultParallelism, t);
  }

  /** A delivered pair is the outcome of the only invocation of its input, or the cause after a cancellation. */
  lemma ResultsAreFaithful<R(!new)>(n: nat, maxConcurrency: int, defaultParallelism: int, t: State<R>, k: nat)
    requires defaultParallelism >= 1
    requires Reachable(n, maxConcurrency, defaultParallelism, t)
    requires k < |t.delivered|
    ensures DistinctIndexes(t.calls)
    ensures match t.delivered[k].1
            case Returned(v) => (t.delivered[k].0, v) in t.calls
            case Skipped => t.cancelled && t.delivered[k].0 !in Indexes(t.calls)
  {
    ReachableInv(n, maxConcurrency, defaultParallelism, t);
    assert Justified(t, t.delivered[k].0, t.delivered[k].1);
  }

  /** No send on a closed channel and no second close; at most Limit invocations are in flight. */
  lemma NoPanicAndBoundedFanOut<R(!new)>(n: nat, maxConcurrency: int, defaultParallelism: int, t: State<R>)
    requires defaultParallelism >= 1
    requires Reachable(n, maxConcurrency, defaultParallelism, t)
    ensures !t.panicked
    ensures |set w | 0 <= w < |t.workers| && t.workers[w].Invoking?| <= Limit(n, maxConcurrency, defaultParallelism) <= n
    ensures maxConcurrency > 0 ==> |set w | 0 <= w < |t.workers| && t.workers[w].Invoking?| <= maxConcurrency
  {
    ReachableInv(n, maxConcurrency, defaultParallelism, t);
    var busy := set w | 0 <= w < |t.workers| && t.workers[w].Invoking?;
    hide Inv, Reachable;
    AtMostBelow(busy, |t.workers|);
  }

  // ----- the size of the pool -----

  /**
   The pool is as large as MaxConcurrency, or the default when that is not positive, or the number of
   inputs if that is less; and some schedule has all of it invoking at the same time.
   */
  lemma PoolIsFullyUsed<R(!new)>(n: nat, maxConcurrency: int, defaultParallelism: int) returns (t: State<R>)
    requires defaultParallelism >= 1
    ensures Reachable(n, maxConcurrency, defaultParallelism, t)
    ensures forall w :: 0 <= w < |t.workers| ==> t.workers[w].Invoking?
    ensures maxConcurrency > 0 ==> |t.workers| == if maxConcurrency <= n then maxConcurrency else n
    ensures maxConcurrency <= 0 ==> |t.workers| == if defaultParallelism <= n then defaultParallelism else n
  {
    var steps;
    steps, t := FillPool(n, maxConcurrency, defaultParallelism, Limit(n, maxConcurrency, defaultParallelism));
  }

  /** Handing one index each to the first k workers and letting them check. */
  lemma {:induction false} FillPool<R>(n: nat, maxConcurrency: int, defaultParallelism: int, k: nat)
    returns (steps: seq<Step<R>>, t: State<R>)
    requires defaultParallelism >= 1 && k <= Limit(n, maxConcurrency, defaultParallelism)
    ensures Run(Start<R>(n, maxConcurrency, defaultParallelism), steps, t)
    ensures |t.workers| == Limit(n, maxConcurrency, defaultParallelism)
    ensures forall w :: 0 <= w < |t.workers| ==> if w < k then t.workers[w].Invoking? else t.workers[w].Receiving?
    ensures n > 0 ==> t.dispatcher == Offering && t.next == k && t.n == n && !t.cancelled
  {
    if k == 0 {
      steps, t := [], Start(n, maxConcurrency, defaultParallelism);
    } else {
      var before, s := FillPool(n, maxConcurrency, defaultParallelism, k - 1);
      var handed := Apply(s, Hand(k - 1));
      t := Apply(handed, Check(k - 1));
      var more := [Hand(k - 1), Check(k - 1)];
      assert more[1..] == [Step<R>.Check(k - 1)] && more[1..][1..] == [];
      assert Run(handed, more[1..], t);
      RunAppend(Start(n, maxConcurrency, defaultParallelism), before, s, more, t);
      steps := before + more;
    }
  }

  lemma {:induction false} RunAppend<R>(s: State<R>, steps: seq<Step<R>>, mid: State<R>, more: seq<Step<R>>, t: State<R>)
    requires Run(s, steps, mid) && Run(mid, more, t)
    ensures Run(s, steps + more, t)
    decreases |steps|
  {
    if steps == [] {
      assert steps + more == more;
    } else {
      RunAppend(Apply(s, steps[0]), steps[1..], mid, more, t);
      assert (steps + more)[1..] == steps[1..] + more;
    }
  }

  // ----- after a cancellation -----

  /** The invocations of the user's function that worker w completes along a schedule. */
  function CallsBy<R>(steps: seq<Step<R>>, w: nat): nat {
    if steps == [] then 0
    else (if steps[0].Call? && steps[0].w == w then 1 else 0) + CallsBy(steps[1..], w)
  }

  /** Once the context is cancelled no worker starts an invocation; one that is under way may still return. */
  lemma {:induction false} NoCallAfterCancel<R>(s: State<R>, steps: seq<Step<R>>, t: State<R>, w: nat)
    requires Inv(s) && s.cancelled && Run(s, steps, t) && w < |s.workers|
    ensures CallsBy(steps, w) <= if s.workers[w].Invoking? then 1 else 0
    decreases |steps|
  {
    if steps != [] {
      StepKeepsInv(s, steps[0]);
      NoCallAfterCancel(Apply(s, steps[0]), steps[1..], t, w);
    }
  }

  predicate NoneInvoking<R>(workers: seq<Worker<R>>) {
    forall w :: 0 <= w < |workers| ==> !workers[w].Invoking?
  }

  lemma CancelledStep<R>(s: State<R>, step: Step<R>)
    requires s.cancelled && NoneInvoking(s.workers) && Enabled(s, step)
    ensures Apply(s, step).cancelled && NoneInvoking(Apply(s, step).workers) && Apply(s, step).calls == s.calls
  {
    if step.StopDispatch? || step.NoticeCancel? || step.ReportSkipped? || step.CloseIndexes? || step.Yield?
       || step.CloseDone? || step.Join? {
      assert Apply(s, step).workers == s.workers;
    } else {
      var w := step.w;
      assert Apply(s, step).workers == s.workers[w := Apply(s, step).workers[w]];
    }
  }

  /** With no invocation under way at the cancellation, the log of calls stays as it is. */
  lemma {:induction false} CallsFrozen<R>(s: State<R>, steps: seq<Step<R>>, t: State<R>)
    requires s.cancelled && NoneInvoking(s.workers) && Run(s, steps, t)
    ensures t.cancelled && t.calls == s.calls
    decreases |steps|
  {
    if steps != [] {
      CancelledStep(s, steps[0]);
      hide Apply, Enabled, NoneInvoking;
      CallsFrozen(Apply(s, steps[0]), steps[1..], t);
    }
  }

  /** A run whose context was cancelled beforehand invokes nothing and reports the cause for each input it reports. */
  lemma CancelledFromTheStart<R(!new)>(n: nat, maxConcurrency: int, defaultParallelism: int, steps: seq<Step<R>>, t: State<R>)
    requires defaultParallelism >= 1
    requires Run(Start<R>(n, maxConcurrency, defaultParallelism), [Cancel] + steps, t)
    ensures t.calls == []
    ensures forall k :: 0 <= k < |t.delivered| ==> t.delivered[k].1 == Skipped
  {
    var s := Start<R>(n, maxConcurrency, defaultParallelism);
    var all := [Cancel] + steps;
    assert all[0] == Cancel && all[1..] == steps;
    CallsFrozen(Apply(s, Cancel), steps, t);
    forall k | 0 <= k < |t.delivered|
      ensures t.delivered[k].1 == Skipped
    {
      ResultsAreFaithful(n, maxConcurrency, defaultParallelism, t, k);
    }
  }

  function Causes<R>(from: nat, to: nat): seq<(nat, Result<R>)>
    requires from <= to
  {
    seq(to - from, k requires 0 <= k < to - from => (from + k, Skipped))
  }

  lemma DeliveredBelowNext<R>(s: State<R>)
    requires Ownership(s)
    ensures |s.delivered| <= s.next
  {
    DistinctAndFullCovers(s.delivered, s.next);
  }

  /** The dispatcher has seen the cancellation, the consumer waits, and there are inputs left. */
  ghost predicate CauseIsNext<R>(s: State<R>) {
    Inv(s) && s.cancelled && s.dispatcher == Reporting && s.next < s.n && s.consumer == Awaiting
  }

  /** One cause reported and, unless it was the last, the consumer waiting again. */
  lemma ReportOne<R>(s: State<R>)
    requires CauseIsNext(s)
    ensures Enabled(s, ReportSkipped)
    ensures var u := Apply(s, ReportSkipped);
            && u.workers == s.workers && u.n == s.n && u.next == s.next + 1
            && u.delivered == s.delivered + [(s.next, Skipped)]
            && (u.next < u.n ==>
                  && Enabled(u, Yield(true))
                  && var v := Apply(u, Yield(true));
                     CauseIsNext(v) && v.(consumer := Yielding) == u)
  {
    var u := Apply(s, ReportSkipped);
    StepKeepsInv(s, ReportSkipped);
    DeliveredBelowNext(u);
    if u.next < u.n {
      StepKeepsInv(u, Yield(true));
    }
    hide Inv;
  }

  lemma {:induction false} CausesReported<R>(s: State<R>) returns (steps: seq<Step<R>>, t: State<R>)
    requires CauseIsNext(s)
    ensures Run(s, steps, t) && t.workers == s.workers && t.delivered == s.delivered + Causes<R>(s.next, s.n)
    ensures forall step :: step in steps ==> step in {ReportSkipped, Yield(true)}
    decreases s.n - s.next
  {
    ReportOne(s);
    var u := Apply(s, ReportSkipped);
    assert Causes<R>(s.next, s.n) == [(s.next, Skipped)] + Causes<R>(s.next + 1, s.n);
    hide Inv, Enabled, Apply;
    if u.next == s.n {
      steps, t := [ReportSkipped], u;
      assert Run(u, [], t) && steps[1..] == [];
    } else {
      var rest;
      rest, t := CausesReported(Apply(u, Yield(true)));
      RunBoth(s, ReportSkipped, Yield(true), rest, t);
      steps := [ReportSkipped, Yield(true)] + rest;
      Associative(s.delivered, [(s.next, Skipped)], Causes<R>(s.next + 1, s.n));
    }
  }

  /**
   After a cancellation a listening consumer gets the cause for every input not handed out yet from the dispatcher
   alone: workers whose invocations have not returned are not needed for it.
   */
  lemma CausesNeedNoWorker<R>(s: State<R>) returns (steps: seq<Step<R>>, t: State<R>)
    requires Inv(s) && s.cancelled && s.dispatcher in {Offering, Reporting} && s.next < s.n && s.consumer == Awaiting
    ensures Run(s, steps, t) && t.workers == s.workers && t.delivered == s.delivered + Causes<R>(s.next, s.n)
    ensures forall step :: step in steps ==> step in {NoticeCancel, ReportSkipped, Yield(true)}
  {
    if s.dispatcher == Reporting {
      steps, t := CausesReported(s);
    } else {
      StepKeepsInv(s, NoticeCancel);
      var rest;
      rest, t := CausesReported(Apply(s, NoticeCancel));
      steps := [NoticeCancel] + rest;
      assert steps[1..] == rest;
    }
  }

  lemma RunBoth<R>(s: State<R>, a: Step<R>, b: Step<R>, steps: seq<Step<R>>, t: State<R>)
    requires Enabled(s, a) && Enabled(Apply(s, a), b) && Run(Apply(Apply(s, a), b), steps, t)
    ensures Run(s, [a, b] + steps, t)
  {
    hide Enabled, Apply;
    assert ([a, b] + steps)[1..] == [b] + steps && ([b] + steps)[1..] == steps;
    assert Run(Apply(s, a), [b] + steps, t);
  }

  // ----- after the consumer has left -----

  /** A consumer that has stopped, or has all its pairs, receives no further pair. */
  lemma {:induction false} NothingDeliveredAfterStop<R>(s: State<R>, steps: seq<Step<R>>, t: State<R>)
    requires Inv(s) && Run(s, steps, t)
    requires s.stopped || |s.delivered| == s.n
    ensures t.delivered == s.delivered
    decreases |steps|
  {
    if steps != [] {
      StepKeepsInv(s, steps[0]);
      NothingDeliveredAfterStop(Apply(s, steps[0]), steps[1..], t);
    }
  }

  /** The invocations of the user's function that worker w starts along a schedule. */
  ghost function Starts<R>(s: State<R>, steps: seq<Step<R>>, t: State<R>, w: nat): nat
    requires Run(s, steps, t)
    decreases |steps|
  {
    if steps == [] then 0
    else
      (if steps[0] == Check(w) && !s.cancelled then 1 else 0) + Starts(Apply(s, steps[0]), steps[1..], t, w)
  }

  /** Once done is closed a worker that is not about to start an invocation leaves instead of taking another index. */
  function StartsLeft<R>(worker: Worker<R>): nat {
    match worker
    case Receiving => 1
    case Checking(_) => 1
    case _ => 0
  }

  lemma StartUsesUp<R>(s: State<R>, step: Step<R>, w: nat)
    requires Control(s) && s.doneClosed && Enabled(s, step) && w < |s.workers|
    ensures Apply(s, step).doneClosed
    ensures StartsLeft(Apply(s, step).workers[w]) + (if step == Check(w) && !s.cancelled then 1 else 0)
            <= StartsLeft(s.workers[w])
  {
  }

  /**
   After the consumer has stopped the dispatcher may still hand out indexes, but each worker starts at most one
   further invocation, and none if it was past its check.
   */
  lemma {:induction false} AtMostOneStartAfterStop<R>(s: State<R>, steps: seq<Step<R>>, t: State<R>, w: nat)
    requires Inv(s) && s.doneClosed && Run(s, steps, t) && w < |s.workers|
    ensures Starts(s, steps, t, w) <= StartsLeft(s.workers[w]) <= 1
    decreases |steps|
  {
    if steps != [] {
      StepKeepsInv(s, steps[0]);
      StartUsesUp(s, steps[0], w);
      AtMostOneStartAfterStop(Apply(s, steps[0]), steps[1..], t, w);
    }
  }

  // ----- liveness -----

  /** Some step other than an outside cancellation is possible until everything has exited. */
  lemma NeverDeadlocks<R(!new)>(n: nat, maxConcurrency: int, defaultParallelism: int, t: State<R>, value: R)
    requires defaultParallelism >= 1
    requires Reachable(n, maxConcurrency, defaultParallelism, t)
    ensures Terminal(t) || exists step :: step != Cancel && Enabled(t, step)
  {
    ReachableInv(n, maxConcurrency, defaultParallelism, t);
    if !Terminal(t) {
      var step := SomeStep(t, value);
    }
  }

  lemma WorkerStep<R>(s: State<R>, w: nat, value: R) returns (step: Step<R>)
    requires w < |s.workers| && Holding(s.workers[w])
    requires s.consumer == Awaiting || s.doneClosed
    ensures step != Cancel && Enabled(s, step)
  {
    step := match s.workers[w]
      case Checking(_) => Check(w)
      case Invoking(_) => Call(w, value)
      case _ => if s.doneClosed then Abandon(w) else SendResult(w);
  }

  lemma Undelivered<R>(s: State<R>) returns (i: nat)
    requires Control(s) && Ownership(s) && |s.delivered| < s.n
    ensures i < s.n && i !in Indexes(s.delivered)
  {
    DeliveredBound(s);
    assert Below(s.n) - Indexes(s.delivered) != {};
    i :| i in Below(s.n) - Indexes(s.delivered);
  }

  lemma SomeStep<R>(s: State<R>, value: R) returns (step: Step<R>)
    requires Inv(s) && !Terminal(s)
    ensures step != Cancel && Enabled(s, step)
  {
    if s.consumer == Yielding {
      step := Yield(true);
    } else if s.consumer == Closing {
      step := CloseDone;
    } else if Enabled(s, StopDispatch) {
      step := StopDispatch;
    } else if Enabled(s, CloseIndexes) {
      step := CloseIndexes;
    } else if w: nat :| w < |s.workers| && Holding(s.workers[w]) {
      step := WorkerStep(s, w, value);
    } else if w: nat :| Enabled(s, SeeClosed(w)) {
      step := SeeClosed(w);
    } else if s.consumer == Awaiting {
      // nobody holds an index, so an undelivered one is still with the dispatcher
      var i := Undelivered(s);
      assert i !in Held(s.workers);
      assert s.workers[0].Receiving?;
      step := if s.dispatcher == Offering then Hand(0) else ReportSkipped;
    } else {
      forall w | 0 <= w < |s.workers|
        ensures s.workers[w].Exited?
      {
        assert !Enabled(s, SeeClosed(w));
      }
      step := Join;
    }
  }

  function WorkerRank<R>(worker: Worker<R>): nat {
    match worker
    case Exited => 0
    case Receiving => 1
    case Sending(_, _) => 2
    case Invoking(_) => 3
    case Checking(_) => 4
  }

  /** An upper bound on the number of steps still possible. */
  function Measure<R>(s: State<R>): int {
    4 * (s.n - s.next) + 2 * (s.n - |s.delivered|) + PoolRank(WorkerRank<R>, s.workers)
    + (match s.dispatcher case Offering => 3 case Reporting => 2 case Leaving => 1 case Gone => 0)
    + (match s.consumer case Yielding => 4 case Awaiting => 3 case Closing => 2 case Joining => 1 case Returned => 0)
    + (if s.cancelled then 0 else 1)
  }

  lemma WorkerMeasureFalls<R>(s: State<R>, step: Step<R>)
    requires Inv(s) && Enabled(s, step)
    requires step.Hand? || step.SeeClosed? || step.Abandon? || step.Check? || step.Call? || step.SendResult?
    ensures Measure(Apply(s, step)) < Measure(s)
  {
    hide Inv, PoolRank;
    match step
    case Hand(w) => PoolRankUpdate(WorkerRank<R>, s.workers, w, Checking(s.next));
    case SeeClosed(w) => PoolRankUpdate(WorkerRank<R>, s.workers, w, Exited);
    case Abandon(w) => PoolRankUpdate(WorkerRank<R>, s.workers, w, Exited);
    case SendResult(w) => PoolRankUpdate(WorkerRank<R>, s.workers, w, Receiving);
    case Check(w) => PoolRankUpdate(WorkerRank<R>, s.workers, w, Apply(s, step).workers[w]);
    case Call(w, value) => PoolRankUpdate(WorkerRank<R>, s.workers, w, Apply(s, step).workers[w]);
  }

  lemma MeasureFalls<R>(s: State<R>, step: Step<R>)
    requires Inv(s) && Enabled(s, step)
    ensures Measure(Apply(s, step)) < Measure(s)
  {
    if step.Hand? || step.SeeClosed? || step.Abandon? || step.Check? || step.Call? || step.SendResult? {
      WorkerMeasureFalls(s, step);
    }
  }

  lemma {:induction false} RunLength<R>(s: State<R>, steps: seq<Step<R>>, t: State<R>)
    requires Inv(s) && Run(s, steps, t)
    ensures |steps| <= Measure(s)
    decreases |steps|
  {
    DeliveredBound(s);
    if steps != [] {
      MeasureFalls(s, steps[0]);
      StepKeepsInv(s, steps[0]);
      RunLength(Apply(s, steps[0]), steps[1..], t);
    }
  }

  /** No schedule has more than 6n + limit + 7 steps, and one that cannot be extended leaves nothing running. */
  lemma EveryScheduleEnds<R(!new)>(n: nat, maxConcurrency: int, defaultParallelism: int, steps: seq<Step<R>>, t: State<R>, value: R)
    requires defaultParallelism >= 1
    requires Run(Start<R>(n, maxConcurrency, defaultParallelism), steps, t)
    ensures |steps| <= 6 * n + Limit(n, maxConcurrency, defaultParallelism) + 7
    ensures (forall step :: step != Cancel ==> !Enabled(t, step)) ==> Terminal(t)
  {
    var s := Start<R>(n, maxConcurrency, defaultParallelism);
    RunLength(s, steps, t);
    IdlePoolRank(WorkerRank<R>, s.workers);
    NeverDeadlocks(n, maxConcurrency, defaultParallelism, t, value);
  }
}
