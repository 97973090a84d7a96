/** computeActionsStream as it runs: a dispatcher, a bounded work channel, workers that
    take items and send results, and a consumer, interleaved in any way. */
module WorkerPool {

  /** What the dispatcher does next: send a skip itself, or hand out work. */
  datatype Item<W, D> = Skip(decision: D) | Job(work: W)

  datatype Worker<D> = Idle | Holding(result: D) | Exited

  datatype Phase = Dispatching | Waiting | Finished

  /** `crashed` is Go's panic on a send on a closed channel or a second close. */
  datatype State<W, D> = State(
    todo: seq<Item<W, D>>,
    work: seq<W>,
    workClosed: bool,
    workers: seq<Worker<D>>,
    out: seq<D>,
    outClosed: bool,
    received: seq<D>,
    phase: Phase,
    crashed: bool)

  datatype Pool<!W, !D> = Pool(compute: W -> D, workCap: nat, outCap: nat)

  datatype Step =
    | SendSkip        // out <- decision, by the dispatcher
    | SendWork        // work <- item
    | CloseWork       // close(work)
    | Take(i: nat)    // a worker receives an item and computes
    | SendResult(i: nat)  // out <- result, by a worker
    | Exit(i: nat)    // a worker finds the work channel closed and empty
    | CloseOut        // wg.Wait() returned; close(out)
    | Receive         // the consumer

  function Init<W, D>(items: seq<Item<W, D>>, workers: nat): State<W, D> {
    State(items, [], false, seq(workers, _ => Idle), [], false, [], Dispatching, false)
  }

  predicate Enabled<W, D>(p: Pool<W, D>, s: State<W, D>, step: Step) {
    match step
    case SendSkip => s.phase == Dispatching && s.todo != [] && s.todo[0].Skip? && |s.out| < p.outCap
    case SendWork => s.phase == Dispatching && s.todo != [] && s.todo[0].Job? && |s.work| < p.workCap
    case CloseWork => s.phase == Dispatching && s.todo == []
    case Take(i) => i < |s.workers| && s.workers[i].Idle? && s.work != []
    case SendResult(i) => i < |s.workers| && s.workers[i].Holding? && |s.out| < p.outCap
    case Exit(i) => i < |s.workers| && s.workers[i].Idle? && s.work == [] && s.workClosed
    case CloseOut => s.phase == Waiting && forall i :: 0 <= i < |s.workers| ==> s.workers[i].Exited?
    case Receive => s.out != []
  }

  function Apply<W, D>(p: Pool<W, D>, s: State<W, D>, step: Step): State<W, D>
    requires Enabled(p, s, step)
  {
    match step
    case SendSkip =>
      s.(todo := s.todo[1..], out := s.out + [s.todo[0].decision], crashed := s.crashed || s.outClosed)
    case SendWork =>
      s.(todo := s.todo[1..], work := s.work + [s.todo[0].work], crashed := s.crashed || s.workClosed)
    case CloseWork => s.(workClosed := true, phase := Waiting, crashed := s.crashed || s.workClosed)
    case Take(i) => s.(work := s.work[1..], workers := s.workers[i := Holding(p.compute(s.work[0]))])
    case SendResult(i) =>
      s.(out := s.out + [s.workers[i].result], workers := s.workers[i := Idle], crashed := s.crashed || s.outClosed)
    case Exit(i) => s.(workers := s.workers[i := Exited])
    case CloseOut => s.(outClosed := true, phase := Finished, crashed := s.crashed || s.outClosed)
    case Receive => s.(out := s.out[1..], received := s.received + [s.out[0]])
  }

  // ----- What is conserved -----

  /** The decision an item ends in: the sequential loop's. */
  function Result<W, D>(p: Pool<W, D>, item: Item<W, D>): D {
    match item
    case Skip(d) => d
    case Job(w) => p.compute(w)
  }

  function Results<W, D>(p: Pool<W, D>, items: seq<Item<W, D>>): seq<D> {
    seq(|items|, i requires 0 <= i < |items| => Result(p, items[i]))
  }

  function Computed<W, D>(p: Pool<W, D>, work: seq<W>): seq<D> {
    seq(|work|, i requires 0 <= i < |work| => p.compute(work[i]))
  }

  ghost function HeldBy<D>(w: Worker<D>, d: D): nat {
    if w == Holding(d) then 1 else 0
  }

  ghost function Held<D>(workers: seq<Worker<D>>, d: D): nat {
    if workers == [] then 0 else HeldBy(workers[0], d) + Held(workers[1..], d)
  }

  /** How often decision d of the sequential loop is around, wherever it is. */
  ghost function CountOf<W, D>(p: Pool<W, D>, s: State<W, D>, d: D): nat {
    multiset(Results(p, s.todo))[d] + multiset(Computed(p, s.work))[d] + Held(s.workers, d) +
    multiset(s.out)[d] + multiset(s.received)[d]
  }

  function Busy<D>(workers: seq<Worker<D>>): nat {
    if workers == [] then 0
    else Busy(workers[1..]) + match workers[0] { case Idle => 1 case Holding(_) => 3 case Exited => 0 }
  }

  /** Work left: it decreases with every step. */
  function Measure<W, D>(s: State<W, D>): nat {
    5 * |s.todo| + 4 * |s.work| + Busy(s.workers) + |s.out| +
      match s.phase { case Dispatching => 2 case Waiting => 1 case Finished => 0 }
  }

  ghost predicate Inv<W, D>(p: Pool<W, D>, s: State<W, D>) {
    && !s.crashed
    && (s.workClosed <==> s.phase != Dispatching)
    && (s.outClosed <==> s.phase == Finished)
    && (s.phase != Dispatching ==> s.todo == [])
    && ((exists i :: 0 <= i < |s.workers| && s.workers[i].Exited?) ==> s.work == [] && s.workClosed)
    && (s.phase == Finished ==> forall i :: 0 <= i < |s.workers| ==> s.workers[i].Exited?)
  }

  lemma {:induction false} HeldUpdate<D>(workers: seq<Worker<D>>, i: nat, w: Worker<D>, d: D)
    requires i < |workers|
    ensures Held(workers[i := w], d) + HeldBy(workers[i], d) == Held(workers, d) + HeldBy(w, d)
  {
    var after := workers[i := w];
    if i > 0 {
      HeldUpdate(workers[1..], i - 1, w, d);
      assert after[1..] == workers[1..][i - 1 := w];
    } else {
      assert after[1..] == workers[1..];
    }
  }

  lemma {:induction false} BusyUpdate<D>(workers: seq<Worker<D>>, i: nat, w: Worker<D>)
    requires i < |workers|
    ensures Busy(workers[i := w]) + Busy([workers[i]]) == Busy(workers) + Busy([w])
  {
    assert [workers[i]][1..] == [] && [w][1..] == [];
    if i > 0 {
      BusyUpdate(workers[1..], i - 1, w);
      assert workers[i := w][1..] == workers[1..][i - 1 := w];
    } else {
      assert workers[i := w][1..] == workers[1..];
    }
  }

  lemma {:induction false} MeasureDecreases<W, D>(p: Pool<W, D>, s: State<W, D>, step: Step)
    requires Enabled(p, s, step)
    ensures Measure(Apply(p, s, step)) < Measure(s)
  {
    match step
    case Take(i) => BusyUpdate(s.workers, i, Holding(p.compute(s.work[0])));
    case SendResult(i) => BusyUpdate(s.workers, i, Idle);
    case Exit(i) => BusyUpdate(s.workers, i, Exited);
    case _ =>
  }

  lemma {:induction false} StepKeepsInv<W, D>(p: Pool<W, D>, s: State<W, D>, step: Step)
    requires Inv(p, s) && Enabled(p, s, step)
    ensures Inv(p, Apply(p, s, step))
  {
    var s' := Apply(p, s, step);
    match step
    case Take(i) =>
      assert forall j :: 0 <= j < |s'.workers| && s'.workers[j].Exited? ==> s.workers[j].Exited?;
    case SendResult(i) =>
      assert s.phase != Finished;
    case _ =>
  }

  lemma {:induction false} Cons<D>(d: D, x: D, ds: seq<D>)
    ensures multiset([x] + ds)[d] == multiset(ds)[d] + (if x == d then 1 else 0)
    ensures multiset(ds + [x])[d] == multiset(ds)[d] + (if x == d then 1 else 0)
  {}

  lemma {:induction false} SendSkipConserves<W, D>(p: Pool<W, D>, s: State<W, D>, d: D)
    requires Enabled(p, s, SendSkip)
    ensures CountOf(p, Apply(p, s, SendSkip), d) == CountOf(p, s, d)
  {
    assert Results(p, s.todo) == [s.todo[0].decision] + Results(p, s.todo[1..]);
    Cons(d, s.todo[0].decision, Results(p, s.todo[1..]));
    Cons(d, s.todo[0].decision, s.out);
  }

  lemma {:induction false} SendWorkConserves<W, D>(p: Pool<W, D>, s: State<W, D>, d: D)
    requires Enabled(p, s, SendWork)
    ensures CountOf(p, Apply(p, s, SendWork), d) == CountOf(p, s, d)
  {
    var w := s.todo[0].work;
    assert Results(p, s.todo) == [p.compute(w)] + Results(p, s.todo[1..]);
    assert Computed(p, s.work + [w]) == Computed(p, s.work) + [p.compute(w)];
    Cons(d, p.compute(w), Results(p, s.todo[1..]));
    Cons(d, p.compute(w), Computed(p, s.work));
  }

  lemma {:induction false} TakeConserves<W, D>(p: Pool<W, D>, s: State<W, D>, i: nat, d: D)
    requires Enabled(p, s, Take(i))
    ensures CountOf(p, Apply(p, s, Take(i)), d) == CountOf(p, s, d)
  {
    var w := s.work[0];
    assert Computed(p, s.work) == [p.compute(w)] + Computed(p, s.work[1..]);
    Cons(d, p.compute(w), Computed(p, s.work[1..]));
    HeldUpdate(s.workers, i, Holding(p.compute(w)), d);
  }

  lemma {:induction false} SendResultConserves<W, D>(p: Pool<W, D>, s: State<W, D>, i: nat, d: D)
    requires Enabled(p, s, SendResult(i))
    ensures CountOf(p, Apply(p, s, SendResult(i)), d) == CountOf(p, s, d)
  {
    HeldUpdate(s.workers, i, Idle, d);
    Cons(d, s.workers[i].result, s.out);
  }

  lemma {:induction false} ReceiveConserves<W, D>(p: Pool<W, D>, s: State<W, D>, d: D)
    requires Enabled(p, s, Receive)
    ensures CountOf(p, Apply(p, s, Receive), d) == CountOf(p, s, d)
  {
    assert s.out == [s.out[0]] + s.out[1..];
    Cons(d, s.out[0], s.out[1..]);
    Cons(d, s.out[0], s.received);
  }

  lemma {:induction false} StepConserves<W, D>(p: Pool<W, D>, s: State<W, D>, step: Step, d: D)
    requires Enabled(p, s, step)
    ensures CountOf(p, Apply(p, s, step), d) == CountOf(p, s, d)
  {
    match step
    case SendSkip => SendSkipConserves(p, s, d);
    case SendWork => SendWorkConserves(p, s, d);
    case Take(i) => TakeConserves(p, s, i, d);
    case SendResult(i) => SendResultConserves(p, s, i, d);
    case Exit(i) => HeldUpdate(s.workers, i, Exited, d);
    case Receive => ReceiveConserves(p, s, d);
    case CloseWork =>
    case CloseOut =>
  }

  // ----- Whole runs -----

  ghost predicate Run<W, D>(p: Pool<W, D>, states: seq<State<W, D>>, steps: seq<Step>) {
    && |states| == |steps| + 1
    && forall k {:trigger steps[k]} :: 0 <= k < |steps| ==>
      Enabled(p, states[k], steps[k]) && states[k + 1] == Apply(p, states[k], steps[k])
  }

  /** A state in which nobody can do anything. */
  ghost predicate Stopped<W, D>(p: Pool<W, D>, s: State<W, D>) {
    forall step :: !Enabled(p, s, step)
  }

  lemma {:induction false} RunKeeps<W, D>(p: Pool<W, D>, states: seq<State<W, D>>, steps: seq<Step>, k: nat)
    requires Run(p, states, steps) && Inv(p, states[0]) && k < |states|
    ensures Inv(p, states[k])
    ensures forall d :: CountOf(p, states[k], d) == CountOf(p, states[0], d)
    ensures Measure(states[k]) + k <= Measure(states[0])
  {
    if k > 0 {
      RunKeeps(p, states, steps, k - 1);
      StepKeepsInv(p, states[k - 1], steps[k - 1]);
      forall d ensures CountOf(p, states[k], d) == CountOf(p, states[0], d) {
        StepConserves(p, states[k - 1], steps[k - 1], d);
      }
      MeasureDecreases(p, states[k - 1], steps[k - 1]);
    }
  }

  lemma {:induction false} NoneHeld<D>(workers: seq<Worker<D>>, d: D)
    requires forall i :: 0 <= i < |workers| ==> !workers[i].Holding?
    ensures Held(workers, d) == 0
  {
    if workers != [] {
      assert !workers[0].Holding?;
      NoneHeld(workers[1..], d);
    }
  }

  predicate Done<W, D>(s: State<W, D>) {
    s.phase == Finished && s.out == []
  }

  /** With a worker and room in both channels there is no deadlock. */
  lemma {:induction false} SomeoneCanMove<W, D>(p: Pool<W, D>, s: State<W, D>) returns (step: Step)
    requires Inv(p, s) && !Done(s)
    requires p.workCap > 0 && p.outCap > 0 && |s.workers| > 0
    ensures Enabled(p, s, step)
  {
    if s.out != [] {
      step := Receive;
    } else if i :| 0 <= i < |s.workers| && s.workers[i].Holding? {
      step := SendResult(i);
    } else if s.phase == Dispatching && s.todo == [] {
      step := CloseWork;
    } else if s.phase == Dispatching && s.todo[0].Skip? {
      step := SendSkip;
    } else if s.work != [] {
      step := Take(0);
    } else if s.phase == Dispatching {
      step := SendWork;
    } else if i :| 0 <= i < |s.workers| && s.workers[i].Idle? {
      step := Exit(i);
    } else {
      step := CloseOut;
    }
  }

  // ----- Main results -----

  /** No run ever sends on a closed channel or closes one twice, and no run has more
      steps than the initial measure. */
  lemma {:induction false} RunsAreSafeAndFinite<W, D>(p: Pool<W, D>, items: seq<Item<W, D>>, workers: nat,
                                                      states: seq<State<W, D>>, steps: seq<Step>)
    requires Run(p, states, steps) && states[0] == Init(items, workers)
    ensures forall k :: 0 <= k < |states| ==> !states[k].crashed
    ensures |steps| <= Measure(Init(items, workers))
  {
    forall k | 0 <= k < |states| ensures !states[k].crashed {
      RunKeeps(p, states, steps, k);
    }
    RunKeeps(p, states, steps, |steps|);
  }

  /** When a run can go no further, the consumer has received exactly the decisions of
      the sequential loop, each as often as there, and the channel is closed. */
  lemma {:induction false} PoolRefinesLoop<W, D>(p: Pool<W, D>, items: seq<Item<W, D>>, workers: nat,
                                                 states: seq<State<W, D>>, steps: seq<Step>)
    requires Run(p, states, steps) && states[0] == Init(items, workers)
    requires workers > 0 && p.workCap > 0 && p.outCap > 0
    requires Stopped(p, states[|steps|])
    ensures var end := states[|steps|];
            end.outClosed && end.out == [] && multiset(end.received) == multiset(Results(p, items))
  {
    RunKeeps(p, states, steps, |steps|);
    var start, end := states[0], states[|steps|];
    WorkersStay(p, states, steps, |steps|);
    if !Done(end) {
      var step := SomeoneCanMove(p, end);
    }
    assert end.workers[0].Exited?;
    assert Results(p, end.todo) == [] && Computed(p, end.work) == [];
    forall d ensures multiset(end.received)[d] == multiset(Results(p, items))[d] {
      InitialCount(p, items, workers, d);
      NoneHeld(end.workers, d);
      assert CountOf(p, end, d) == CountOf(p, start, d);
    }
  }

  lemma {:induction false} InitialCount<W, D>(p: Pool<W, D>, items: seq<Item<W, D>>, workers: nat, d: D)
    ensures CountOf(p, Init(items, workers), d) == multiset(Results(p, items))[d]
  {
    var s := Init(items, workers);
    NoneHeld(s.workers, d);
    assert Computed(p, s.work) == [];
  }

  lemma {:induction false} WorkersStay<W, D>(p: Pool<W, D>, states: seq<State<W, D>>, steps: seq<Step>, k: nat)
    requires Run(p, states, steps) && k < |states|
    ensures |states[k].workers| == |states[0].workers|
  {
    if k > 0 {
      WorkersStay(p, states, steps, k - 1);
      assert Enabled(p, states[k - 1], steps[k - 1]);
    }
  }

  /** At any moment, what the consumer has is part of the sequential result. */
  lemma {:induction false} ReceivedIsPartial<W, D>(p: Pool<W, D>, items: seq<Item<W, D>>, workers: nat,
                                                   states: seq<State<W, D>>, steps: seq<Step>, k: nat)
    requires Run(p, states, steps) && states[0] == Init(items, workers) && k < |states|
    ensures multiset(states[k].received) <= multiset(Results(p, items))
  {
    RunKeeps(p, states, steps, k);
    forall d ensures multiset(states[k].received)[d] <= multiset(Results(p, items))[d] {
      InitialCount(p, items, workers, d);
      assert CountOf(p, states[k], d) == CountOf(p, states[0], d);
    }
  }
}
