/** src/net/thread_pool.cpp as a state machine: one step per section under the mutex, per notification
    and per task, interleaved in any order. A task is the number of its submission. */
module ThreadPool {
  /** Awake: on its way to the mutex, to evaluate the predicate of cv.wait. */
  datatype Worker = Awake | Asleep | Running(task: nat) | Exited

  /** notifies counts the submits whose notify_one is still to come; allPending is the destructor between
      releasing the mutex and notify_all. */
  datatype Pool = Pool(queue: seq<nat>, stop: bool, workers: seq<Worker>, submitted: nat, done: set<nat>,
                       notifies: nat, allPending: bool)

  datatype Step =
    | Submit
    | NotifyOne(woken: int)
    | Wake(w: nat)
    | Check(w: nat)
    | Finish(w: nat)
    | Stop
    | NotifyAll

  function Init(n: nat): Pool { Pool([], false, seq(n, _ => Awake), 0, {}, 0, false) }

  predicate In(p: Pool, w: int, s: Worker) { 0 <= w < |p.workers| && p.workers[w] == s }

  ghost predicate SomeAsleep(p: Pool) { exists w :: In(p, w, Asleep) }

  /** Nobody submits once the destructor has run. A notify_one wakes a sleeper if there is one. */
  ghost predicate Enabled(p: Pool, s: Step) {
    match s
    case Submit => !p.stop
    case NotifyOne(w) => p.notifies > 0 && (if SomeAsleep(p) then In(p, w, Asleep) else w == -1)
    case Wake(w) => In(p, w, Asleep)
    case Check(w) => In(p, w, Awake)
    case Finish(w) => w < |p.workers| && p.workers[w].Running?
    case Stop => !p.stop
    case NotifyAll => p.allPending
  }

  function Set(p: Pool, w: nat, s: Worker): Pool
    requires w < |p.workers|
  {
    p.(workers := p.workers[w := s])
  }

  ghost function Do(p: Pool, s: Step): Pool
    requires Enabled(p, s)
  {
    match s
    case Submit => p.(queue := p.queue + [p.submitted], submitted := p.submitted + 1, notifies := p.notifies + 1)
    case NotifyOne(w) =>
      var q := p.(notifies := p.notifies - 1);
      if w == -1 then q else Set(q, w, Awake)
    case Wake(w) => Set(p, w, Awake)
    case Check(w) =>
      if p.queue != [] then Set(p, w, Running(p.queue[0])).(queue := p.queue[1..])
      else if p.stop then Set(p, w, Exited)
      else Set(p, w, Asleep)
    case Finish(w) => Set(p, w, Awake).(done := p.done + {p.workers[w].task})
    case Stop => p.(stop := true, allPending := true)
    case NotifyAll =>
      p.(allPending := false,
         workers := seq(|p.workers|, w requires 0 <= w < |p.workers| =>
                          if p.workers[w] == Asleep then Awake else p.workers[w]))
  }

  /** A run of a pool of n workers: the states it passes through and the steps between them. */
  ghost predicate Run(n: nat, states: seq<Pool>, steps: seq<Step>) {
    && |states| == |steps| + 1 && states[0] == Init(n)
    && (forall i | 0 <= i < |steps| :: Enabled(states[i], steps[i]) && Do(states[i], steps[i]) == states[i + 1])
  }

  ghost predicate Reachable(n: nat, p: Pool) {
    exists states, steps :: Run(n, states, steps) && states[|steps|] == p
  }

  /** The pool itself: one method per section under mtx, per notification and per task. Between them
      anything that is enabled may happen. */
  class Tasks {
    ghost const n: nat
    var tasks: seq<nat>
    var stop: bool
    var workers: seq<Worker>
    var submitted: nat
    var notifies: nat
    var allPending: bool
    ghost var done: set<nat>

    ghost function State(): Pool
      reads this
    {
      Pool(tasks, stop, workers, submitted, done, notifies, allPending)
    }

    constructor (n: nat)
      ensures this.n == n && State() == Init(n) && Inv(n, State())
    {
      this.n := n;
      tasks, stop, submitted, notifies, allPending, done := [], false, 0, 0, false, {};
      var started: seq<Worker> := [];
      for i := 0 to n
        invariant started == seq(i, _ => Awake)
      {
        started := started + [Awake];
      }
      workers := started;
      new;
      StartInv(n);
    }

    method Push()
      requires Inv(n, State()) && Enabled(State(), Submit)
      modifies this
      ensures Inv(n, State()) && State() == Do(old(State()), Submit)
    {
      hide Inv;
      StepKeepsInv(n, State(), Submit);
      tasks, submitted, notifies := tasks + [submitted], submitted + 1, notifies + 1;
    }

    /** notify_one: some sleeper wakes up, if there is one. */
    method Notify() returns (woken: int)
      requires Inv(n, State()) && notifies > 0
      modifies this
      ensures Inv(n, State()) && Enabled(old(State()), NotifyOne(woken))
      ensures State() == Do(old(State()), NotifyOne(woken))
    {
      notifies := notifies - 1;
      woken := -1;
      var w := 0;
      while w < |workers| && woken == -1
        invariant 0 <= w <= |workers| && State() == old(State()).(notifies := notifies)
        invariant notifies == old(notifies) - 1
        invariant if woken == -1 then forall v | 0 <= v < w :: workers[v] != Asleep else In(old(State()), woken, Asleep)
      {
        if workers[w] == Asleep { woken := w; }
        w := w + 1;
      }
      if woken != -1 { workers := workers[woken := Awake]; }
      assert SomeAsleep(old(State())) <==> woken != -1;
      StepKeepsInv(n, old(State()), NotifyOne(woken));
    }

    /** A worker with the mutex: it takes the first task, exits, or waits. */
    method Evaluate(w: nat)
      requires Inv(n, State()) && Enabled(State(), Check(w))
      modifies this
      ensures Inv(n, State()) && State() == Do(old(State()), Check(w))
    {
      hide Inv;
      StepKeepsInv(n, State(), Check(w));
      if !(stop || tasks != []) {
        workers := workers[w := Asleep];
      } else if stop && tasks == [] {
        workers := workers[w := Exited];
      } else {
        var task := tasks[0];
        tasks, workers := tasks[1..], workers[w := Running(task)];
      }
    }

    method FinishTask(w: nat)
      requires Inv(n, State()) && Enabled(State(), Finish(w))
      modifies this
      ensures Inv(n, State()) && State() == Do(old(State()), Finish(w))
    {
      hide Inv;
      StepKeepsInv(n, State(), Finish(w));
      done := done + {workers[w].task};
      workers := workers[w := Awake];
    }

    method SetStop()
      requires Inv(n, State()) && Enabled(State(), Stop)
      modifies this
      ensures Inv(n, State()) && State() == Do(old(State()), Stop)
    {
      hide Inv;
      StepKeepsInv(n, State(), Stop);
      stop, allPending := true, true;
    }

    method WakeAll()
      requires Inv(n, State()) && Enabled(State(), NotifyAll)
      modifies this
      ensures Inv(n, State()) && State() == Do(old(State()), NotifyAll)
    {
      hide Inv;
      allPending := false;
      var w := 0;
      while w < |workers|
        invariant 0 <= w <= |workers| == |old(workers)|
        invariant State() == old(State()).(allPending := false, workers := workers)
        invariant forall v | 0 <= v < |workers| ::
                    workers[v] == if v < w && old(workers)[v] == Asleep then Awake else old(workers)[v]
      {
        if workers[w] == Asleep { workers := workers[w := Awake]; }
        w := w + 1;
      }
      StepKeepsInv(n, old(State()), NotifyAll);
      assert State() == Do(old(State()), NotifyAll);
    }
  }

  function CountAwake(ws: seq<Worker>): nat {
    if ws == [] then 0 else (if ws[0] == Awake then 1 else 0) + CountAwake(ws[1..])
  }

  lemma {:induction false} CountUpdate(ws: seq<Worker>, w: nat, s: Worker)
    requires w < |ws|
    ensures CountAwake(ws[w := s]) ==
            CountAwake(ws) - (if ws[w] == Awake then 1 else 0) + if s == Awake then 1 else 0
  {
    if w == 0 {
      assert ws[0 := s][1..] == ws[1..];
    } else {
      assert ws[w := s][1..] == ws[1..][w - 1 := s];
      CountUpdate(ws[1..], w - 1, s);
    }
  }

  /** Tasks leave the queue in the order they were submitted, and every task that has left it is either
      being run by exactly one worker or done. */
  ghost predicate Accounted(p: Pool) {
    var started := p.submitted - |p.queue|;
    && started >= 0
    && (forall i | 0 <= i < |p.queue| :: p.queue[i] == started + i)
    && (forall t | t in p.done :: t < started)
    && (forall w | 0 <= w < |p.workers| && p.workers[w].Running? ::
          p.workers[w].task < started && p.workers[w].task !in p.done)
    && (forall v, w | 0 <= v < w < |p.workers| && p.workers[v].Running? && p.workers[w].Running? ::
          p.workers[v].task != p.workers[w].task)
    && (forall t: nat | t < started :: t in p.done || exists w :: In(p, w, Running(t)))
  }

  /** No wake-up is lost: while somebody sleeps, every queued task has an awake worker or a notify on its
      way; after the stop, a sleeper still has the notify_all to come. */
  ghost predicate WakeupsSuffice(p: Pool) {
    SomeAsleep(p) ==> if p.stop then p.allPending else |p.queue| <= CountAwake(p.workers) + p.notifies
  }

  ghost predicate Inv(n: nat, p: Pool) {
    && |p.workers| == n && Accounted(p) && WakeupsSuffice(p)
    && (p.allPending ==> p.stop)
    && (forall w | In(p, w, Exited) :: p.stop && p.queue == [])
  }

  /** Waking, sleeping, exiting and notifying leave the tasks alone. */
  lemma SameTasks(p: Pool, q: Pool)
    requires Accounted(p) && |q.workers| == |p.workers|
    requires q.queue == p.queue && q.submitted == p.submitted && q.done == p.done
    requires forall w | 0 <= w < |p.workers| ::
               q.workers[w] == p.workers[w] || !(q.workers[w].Running? || p.workers[w].Running?)
    ensures Accounted(q)
  {
    forall t: nat | t < q.submitted - |q.queue| ensures t in q.done || exists w :: In(q, w, Running(t)) {
      if t !in p.done {
        var w :| In(p, w, Running(t));
        assert In(q, w, Running(t));
      }
    }
  }

  lemma SubmitAccounted(p: Pool)
    requires Accounted(p) && Enabled(p, Submit)
    ensures Accounted(Do(p, Submit))
  {
    var q := Do(p, Submit);
    forall t: nat | t < q.submitted - |q.queue| ensures t in q.done || exists w :: In(q, w, Running(t)) {
      if t !in p.done {
        var w :| In(p, w, Running(t));
        assert In(q, w, Running(t));
      }
    }
  }

  lemma TakeAccounted(p: Pool, w: nat)
    requires Accounted(p) && Enabled(p, Check(w)) && p.queue != []
    ensures Accounted(Do(p, Check(w)))
  {
    var q, first := Do(p, Check(w)), p.submitted - |p.queue|;
    assert p.queue[0] == first;
    forall t: nat | t <= first ensures t in q.done || exists v :: In(q, v, Running(t)) {
      if t == first {
        assert In(q, w, Running(t));
      } else if t !in p.done {
        var v :| In(p, v, Running(t));
        assert In(q, v, Running(t));
      }
    }
  }

  lemma FinishAccounted(p: Pool, w: nat)
    requires Accounted(p) && Enabled(p, Finish(w))
    ensures Accounted(Do(p, Finish(w)))
  {
    var q := Do(p, Finish(w));
    forall t: nat | t < q.submitted - |q.queue| ensures t in q.done || exists v :: In(q, v, Running(t)) {
      if t !in q.done {
        var v :| In(p, v, Running(t));
        assert In(q, v, Running(t));
      }
    }
  }

  lemma StepAccounted(p: Pool, s: Step)
    requires Accounted(p) && Enabled(p, s)
    ensures Accounted(Do(p, s))
  {
    match s {
      case Submit => SubmitAccounted(p);
      case Finish(w) => FinishAccounted(p, w);
      case Check(w) => if p.queue != [] { TakeAccounted(p, w); } else { SameTasks(p, Do(p, s)); }
      case _ => SameTasks(p, Do(p, s));
    }
  }

  lemma StepWakeups(n: nat, p: Pool, s: Step)
    requires Inv(n, p) && Enabled(p, s)
    ensures WakeupsSuffice(Do(p, s))
  {
    var q := Do(p, s);
    if SomeAsleep(q) {
      var w :| In(q, w, Asleep);
      if In(p, w, Asleep) {
        assert SomeAsleep(p);
      }
      match s {
        case NotifyOne(v) => if v != -1 { CountUpdate(p.workers, v, Awake); }
        case Wake(v) => CountUpdate(p.workers, v, Awake);
        case Check(v) => CountUpdate(p.workers, v, q.workers[v]);
        case Finish(v) => CountUpdate(p.workers, v, Awake);
        case _ =>
      }
    }
  }

  /** Every step keeps the invariant. */
  lemma StepKeepsInv(n: nat, p: Pool, s: Step)
    requires Inv(n, p) && Enabled(p, s)
    ensures Inv(n, Do(p, s))
  {
    StepAccounted(p, s);
    StepWakeups(n, p, s);
    var q := Do(p, s);
    forall w | In(q, w, Exited) ensures q.stop && q.queue == [] {
      if !In(p, w, Exited) {
        assert s == Check(w);
      }
    }
  }

  lemma StartInv(n: nat)
    ensures Inv(n, Init(n))
  {
    assert forall w | In(Init(n), w, Exited) :: false;
  }

  lemma {:induction false} RunInv(n: nat, states: seq<Pool>, steps: seq<Step>, i: nat)
    requires Run(n, states, steps) && i <= |steps|
    ensures Inv(n, states[i])
  {
    if i > 0 {
      RunInv(n, states, steps, i - 1);
      StepKeepsInv(n, states[i - 1], steps[i - 1]);
    }
  }

  /** In every reachable state the invariant holds. */
  lemma ReachableInv(n: nat, p: Pool)
    requires Reachable(n, p)
    ensures Inv(n, p)
  {
    var states, steps :| Run(n, states, steps) && states[|steps|] == p;
    RunInv(n, states, steps, |steps|);
  }

  // ---- What the invariant gives ----

  /** Every submitted task is in exactly one of three places: the queue, one worker, the done set. */
  lemma ExactlyOnePlace(n: nat, p: Pool, t: nat)
    requires Reachable(n, p) && t < p.submitted
    ensures var queued, running, done := t in p.queue, (exists w :: In(p, w, Running(t))), t in p.done;
            (queued && !running && !done) || (!queued && running && !done) || (!queued && !running && done)
    ensures forall v, w | In(p, v, Running(t)) && In(p, w, Running(t)) :: v == w
    ensures forall i, j | 0 <= i < j < |p.queue| :: p.queue[i] < p.queue[j]
  {
    ReachableInv(n, p);
    var started := p.submitted - |p.queue|;
    if t >= started {
      assert p.queue[t - started] == t;
    }
  }

  /** A pool that was stopped and whose workers have all exited has done everything it was given. */
  lemma DrainedOnExit(n: nat, p: Pool)
    requires Reachable(n, p) && n > 0
    requires forall w | 0 <= w < n :: In(p, w, Exited)
    ensures p.stop && forall t: nat :: t in p.done <==> t < p.submitted
  {
    ReachableInv(n, p);
    forall w | 0 <= w < n ensures p.workers[w] == Exited {
      assert In(p, w, Exited);
    }
    assert In(p, 0, Exited);
  }

  /** The steps the pool takes by itself: no submit, no stop, no spurious wake-up. */
  predicate Own(s: Step) { s.NotifyOne? || s.Check? || s.Finish? || s.NotifyAll? }

  function Weight(s: Worker): nat {
    match s
    case Awake => 1
    case Running(_) => 2
    case _ => 0
  }

  function Weights(ws: seq<Worker>): nat {
    if ws == [] then 0 else Weight(ws[0]) + Weights(ws[1..])
  }

  function Measure(p: Pool): nat {
    2 * |p.queue| + Weights(p.workers) + 2 * p.notifies + if p.allPending then |p.workers| + 1 else 0
  }

  lemma {:induction false} WeightsUpdate(ws: seq<Worker>, w: nat, s: Worker)
    requires w < |ws|
    ensures Weights(ws[w := s]) == Weights(ws) - Weight(ws[w]) + Weight(s)
  {
    if w == 0 {
      assert ws[0 := s][1..] == ws[1..];
    } else {
      assert ws[w := s][1..] == ws[1..][w - 1 := s];
      WeightsUpdate(ws[1..], w - 1, s);
    }
  }

  lemma {:induction false} WeightsWoken(a: seq<Worker>, b: seq<Worker>)
    requires |a| == |b|
    requires forall w | 0 <= w < |a| :: b[w] == if a[w] == Asleep then Awake else a[w]
    ensures Weights(b) <= Weights(a) + |a|
  {
    if a != [] {
      WeightsWoken(a[1..], b[1..]);
    }
  }

  /** The pool cannot go on by itself for ever: each of its own steps lowers a measure. */
  lemma OwnStepsDecrease(p: Pool, s: Step)
    requires Enabled(p, s) && Own(s)
    ensures Measure(Do(p, s)) < Measure(p)
  {
    var q := Do(p, s);
    match s {
      case NotifyOne(w) => if w != -1 { WeightsUpdate(p.workers, w, Awake); }
      case Check(w) => WeightsUpdate(p.workers, w, q.workers[w]);
      case Finish(w) => WeightsUpdate(p.workers, w, Awake);
      case NotifyAll => WeightsWoken(p.workers, q.workers);
    }
  }

  /** When the pool has come to rest, nothing it was given is left over; and if it was stopped, every
      worker has exited. With OwnStepsDecrease: every task submitted is eventually done. */
  lemma RestMeansDone(n: nat, p: Pool)
    requires Reachable(n, p) && n > 0
    requires forall s | Own(s) :: !Enabled(p, s)
    ensures forall t: nat :: t in p.done <==> t < p.submitted
    ensures p.stop ==> forall w | 0 <= w < n :: In(p, w, Exited)
  {
    ReachableInv(n, p);
    assert !Enabled(p, NotifyAll);
    forall w: nat | w < n ensures p.workers[w] == if p.stop then Exited else Asleep {
      assert !Enabled(p, Check(w)) && !Enabled(p, Finish(w));
      if p.workers[w] == Asleep {
        assert In(p, w, Asleep);
      } else {
        assert In(p, w, Exited);
      }
    }
    assert In(p, 0, p.workers[0]);
    NobodyAwake(p.workers);
    assert !Enabled(p, NotifyOne(0));
    assert p.queue == [];
  }

  lemma {:induction false} NobodyAwake(ws: seq<Worker>)
    requires forall w | 0 <= w < |ws| :: ws[w] != Awake
    ensures CountAwake(ws) == 0
  {
    if ws != [] {
      NobodyAwake(ws[1..]);
    }
  }

  lemma ReachableStep(n: nat, p: Pool, s: Step)
    requires Reachable(n, p) && Enabled(p, s)
    ensures Reachable(n, Do(p, s))
  {
    var states, steps :| Run(n, states, steps) && states[|steps|] == p;
    var more, longer := states + [Do(p, s)], steps + [s];
    assert Run(n, more, longer) && more[|longer|] == Do(p, s);
  }

  /** Left to itself, the pool does every task it was given, and exits if it was stopped. */
  lemma {:induction false} Settles(n: nat, p: Pool) returns (r: Pool)
    requires Reachable(n, p) && n > 0
    ensures Reachable(n, r) && r.submitted == p.submitted && r.stop == p.stop
    ensures forall t: nat :: t in r.done <==> t < p.submitted
    ensures r.stop ==> forall w | 0 <= w < n :: In(r, w, Exited)
    decreases Measure(p)
  {
    if s :| Own(s) && Enabled(p, s) {
      OwnStepsDecrease(p, s);
      ReachableStep(n, p, s);
      r := Settles(n, Do(p, s));
    } else {
      RestMeansDone(n, p);
      r := p;
    }
  }
}
