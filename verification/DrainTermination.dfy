/** After cancellation the drain comes to an end: a step is always possible until `run` has returned,
    and every step is one of a bounded number. */
module DrainTermination {
  import opened Common
  import opened Drain

  /** The steps the bound is about. Left out: a client arriving, a repeated signal, and an accept that
      reports WouldBlock and is simply retried. */
  predicate Draining(step: Step) {
    !step.Signal? && !step.Arrive? && !(step.OfListener? && step.la == Retry)
  }

  // ---------------------------------------------------------------------------
  // Progress
  // ---------------------------------------------------------------------------

  /** What a connection task can do next. */
  function ConnMove(conn: Conn): ConnAct {
    if conn.running then EndHandler else if conn.permit then DropPermit else Finish
  }

  /** What a live listener can do next once the token is cancelled. */
  function ListenerMove(c: seq<Spec>, s: State, i: nat): ListenerAct
    requires Sized(c, s) && i < |c|
  {
    match s.listeners[i]
    case Starting => FailToStart
    case Selecting => SeeCancel
    case Accepted => if c[i].health then Spawn else if s.free[i] > 0 then Acquire else Reject
    case _ => Spawn
  }

  /** Until `run` has returned, some tracked task can move; nothing waits for anything that may never
      come, except a connection's own peers. */
  lemma Progress(c: seq<Spec>, s: State) returns (step: Step)
    requires Inv(c, s) && s.cancelled && !s.main.Returned?
    ensures Draining(step) && Enabled(c, s, step)
    ensures !step.EndDetached? && !(step.OfConn? && step.ca == Detach)
  {
    match s.main
    case Spawning(n) => step := if n < |c| then SpawnListener else MainAwake;
    case Closing => step := CloseTracker;
    case Woken => step := Return;
    case Waiting =>
      if s.tracked == 0 {
        step := TrackerEmpty;
      } else if s.conns != [] {
        step := OfConn(0, ConnMove(s.conns[0]));
      } else {
        var i := SumPositive(s.listeners, Alive);
        step := OfListener(i, ListenerMove(c, s, i));
      }
  }

  // ---------------------------------------------------------------------------
  // Measure
  // ---------------------------------------------------------------------------

  ghost function ListenerWeight(l: Listener): nat {
    match l
    case Unspawned => 3
    case Starting => 2
    case Selecting => 1
    case Accepted => 7
    case Permitted => 6
    case Exited => 0
  }

  ghost function ConnWeight(conn: Conn): nat {
    1 + (if conn.permit then 1 else 0) + (if conn.running then 2 else 0)
  }

  /** What one more waiting client adds. */
  const CLIENT: nat := 7

  ghost function QueueWeight(waiting: nat): nat {
    CLIENT * waiting
  }

  ghost function MainWeight(m: Main): nat {
    match m
    case Spawning(_) => 4
    case Closing => 3
    case Waiting => 2
    case Woken => 1
    case Returned => 0
  }

  ghost function Measure(s: State): nat {
    Sum(s.backlog, QueueWeight) + Sum(s.listeners, ListenerWeight) + Sum(s.conns, ConnWeight) + |s.detached|
    + MainWeight(s.main)
  }

  lemma ListenerWeighs(s: State, i: nat, at: Listener)
    requires i < |s.listeners|
    ensures Sum(SetListener(s, i, at).listeners, ListenerWeight) ==
            Sum(s.listeners, ListenerWeight) - ListenerWeight(s.listeners[i]) + ListenerWeight(at)
  {
    SumUpdate(s.listeners, i, at, ListenerWeight);
  }

  lemma ListenerDecreases(c: seq<Spec>, s: State, i: nat, la: ListenerAct)
    requires Inv(c, s) && i < |c| && ListenerCan(c, s, i, la) && la != Retry
    ensures Measure(NextListener(c, s, i, la)) < Measure(s)
  {
    ListenerWeighs(s, i, ListenerAfter(la));
    if la == Accept {
      SumUpdate(s.backlog, i, s.backlog[i] - 1, QueueWeight);
    } else if la == Spawn {
      SumAppend(s.conns, Conn(i, !c[i].health, true), ConnWeight);
    }
  }

  lemma ConnDecreases(c: seq<Spec>, s: State, j: nat, ca: ConnAct)
    requires Inv(c, s) && j < |s.conns| && ConnCan(c, s, j, ca)
    ensures Measure(NextConn(c, s, j, ca)) < Measure(s)
  {
    if ca == Finish {
      SumRemove(s.conns, j, ConnWeight);
    } else {
      SumUpdate(s.conns, j, NextConn(c, s, j, ca).conns[j], ConnWeight);
    }
  }

  /** Every draining step uses up some of the measure. */
  lemma Decreases(c: seq<Spec>, s: State, step: Step)
    requires Inv(c, s) && Enabled(c, s, step) && Draining(step)
    ensures Measure(Next(c, s, step)) < Measure(s)
  {
    match step
    case OfListener(i, la) => ListenerDecreases(c, s, i, la);
    case OfConn(j, ca) => ConnDecreases(c, s, j, ca);
    case SpawnListener => ListenerWeighs(s, s.main.next, Starting);
    case _ =>
  }

  /** The other steps: a client's arrival adds its share, a signal or a retried accept adds nothing. */
  lemma OthersAdd(c: seq<Spec>, s: State, step: Step)
    requires Inv(c, s) && Enabled(c, s, step) && !Draining(step)
    ensures Measure(Next(c, s, step)) == Measure(s) + (if step.Arrive? then CLIENT else 0)
  {
    if step.Arrive? {
      SumUpdate(s.backlog, step.i, s.backlog[step.i] + 1, QueueWeight);
    } else if step.OfListener? {
      ListenerWeighs(s, step.i, Selecting);
    }
  }

  /** How many of the steps from `k` to `m` are draining steps, and how many are arrivals. */
  ghost function DrainingSteps(steps: seq<Step>, k: nat, m: nat): nat
    requires k <= m <= |steps|
    decreases m
  {
    if k == m then 0 else DrainingSteps(steps, k, m - 1) + (if Draining(steps[m - 1]) then 1 else 0)
  }

  ghost function Arrivals(steps: seq<Step>, k: nat, m: nat): nat
    requires k <= m <= |steps|
    decreases m
  {
    if k == m then 0 else Arrivals(steps, k, m - 1) + (if steps[m - 1].Arrive? then 1 else 0)
  }

  /** Between any two moments of any run, whatever signals, retries and arrivals come in between, the
      draining steps are paid for by the measure and by the clients that arrived. */
  lemma {:induction false} StepsBounded(c: seq<Spec>, states: seq<State>, steps: seq<Step>, k: nat, m: nat)
    requires IsRun(c, states, steps) && k <= m <= |steps|
    ensures Measure(states[m]) + DrainingSteps(steps, k, m) <= Measure(states[k]) + CLIENT * Arrivals(steps, k, m)
    decreases m
  {
    hide Next, Enabled, Inv, Measure;
    if k < m {
      StepsBounded(c, states, steps, k, m - 1);
      InvAlways(c, states, steps, m - 1);
      if Draining(steps[m - 1]) {
        Decreases(c, states[m - 1], steps[m - 1]);
      } else {
        OthersAdd(c, states[m - 1], steps[m - 1]);
      }
    }
  }

  lemma {:induction false} AllDraining(steps: seq<Step>, k: nat, m: nat)
    requires k <= m <= |steps| && forall x :: k <= x < m ==> Draining(steps[x])
    ensures DrainingSteps(steps, k, m) == m - k && Arrivals(steps, k, m) == 0
    decreases m
  {
    if k < m {
      AllDraining(steps, k, m - 1);
    }
  }

  lemma {:induction false} CancelledStays(c: seq<Spec>, states: seq<State>, steps: seq<Step>, k: nat, m: nat)
    requires IsRun(c, states, steps) && k <= m < |states| && states[k].cancelled
    ensures states[m].cancelled
    decreases m
  {
    hide Next, Enabled;
    if k < m {
      CancelledStays(c, states, steps, k, m - 1);
      NeverUncancelled(c, states[m - 1], steps[m - 1]);
    }
  }

  lemma NeverUncancelled(c: seq<Spec>, s: State, step: Step)
    requires Sized(c, s) && Enabled(c, s, step) && s.cancelled
    ensures Next(c, s, step).cancelled
  {
  }

  /** From cancellation on, in every run, the number of draining steps is bounded by the measure at that
      moment and the clients that still arrive, and the only way a run can be unable to make one is
      that `run` has returned with nothing left alive. */
  lemma DrainTerminates(c: seq<Spec>, states: seq<State>, steps: seq<Step>, k: nat)
    requires IsRun(c, states, steps) && k <= |steps| && states[k].cancelled
    ensures DrainingSteps(steps, k, |steps|) <= Measure(states[k]) + CLIENT * Arrivals(steps, k, |steps|)
    ensures (forall step :: Draining(step) ==> !Enabled(c, states[|steps|], step)) <==> states[|steps|].main.Returned?
    ensures states[|steps|].main.Returned? ==> Dead(c, states[|steps|])
  {
    var last := states[|steps|];
    StepsBounded(c, states, steps, k, |steps|);
    CancelledStays(c, states, steps, k, |steps|);
    InvAlways(c, states, steps, |steps|);
    if last.main.Returned? {
      ReturnedMeansDead(c, states, steps, |steps|, |steps|);
      NothingLeft(c, last);
    } else {
      var step := Progress(c, last);
    }
  }

  /** Without outside interference the drain is over after as many steps as the measure says. */
  lemma UndisturbedDrain(c: seq<Spec>, states: seq<State>, steps: seq<Step>, k: nat)
    requires IsRun(c, states, steps) && k <= |steps| && states[k].cancelled
    requires forall x :: k <= x < |steps| ==> Draining(steps[x])
    ensures |steps| - k <= Measure(states[k])
  {
    DrainTerminates(c, states, steps, k);
    AllDraining(steps, k, |steps|);
  }

  lemma NothingLeft(c: seq<Spec>, s: State)
    requires Dead(c, s) && s.main.Returned?
    ensures forall step :: Draining(step) ==> !Enabled(c, s, step)
  {
  }

  /** The measure in plain counts: seven steps for each queued client, at most seven for each listener,
      four for each connection, one for each detached HTTP task, and four for `run`. */
  lemma MeasureBound(s: State)
    ensures Measure(s) <= CLIENT * Sum(s.backlog, (n: nat) => n) + 7 * |s.listeners| + 4 * |s.conns| + |s.detached| + 4
  {
    SumScaled(s.backlog);
    SumAtMost(s.listeners, ListenerWeight, 7);
    SumAtMost(s.conns, ConnWeight, 4);
  }

  lemma {:induction false} SumScaled(s: seq<nat>)
    ensures Sum(s, QueueWeight) == CLIENT * Sum(s, (n: nat) => n)
  {
    if s != [] {
      SumScaled(s[1..]);
    }
  }
}
