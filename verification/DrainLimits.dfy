/** What the admission limit and the drain do not cover, with the exact configurations for which they
    do: later spawns, detached HTTP tasks, and requests cut off at shutdown. */
module DrainLimits {
  import opened Common
  import opened Drain
  import opened DrainTermination

  /** There is a path from `s` to `t`. */
  ghost predicate Follows(c: seq<Spec>, s: State, t: State) {
    exists states, steps :: IsPath(c, states, steps) && states[0] == s && states[|steps|] == t
  }

  ghost predicate Reaches(c: seq<Spec>, s: State) {
    Follows(c, Initial(c), s)
  }

  lemma FollowSelf(c: seq<Spec>, s: State)
    requires Sized(c, s)
    ensures Follows(c, s, s)
  {
    assert IsPath(c, [s], []);
  }

  lemma FollowStep(c: seq<Spec>, root: State, s: State, step: Step)
    requires Follows(c, root, s) && Sized(c, s) && Enabled(c, s, step)
    ensures Follows(c, root, Next(c, s, step))
  {
    hide Next, Enabled;
    var states, steps :| IsPath(c, states, steps) && states[0] == root && states[|steps|] == s;
    var t := Next(c, s, step);
    assert IsPath(c, states + [t], steps + [step]);
    assert (states + [t])[|steps + [step]|] == t;
  }

  lemma ReachesInv(c: seq<Spec>, s: State)
    requires Reaches(c, s)
    ensures Inv(c, s)
  {
    var states, steps :| IsPath(c, states, steps) && states[0] == Initial(c) && states[|steps|] == s;
    InvAlways(c, states, steps, |steps|);
  }

  /** One step, with the invariant carried along. */
  lemma Go(c: seq<Spec>, root: State, s: State, step: Step) returns (t: State)
    requires Inv(c, s) && Follows(c, root, s) && Enabled(c, s, step)
    ensures t == Next(c, s, step) && Inv(c, t) && Follows(c, root, t)
  {
    FollowStep(c, root, s, step);
    NextKeepsInv(c, s, step);
    t := Next(c, s, step);
  }

  // ---------------------------------------------------------------------------
  // When a connection can still be spawned
  // ---------------------------------------------------------------------------

  /** A listener with this configuration can admit somebody. */
  predicate CanAdmit(spec: Spec) {
    spec.health || spec.limit > 0
  }

  /** Listener i has not exited, can get to its accept loop, and can admit somebody. */
  predicate Ready(c: seq<Spec>, s: State, i: nat)
    requires Sized(c, s)
  {
    && i < |c| && CanAdmit(c[i]) && s.listeners[i] != Exited
    && (s.listeners[i] == Unspawned || s.listeners[i] == Starting ==> c[i].tcp)
  }

  /** In its accept loop. */
  predicate Serving(s: State, i: nat) {
    i < |s.listeners| && (s.listeners[i] == Selecting || s.listeners[i] == Accepted || s.listeners[i] == Permitted)
  }

  /** What the steps below leave alone. */
  ghost predicate SameOutside(s: State, t: State) {
    t.detached == s.detached && t.cancelled == s.cancelled && t.closed == s.closed
  }

  lemma Wake(c: seq<Spec>, root: State, s: State, i: nat) returns (t: State)
    requires Inv(c, s) && Follows(c, root, s) && Ready(c, s, i)
    ensures Inv(c, t) && Follows(c, root, t) && Serving(t, i) && SameOutside(s, t)
    ensures s.main.Spawning? ==> t.main.Spawning?
    decreases if s.main.Spawning? then |c| - s.main.next else 0
  {
    hide Follows, Counted;
    if s.listeners[i] == Unspawned {
      t := Go(c, root, s, SpawnListener);
      t := Wake(c, root, t, i);
    } else if s.listeners[i] == Starting {
      t := Go(c, root, s, OfListener(i, Bind));
    } else {
      t := s;
    }
  }

  /** A permit can always be had when there are any: some connection that holds one can end. */
  lemma FreePermit(c: seq<Spec>, root: State, s: State, i: nat) returns (t: State)
    requires Inv(c, s) && Follows(c, root, s) && i < |c|
    requires s.listeners[i] == Accepted && !c[i].health && c[i].limit > 0
    ensures Inv(c, t) && Follows(c, root, t) && t.listeners[i] == Accepted && t.free[i] > 0 && SameOutside(s, t)
  {
    hide Follows;
    t := s;
    if s.free[i] == 0 {
      assert Holders(s, i) == c[i].limit;
      var j := SumPositive(s.conns, ConnHolds(i));
      if s.conns[j].running {
        t := Go(c, root, s, OfConn(j, EndHandler));
      }
      t := Go(c, root, t, OfConn(j, DropPermit));
    }
  }

  /** A serving listener that can admit somebody can be brought to the point of spawning a connection. */
  lemma AdmitClient(c: seq<Spec>, root: State, s: State, i: nat) returns (t: State)
    requires Inv(c, s) && Follows(c, root, s) && Serving(s, i) && CanAdmit(c[i])
    ensures Inv(c, t) && Follows(c, root, t) && SameOutside(s, t)
    ensures i < |c| && ListenerCan(c, t, i, Spawn)
  {
    hide Follows, Counted;
    t := s;
    if t.listeners[i] == Selecting {
      t := Go(c, root, t, Arrive(i));
      t := Go(c, root, t, OfListener(i, Accept));
    }
    if t.listeners[i] == Accepted && !c[i].health {
      t := FreePermit(c, root, t, i);
      t := Go(c, root, t, OfListener(i, Acquire));
    }
  }

  /** Some continuation of `s` spawns a connection. */
  ghost predicate SpawnsLater(c: seq<Spec>, s: State) {
    exists t, i: nat :: Follows(c, s, t) && Sized(c, t) && i < |c| && ListenerCan(c, t, i, Spawn)
  }

  ghost predicate NoneReady(c: seq<Spec>, s: State)
    requires Sized(c, s)
  {
    forall i: nat :: !Ready(c, s, i)
  }

  lemma ListenersNeverRevive(c: seq<Spec>, s: State, step: Step)
    requires Inv(c, s) && Enabled(c, s, step) && NoneReady(c, s)
    ensures NoneReady(c, Next(c, s, step))
  {
    hide Next, Enabled, Ready, Shape, Counted;
    var t := Next(c, s, step);
    forall i: nat ensures !Ready(c, t, i) {
      assert !Ready(c, s, i);
      NeverReady(c, s, step, i);
    }
  }

  lemma NeverReady(c: seq<Spec>, s: State, step: Step, i: nat)
    requires Inv(c, s) && Enabled(c, s, step) && !Ready(c, s, i)
    ensures Sized(c, Next(c, s, step)) && !Ready(c, Next(c, s, step), i)
  {
    hide Counted;
    if i < |c| && CanAdmit(c[i]) {
      var before, after := s.listeners[i], Next(c, s, step).listeners[i];
      assert before == Exited ==> after == Exited;
      assert before != Exited ==> before == Unspawned || before == Starting;
    }
  }

  lemma SpawnNeedsReady(c: seq<Spec>, s: State, i: nat)
    requires Inv(c, s) && i < |c| && ListenerCan(c, s, i, Spawn)
    ensures Ready(c, s, i)
  {
  }

  lemma {:induction false} NeverReadyAgain(c: seq<Spec>, states: seq<State>, steps: seq<Step>, k: nat)
    requires IsPath(c, states, steps) && k < |states| && Inv(c, states[0]) && NoneReady(c, states[0])
    ensures Inv(c, states[k]) && NoneReady(c, states[k])
  {
    hide Next, Enabled, Inv, NoneReady;
    if k > 0 {
      NeverReadyAgain(c, states, steps, k - 1);
      NextKeepsInv(c, states[k - 1], steps[k - 1]);
      ListenersNeverRevive(c, states[k - 1], steps[k - 1]);
    }
  }

  /** In every reachable state, with the token cancelled or not and the tracker closed or not: a
      connection can still be spawned exactly when some listener has not exited, can start, and can
      admit somebody. Cancelling and closing alone rule nothing out. */
  lemma SpawnsLaterIff(c: seq<Spec>, s: State)
    requires Reaches(c, s)
    ensures SpawnsLater(c, s) <==> exists i: nat :: Ready(c, s, i)
  {
    ReachesInv(c, s);
    if i: nat :| Ready(c, s, i) {
      FollowSelf(c, s);
      var t := Wake(c, s, s, i);
      t := AdmitClient(c, s, t, i);
    } else if SpawnsLater(c, s) {
      var t, i: nat :| Follows(c, s, t) && Sized(c, t) && i < |c| && ListenerCan(c, t, i, Spawn);
      var states, steps :| IsPath(c, states, steps) && states[0] == s && states[|steps|] == t;
      NeverReadyAgain(c, states, steps, |steps|);
      SpawnNeedsReady(c, t, i);
    }
  }

  /** `run` alone goes on to close the tracker; a serving listener stays where it is. */
  lemma CloseAround(c: seq<Spec>, root: State, s: State, i: nat) returns (t: State)
    requires Inv(c, s) && Follows(c, root, s) && Serving(s, i) && s.cancelled && (s.main.Spawning? || s.main == Closing)
    ensures Inv(c, t) && Follows(c, root, t) && Serving(t, i) && t.closed && t.cancelled && t.main == Waiting
    decreases if s.main.Spawning? then |c| - s.main.next + 1 else 0
  {
    hide Follows, Counted;
    if s.main == Closing {
      t := Go(c, root, s, CloseTracker);
    } else {
      t := Go(c, root, s, if s.main.next < |c| then SpawnListener else MainAwake);
      t := CloseAround(c, root, t, i);
    }
  }

  /** Any listener that can start and admit somebody may still spawn connections while `run` is waiting
      on the closed tracker. */
  lemma SpawnAfterClose(c: seq<Spec>, i: nat) returns (s: State)
    requires i < |c| && c[i].tcp && CanAdmit(c[i])
    ensures Reaches(c, s) && s.closed && s.cancelled && s.main == Waiting && SpawnsLater(c, s)
  {
    hide Follows, Counted;
    var root := Initial(c);
    s := WakeInTime(c, i);
    s := Go(c, root, s, Signal);
    s := CloseAround(c, root, s, i);
    assert Ready(c, s, i);
    SpawnsLaterIff(c, s);
  }

  lemma WakeInTime(c: seq<Spec>, i: nat) returns (t: State)
    requires i < |c| && c[i].tcp && CanAdmit(c[i])
    ensures Inv(c, t) && Reaches(c, t) && Serving(t, i) && t.main.Spawning? && t.detached == []
  {
    hide Follows, Counted;
    var root := Initial(c);
    InitialInv(c);
    FollowSelf(c, root);
    assert root.listeners[i] == Unspawned;
    t := Wake(c, root, root, i);
  }

  // ---------------------------------------------------------------------------
  // Where detached tasks come from
  // ---------------------------------------------------------------------------

  /** A client of this listener can end up in a detached HTTP task. */
  predicate CanDetach(spec: Spec) {
    spec.tcp && (spec.health || (spec.limit > 0 && spec.sniHealth))
  }

  /** Every task goes back to a listener that could start and admit it. */
  ghost predicate Rooted(c: seq<Spec>, s: State)
    requires Sized(c, s)
  {
    && (forall i :: 0 <= i < |c| && Serving(s, i) ==> c[i].tcp)
    && (forall j :: 0 <= j < |s.conns| ==> s.conns[j].proxy < |c| && c[s.conns[j].proxy].tcp
                                           && CanAdmit(c[s.conns[j].proxy]))
    && (forall d :: 0 <= d < |s.detached| ==> s.detached[d] < |c| && CanDetach(c[s.detached[d]]))
  }

  lemma ListenerKeepsRooted(c: seq<Spec>, s: State, i: nat, la: ListenerAct)
    requires Inv(c, s) && Rooted(c, s) && i < |c| && ListenerCan(c, s, i, la)
    ensures Rooted(c, NextListener(c, s, i, la))
  {
    if la == Spawn {
      SpawnNeedsReady(c, s, i);
    }
  }

  lemma ConnKeepsRooted(c: seq<Spec>, s: State, j: nat, ca: ConnAct)
    requires Sized(c, s) && Rooted(c, s) && j < |s.conns| && ConnCan(c, s, j, ca)
    ensures Rooted(c, NextConn(c, s, j, ca))
  {
    var t := NextConn(c, s, j, ca);
    if ca == Finish {
      assert forall x :: 0 <= x < |t.conns| ==> t.conns[x] == s.conns[if x < j then x else x + 1];
    }
  }

  lemma NextKeepsRooted(c: seq<Spec>, s: State, step: Step)
    requires Inv(c, s) && Rooted(c, s) && Enabled(c, s, step)
    ensures Rooted(c, Next(c, s, step))
  {
    hide Counted;
    match step
    case OfListener(i, la) => ListenerKeepsRooted(c, s, i, la);
    case OfConn(j, ca) => ConnKeepsRooted(c, s, j, ca);
    case _ =>
  }

  lemma {:induction false} RootedAlways(c: seq<Spec>, states: seq<State>, steps: seq<Step>, k: nat)
    requires IsRun(c, states, steps) && k < |states|
    ensures Rooted(c, states[k])
  {
    hide Next, Enabled, Inv, Rooted;
    if k > 0 {
      RootedAlways(c, states, steps, k - 1);
      InvAlways(c, states, steps, k - 1);
      NextKeepsRooted(c, states[k - 1], steps[k - 1]);
    } else {
      InitialRooted(c);
    }
  }

  lemma InitialRooted(c: seq<Spec>)
    ensures Rooted(c, Initial(c))
  {
  }

  lemma ReachesRooted(c: seq<Spec>, s: State)
    requires Reaches(c, s)
    ensures Inv(c, s) && Rooted(c, s)
  {
    ReachesInv(c, s);
    var states, steps :| IsPath(c, states, steps) && states[0] == Initial(c) && states[|steps|] == s;
    RootedAlways(c, states, steps, |steps|);
  }

  /** One more client of listener i is admitted and leaves an HTTP task behind. */
  lemma DetachOne(c: seq<Spec>, root: State, s: State, i: nat) returns (t: State)
    requires Inv(c, s) && Follows(c, root, s) && Serving(s, i) && CanDetach(c[i])
    ensures Inv(c, t) && Follows(c, root, t) && Serving(t, i)
    ensures t.detached == s.detached + [i] && t.cancelled == s.cancelled
  {
    hide Follows, Counted;
    t := AdmitClient(c, root, s, i);
    t := Go(c, root, t, OfListener(i, Spawn));
    t := Go(c, root, t, OfConn(|t.conns| - 1, Detach));
  }

  function Copies(i: nat, m: nat): seq<nat> {
    if m == 0 then [] else Copies(i, m - 1) + [i]
  }

  lemma {:induction false} DetachMany(c: seq<Spec>, i: nat, m: nat) returns (t: State)
    requires i < |c| && CanDetach(c[i])
    ensures Inv(c, t) && Reaches(c, t) && Serving(t, i) && t.detached == Copies(i, m)
  {
    hide Follows, Counted;
    if m == 0 {
      t := WakeInTime(c, i);
    } else {
      var s := DetachMany(c, i, m - 1);
      t := DetachOne(c, Initial(c), s, i);
    }
  }

  // ---------------------------------------------------------------------------
  // Requests cut off by the return of `run`
  // ---------------------------------------------------------------------------

  /** In some run, `run` returns, and drops its runtime, while an HTTP task is still serving a client. */
  ghost predicate CutsRequest(c: seq<Spec>) {
    exists s :: Reaches(c, s) && s.main == Woken && s.detached != []
  }

  /** Tracked tasks can drain without a detached task ever finishing. */
  lemma {:induction false} DrainAround(c: seq<Spec>, root: State, s: State) returns (t: State)
    requires Inv(c, s) && Follows(c, root, s) && s.cancelled && !s.main.Returned?
    ensures Follows(c, root, t) && t.main == Woken && t.detached == s.detached
    decreases Measure(s)
  {
    hide Follows;
    if s.main == Woken {
      t := s;
    } else {
      var step := Progress(c, s);
      Decreases(c, s, step);
      t := Go(c, root, s, step);
      KeepsDetached(c, s, step);
      t := DrainAround(c, root, t);
    }
  }

  lemma KeepsDetached(c: seq<Spec>, s: State, step: Step)
    requires Sized(c, s) && Enabled(c, s, step) && s.main != Woken && Draining(step)
    requires !step.EndDetached? && !(step.OfConn? && step.ca == Detach) && s.cancelled && !s.main.Returned?
    ensures var t := Next(c, s, step); t.detached == s.detached && t.cancelled && !t.main.Returned?
  {
  }

  /** A graceful shutdown can cut off a health request exactly when some listener can start, can admit a
      client, and can route it to a health check. */
  lemma CutsRequestIff(c: seq<Spec>)
    ensures CutsRequest(c) <==> exists i: nat :: i < |c| && CanDetach(c[i])
  {
    if i: nat :| i < |c| && CanDetach(c[i]) {
      var s := DetachMany(c, i, 1);
      s := Go(c, Initial(c), s, Signal);
      LiveListenerIsTracked(c, s, i);
      var t := DrainAround(c, Initial(c), s);
      assert t.detached[0] == i;
    }
    if CutsRequest(c) {
      var s :| Reaches(c, s) && s.main == Woken && s.detached != [];
      ReachesRooted(c, s);
      var owner := s.detached[0];
      assert owner < |c| && CanDetach(c[owner]);
    }
  }

  // ---------------------------------------------------------------------------
  // How many clients are served at once
  // ---------------------------------------------------------------------------

  ghost function Runs(i: nat): Conn -> nat {
    (conn: Conn) => if conn.proxy == i && conn.running then 1 else 0
  }

  ghost function Owns(i: nat): nat -> nat {
    (owner: nat) => if owner == i then 1 else 0
  }

  /** Clients of listener i being served: running handlers and detached HTTP tasks. */
  ghost function Served(s: State, i: nat): nat {
    Sum(s.conns, Runs(i)) + Sum(s.detached, Owns(i))
  }

  lemma ServedWithinLimit(c: seq<Spec>, s: State, i: nat)
    requires Reaches(c, s) && i < |c| && !CanDetach(c[i])
    ensures Served(s, i) <= c[i].limit
  {
    ReachesRooted(c, s);
    forall d | d in s.detached ensures Owns(i)(d) == 0 {
    }
    SumZero(s.detached, Owns(i));
    forall conn | conn in s.conns ensures Runs(i)(conn) <= ConnHolds(i)(conn) {
      var j :| 0 <= j < |s.conns| && s.conns[j] == conn;
      if conn.proxy == i {
        assert c[i].tcp && CanAdmit(c[i]);
      }
    }
    SumPointwise(s.conns, Runs(i), ConnHolds(i));
    assert s.free[i] + Holders(s, i) == c[i].limit;
  }

  lemma {:induction false} SumOwned(i: nat, m: nat)
    ensures Sum(Copies(i, m), Owns(i)) == m
  {
    if m > 0 {
      SumAppend(Copies(i, m - 1), i, Owns(i));
      SumOwned(i, m - 1);
    }
  }

  /** `limit` bounds the clients a listener serves at once, in every reachable state, exactly when none of
      them can be detached to a health check, which gives its permit back. */
  lemma ServedWithinLimitIff(c: seq<Spec>, i: nat)
    requires i < |c|
    ensures (forall s :: Reaches(c, s) ==> Served(s, i) <= c[i].limit) <==> !CanDetach(c[i])
  {
    if CanDetach(c[i]) {
      var s := DetachMany(c, i, c[i].limit + 1);
      SumOwned(i, c[i].limit + 1);
      assert Served(s, i) > c[i].limit;
    } else {
      forall s | Reaches(c, s) ensures Served(s, i) <= c[i].limit {
        ServedWithinLimit(c, s, i);
      }
    }
  }

  /** The way it happens: a client is detached, its permit is back, and the next one is admitted. */
  lemma AdmittedBesideDetached(c: seq<Spec>, i: nat) returns (s: State)
    requires i < |c| && CanDetach(c[i]) && !c[i].health
    ensures Reaches(c, s) && s.detached == [i]
    ensures Conn(i, true, true) in s.conns
  {
    hide Follows, Counted;
    s := DetachMany(c, i, 1);
    s := AdmitClient(c, Initial(c), s, i);
    s := Go(c, Initial(c), s, OfListener(i, Spawn));
    assert s.conns[|s.conns| - 1] == Conn(i, true, true);
  }
}
