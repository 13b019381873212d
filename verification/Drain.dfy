/** The server at run time: one task per listener, one task per connection, one semaphore per
    listener, one cancellation token, one task tracker, and `Server::run` waiting for all of it.

    Every step is one atomic action of one task; steps interleave freely. Cancellation does not win
    over a pending accept, and closing the tracker does not refuse later spawns. */
module Drain {
  import opened Common

  /** What `run` is given for one listen address. `health`: the default upstream is a health check, so
      no permit is taken. `sniHealth`: some SNI entry leads to a health check. `tcp`: the protocol is known. */
  datatype Spec = Spec(limit: nat, health: bool, sniHealth: bool, tcp: bool)

  /** A listener task. Accepted: it holds a new connection. Permitted: it also holds a permit for it. */
  datatype Listener = Unspawned | Starting | Selecting | Accepted | Permitted | Exited

  /** A tracked connection task of listener `proxy`: is its handler still running, does it hold a permit? */
  datatype Conn = Conn(proxy: nat, permit: bool, running: bool)

  /** `Server::run`: spawning listener `next` (and, when there is none left, waiting for the token),
      about to close the tracker, waiting for the tracker, woken up by it, returned. */
  datatype Main = Spawning(next: nat) | Closing | Waiting | Woken | Returned

  datatype State = State(
    main: Main,
    cancelled: bool,
    closed: bool,
    tracked: nat,
    listeners: seq<Listener>,
    conns: seq<Conn>,
    free: seq<nat>,
    backlog: seq<nat>,
    detached: seq<nat>)   // the listeners whose connections left an HTTP task behind

  /** Atomic actions of a listener task. */
  datatype ListenerAct =
    | Bind
    | FailToStart   // bind error or unknown protocol
    | Accept        // takes a queued client, also after cancellation
    | Retry         // accept reports WouldBlock
    | AcceptError
    | SeeCancel
    | Acquire
    | Reject        // no permit free: the connection is dropped
    | Spawn         // with the permit, or without one on a health listener

  /** Atomic actions of a connection task. */
  datatype ConnAct =
    | EndHandler    // the handler is over, one way or another
    | Detach        // it is over after handing its stream to an untracked HTTP task
    | DropPermit
    | Finish

  datatype Step =
    | Signal
    | Arrive(i: nat)             // a client connects to listener i's socket
    | SpawnListener
    | MainAwake                  // run sees the token cancelled
    | CloseTracker
    | TrackerEmpty               // the tracker is closed and empty at this instant
    | Return
    | OfListener(i: nat, la: ListenerAct)
    | OfConn(j: nat, ca: ConnAct)
    | EndDetached(d: nat)        // an HTTP task is done with its client

  predicate Sized(c: seq<Spec>, s: State) {
    |s.listeners| == |s.free| == |s.backlog| == |c|
  }

  predicate ListenerCan(c: seq<Spec>, s: State, i: nat, la: ListenerAct)
    requires Sized(c, s) && i < |c|
  {
    match la
    case Bind => s.listeners[i] == Starting && c[i].tcp
    case FailToStart => s.listeners[i] == Starting
    case Accept => s.listeners[i] == Selecting && s.backlog[i] > 0
    case Retry => s.listeners[i] == Selecting
    case AcceptError => s.listeners[i] == Selecting
    case SeeCancel => s.listeners[i] == Selecting && s.cancelled
    case Acquire => s.listeners[i] == Accepted && !c[i].health && s.free[i] > 0
    case Reject => s.listeners[i] == Accepted && !c[i].health && s.free[i] == 0
    case Spawn => if c[i].health then s.listeners[i] == Accepted else s.listeners[i] == Permitted
  }

  /** The listener's state after its action. */
  function ListenerAfter(la: ListenerAct): Listener {
    match la
    case Accept => Accepted
    case Acquire => Permitted
    case FailToStart => Exited
    case AcceptError => Exited
    case SeeCancel => Exited
    case _ => Selecting
  }

  function SetListener(s: State, i: nat, at: Listener): State
    requires i < |s.listeners|
  {
    s.(listeners := s.listeners[i := at])
  }

  /** A task that ends is taken off the tracker. */
  function Untrack(tracked: nat): nat {
    if tracked > 0 then tracked - 1 else 0
  }

  function NextListener(c: seq<Spec>, s: State, i: nat, la: ListenerAct): State
    requires Sized(c, s) && i < |c| && ListenerCan(c, s, i, la)
  {
    var t := SetListener(s, i, ListenerAfter(la));
    match la
    case Accept => t.(backlog := s.backlog[i := s.backlog[i] - 1])
    case Acquire => t.(free := s.free[i := s.free[i] - 1])
    case Spawn => t.(conns := s.conns + [Conn(i, !c[i].health, true)], tracked := s.tracked + 1)
    case _ => if ListenerAfter(la) == Exited then t.(tracked := Untrack(s.tracked)) else t
  }

  predicate ConnCan(c: seq<Spec>, s: State, j: nat, ca: ConnAct)
    requires Sized(c, s) && j < |s.conns|
  {
    match ca
    case EndHandler => s.conns[j].running
    case Detach => s.conns[j].running && s.conns[j].proxy < |c|
                   && (c[s.conns[j].proxy].health || c[s.conns[j].proxy].sniHealth)
    case DropPermit => !s.conns[j].running && s.conns[j].permit && s.conns[j].proxy < |c|
    case Finish => !s.conns[j].running && !s.conns[j].permit
  }

  function NextConn(c: seq<Spec>, s: State, j: nat, ca: ConnAct): State
    requires Sized(c, s) && j < |s.conns| && ConnCan(c, s, j, ca)
  {
    var conn := s.conns[j];
    match ca
    case EndHandler => s.(conns := s.conns[j := conn.(running := false)])
    case Detach => s.(conns := s.conns[j := conn.(running := false)], detached := s.detached + [conn.proxy])
    case DropPermit =>
      s.(conns := s.conns[j := conn.(permit := false)], free := s.free[conn.proxy := s.free[conn.proxy] + 1])
    case Finish => s.(conns := s.conns[..j] + s.conns[j + 1..], tracked := Untrack(s.tracked))
  }

  predicate Enabled(c: seq<Spec>, s: State, step: Step)
    requires Sized(c, s)
  {
    match step
    case Signal => true
    case Arrive(i) => i < |c|
    case SpawnListener => s.main.Spawning? && s.main.next < |c|
    case MainAwake => s.main == Spawning(|c|) && s.cancelled
    case CloseTracker => s.main == Closing
    case TrackerEmpty => s.main == Waiting && s.closed && s.tracked == 0
    case Return => s.main == Woken
    case OfListener(i, la) => i < |c| && ListenerCan(c, s, i, la)
    case OfConn(j, ca) => j < |s.conns| && ConnCan(c, s, j, ca)
    case EndDetached(d) => d < |s.detached|
  }

  function Next(c: seq<Spec>, s: State, step: Step): (t: State)
    requires Sized(c, s) && Enabled(c, s, step)
    ensures Sized(c, t)
  {
    match step
    case Signal => s.(cancelled := true)
    case Arrive(i) => s.(backlog := s.backlog[i := s.backlog[i] + 1])
    case SpawnListener =>
      SetListener(s, s.main.next, Starting).(main := Spawning(s.main.next + 1), tracked := s.tracked + 1)
    case MainAwake => s.(main := Closing)
    case CloseTracker => s.(main := Waiting, closed := true)
    case TrackerEmpty => s.(main := Woken)
    case Return => s.(main := Returned, detached := [])   // the runtime is dropped, and every task with it
    case OfListener(i, la) => NextListener(c, s, i, la)
    case OfConn(j, ca) => NextConn(c, s, j, ca)
    case EndDetached(d) => s.(detached := s.detached[..d] + s.detached[d + 1..])
  }

  function Limits(c: seq<Spec>): (r: seq<nat>)
    ensures |r| == |c| && forall i :: 0 <= i < |c| ==> r[i] == c[i].limit
  {
    seq(|c|, i requires 0 <= i < |c| => c[i].limit)
  }

  function Initial(c: seq<Spec>): State {
    State(Spawning(0), false, false, 0, seq(|c|, _ => Unspawned), [], Limits(c), seq(|c|, _ => 0), [])
  }

  /** States and the steps between them. */
  ghost predicate IsPath(c: seq<Spec>, states: seq<State>, steps: seq<Step>) {
    && |states| == |steps| + 1
    && (forall k :: 0 <= k < |states| ==> Sized(c, states[k]))
    && (forall k :: 0 <= k < |steps| ==>
          Enabled(c, states[k], steps[k]) && states[k + 1] == Next(c, states[k], steps[k]))
  }

  /** A run is a path from the start. */
  ghost predicate IsRun(c: seq<Spec>, states: seq<State>, steps: seq<Step>) {
    IsPath(c, states, steps) && states[0] == Initial(c)
  }

  // ---------------------------------------------------------------------------
  // The invariant
  // ---------------------------------------------------------------------------

  ghost function Alive(l: Listener): nat {
    if l == Unspawned || l == Exited then 0 else 1
  }

  /** Tasks holding a permit of listener i: its connections, and the listener itself between the
      acquisition and the spawn. */
  ghost function ConnHolds(i: nat): Conn -> nat {
    (conn: Conn) => if conn.proxy == i && conn.permit then 1 else 0
  }

  ghost function Holders(s: State, i: nat): nat
    requires i < |s.listeners|
  {
    Sum(s.conns, ConnHolds(i)) + if s.listeners[i] == Permitted then 1 else 0
  }

  /** How many listeners `run` has spawned. */
  function Spawned(c: seq<Spec>, s: State): nat {
    if s.main.Spawning? then s.main.next else |c|
  }

  ghost predicate Conserved(c: seq<Spec>, s: State)
    requires Sized(c, s)
  {
    forall i :: 0 <= i < |c| ==> s.free[i] + Holders(s, i) == c[i].limit
  }

  /** Who can be where, apart from the counters. */
  ghost predicate Shape(c: seq<Spec>, s: State)
    requires Sized(c, s)
  {
    && Spawned(c, s) <= |c|
    && (forall i :: 0 <= i < |c| ==> (s.listeners[i] == Unspawned <==> i >= Spawned(c, s)))
    && (forall i :: 0 <= i < |c| && s.listeners[i] == Permitted ==> !c[i].health)
    && (forall j :: 0 <= j < |s.conns| ==> s.conns[j].proxy < |c|)
    && (forall j :: 0 <= j < |s.conns| && s.conns[j].permit ==> !c[s.conns[j].proxy].health)
    && (forall j :: 0 <= j < |s.conns| && s.conns[j].running && !s.conns[j].permit ==> c[s.conns[j].proxy].health)
    && (s.main.Waiting? || s.main.Woken? || s.main.Returned? ==> s.closed)
    && (s.main.Closing? || s.main.Waiting? || s.main.Woken? || s.main.Returned? ==> s.cancelled)
    && (s.main.Woken? || s.main.Returned? ==> s.tracked == 0)
    && (s.main.Returned? ==> s.detached == [])
  }

  /** The tracker counts the live listeners and connections; free permits and permit holders add up. */
  ghost predicate Counted(c: seq<Spec>, s: State)
    requires Sized(c, s)
  {
    s.tracked == Sum(s.listeners, Alive) + |s.conns| && Conserved(c, s)
  }

  ghost predicate Inv(c: seq<Spec>, s: State) {
    Sized(c, s) && Shape(c, s) && Counted(c, s)
  }

  lemma InitialInv(c: seq<Spec>)
    ensures Inv(c, Initial(c))
  {
    SumZero(Initial(c).listeners, Alive);
  }

  /** A live listener is counted by the tracker, so `run` cannot have been woken up yet. */
  lemma LiveListenerIsTracked(c: seq<Spec>, s: State, i: nat)
    requires Inv(c, s) && i < |c| && Alive(s.listeners[i]) == 1
    ensures s.tracked > 0
  {
    SumSplit(s.listeners, i, Alive);
  }

  /** The same for connections. */
  lemma LiveConnIsTracked(c: seq<Spec>, s: State)
    requires Inv(c, s) && s.conns != []
    ensures s.tracked > 0
  {
  }

  /** What a step of listener i that starts or ends no connection does to the counters. */
  lemma ListenerMoves(c: seq<Spec>, s: State, i: nat, at: Listener)
    requires Inv(c, s) && i < |c|
    ensures var t := SetListener(s, i, at);
            && Sum(t.listeners, Alive) == Sum(s.listeners, Alive) - Alive(s.listeners[i]) + Alive(at)
            && (forall k :: 0 <= k < |c| && k != i ==> Holders(t, k) == Holders(s, k))
            && Holders(t, i) - (if at == Permitted then 1 else 0)
               == Holders(s, i) - (if s.listeners[i] == Permitted then 1 else 0)
  {
    SumUpdate(s.listeners, i, at, Alive);
  }

  lemma SpawnListenerKeepsInv(c: seq<Spec>, s: State)
    requires Inv(c, s) && Enabled(c, s, SpawnListener)
    ensures Inv(c, Next(c, s, SpawnListener))
  {
    ListenerMoves(c, s, s.main.next, Starting);
  }

  lemma ListenerKeepsShape(c: seq<Spec>, s: State, i: nat, la: ListenerAct)
    requires Inv(c, s) && i < |c| && ListenerCan(c, s, i, la)
    ensures Shape(c, NextListener(c, s, i, la))
  {
    hide Counted, Untrack;
    LiveListenerIsTracked(c, s, i);
    assert Spawned(c, NextListener(c, s, i, la)) == Spawned(c, s);
  }

  lemma ListenerKeepsCounts(c: seq<Spec>, s: State, i: nat, la: ListenerAct)
    requires Inv(c, s) && i < |c| && ListenerCan(c, s, i, la)
    ensures Counted(c, NextListener(c, s, i, la))
  {
    var t := NextListener(c, s, i, la);
    LiveListenerIsTracked(c, s, i);
    ListenerMoves(c, s, i, ListenerAfter(la));
    if la == Spawn {
      forall k | 0 <= k < |c| ensures Holders(t, k) == Holders(s, k) {
        SumAppend(s.conns, Conn(i, !c[i].health, true), ConnHolds(k));
      }
    } else {
      assert t.conns == s.conns;
      assert forall k :: 0 <= k < |c| ==> Holders(t, k) == Holders(SetListener(s, i, ListenerAfter(la)), k);
    }
  }

  lemma ConnKeepsShape(c: seq<Spec>, s: State, j: nat, ca: ConnAct)
    requires Inv(c, s) && j < |s.conns| && ConnCan(c, s, j, ca)
    ensures Shape(c, NextConn(c, s, j, ca))
  {
    hide Counted;
    LiveConnIsTracked(c, s);
    var t := NextConn(c, s, j, ca);
    if ca == Finish {
      assert forall x :: 0 <= x < |t.conns| ==> t.conns[x] == s.conns[if x < j then x else x + 1];
    } else {
      assert t.conns[j].proxy == s.conns[j].proxy;
    }
    assert t.listeners == s.listeners && t.main == s.main;
  }

  /** Only dropping a permit changes a holder count, and only of the connection's own listener. */
  lemma ConnKeepsHolders(c: seq<Spec>, s: State, j: nat, ca: ConnAct, k: nat)
    requires Inv(c, s) && j < |s.conns| && ConnCan(c, s, j, ca) && k < |c|
    ensures Holders(NextConn(c, s, j, ca), k) ==
            Holders(s, k) - (if ca == DropPermit && s.conns[j].proxy == k then 1 else 0)
  {
    if ca == Finish {
      SumRemove(s.conns, j, ConnHolds(k));
    } else {
      SumUpdate(s.conns, j, NextConn(c, s, j, ca).conns[j], ConnHolds(k));
    }
  }

  lemma ConnKeepsCounts(c: seq<Spec>, s: State, j: nat, ca: ConnAct)
    requires Inv(c, s) && j < |s.conns| && ConnCan(c, s, j, ca)
    ensures Counted(c, NextConn(c, s, j, ca))
  {
    hide Holders;
    forall k: nat | k < |c| {
      ConnKeepsHolders(c, s, j, ca, k);
    }
  }

  lemma NextKeepsInv(c: seq<Spec>, s: State, step: Step)
    requires Inv(c, s) && Enabled(c, s, step)
    ensures Inv(c, Next(c, s, step))
  {
    match step
    case SpawnListener => SpawnListenerKeepsInv(c, s);
    case OfListener(i, la) =>
      ListenerKeepsShape(c, s, i, la);
      ListenerKeepsCounts(c, s, i, la);
    case OfConn(j, ca) =>
      ConnKeepsShape(c, s, j, ca);
      ConnKeepsCounts(c, s, j, ca);
    case _ =>
      SameTasksSameCounts(c, s, Next(c, s, step));
  }

  lemma SameTasksSameCounts(c: seq<Spec>, s: State, t: State)
    requires Inv(c, s) && Sized(c, t)
    requires t.listeners == s.listeners && t.conns == s.conns && t.free == s.free && t.tracked == s.tracked
    ensures Counted(c, t)
  {
    assert forall i :: 0 <= i < |c| ==> Holders(t, i) == Holders(s, i);
  }

  lemma {:induction false} InvAlways(c: seq<Spec>, states: seq<State>, steps: seq<Step>, k: nat)
    requires IsRun(c, states, steps) && k < |states|
    ensures Inv(c, states[k])
  {
    hide Next, Enabled, Inv, Initial;
    if k == 0 {
      InitialInv(c);
    } else {
      InvAlways(c, states, steps, k - 1);
      NextKeepsInv(c, states[k - 1], steps[k - 1]);
    }
  }

  // ---------------------------------------------------------------------------
  // What a task can do, state by state
  // ---------------------------------------------------------------------------

  /** In every reachable state: a starting listener may always fail, and binds if its protocol is known; one in
      its accept loop may fail or retry at any time, takes a client if one is queued, and leaves if the token
      is cancelled; one with a new connection spawns it on a health listener, and otherwise acquires a permit
      or drops the connection as permits allow. */
  lemma ListenerOptions(c: seq<Spec>, s: State, i: nat, la: ListenerAct)
    requires Inv(c, s) && i < |c|
    ensures ListenerCan(c, s, i, la) <==>
            match s.listeners[i]
            case Unspawned => false
            case Starting => la == FailToStart || (la == Bind && c[i].tcp)
            case Selecting =>
              || la == Retry || la == AcceptError
              || (la == Accept && s.backlog[i] > 0)
              || (la == SeeCancel && s.cancelled)
            case Accepted =>
              if c[i].health then la == Spawn else la == if s.free[i] > 0 then Acquire else Reject
            case Permitted => la == Spawn
            case Exited => false
  {
    hide Counted;
  }

  /** A handler may end at any time, and on a listener that reaches a health check also by handing its client
      over; after it, a permit that is held is dropped before the task finishes. */
  lemma ConnOptions(c: seq<Spec>, s: State, j: nat, ca: ConnAct)
    requires Inv(c, s) && j < |s.conns|
    ensures var conn := s.conns[j];
            ConnCan(c, s, j, ca) <==>
            if conn.running then ca == EndHandler || (ca == Detach && (c[conn.proxy].health || c[conn.proxy].sniHealth))
            else ca == if conn.permit then DropPermit else Finish
  {
    hide Counted;
  }

  /** `run` spawns every listener, then waits for the token, closes the tracker, waits until it is empty and
      returns. */
  lemma MainOptions(c: seq<Spec>, s: State, step: Step)
    requires Inv(c, s) && !step.OfListener? && !step.OfConn? && !step.EndDetached? && !step.Arrive? && step != Signal
    ensures Enabled(c, s, step) <==>
            match s.main
            case Spawning(n) => if n < |c| then step == SpawnListener else step == MainAwake && s.cancelled
            case Closing => step == CloseTracker
            case Waiting => step == TrackerEmpty && s.listeners == seq(|c|, _ => Exited) && s.conns == []
            case Woken => step == Return
            case Returned => false
  {
    if s.main.Waiting? && step == TrackerEmpty {
      if s.tracked == 0 {
        forall i | 0 <= i < |c| ensures s.listeners[i] == Exited {
          SumSplit(s.listeners, i, Alive);
        }
      } else if s.listeners == seq(|c|, _ => Exited) && s.conns == [] {
        SumZero(s.listeners, Alive);
      }
    }
  }

  // ---------------------------------------------------------------------------
  // Why a listener exits
  // ---------------------------------------------------------------------------

  /** Step `x` made listener i exit: it could not start, its accept failed, or it saw the cancellation. */
  ghost predicate ExitStep(states: seq<State>, steps: seq<Step>, i: nat, x: nat) {
    && x < |steps| && x < |states|
    && (|| steps[x] == OfListener(i, FailToStart)
        || steps[x] == OfListener(i, AcceptError)
        || (steps[x] == OfListener(i, SeeCancel) && states[x].cancelled))
  }

  lemma ActionExits(c: seq<Spec>, s: State, j: nat, la: ListenerAct, i: nat)
    requires Sized(c, s) && j < |c| && ListenerCan(c, s, j, la) && i < |c| && s.listeners[i] != Exited
    ensures NextListener(c, s, j, la).listeners[i] == Exited <==>
            j == i && (la == FailToStart || la == AcceptError || la == SeeCancel)
  {
    assert NextListener(c, s, j, la).listeners == s.listeners[j := ListenerAfter(la)];
  }

  lemma StepExits(c: seq<Spec>, s: State, step: Step, i: nat)
    requires Sized(c, s) && Enabled(c, s, step) && i < |c| && s.listeners[i] != Exited
    ensures Next(c, s, step).listeners[i] == Exited <==>
            || step == OfListener(i, FailToStart) || step == OfListener(i, AcceptError)
            || step == OfListener(i, SeeCancel)
    ensures step == OfListener(i, SeeCancel) ==> s.cancelled
  {
    match step
    case OfListener(j, la) => ActionExits(c, s, j, la, i);
    case OfConn(j, ca) => assert NextConn(c, s, j, ca).listeners == s.listeners;
    case _ =>
  }

  /** In every run a listener goes on serving, however many clients it turns away, until it fails or sees the
      cancellation. */
  lemma {:induction false} ExitedMeans(c: seq<Spec>, states: seq<State>, steps: seq<Step>, k: nat, i: nat)
    returns (x: nat)
    requires IsRun(c, states, steps) && k < |states| && i < |c| && states[k].listeners[i] == Exited
    ensures x < k && ExitStep(states, steps, i, x)
  {
    hide Next, Enabled;
    if states[k - 1].listeners[i] == Exited {
      x := ExitedMeans(c, states, steps, k - 1, i);
    } else {
      StepExits(c, states[k - 1], steps[k - 1], i);
      x := k - 1;
    }
  }

  lemma StepCancels(c: seq<Spec>, s: State, step: Step)
    requires Sized(c, s) && Enabled(c, s, step)
    ensures Next(c, s, step).cancelled <==> s.cancelled || step == Signal
  {
  }

  /** The token is cancelled exactly when a signal has come. */
  lemma {:induction false} CancelledIff(c: seq<Spec>, states: seq<State>, steps: seq<Step>, k: nat)
    requires IsRun(c, states, steps) && k < |states|
    ensures states[k].cancelled <==> Signal in steps[..k]
  {
    hide Next, Enabled;
    if k > 0 {
      CancelledIff(c, states, steps, k - 1);
      StepCancels(c, states[k - 1], steps[k - 1]);
      assert steps[..k] == steps[..k - 1] + [steps[k - 1]];
    }
  }

  // ---------------------------------------------------------------------------
  // Admission
  // ---------------------------------------------------------------------------

  /** The "active" figure that `accept` logs and `/metrics` exports. */
  function Gauge(limit: nat, available: nat): (g: nat)
    ensures limit <= available ==> g == 0
  {
    if limit >= available then limit - available else 0
  }

  /** In every reachable state the permits of every listener are all accounted for, so no more than
      `limit` of its tasks hold one and the exported gauge is exact. */
  lemma PermitsConserved(c: seq<Spec>, states: seq<State>, steps: seq<Step>, k: nat, i: nat)
    requires IsRun(c, states, steps) && k < |states| && i < |c|
    ensures var s := states[k];
            && s.free[i] + Holders(s, i) == c[i].limit
            && Gauge(c[i].limit, s.free[i]) == Holders(s, i) <= c[i].limit
            && (c[i].health ==> Holders(s, i) == 0)
  {
    InvAlways(c, states, steps, k);
    var s := states[k];
    if c[i].health {
      SumZero(s.conns, ConnHolds(i));
    }
  }

  /** A connection just accepted by an ordinary listener is admitted exactly when fewer than `limit`
      are, and dropped exactly when the limit is reached. */
  lemma AdmittedIff(c: seq<Spec>, states: seq<State>, steps: seq<Step>, k: nat, i: nat)
    requires IsRun(c, states, steps) && k < |states| && i < |c|
    requires states[k].listeners[i] == Accepted && !c[i].health
    ensures Enabled(c, states[k], OfListener(i, Acquire)) <==> Holders(states[k], i) < c[i].limit
    ensures Enabled(c, states[k], OfListener(i, Reject)) <==> Holders(states[k], i) == c[i].limit
  {
    PermitsConserved(c, states, steps, k, i);
  }

  /** While the handler of an admitted connection runs, from its first log line to its last, the figure
      it logs counts at least itself. */
  lemma ActiveCountsMe(c: seq<Spec>, states: seq<State>, steps: seq<Step>, k: nat, j: nat)
    requires IsRun(c, states, steps) && k < |states| && j < |states[k].conns| && states[k].conns[j].running
    ensures var i := states[k].conns[j].proxy;
            i < |c| && (!c[i].health ==> Gauge(c[i].limit, states[k].free[i]) >= 1)
  {
    InvAlways(c, states, steps, k);
    var i := states[k].conns[j].proxy;
    SumSplit(states[k].conns, j, ConnHolds(i));
  }

  // ---------------------------------------------------------------------------
  // Drain safety
  // ---------------------------------------------------------------------------

  /** No listener and no connection task is left, and every permit is back. */
  ghost predicate Drained(c: seq<Spec>, s: State) {
    && Sized(c, s)
    && s.conns == []
    && (forall i :: 0 <= i < |c| ==> s.listeners[i] == Exited && s.free[i] == c[i].limit)
  }

  lemma EmptyTrackerDrained(c: seq<Spec>, s: State)
    requires Inv(c, s) && s.tracked == 0 && !s.main.Spawning?
    ensures Drained(c, s)
  {
    forall i | 0 <= i < |c| ensures s.listeners[i] == Exited {
      SumSplit(s.listeners, i, Alive);
    }
  }

  /** Nothing at all is alive. */
  ghost predicate Dead(c: seq<Spec>, s: State) {
    Drained(c, s) && s.detached == []
  }

  /** When `run` has returned, or the tracker has only just told it to, nothing tracked is left in that
      state or in any later one: no later step can spawn a task, although the closed tracker would
      accept it and clients may still be queueing. */
  lemma DrainSafe(c: seq<Spec>, states: seq<State>, steps: seq<Step>, k: nat, m: nat)
    requires IsRun(c, states, steps) && k <= m < |states|
    requires states[k].main.Woken? || states[k].main.Returned?
    ensures Drained(c, states[m]) && states[m].tracked == 0 && states[m].cancelled && states[m].closed
    ensures states[m].main.Woken? || states[m].main.Returned?
  {
    StaysWoken(c, states, steps, k, m);
    InvAlways(c, states, steps, m);
    EmptyTrackerDrained(c, states[m]);
  }

  lemma {:induction false} StaysWoken(c: seq<Spec>, states: seq<State>, steps: seq<Step>, k: nat, m: nat)
    requires IsRun(c, states, steps) && k <= m < |states|
    requires states[k].main.Woken? || states[k].main.Returned?
    ensures states[m].main.Woken? || states[m].main.Returned?
    decreases m
  {
    hide Next, Enabled;
    if k < m {
      StaysWoken(c, states, steps, k, m - 1);
      WokenStep(c, states[m - 1], steps[m - 1]);
    }
  }

  lemma WokenStep(c: seq<Spec>, s: State, step: Step)
    requires Sized(c, s) && Enabled(c, s, step) && (s.main.Woken? || s.main.Returned?)
    ensures var t := Next(c, s, step); t.main.Woken? || t.main.Returned?
  {
  }

  /** `run` returns only after a signal, only through a closed and empty tracker, and from then on
      nothing is alive: no listener, no connection, no detached HTTP task. */
  lemma ReturnedMeansDead(c: seq<Spec>, states: seq<State>, steps: seq<Step>, k: nat, m: nat)
    requires IsRun(c, states, steps) && k <= m < |states| && states[k].main.Returned?
    ensures Dead(c, states[m]) && states[m].main.Returned? && states[m].cancelled && states[m].closed
  {
    DrainSafe(c, states, steps, k, m);
    StaysReturned(c, states, steps, k, m);
    InvAlways(c, states, steps, m);
  }

  lemma {:induction false} StaysReturned(c: seq<Spec>, states: seq<State>, steps: seq<Step>, k: nat, m: nat)
    requires IsRun(c, states, steps) && k <= m < |states| && states[k].main.Returned?
    ensures states[m].main.Returned?
    decreases m
  {
    hide Next, Enabled;
    if k < m {
      StaysReturned(c, states, steps, k, m - 1);
      ReturnedStep(c, states[m - 1], steps[m - 1]);
    }
  }

  lemma ReturnedStep(c: seq<Spec>, s: State, step: Step)
    requires Sized(c, s) && Enabled(c, s, step) && s.main.Returned?
    ensures Next(c, s, step).main.Returned?
  {
  }
}
