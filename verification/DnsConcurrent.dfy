/** The same cache under any number of concurrent `resolve` calls. The three fields sit behind three
    separate locks, so calls interleave between every two lock operations, and between reading the clock
    and waiting for the lock of the time. Next to the fields the model records which lookup each of them
    comes from. */
module DnsConcurrent {
  import opened Common
  import opened DnsCache

  /** A finished lookup: `None` is a failure. `recorded` is the time its call stores, once the call has
      read the clock. */
  datatype Lookup = Lookup(mode: Mode, answer: Option<seq<SocketAddr>>, recorded: Option<nat>)

  /** What a call saw on its way to a cache hit: how many lists had been stored when it found one, when it
      compared the clock, and which lookups the time and the TTL it compared with came from. */
  datatype Hit = Hit(seen: nat, checkedAt: nat, timeFrom: nat, ttlFrom: nat)

  /** Where one `resolve` call stands. `k` is its own lookup. */
  datatype Pc =
    | CheckList
    | CheckTime(seen: nat)
    | CheckTtl(seen: nat, time: nat, timeFrom: nat)
    | ReadList(hit: Hit)
    | Asking
    | StampFailure(k: nat)                   // about to read the clock
    | PutFailureTime(k: nat, at: nat)
    | PutFailureTtl(k: nat)
    | PutList(k: nat)
    | Stamp(k: nat)                          // about to read the clock
    | PutTime(k: nat, at: nat)
    | PutTtl(k: nat)
    | Served(hit: Hit, stores: nat, list: seq<SocketAddr>)   // from the cache, after `stores` lists were stored
    | Resolved(k: nat, result: Option<seq<SocketAddr>>)      // by its own lookup

  datatype Resolver = Resolver(mode: Mode, pc: Pc)

  /** `stores` lists the lookups whose answer was stored, in that order; `timeFrom` and `ttlFrom` are the
      lookups that last stored the time and the TTL. */
  datatype State = State(
    cache: Cache,
    now: nat,
    resolvers: seq<Resolver>,
    lookups: seq<Lookup>,
    stores: seq<nat>,
    timeFrom: nat,
    ttlFrom: nat)

  const START := State(EMPTY, 0, [], [], [], 0, 0)

  /** Arrive: a new call. Tick: time passes. Move: call `i` does its next lock operation, or reads the
      clock for the time it will store. Answer: the lookup of call `i` comes back. */
  datatype Event =
    | Arrive(mode: Mode)
    | Tick(elapsed: nat)
    | Move(i: nat)
    | Answer(i: nat, answer: Option<seq<SocketAddr>>)

  /** A successful lookup's list as its caller keeps it. */
  function Kept(l: Lookup): seq<SocketAddr> {
    if l.answer.Some? then Keep(l.mode, l.answer.value) else []
  }

  function LookupTtl(l: Lookup): nat {
    if l.answer.Some? then SUCCESS_TTL else FAILURE_TTL
  }

  /** Lock operations that only read: where the call goes. The lock of the TTL is still held when the clock
      is compared. */
  function ReadStep(s: State, pc: Pc): Pc {
    match pc
    case CheckList => if s.cache.addresses == [] then Asking else CheckTime(|s.stores|)
    case CheckTime(seen) => if s.cache.time.Some? then CheckTtl(seen, s.cache.time.value, s.timeFrom) else Asking
    case CheckTtl(seen, time, timeFrom) =>
      if IsValid(Some(time), s.cache.ttl, s.now) then ReadList(Hit(seen, s.now, timeFrom, s.ttlFrom)) else Asking
    case ReadList(hit) => Served(hit, |s.stores|, s.cache.addresses)
    case _ => pc
  }

  /** The clock is read before the lock is waited for. */
  function ReadClock(s: State, k: nat): State {
    if k >= |s.lookups| then s else s.(lookups := s.lookups[k := s.lookups[k].(recorded := Some(s.now))])
  }

  /** Lock operations that write, for a call whose lookup `k` has finished. */
  function StoreTime(s: State, k: nat, at: nat): State {
    s.(cache := s.cache.(time := Some(at)), timeFrom := k)
  }

  function StoreTtl(s: State, k: nat, ttl: nat): State {
    s.(cache := s.cache.(ttl := Some(ttl)), ttlFrom := k)
  }

  function StoreList(s: State, k: nat): State {
    if k >= |s.lookups| then s else
    s.(cache := s.cache.(addresses := Kept(s.lookups[k])), stores := s.stores + [k])
  }

  /** The state after the next operation of a call, and where the call is then. */
  function LockStep(s: State, pc: Pc): (State, Pc) {
    match pc
    case StampFailure(k) => (ReadClock(s, k), PutFailureTime(k, s.now))
    case PutFailureTime(k, at) => (StoreTime(s, k, at), PutFailureTtl(k))
    case PutFailureTtl(k) => (StoreTtl(s, k, FAILURE_TTL), Resolved(k, None))
    case PutList(k) => (StoreList(s, k), Stamp(k))
    case Stamp(k) => (ReadClock(s, k), PutTime(k, s.now))
    case PutTime(k, at) => (StoreTime(s, k, at), PutTtl(k))
    case PutTtl(k) =>
      (StoreTtl(s, k, SUCCESS_TTL), Resolved(k, if k < |s.lookups| then Some(Kept(s.lookups[k])) else None))
    case _ => (s, ReadStep(s, pc))
  }

  function Next(s: State, e: Event): State {
    match e
    case Arrive(mode) => s.(resolvers := s.resolvers + [Resolver(mode, CheckList)])
    case Tick(elapsed) => s.(now := s.now + elapsed)
    case Move(i) =>
      if i >= |s.resolvers| then s else
      var r := s.resolvers[i];
      var (t, pc) := LockStep(s, r.pc);
      t.(resolvers := s.resolvers[i := r.(pc := pc)])
    case Answer(i, answer) =>
      if i >= |s.resolvers| || s.resolvers[i].pc != Asking then s else
      var r, k := s.resolvers[i], |s.lookups|;
      s.(lookups := s.lookups + [Lookup(r.mode, answer, None)],
         resolvers := s.resolvers[i := r.(pc := if answer.Some? then PutList(k) else StampFailure(k))])
  }

  function Execute(events: seq<Event>): State {
    if events == [] then START else Next(Execute(events[..|events| - 1]), events[|events| - 1])
  }

  /** The list a call has returned, if it has returned one. */
  function ListOf(pc: Pc): Option<seq<SocketAddr>> {
    match pc
    case Served(_, _, list) => Some(list)
    case Resolved(_, result) => result
    case _ => None
  }

  function ReturnedPc(pc: Pc): bool {
    pc.Served? || pc.Resolved?
  }

  // ---------------------------------------------------------------------------
  // The invariant
  // ---------------------------------------------------------------------------

  ghost predicate Success(s: State, k: nat) {
    k < |s.lookups| && s.lookups[k].answer.Some?
  }

  /** The first `n` lists stored end with this one. */
  ghost predicate LastStored(s: State, n: nat, list: seq<SocketAddr>) {
    0 < n <= |s.stores| && Success(s, s.stores[n - 1]) && list == Kept(s.lookups[s.stores[n - 1]])
  }

  /** `seen` lists had been stored and the last of them was not empty. */
  ghost predicate Seen(s: State, seen: nat) {
    0 < seen <= |s.stores| && Success(s, s.stores[seen - 1]) && Kept(s.lookups[s.stores[seen - 1]]) != []
  }

  /** `time` is what lookup `k` recorded. */
  ghost predicate TimeOf(s: State, k: nat, time: nat) {
    k < |s.lookups| && s.lookups[k].recorded == Some(time) && time <= s.now
  }

  /** What is known about a hit: it lies within the TTL of one lookup after the time of another. */
  ghost predicate HitOf(s: State, h: Hit) {
    && Seen(s, h.seen)
    && h.timeFrom < |s.lookups| && s.lookups[h.timeFrom].recorded.Some? && h.ttlFrom < |s.lookups|
    && s.lookups[h.timeFrom].recorded.value <= h.checkedAt <= s.now
    && h.checkedAt - s.lookups[h.timeFrom].recorded.value < LookupTtl(s.lookups[h.ttlFrom])
  }

  ghost predicate PcInv(s: State, pc: Pc) {
    match pc
    case CheckList => true
    case CheckTime(seen) => Seen(s, seen)
    case CheckTtl(seen, time, timeFrom) => Seen(s, seen) && TimeOf(s, timeFrom, time)
    case ReadList(hit) => HitOf(s, hit)
    case Asking => true
    case StampFailure(k) => k < |s.lookups| && s.lookups[k].answer.None? && s.lookups[k].recorded.None?
    case PutFailureTime(k, at) => TimeOf(s, k, at) && s.lookups[k].answer.None?
    case PutFailureTtl(k) => k < |s.lookups| && s.lookups[k].answer.None?
    case PutList(k) => Success(s, k) && s.lookups[k].recorded.None?
    case Stamp(k) => Success(s, k) && s.lookups[k].recorded.None?
    case PutTime(k, at) => Success(s, k) && TimeOf(s, k, at)
    case PutTtl(k) => Success(s, k)
    case Served(hit, stores, list) => HitOf(s, hit) && hit.seen <= stores && LastStored(s, stores, list)
    case Resolved(k, result) => k < |s.lookups| && result == (if Success(s, k) then Some(Kept(s.lookups[k])) else None)
  }

  ghost predicate FieldsInv(s: State) {
    && (if s.stores == [] then s.cache.addresses == [] else LastStored(s, |s.stores|, s.cache.addresses))
    && (forall x :: 0 <= x < |s.stores| ==> Success(s, s.stores[x]))
    && (s.cache.time.Some? ==> TimeOf(s, s.timeFrom, s.cache.time.value))
    && (s.cache.ttl.Some? ==> s.ttlFrom < |s.lookups| && s.cache.ttl.value == LookupTtl(s.lookups[s.ttlFrom]))
  }

  /** The lookup a call still has to read the clock for. */
  function Pending(pc: Pc): Option<nat> {
    match pc
    case StampFailure(k) => Some(k)
    case PutList(k) => Some(k)
    case Stamp(k) => Some(k)
    case _ => None
  }

  ghost predicate Inv(s: State) {
    && FieldsInv(s)
    && (forall i :: 0 <= i < |s.resolvers| ==> PcInv(s, s.resolvers[i].pc))
    && (forall i, j :: 0 <= i < j < |s.resolvers| && Pending(s.resolvers[i].pc).Some? ==>
          Pending(s.resolvers[i].pc) != Pending(s.resolvers[j].pc))
  }

  /** `t` is a later state: nothing recorded is ever changed. */
  ghost predicate Extends(s: State, t: State) {
    && s.now <= t.now
    && |s.lookups| <= |t.lookups| && |s.stores| <= |t.stores|
    && (forall k :: 0 <= k < |s.lookups| ==>
          t.lookups[k].answer == s.lookups[k].answer && t.lookups[k].mode == s.lookups[k].mode)
    && (forall k :: 0 <= k < |s.lookups| && s.lookups[k].recorded.Some? ==> t.lookups[k] == s.lookups[k])
    && (forall x :: 0 <= x < |s.stores| ==> t.stores[x] == s.stores[x])
  }

  lemma PcSurvives(s: State, t: State, pc: Pc)
    requires Extends(s, t) && PcInv(s, pc)
    requires Pending(pc).Some? && Pending(pc).value < |t.lookups| ==> t.lookups[Pending(pc).value].recorded.None?
    ensures PcInv(t, pc)
  {
  }

  /** What one lock operation of a call at `pc` does to an explained state, leaving the call at `next`. */
  ghost predicate Explained(s: State, pc: Pc, t: State, next: Pc) {
    && t.resolvers == s.resolvers && Extends(s, t) && FieldsInv(t) && PcInv(t, next)
    && (Pending(next).Some? ==> Pending(next) == Pending(pc))
    && (forall k :: 0 <= k < |s.lookups| && Some(k) != Pending(pc) ==> t.lookups[k] == s.lookups[k])
  }

  lemma ReadExplains(s: State, pc: Pc)
    requires FieldsInv(s) && PcInv(s, pc) && LockStep(s, pc) == (s, ReadStep(s, pc))
    requires Pending(ReadStep(s, pc)) == Pending(pc)
    ensures Explained(s, pc, s, ReadStep(s, pc))
  {
    hide Kept;
    var next := ReadStep(s, pc);
    assert Extends(s, s);
    assert PcInv(s, next) by {
      match pc
      case CheckList => assert next.CheckTime? ==> Seen(s, next.seen);
      case CheckTime(_) => assert PcInv(s, next);
      case CheckTtl(seen, time, from) => assert next.ReadList? ==> HitOf(s, next.hit);
      case ReadList(_) => assert LastStored(s, |s.stores|, s.cache.addresses);
      case _ =>
    }
  }

  lemma ReadClockExplains(s: State, pc: Pc)
    requires FieldsInv(s) && PcInv(s, pc) && (pc.StampFailure? || pc.Stamp?)
    ensures Explained(s, pc, LockStep(s, pc).0, LockStep(s, pc).1)
  {
    hide Keep;
  }

  lemma StoreTimeExplains(s: State, pc: Pc)
    requires FieldsInv(s) && PcInv(s, pc) && (pc.PutFailureTime? || pc.PutTime?)
    ensures Explained(s, pc, LockStep(s, pc).0, LockStep(s, pc).1)
  {
    hide Keep;
  }

  lemma StoreTtlExplains(s: State, pc: Pc)
    requires FieldsInv(s) && PcInv(s, pc) && (pc.PutFailureTtl? || pc.PutTtl?)
    ensures Explained(s, pc, LockStep(s, pc).0, LockStep(s, pc).1)
  {
    hide Kept;
  }

  lemma StoreListExplains(s: State, pc: Pc)
    requires FieldsInv(s) && PcInv(s, pc) && pc.PutList?
    ensures Explained(s, pc, LockStep(s, pc).0, LockStep(s, pc).1)
  {
    hide Kept;
  }

  /** A lock operation keeps the fields explained, and explains where its call is afterwards. */
  lemma LockStepExplains(s: State, pc: Pc)
    requires FieldsInv(s) && PcInv(s, pc)
    ensures Explained(s, pc, LockStep(s, pc).0, LockStep(s, pc).1)
  {
    hide Explained, FieldsInv, PcInv;
    match pc
    case StampFailure(_) => ReadClockExplains(s, pc);
    case Stamp(_) => ReadClockExplains(s, pc);
    case PutFailureTime(_, _) => StoreTimeExplains(s, pc);
    case PutTime(_, _) => StoreTimeExplains(s, pc);
    case PutFailureTtl(_) => StoreTtlExplains(s, pc);
    case PutTtl(_) => StoreTtlExplains(s, pc);
    case PutList(_) => StoreListExplains(s, pc);
    case _ => ReadExplains(s, pc);
  }

  lemma MoveKeepsInv(s: State, i: nat)
    requires Inv(s) && i < |s.resolvers|
    ensures Inv(Next(s, Move(i))) && Extends(s, Next(s, Move(i)))
  {
    LockStepExplains(s, s.resolvers[i].pc);
    var (u, next) := LockStep(s, s.resolvers[i].pc);
    var t := Next(s, Move(i));
    forall j | 0 <= j < |t.resolvers| ensures PcInv(t, t.resolvers[j].pc) {
      if j != i {
        assert Pending(s.resolvers[j].pc).Some? ==> Pending(s.resolvers[j].pc) != Pending(s.resolvers[i].pc);
        PcSurvives(s, u, s.resolvers[j].pc);
        PcSurvives(u, t, s.resolvers[j].pc);
      } else {
        PcSurvives(u, t, next);
      }
    }
  }

  lemma AnswerKeepsInv(s: State, i: nat, answer: Option<seq<SocketAddr>>)
    requires Inv(s) && i < |s.resolvers| && s.resolvers[i].pc == Asking
    ensures Inv(Next(s, Answer(i, answer))) && Extends(s, Next(s, Answer(i, answer)))
  {
    var t := Next(s, Answer(i, answer));
    forall j | 0 <= j < |t.resolvers| ensures PcInv(t, t.resolvers[j].pc) {
      if j != i {
        PcSurvives(s, t, s.resolvers[j].pc);
      }
    }
  }

  lemma NextKeepsInv(s: State, e: Event)
    requires Inv(s)
    ensures Inv(Next(s, e)) && Extends(s, Next(s, e))
  {
    var t := Next(s, e);
    match e
    case Move(i) =>
      if i < |s.resolvers| {
        MoveKeepsInv(s, i);
      }
    case Answer(i, answer) =>
      if i < |s.resolvers| && s.resolvers[i].pc == Asking {
        AnswerKeepsInv(s, i, answer);
      }
    case _ =>
      forall j | 0 <= j < |s.resolvers| ensures PcInv(t, t.resolvers[j].pc) {
        PcSurvives(s, t, s.resolvers[j].pc);
      }
  }

  lemma {:induction false} InvAlways(events: seq<Event>)
    ensures Inv(Execute(events))
  {
    hide Inv, Next;
    if events != [] {
      InvAlways(events[..|events| - 1]);
      NextKeepsInv(Execute(events[..|events| - 1]), events[|events| - 1]);
    } else {
      StartInv();
    }
  }

  lemma StartInv()
    ensures Inv(START)
  {
  }

  // ---------------------------------------------------------------------------
  // Lists: never a mix
  // ---------------------------------------------------------------------------

  /** In every interleaving, every list a call returns is the complete filtered answer of one lookup
      that had already finished: its own, or the one whose list was stored last before it read the list. */
  lemma NeverMixed(events: seq<Event>, i: nat, list: seq<SocketAddr>) returns (k: nat)
    requires i < |Execute(events).resolvers| && ListOf(Execute(events).resolvers[i].pc) == Some(list)
    ensures Success(Execute(events), k) && list == Kept(Execute(events).lookups[k])
    ensures var s := Execute(events);
            match s.resolvers[i].pc
            case Served(_, stores, _) => 0 < stores <= |s.stores| && k == s.stores[stores - 1]
            case Resolved(own, _) => k == own
            case _ => false
  {
    InvAlways(events);
    var s := Execute(events);
    assert PcInv(s, s.resolvers[i].pc);
    match s.resolvers[i].pc
    case Served(_, stores, _) => k := s.stores[stores - 1];
    case Resolved(own, _) => k := own;
  }

  /** A hit returns the list stored last before it read it. That list can be empty, and is so exactly when
      the store was of an answer with no usable address; it then came in between: the list the call had
      found before was not empty. */
  lemma HitReturnsLastStore(events: seq<Event>, i: nat)
    requires i < |Execute(events).resolvers| && Execute(events).resolvers[i].pc.Served?
    ensures var s := Execute(events);
            var Served(hit, stores, list) := s.resolvers[i].pc;
            && LastStored(s, stores, list)
            && Seen(s, hit.seen) && hit.seen <= stores
            && (list == [] ==> hit.seen < stores)
  {
    InvAlways(events);
    ServedMeans(Execute(events), i);
  }

  lemma ServedMeans(s: State, i: nat)
    requires Inv(s) && i < |s.resolvers| && s.resolvers[i].pc.Served?
    ensures var Served(hit, stores, list) := s.resolvers[i].pc;
            HitOf(s, hit) && hit.seen <= stores && LastStored(s, stores, list) && (list == [] ==> hit.seen < stores)
  {
    assert PcInv(s, s.resolvers[i].pc);
  }

  lemma ServedHit(s: State, i: nat)
    requires Inv(s) && i < |s.resolvers| && s.resolvers[i].pc.Served?
    ensures HitOf(s, s.resolvers[i].pc.hit)
  {
    assert PcInv(s, s.resolvers[i].pc);
  }

  /** Every call and every finished lookup has this mode. */
  ghost predicate OneMode(s: State, mode: Mode) {
    && (forall i :: 0 <= i < |s.resolvers| ==> s.resolvers[i].mode == mode)
    && (forall k :: 0 <= k < |s.lookups| ==> s.lookups[k].mode == mode)
  }

  lemma NextKeepsMode(s: State, e: Event, mode: Mode)
    requires OneMode(s, mode) && (e.Arrive? ==> e.mode == mode)
    ensures OneMode(Next(s, e), mode)
  {
  }

  lemma {:induction false} ModesStay(events: seq<Event>, mode: Mode)
    requires forall i :: 0 <= i < |events| && events[i].Arrive? ==> events[i].mode == mode
    ensures OneMode(Execute(events), mode)
  {
    if events != [] {
      var before, e := events[..|events| - 1], events[|events| - 1];
      ModesStay(before, mode);
      NextKeepsMode(Execute(before), e, mode);
    }
  }

  /** All callers of one upstream use its protocol's mode, so none ever gets an address of the wrong family,
      and a call that looked up gets all of the answer that is of the right one. */
  lemma FamilyAlways(events: seq<Event>, protocol: string, i: nat, list: seq<SocketAddr>)
    requires forall x :: 0 <= x < |events| && events[x].Arrive? ==> events[x].mode == ModeOf(protocol)
    requires i < |Execute(events).resolvers| && ListOf(Execute(events).resolvers[i].pc) == Some(list)
    ensures protocol == "tcp4" ==> forall a :: a in list ==> a.V4?
    ensures protocol == "tcp6" ==> forall a :: a in list ==> a.V6?
    ensures var s := Execute(events);
            s.resolvers[i].pc.Resolved? ==>
              var k := s.resolvers[i].pc.k;
              && Success(s, k)
              && list == match protocol
                         case "tcp4" => OnlyV4(s.lookups[k].answer.value)
                         case "tcp6" => OnlyV6(s.lookups[k].answer.value)
                         case _ => s.lookups[k].answer.value
  {
    var k := NeverMixed(events, i, list);
    ModesStay(events, ModeOf(protocol));
    ProtocolKeeps(protocol, Execute(events).lookups[k].answer.value);
  }

  // ---------------------------------------------------------------------------
  // Timing: how old a hit can be
  // ---------------------------------------------------------------------------

  /** The lookup a hit took its time from has recorded one. */
  ghost predicate Timed(s: State, h: Hit) {
    h.timeFrom < |s.lookups| && s.lookups[h.timeFrom].recorded.Some?
  }

  /** How old that time was when the hit looked at the clock. */
  ghost function Age(s: State, h: Hit): int
    requires Timed(s, h)
  {
    h.checkedAt - s.lookups[h.timeFrom].recorded.value
  }

  /** In every run, every hit is decided less than 60 s after the time it compared with, which some finished
      lookup recorded. That need not be the lookup the returned list comes from; if it is, the list is
      younger than 60 s as well. */
  lemma HitAge(events: seq<Event>, i: nat)
    requires i < |Execute(events).resolvers| && Execute(events).resolvers[i].pc.Served?
    ensures var s := Execute(events);
            var Served(h, stores, list) := s.resolvers[i].pc;
            && Timed(s, h) && 0 <= Age(s, h) < 60 * SECOND
            && LastStored(s, stores, list)
            && (s.stores[stores - 1] == h.timeFrom ==>
                  h.checkedAt - s.lookups[s.stores[stores - 1]].recorded.value < SUCCESS_TTL)
  {
    InvAlways(events);
    ServedMeans(Execute(events), i);
  }

  /** A hit can exceed that lookup's own TTL, and does so exactly when the lookup had failed, the TTL came
      from a successful one, and three seconds have passed. */
  lemma HitOverstaysIff(events: seq<Event>, i: nat)
    requires i < |Execute(events).resolvers| && Execute(events).resolvers[i].pc.Served?
    ensures var s := Execute(events);
            var h := s.resolvers[i].pc.hit;
            && Timed(s, h) && h.ttlFrom < |s.lookups|
            && (Age(s, h) >= LookupTtl(s.lookups[h.timeFrom]) <==>
                  && s.lookups[h.timeFrom].answer.None?
                  && s.lookups[h.ttlFrom].answer.Some?
                  && Age(s, h) >= 3 * SECOND)
  {
    hide Inv, Keep;
    InvAlways(events);
    ServedHit(Execute(events), i);
  }

  // ---------------------------------------------------------------------------
  // What the resolver's answers decide
  // ---------------------------------------------------------------------------

  /** Every call has this mode and every lookup ends as `pool` allows. */
  ghost predicate Fits(events: seq<Event>, mode: Mode, pool: Pool) {
    && (forall x :: 0 <= x < |events| && events[x].Arrive? ==> events[x].mode == mode)
    && (forall x :: 0 <= x < |events| && events[x].Answer? ==> events[x].answer in pool)
  }

  ghost predicate Reaches(mode: Mode, pool: Pool, s: State) {
    exists events :: Fits(events, mode, pool) && Execute(events) == s
  }

  ghost predicate FromPool(s: State, pool: Pool) {
    forall k :: 0 <= k < |s.lookups| ==> s.lookups[k].answer in pool
  }

  lemma NextKeepsPool(s: State, e: Event, pool: Pool)
    requires FromPool(s, pool) && (e.Answer? ==> e.answer in pool)
    ensures FromPool(Next(s, e), pool)
  {
  }

  lemma {:induction false} PoolStays(events: seq<Event>, mode: Mode, pool: Pool)
    requires Fits(events, mode, pool)
    ensures FromPool(Execute(events), pool)
  {
    hide Next;
    if events != [] {
      var before, e := events[..|events| - 1], events[|events| - 1];
      PoolStays(before, mode, pool);
      NextKeepsPool(Execute(before), e, pool);
    }
  }

  lemma ReachedInv(mode: Mode, pool: Pool, s: State)
    requires Reaches(mode, pool, s)
    ensures Inv(s) && OneMode(s, mode) && FromPool(s, pool)
  {
    hide Inv, OneMode, FromPool;
    var events :| Fits(events, mode, pool) && Execute(events) == s;
    InvAlways(events);
    ModesStay(events, mode);
    PoolStays(events, mode, pool);
  }

  /** Call `i` of a run has been served from the cache. */
  ghost predicate HitIn(mode: Mode, pool: Pool, s: State, i: nat) {
    Reaches(mode, pool, s) && i < |s.resolvers| && s.resolvers[i].pc.Served?
  }

  /** A hit takes a usable answer, and the list it returns is the kept part of an answer in the pool. */
  lemma HitTakesAnswers(mode: Mode, pool: Pool, s: State, i: nat) returns (found: nat, last: nat)
    requires HitIn(mode, pool, s, i)
    ensures found < |s.lookups| && s.lookups[found].answer in pool && Usable(mode, s.lookups[found].answer)
    ensures last < |s.lookups| && s.lookups[last].answer in pool && s.lookups[last].answer.Some?
    ensures s.resolvers[i].pc.list == Keep(mode, s.lookups[last].answer.value)
  {
    ReachedInv(mode, pool, s);
    ServedMeans(s, i);
    var Served(hit, stores, list) := s.resolvers[i].pc;
    found, last := s.stores[hit.seen - 1], s.stores[stores - 1];
  }

  // --- building runs -------------------------------------------------------------

  lemma StartReached(mode: Mode, pool: Pool)
    ensures Reaches(mode, pool, START)
  {
    assert Fits([], mode, pool) && Execute([]) == START;
  }

  lemma Then(mode: Mode, pool: Pool, s: State, e: Event) returns (t: State)
    requires Reaches(mode, pool, s)
    requires e.Arrive? ==> e.mode == mode
    requires e.Answer? ==> e.answer in pool
    ensures t == Next(s, e) && Reaches(mode, pool, t)
  {
    hide Next;
    var events :| Fits(events, mode, pool) && Execute(events) == s;
    var more := events + [e];
    assert more[..|more| - 1] == events;
    t := Next(s, e);
    assert Fits(more, mode, pool) && Execute(more) == t;
  }

  /** A call that finds the cache empty has arrived and asks. */
  lemma Asks(mode: Mode, pool: Pool, s: State) returns (t: State)
    requires Reaches(mode, pool, s) && s.cache.addresses == []
    ensures Reaches(mode, pool, t) && t == s.(resolvers := s.resolvers + [Resolver(mode, Asking)])
  {
    hide Reaches;
    t := Then(mode, pool, s, Arrive(mode));
    t := Then(mode, pool, t, Move(|s.resolvers|));
  }

  /** A call that finds the cache filled but out of date has arrived and asks. */
  lemma AsksAgain(mode: Mode, pool: Pool, s: State) returns (t: State)
    requires Reaches(mode, pool, s) && s.cache.addresses != [] && !IsValid(s.cache.time, s.cache.ttl, s.now)
    requires s.cache.time.Some?
    ensures Reaches(mode, pool, t) && t == s.(resolvers := s.resolvers + [Resolver(mode, Asking)])
  {
    hide Reaches;
    t := Then(mode, pool, s, Arrive(mode));
    t := Then(mode, pool, t, Move(|s.resolvers|));
    t := Then(mode, pool, t, Move(|s.resolvers|));
    t := Then(mode, pool, t, Move(|s.resolvers|));
  }

  /** A call has arrived and found the cache valid. */
  lemma AboutToRead(mode: Mode, pool: Pool, s: State) returns (t: State)
    requires Reaches(mode, pool, s) && s.cache.addresses != [] && IsValid(s.cache.time, s.cache.ttl, s.now)
    ensures var hit := Hit(|s.stores|, s.now, s.timeFrom, s.ttlFrom);
            Reaches(mode, pool, t) && t == s.(resolvers := s.resolvers + [Resolver(mode, ReadList(hit))])
  {
    hide Reaches;
    t := Then(mode, pool, s, Arrive(mode));
    t := Then(mode, pool, t, Move(|s.resolvers|));
    t := Then(mode, pool, t, Move(|s.resolvers|));
    t := Then(mode, pool, t, Move(|s.resolvers|));
  }

  /** A call that has stored its list goes on to its end. */
  lemma Finishes(mode: Mode, pool: Pool, s: State, i: nat) returns (t: State)
    requires Reaches(mode, pool, s) && i < |s.resolvers| && s.resolvers[i].pc.Stamp?
    requires s.resolvers[i].pc.k < |s.lookups|
    ensures Reaches(mode, pool, t)
    ensures var r, k := s.resolvers[i], s.resolvers[i].pc.k;
            t == s.(cache := s.cache.(time := Some(s.now), ttl := Some(SUCCESS_TTL)), timeFrom := k, ttlFrom := k,
                    lookups := s.lookups[k := s.lookups[k].(recorded := Some(s.now))],
                    resolvers := s.resolvers[i := r.(pc := Resolved(k, Some(Kept(s.lookups[k]))))])
  {
    hide Keep, Reaches;
    t := Then(mode, pool, s, Move(i));
    t := Then(mode, pool, t, Move(i));
    t := Then(mode, pool, t, Move(i));
  }

  /** The first call has found `u` and has returned. */
  function FirstDone(mode: Mode, u: seq<SocketAddr>): State {
    State(Cache(Keep(mode, u), Some(0), Some(SUCCESS_TTL)), 0, [Resolver(mode, Resolved(0, Some(Keep(mode, u))))],
          [Lookup(mode, Some(u), Some(0))], [0], 0, 0)
  }

  lemma FirstSuccess(mode: Mode, pool: Pool, u: seq<SocketAddr>) returns (s: State)
    requires Some(u) in pool
    ensures s == FirstDone(mode, u) && Reaches(mode, pool, s)
  {
    hide Keep, Reaches;
    StartReached(mode, pool);
    s := Asks(mode, pool, START);
    s := Then(mode, pool, s, Answer(0, Some(u)));
    s := Then(mode, pool, s, Move(0));
    s := Finishes(mode, pool, s, 0);
  }

  // --- hits past the TTL -----------------------------------------------------------

  /** A minute later a second call's lookup fails; of the failure only the time is stored so far. */
  function HalfStored(mode: Mode, u: seq<SocketAddr>): State {
    State(Cache(Keep(mode, u), Some(60 * SECOND), Some(SUCCESS_TTL)), 60 * SECOND,
          FirstDone(mode, u).resolvers + [Resolver(mode, PutFailureTtl(1))],
          FirstDone(mode, u).lookups + [Lookup(mode, None, Some(60 * SECOND))], [0], 1, 0)
  }

  lemma FailureHalfStored(mode: Mode, pool: Pool, u: seq<SocketAddr>) returns (s: State)
    requires Some(u) in pool && None in pool && Keep(mode, u) != []
    ensures s == HalfStored(mode, u) && Reaches(mode, pool, s)
  {
    hide Keep, Reaches;
    s := FirstSuccess(mode, pool, u);
    s := Then(mode, pool, s, Tick(60 * SECOND));
    s := AsksAgain(mode, pool, s);
    s := Then(mode, pool, s, Answer(1, None));
    s := Then(mode, pool, s, Move(1));
    s := Then(mode, pool, s, Move(1));
  }

  /** The overstay does happen: a hit 59 seconds after a failed lookup, whose TTL is three seconds. */
  lemma TimingCanMix(mode: Mode, pool: Pool, u: seq<SocketAddr>) returns (s: State)
    requires Some(u) in pool && None in pool && Keep(mode, u) != []
    ensures HitIn(mode, pool, s, 2) && s.resolvers[2].pc.hit == Hit(1, 119 * SECOND, 1, 0)
    ensures s.lookups == [Lookup(mode, Some(u), Some(0)), Lookup(mode, None, Some(60 * SECOND))]
  {
    hide Keep, Reaches;
    s := FailureHalfStored(mode, pool, u);
    s := Then(mode, pool, s, Tick(59 * SECOND));
    s := AboutToRead(mode, pool, s);
    s := Then(mode, pool, s, Move(2));
  }

  /** No hit lies past the TTL of the lookup it takes its time from. */
  ghost predicate NeverOverstays(mode: Mode, pool: Pool) {
    forall s, i: nat | HitIn(mode, pool, s, i) ::
      var hit := s.resolvers[i].pc.hit;
      Timed(s, hit) && Age(s, hit) < LookupTtl(s.lookups[hit.timeFrom])
  }

  /** Some run overstays exactly when lookups can fail and can also find a usable address. */
  lemma NeverOverstaysIff(mode: Mode, pool: Pool)
    ensures NeverOverstays(mode, pool) <==> None !in pool || NoneUsable(mode, pool)
  {
    hide Reaches, Keep;
    if None !in pool || NoneUsable(mode, pool) {
      forall s, i: nat | HitIn(mode, pool, s, i)
        ensures Timed(s, s.resolvers[i].pc.hit)
        ensures Age(s, s.resolvers[i].pc.hit) < LookupTtl(s.lookups[s.resolvers[i].pc.hit.timeFrom])
      {
        var found, last := HitTakesAnswers(mode, pool, s, i);
        ReachedInv(mode, pool, s);
        ServedMeans(s, i);
      }
    } else {
      var answer :| answer in pool && Usable(mode, answer);
      var s := TimingCanMix(mode, pool, answer.value);
      assert Age(s, s.resolvers[2].pc.hit) == 59 * SECOND;
    }
  }

  // --- empty hits ------------------------------------------------------------------

  /** Two calls ask at once; the first finds `u` and stores it, the second has found `v`. */
  function OneStored(mode: Mode, u: seq<SocketAddr>, v: seq<SocketAddr>): State {
    State(Cache(Keep(mode, u), Some(0), Some(SUCCESS_TTL)), 0,
          [Resolver(mode, Resolved(0, Some(Keep(mode, u)))), Resolver(mode, PutList(1))],
          [Lookup(mode, Some(u), Some(0)), Lookup(mode, Some(v), None)], [0], 0, 0)
  }

  lemma TwoAsk(mode: Mode, pool: Pool, u: seq<SocketAddr>, v: seq<SocketAddr>) returns (s: State)
    requires Some(u) in pool && Some(v) in pool
    ensures s == State(EMPTY, 0, [Resolver(mode, PutList(0)), Resolver(mode, PutList(1))],
                       [Lookup(mode, Some(u), None), Lookup(mode, Some(v), None)], [], 0, 0)
    ensures Reaches(mode, pool, s)
  {
    hide Keep, Reaches;
    StartReached(mode, pool);
    s := Asks(mode, pool, START);
    s := Asks(mode, pool, s);
    s := Then(mode, pool, s, Answer(0, Some(u)));
    s := Then(mode, pool, s, Answer(1, Some(v)));
  }

  lemma FirstStores(mode: Mode, pool: Pool, u: seq<SocketAddr>, v: seq<SocketAddr>) returns (s: State)
    requires Some(u) in pool && Some(v) in pool
    ensures s == OneStored(mode, u, v) && Reaches(mode, pool, s)
  {
    hide Keep, Reaches;
    s := TwoAsk(mode, pool, u, v);
    s := Then(mode, pool, s, Move(0));
    s := Finishes(mode, pool, s, 0);
  }

  /** An empty hit does happen: the second call stores its unusable answer just before a third reads. */
  lemma HitCanBeEmpty(mode: Mode, pool: Pool, u: seq<SocketAddr>, v: seq<SocketAddr>) returns (s: State)
    requires Some(u) in pool && Some(v) in pool && Keep(mode, u) != [] && Keep(mode, v) == []
    ensures HitIn(mode, pool, s, 2) && s.resolvers[2].pc == Served(Hit(1, 0, 0, 0), 2, [])
  {
    hide Keep, Reaches;
    s := FirstStores(mode, pool, u, v);
    s := AboutToRead(mode, pool, s);
    s := Then(mode, pool, s, Move(1));
    s := Then(mode, pool, s, Move(2));
  }

  ghost predicate NeverEmptyHit(mode: Mode, pool: Pool) {
    forall s, i: nat | HitIn(mode, pool, s, i) :: s.resolvers[i].pc.list != []
  }

  /** Some run has an empty hit exactly when successful lookups can find usable addresses and can also find
      none. Failures do not matter. */
  lemma NeverEmptyHitIff(mode: Mode, pool: Pool)
    ensures NeverEmptyHit(mode, pool) <==>
            || (forall answer :: answer in pool && answer.Some? ==> Usable(mode, answer))
            || NoneUsable(mode, pool)
  {
    hide Reaches, Keep;
    if v :| v in pool && v.Some? && !Usable(mode, v) {
      if u :| u in pool && Usable(mode, u) {
        var s := HitCanBeEmpty(mode, pool, u.value, v.value);
        assert s.resolvers[2].pc.list == [];
      }
    }
    if !NeverEmptyHit(mode, pool) {
      var s, i: nat :| HitIn(mode, pool, s, i) && s.resolvers[i].pc.list == [];
      var found, last := HitTakesAnswers(mode, pool, s, i);
      assert Usable(mode, s.lookups[found].answer) && !Usable(mode, s.lookups[last].answer);
    }
  }

  // --- how old the returned list can be ----------------------------------------------

  /** Both calls have stored the same list, the second call later, and the second call its time. */
  lemma SecondStores(mode: Mode, pool: Pool, u: seq<SocketAddr>) returns (s: State)
    requires Some(u) in pool
    ensures s == State(Cache(Keep(mode, u), Some(0), Some(SUCCESS_TTL)), 0,
                       [Resolver(mode, Stamp(0)), Resolver(mode, Resolved(1, Some(Keep(mode, u))))],
                       [Lookup(mode, Some(u), None), Lookup(mode, Some(u), Some(0))], [0, 1], 1, 1)
    ensures Reaches(mode, pool, s)
  {
    hide Keep, Reaches;
    s := TwoAsk(mode, pool, u, u);
    s := Then(mode, pool, s, Move(0));
    s := Then(mode, pool, s, Move(1));
    s := Finishes(mode, pool, s, 1);
  }

  /** The first call's time is stored a while later. */
  lemma OldListNewTime(mode: Mode, pool: Pool, u: seq<SocketAddr>, stall: nat) returns (s: State)
    requires Some(u) in pool
    ensures s == State(Cache(Keep(mode, u), Some(stall), Some(SUCCESS_TTL)), stall,
                       [Resolver(mode, Resolved(0, Some(Keep(mode, u)))),
                        Resolver(mode, Resolved(1, Some(Keep(mode, u))))],
                       [Lookup(mode, Some(u), Some(stall)), Lookup(mode, Some(u), Some(0))], [0, 1], 0, 0)
    ensures Reaches(mode, pool, s)
  {
    hide Keep, Reaches;
    s := SecondStores(mode, pool, u);
    s := Then(mode, pool, s, Tick(stall));
    s := Finishes(mode, pool, s, 0);
  }

  /** A call that stalls between storing its list and reading the clock renews the list another call has
      stored in between. */
  lemma ListCanBeOld(mode: Mode, pool: Pool, u: seq<SocketAddr>, stall: nat) returns (s: State)
    requires Some(u) in pool && Keep(mode, u) != []
    ensures HitIn(mode, pool, s, 2) && s.resolvers[2].pc == Served(Hit(2, stall, 0, 0), 2, Keep(mode, u))
    ensures s.stores == [0, 1] && |s.lookups| == 2 && s.lookups[1] == Lookup(mode, Some(u), Some(0))
  {
    hide Keep, Reaches;
    s := OldListNewTime(mode, pool, u, stall);
    s := AboutToRead(mode, pool, s);
    s := Then(mode, pool, s, Move(2));
  }

  /** No hit returns a list that was recorded `bound` or longer before. */
  ghost predicate ListsYounger(mode: Mode, pool: Pool, bound: nat) {
    forall s, i: nat | HitIn(mode, pool, s, i) ::
      var Served(hit, stores, list) := s.resolvers[i].pc;
      && LastStored(s, stores, list)
      && (s.lookups[s.stores[stores - 1]].recorded.Some? ==>
            hit.checkedAt < s.lookups[s.stores[stores - 1]].recorded.value + bound)
  }

  /** Under concurrent calls nothing bounds the age of a returned list, not even if every lookup succeeds:
      a bound holds exactly when there are no hits at all. */
  lemma ListsYoungerIff(mode: Mode, pool: Pool, bound: nat)
    ensures ListsYounger(mode, pool, bound) <==> NoneUsable(mode, pool)
  {
    hide Reaches, Keep;
    if NoneUsable(mode, pool) {
      forall s, i: nat ensures !HitIn(mode, pool, s, i) {
        if HitIn(mode, pool, s, i) {
          var found, last := HitTakesAnswers(mode, pool, s, i);
          assert false;
        }
      }
    } else {
      var answer :| answer in pool && Usable(mode, answer);
      var s := ListCanBeOld(mode, pool, answer.value, bound);
      assert s.lookups[s.stores[1]].recorded == Some(0);
    }
  }

  // ---------------------------------------------------------------------------
  // Calls that do not overlap
  // ---------------------------------------------------------------------------

  ghost predicate Idle(s: State) {
    forall i :: 0 <= i < |s.resolvers| ==> ReturnedPc(s.resolvers[i].pc)
  }

  /** A call arrives only when every earlier one has returned. Time may pass anywhere. */
  ghost predicate Exclusive(events: seq<Event>) {
    forall n :: 0 <= n < |events| && events[n].Arrive? ==> Idle(Execute(events[..n]))
  }

  predicate Miss(c: Cache, now: nat) {
    c.addresses == [] || !IsValid(c.time, c.ttl, now)
  }

  /** All calls of `h` were over by `now`. */
  ghost predicate Before(h: Run, now: nat) {
    Sequential(h) && forall i :: 0 <= i < |h| ==> h[i].finishedAt <= now
  }

  /** How far the one call in progress has come, when `h` are the calls before it. */
  ghost predicate Midway(s: State, h: Run, r: Resolver) {
    var c := After(h, |h|);
    match r.pc
    case CheckList => s.cache == c
    case CheckTime(_) => s.cache == c && c.addresses != []
    case CheckTtl(_, time, _) => s.cache == c && c.addresses != [] && c.time == Some(time)
    case ReadList(hit) => s.cache == c && !Miss(c, hit.checkedAt) && Before(h, hit.checkedAt)
    case Asking => s.cache == c && Miss(c, s.now)
    case StampFailure(k) => s.cache == c && Miss(c, s.now)
    case PutFailureTime(k, at) => s.cache == c && Miss(c, at) && Before(h, at)
    case PutFailureTtl(k) =>
      && s.cache.time.Some? && s.cache == c.(time := s.cache.time)
      && Miss(c, s.cache.time.value) && Before(h, s.cache.time.value)
    case PutList(k) => s.cache == c && Miss(c, s.now) && Success(s, k) && s.lookups[k].mode == r.mode
    case Stamp(k) =>
      && Success(s, k) && s.lookups[k].mode == r.mode
      && s.cache == c.(addresses := Kept(s.lookups[k])) && Miss(c, s.now)
    case PutTime(k, at) =>
      && Success(s, k) && s.lookups[k].mode == r.mode
      && s.cache == c.(addresses := Kept(s.lookups[k])) && Miss(c, at) && Before(h, at)
    case PutTtl(k) =>
      && Success(s, k) && s.lookups[k].mode == r.mode
      && s.cache.time.Some? && s.cache == Cache(Kept(s.lookups[k]), s.cache.time, c.ttl)
      && Miss(c, s.cache.time.value) && Before(h, s.cache.time.value)
    case _ => false
  }

  /** Call `i` of the run `h` got what this resolver returned, from the same source. */
  ghost predicate RepliedAs(r: Resolver, h: Run, i: nat)
    requires i < |h|
  {
    && ReturnedPc(r.pc) && h[i].mode == r.mode
    && ListOf(r.pc) == ReplyTo(h, i).addresses
    && (r.pc.Resolved? <==> Looked(h, i))
  }

  ghost predicate AllReplied(s: State, h: Run) {
    |h| <= |s.resolvers| && forall i :: 0 <= i < |h| ==> RepliedAs(s.resolvers[i], h, i)
  }

  /** `s` is where the sequential cache is after the calls `h`, with at most one more call under way. */
  ghost predicate SameAs(s: State, h: Run) {
    && Before(h, s.now)
    && AllReplied(s, h) && |s.resolvers| <= |h| + 1
    && (if |s.resolvers| == |h| then s.cache == After(h, |h|) else Midway(s, h, s.resolvers[|h|]))
  }

  lemma {:induction false} AfterPrefix(h: Run, call: Call, n: nat)
    requires n <= |h|
    ensures After(h + [call], n) == After(h, n)
    ensures n < |h| ==> ReplyTo(h + [call], n) == ReplyTo(h, n)
  {
    hide Serve;
    if n > 0 {
      AfterPrefix(h, call, n - 1);
    }
  }

  lemma RepliesStay(s: State, t: State, h: Run, call: Call)
    requires AllReplied(s, h) && |t.resolvers| == |h| + 1
    requires forall i :: 0 <= i < |h| ==> t.resolvers[i] == s.resolvers[i]
    requires RepliedAs(t.resolvers[|h|], h + [call], |h|)
    ensures AllReplied(t, h + [call])
  {
    var g := h + [call];
    hide After;
    forall i | 0 <= i < |g| ensures RepliedAs(t.resolvers[i], g, i) {
      if i < |h| {
        AfterPrefix(h, call, i);
        assert RepliedAs(s.resolvers[i], h, i);
      }
    }
  }

  lemma RunGrows(h: Run, call: Call, now: nat)
    requires Before(h, call.checkedAt) && call.checkedAt <= call.finishedAt <= now
    ensures Before(h + [call], now)
  {
  }

  /** The call under way returns what `Serve` returns: the sequential run grows by this one call. */
  lemma CallEnds(s: State, t: State, h: Run, call: Call)
    requires AllReplied(s, h) && |t.resolvers| == |h| + 1
    requires Before(h, call.checkedAt) && call.checkedAt <= call.finishedAt <= t.now
    requires forall i :: 0 <= i < |h| ==> t.resolvers[i] == s.resolvers[i]
    requires var r := t.resolvers[|h|];
             && r.mode == call.mode && ReturnedPc(r.pc)
             && Serve(After(h, |h|), call) == (t.cache, Reply(ListOf(r.pc), r.pc.Resolved?))
    ensures SameAs(t, h + [call])
  {
    var g := h + [call];
    hide Serve, ListOf, ReturnedPc, AllReplied, Before;
    RunGrows(h, call, t.now);
    AfterPrefix(h, call, |h|);
    assert After(g, |g|) == Serve(After(g, |h|), g[|h|]).0;
    assert RepliedAs(t.resolvers[|h|], g, |h|);
    RepliesStay(s, t, h, call);
  }

  lemma HitReturns(s: State, h: Run)
    requires SameAs(s, h) && |s.resolvers| == |h| + 1 && s.resolvers[|h|].pc.ReadList?
    requires s.resolvers[|h|].pc.hit.checkedAt <= s.now
    ensures var r := s.resolvers[|h|];
            SameAs(Next(s, Move(|h|)), h + [Call(r.mode, r.pc.hit.checkedAt, r.pc.hit.checkedAt, None)])
  {
    hide AllReplied, After, Before, Keep, IsValid;
    var r := s.resolvers[|h|];
    CallEnds(s, Next(s, Move(|h|)), h, Call(r.mode, r.pc.hit.checkedAt, r.pc.hit.checkedAt, None));
  }

  lemma FailureReturns(s: State, h: Run)
    requires SameAs(s, h) && |s.resolvers| == |h| + 1 && s.resolvers[|h|].pc.PutFailureTtl?
    requires s.cache.time.Some? ==> s.cache.time.value <= s.now
    ensures var r := s.resolvers[|h|];
            && s.cache.time.Some?
            && SameAs(Next(s, Move(|h|)), h + [Call(r.mode, s.cache.time.value, s.cache.time.value, None)])
  {
    hide AllReplied, After, Before, Keep, IsValid;
    var r := s.resolvers[|h|];
    CallEnds(s, Next(s, Move(|h|)), h, Call(r.mode, s.cache.time.value, s.cache.time.value, None));
  }

  lemma SuccessReturns(s: State, h: Run)
    requires SameAs(s, h) && |s.resolvers| == |h| + 1 && s.resolvers[|h|].pc.PutTtl?
    requires s.cache.time.Some? ==> s.cache.time.value <= s.now
    ensures var r := s.resolvers[|h|];
            && s.cache.time.Some? && Success(s, r.pc.k)
            && SameAs(Next(s, Move(|h|)),
                      h + [Call(r.mode, s.cache.time.value, s.cache.time.value, s.lookups[r.pc.k].answer)])
  {
    hide AllReplied, After, Before, Keep, IsValid;
    var r := s.resolvers[|h|];
    CallEnds(s, Next(s, Move(|h|)), h, Call(r.mode, s.cache.time.value, s.cache.time.value, s.lookups[r.pc.k].answer));
  }

  /** The call under way does a lock operation after which it has not returned. */
  lemma MidwayMoves(s: State, h: Run)
    requires SameAs(s, h) && |s.resolvers| == |h| + 1 && PcInv(s, s.resolvers[|h|].pc)
    requires !ReturnedPc(LockStep(s, s.resolvers[|h|].pc).1)
    ensures SameAs(Next(s, Move(|h|)), h)
  {
    hide RepliedAs, After, Before, Keep, IsValid;
    var t, r := Next(s, Move(|h|)), s.resolvers[|h|];
    assert forall i :: 0 <= i < |h| ==> t.resolvers[i] == s.resolvers[i];
    MidwaySteps(s, h, r);
  }

  lemma MidwaySteps(s: State, h: Run, r: Resolver)
    requires |s.resolvers| == |h| + 1 && s.resolvers[|h|] == r
    requires Midway(s, h, r) && PcInv(s, r.pc) && Before(h, s.now) && !ReturnedPc(LockStep(s, r.pc).1)
    ensures var t := Next(s, Move(|h|));
            Midway(t, h, t.resolvers[|h|])
  {
    hide After, Before, Keep;
  }

  lemma MoveSimulates(s: State, h: Run, i: nat) returns (g: Run)
    requires SameAs(s, h) && i < |s.resolvers| && FieldsInv(s) && PcInv(s, s.resolvers[i].pc)
    ensures SameAs(Next(s, Move(i)), g)
  {
    var r := s.resolvers[i];
    g := h;
    if i < |h| {
      assert RepliedAs(r, h, i);
      assert Next(s, Move(i)) == s by {
        assert s.resolvers[i := r] == s.resolvers;
      }
    } else {
      assert Midway(s, h, r);
      hide SameAs, Midway, Next, RepliedAs;
      match r.pc
      case ReadList(hit) =>
        HitReturns(s, h);
        g := h + [Call(r.mode, hit.checkedAt, hit.checkedAt, None)];
      case PutFailureTtl(k) =>
        FailureReturns(s, h);
        g := h + [Call(r.mode, s.cache.time.value, s.cache.time.value, None)];
      case PutTtl(k) =>
        SuccessReturns(s, h);
        g := h + [Call(r.mode, s.cache.time.value, s.cache.time.value, s.lookups[k].answer)];
      case _ =>
        UnderWay(s, h, r);
        MidwayMoves(s, h);
    }
  }

  lemma UnderWay(s: State, h: Run, r: Resolver)
    requires Midway(s, h, r) && !r.pc.ReadList? && !r.pc.PutFailureTtl? && !r.pc.PutTtl?
    ensures !ReturnedPc(LockStep(s, r.pc).1)
  {
  }

  lemma OthersSimulate(s: State, h: Run, e: Event)
    requires SameAs(s, h) && !e.Move? && (e.Arrive? ==> Idle(s))
    ensures SameAs(Next(s, e), h)
  {
  }

  /** Runs whose calls do not overlap are runs of the sequential cache: same replies, same lookups, same
      fields, with time passing anywhere inside the calls. */
  lemma {:induction false} AloneIsSequential(events: seq<Event>) returns (h: Run)
    requires Exclusive(events)
    ensures SameAs(Execute(events), h)
  {
    hide SameAs, Next, Inv, Idle;
    if events == [] {
      h := [];
      StartsAlike();
    } else {
      var before, e := events[..|events| - 1], events[|events| - 1];
      assert forall n :: 0 <= n < |before| ==> before[..n] == events[..n];
      var s := Execute(before);
      h := AloneIsSequential(before);
      InvAlways(before);
      h := StepSimulates(s, h, e);
    }
  }

  lemma StartsAlike()
    ensures SameAs(START, [])
  {
  }

  lemma StepSimulates(s: State, h: Run, e: Event) returns (g: Run)
    requires SameAs(s, h) && Inv(s) && (e.Arrive? ==> Idle(s))
    ensures SameAs(Next(s, e), g)
  {
    if e.Move? && e.i < |s.resolvers| {
      g := MoveSimulates(s, h, e.i);
    } else if e.Move? {
      g := h;
    } else {
      OthersSimulate(s, h, e);
      g := h;
    }
  }

  /** So there a hit always is the answer of the most recent successful lookup, within the TTL of the most
      recent lookup, and younger than 60 s exactly when that one succeeded. */
  lemma AloneHitMeans(events: seq<Event>, i: nat) returns (h: Run, j: nat, k: nat)
    requires Exclusive(events) && i < |Execute(events).resolvers| && Execute(events).resolvers[i].pc.Served?
    ensures SameAs(Execute(events), h) && i < |h| && LastSuccess(h, k, i) && LastLookup(h, j, i)
    ensures Execute(events).resolvers[i].pc.list == Keep(h[k].mode, h[k].answer.value) != []
    ensures h[i].checkedAt - h[j].finishedAt < TtlOf(h[j])
    ensures h[i].checkedAt - h[k].finishedAt < SUCCESS_TTL <==> h[j].answer.Some?
  {
    hide SameAs, Succeeded, Looked, After;
    h := AloneIsSequential(events);
    ServedIsHit(Execute(events), h, i);
    j, k := HitMeans(h, i);
    HitIsFreshIff(h, i, j, k);
  }

  lemma ServedIsHit(s: State, h: Run, i: nat)
    requires SameAs(s, h) && i < |s.resolvers| && s.resolvers[i].pc.Served?
    ensures i < |h| && Sequential(h) && !Looked(h, i) && ReplyTo(h, i).addresses == Some(s.resolvers[i].pc.list)
  {
    assert i < |h|;
    assert RepliedAs(s.resolvers[i], h, i);
    assert Sequential(h);
    var (c, reply) := Serve(After(h, i), h[i]);
    assert !Looked(h, i);
  }
}
