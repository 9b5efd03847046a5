/**
 * Deadlock freedom of the proxy's three reader/writer locks.
 *
 * The locks behave like Go's sync.RWMutex: a writer first announces itself, which makes new
 * readers wait, then waits for the active readers to leave; when it unlocks, the readers that
 * queued up meanwhile all get in before the next writer.
 */
module LockOrder {
  import opened Collections

  datatype Lock = ServerMutex | ServicesMutex | ResolverMutex

  function Level(l: Lock): nat {
    match l
    case ServerMutex => 0
    case ServicesMutex => 1
    case ResolverMutex => 2
  }

  /** The shared state: the provider pools, the services with their server lists, the descriptor index. */
  datatype Data = Pools | Services | Index

  datatype Action = Acquire(lock: Lock, write: bool) | Release(lock: Lock) | Access(data: Data, write: bool)

  /** The lock that guards each part of the shared state. */
  function Guard(d: Data): Lock {
    match d
    case Pools => ServerMutex
    case Services => ServicesMutex
    case Index => ResolverMutex
  }

  /** The lock an action is about. */
  function LockOf(a: Action): Lock {
    match a
    case Acquire(l, _) => l
    case Release(l) => l
    case Access(d, _) => Guard(d)
  }

  type Id = nat

  datatype Status = Ready | WaitingToWrite | WaitingToRead

  /** `held` maps the locks a goroutine holds to whether it holds them for writing. */
  datatype Goroutine = Goroutine(todo: seq<Action>, held: map<Lock, bool>, status: Status)

  datatype RWMutex = RWMutex(writer: Option<Id>, active: bool, readers: set<Id>, queued: set<Id>)

  const FREE := RWMutex(None, false, {}, {})

  datatype State = State(goroutines: map<Id, Goroutine>, locks: map<Lock, RWMutex>)

  // ---------------------------------------------------------------- programs

  /** Each acquisition is above everything held, each release is of a held lock, each access is made while
      its lock is held, for writing if it writes, and nothing is held at the end. */
  ghost predicate Ordered(held: map<Lock, bool>, todo: seq<Action>)
    decreases |todo|
  {
    if todo == [] then held == map[]
    else match todo[0]
      case Acquire(l, write) => (forall k :: k in held ==> Level(k) < Level(l)) && Ordered(held[l := write], todo[1..])
      case Release(l) => l in held && Ordered(held - {l}, todo[1..])
      case Access(d, write) => Guard(d) in held && (write ==> held[Guard(d)]) && Ordered(held, todo[1..])
  }

  /** The operations that take locks; the numbers count loop iterations. */
  datatype Operation =
    | ReplaceServers(cleanups: nat)
    | ReplaceServices(names: nat)
    | FindServer
    | DashboardContext
    | ListServices
    | ResolverLookup

  function Repeat(body: seq<Action>, times: nat): seq<Action> {
    if times == 0 then [] else body + Repeat(body, times - 1)
  }

  /** A server is removed from the lists of all services. */
  const CLEANUP := [Acquire(ServicesMutex, true), Access(Services, true), Release(ServicesMutex)]

  /** One announced name: the files are registered and the server is appended to the list. */
  const ANNOUNCE := [Acquire(ResolverMutex, true), Access(Index, true), Release(ResolverMutex), Access(Services, true)]

  function Program(op: Operation): seq<Action> {
    match op
    case ReplaceServers(n) =>
      [Acquire(ServerMutex, true), Access(Pools, false)] + (Repeat(CLEANUP, n) + [Access(Pools, true), Release(ServerMutex)])
    case ReplaceServices(n) =>
      [Acquire(ServicesMutex, true), Access(Services, true)] + (Repeat(ANNOUNCE, n) + [Release(ServicesMutex)])
    case FindServer => [Acquire(ServicesMutex, false), Access(Services, false), Release(ServicesMutex)]
    case DashboardContext =>
      [Acquire(ServerMutex, false), Access(Pools, false), Acquire(ServicesMutex, false), Access(Services, false),
       Release(ServicesMutex), Release(ServerMutex)]
    case ListServices => [Acquire(ServicesMutex, false), Access(Services, false), Release(ServicesMutex)]
    case ResolverLookup => [Acquire(ResolverMutex, false), Access(Index, false), Release(ResolverMutex)]
  }

  /** A goroutine performs any number of operations one after the other. */
  function Programs(ops: seq<Operation>): seq<Action> {
    if ops == [] then [] else Program(ops[0]) + Programs(ops[1..])
  }

  lemma {:induction false} OrderedAppend(held: map<Lock, bool>, a: seq<Action>, b: seq<Action>)
    requires Ordered(held, a) && Ordered(map[], b)
    ensures Ordered(held, a + b)
    decreases |a|
  {
    if a == [] {
      assert a + b == b;
    } else {
      assert (a + b)[1..] == a[1..] + b;
      match a[0]
      case Acquire(l, write) => OrderedAppend(held[l := write], a[1..], b);
      case Release(l) => OrderedAppend(held - {l}, a[1..], b);
      case Access(_, _) => OrderedAppend(held, a[1..], b);
    }
  }

  lemma OrderedAcquire(held: map<Lock, bool>, l: Lock, write: bool, rest: seq<Action>)
    requires (forall k :: k in held ==> Level(k) < Level(l)) && Ordered(held[l := write], rest)
    ensures Ordered(held, [Acquire(l, write)] + rest)
  {
    assert ([Acquire(l, write)] + rest)[1..] == rest;
  }

  lemma OrderedRelease(held: map<Lock, bool>, l: Lock, rest: seq<Action>)
    requires l in held && Ordered(held - {l}, rest)
    ensures Ordered(held, [Release(l)] + rest)
  {
    assert ([Release(l)] + rest)[1..] == rest;
  }

  lemma OrderedAccess(held: map<Lock, bool>, d: Data, write: bool, rest: seq<Action>)
    requires Guard(d) in held && (write ==> held[Guard(d)]) && Ordered(held, rest)
    ensures Ordered(held, [Access(d, write)] + rest)
  {
    assert ([Access(d, write)] + rest)[1..] == rest;
  }

  lemma {:induction false} CleanupsOrdered(times: nat, rest: seq<Action>)
    requires Ordered(map[ServerMutex := true], rest)
    ensures Ordered(map[ServerMutex := true], Repeat(CLEANUP, times) + rest)
  {
    hide Ordered;
    if times == 0 {
      assert Repeat(CLEANUP, 0) + rest == rest;
    } else {
      CleanupsOrdered(times - 1, rest);
      var after := Repeat(CLEANUP, times - 1) + rest;
      var outer, both := map[ServerMutex := true], map[ServerMutex := true, ServicesMutex := true];
      assert both - {ServicesMutex} == outer && outer[ServicesMutex := true] == both;
      OrderedRelease(both, ServicesMutex, after);
      OrderedAccess(both, Services, true, [Release(ServicesMutex)] + after);
      OrderedAcquire(outer, ServicesMutex, true, [Access(Services, true)] + ([Release(ServicesMutex)] + after));
      assert Repeat(CLEANUP, times) + rest
          == [Acquire(ServicesMutex, true)] + ([Access(Services, true)] + ([Release(ServicesMutex)] + after));
    }
  }

  lemma {:induction false} AnnouncementsOrdered(times: nat, rest: seq<Action>)
    requires Ordered(map[ServicesMutex := true], rest)
    ensures Ordered(map[ServicesMutex := true], Repeat(ANNOUNCE, times) + rest)
  {
    hide Ordered;
    if times == 0 {
      assert Repeat(ANNOUNCE, 0) + rest == rest;
    } else {
      AnnouncementsOrdered(times - 1, rest);
      var after := [Access(Services, true)] + (Repeat(ANNOUNCE, times - 1) + rest);
      var outer, both := map[ServicesMutex := true], map[ServicesMutex := true, ResolverMutex := true];
      assert both - {ResolverMutex} == outer && outer[ResolverMutex := true] == both;
      OrderedAccess(outer, Services, true, Repeat(ANNOUNCE, times - 1) + rest);
      OrderedRelease(both, ResolverMutex, after);
      OrderedAccess(both, Index, true, [Release(ResolverMutex)] + after);
      OrderedAcquire(outer, ResolverMutex, true, [Access(Index, true)] + ([Release(ResolverMutex)] + after));
      assert Repeat(ANNOUNCE, times) + rest
          == [Acquire(ResolverMutex, true)] + ([Access(Index, true)] + ([Release(ResolverMutex)] + after));
    }
  }

  lemma ReplaceServersOrdered(n: nat)
    ensures Ordered(map[], Program(ReplaceServers(n)))
  {
    var held, rest := map[ServerMutex := true], [Access(Pools, true), Release(ServerMutex)];
    assert held - {ServerMutex} == map[] && Ordered(map[], []);
    assert rest == [Access(Pools, true)] + ([Release(ServerMutex)] + []);
    hide Ordered;
    OrderedRelease(held, ServerMutex, []);
    OrderedAccess(held, Pools, true, [Release(ServerMutex)] + []);
    CleanupsOrdered(n, rest);
    OrderedAccess(held, Pools, false, Repeat(CLEANUP, n) + rest);
    OrderedAcquire(map[], ServerMutex, true, [Access(Pools, false)] + (Repeat(CLEANUP, n) + rest));
    assert Program(ReplaceServers(n)) == [Acquire(ServerMutex, true)] + ([Access(Pools, false)] + (Repeat(CLEANUP, n) + rest));
  }

  lemma ReplaceServicesOrdered(n: nat)
    ensures Ordered(map[], Program(ReplaceServices(n)))
  {
    var held, rest := map[ServicesMutex := true], [Release(ServicesMutex)];
    assert held - {ServicesMutex} == map[] && Ordered(map[], []);
    assert rest == [Release(ServicesMutex)] + [];
    hide Ordered;
    OrderedRelease(held, ServicesMutex, []);
    AnnouncementsOrdered(n, rest);
    OrderedAccess(held, Services, true, Repeat(ANNOUNCE, n) + rest);
    OrderedAcquire(map[], ServicesMutex, true, [Access(Services, true)] + (Repeat(ANNOUNCE, n) + rest));
    assert Program(ReplaceServices(n)) == [Acquire(ServicesMutex, true)] + ([Access(Services, true)] + (Repeat(ANNOUNCE, n) + rest));
  }

  lemma OneReadOrdered(d: Data)
    ensures Ordered(map[], [Acquire(Guard(d), false), Access(d, false), Release(Guard(d))])
  {
    var l, held := Guard(d), map[Guard(d) := false];
    assert held - {l} == map[] && Ordered(map[], []);
    hide Ordered;
    OrderedRelease(held, l, []);
    OrderedAccess(held, d, false, [Release(l)] + []);
    OrderedAcquire(map[], l, false, [Access(d, false)] + ([Release(l)] + []));
    assert [Acquire(l, false), Access(d, false), Release(l)] == [Acquire(l, false)] + ([Access(d, false)] + ([Release(l)] + []));
  }

  lemma DashboardOrdered()
    ensures Ordered(map[], Program(DashboardContext))
  {
    var outer, both := map[ServerMutex := false], map[ServerMutex := false, ServicesMutex := false];
    assert outer - {ServerMutex} == map[] && both - {ServicesMutex} == outer && outer[ServicesMutex := false] == both;
    assert Ordered(map[], []);
    hide Ordered;
    OrderedRelease(outer, ServerMutex, []);
    var r1 := [Release(ServerMutex)] + [];
    OrderedRelease(both, ServicesMutex, r1);
    var r2 := [Release(ServicesMutex)] + r1;
    OrderedAccess(both, Services, false, r2);
    var r3 := [Access(Services, false)] + r2;
    OrderedAcquire(outer, ServicesMutex, false, r3);
    var r4 := [Acquire(ServicesMutex, false)] + r3;
    OrderedAccess(outer, Pools, false, r4);
    OrderedAcquire(map[], ServerMutex, false, [Access(Pools, false)] + r4);
    assert Program(DashboardContext) == [Acquire(ServerMutex, false)] + ([Access(Pools, false)] + r4);
  }

  lemma OperationOrdered(op: Operation)
    ensures Ordered(map[], Program(op))
  {
    hide Ordered;
    match op
    case ReplaceServers(n) => ReplaceServersOrdered(n);
    case ReplaceServices(n) => ReplaceServicesOrdered(n);
    case DashboardContext => DashboardOrdered();
    case FindServer => OneReadOrdered(Services);
    case ListServices => OneReadOrdered(Services);
    case ResolverLookup => OneReadOrdered(Index);
  }

  /** What an operation reads and writes. */
  ghost predicate Accesses(op: Operation, d: Data, write: bool) {
    Access(d, write) in Program(op)
  }

  /** Which operations write what; all others only read, and none leaves out what it is for. */
  lemma AccessesExactly(op: Operation, d: Data)
    ensures Accesses(op, d, true) <==> (op.ReplaceServers? && d == Pools) || (op.ReplaceServers? && op.cleanups > 0 && d == Services)
                                        || (op.ReplaceServices? && d == Services) || (op.ReplaceServices? && op.names > 0 && d == Index)
    ensures Accesses(op, d, false) <==> ((op.ReplaceServers? || op.DashboardContext?) && d == Pools)
                                        || ((op.FindServer? || op.DashboardContext? || op.ListServices?) && d == Services)
                                        || (op.ResolverLookup? && d == Index)
  {
    match op
    case ReplaceServers(n) => RepeatHolds(CLEANUP, n, Access(d, true)); RepeatHolds(CLEANUP, n, Access(d, false));
    case ReplaceServices(n) => RepeatHolds(ANNOUNCE, n, Access(d, true)); RepeatHolds(ANNOUNCE, n, Access(d, false));
    case _ =>
  }

  lemma {:induction false} RepeatHolds(body: seq<Action>, times: nat, a: Action)
    ensures a in Repeat(body, times) <==> times > 0 && a in body
  {
    if times > 0 {
      RepeatHolds(body, times - 1, a);
    }
  }

  /** Every sequence of operations takes the locks in the order server, services, resolver, and makes each
      access while holding its lock. */
  lemma {:induction false} OperationsOrdered(ops: seq<Operation>)
    ensures Ordered(map[], Programs(ops))
  {
    if ops != [] {
      OperationOrdered(ops[0]);
      OperationsOrdered(ops[1..]);
      OrderedAppend(map[], Program(ops[0]), Programs(ops[1..]));
    }
  }

  // ---------------------------------------------------------------- steps

  ghost predicate Total(s: State) {
    forall l: Lock :: l in s.locks
  }

  /** The goroutine past its first action, which added or dropped `l`. */
  function Advance(g: Goroutine): Goroutine
    requires g.todo != []
  {
    match g.todo[0]
    case Acquire(l, write) => Goroutine(g.todo[1..], g.held[l := write], Ready)
    case Release(l) => Goroutine(g.todo[1..], g.held - {l}, Ready)
    case Access(_, _) => Goroutine(g.todo[1..], g.held, Ready)
  }

  ghost predicate CanStep(s: State, t: Id)
    requires Total(s)
  {
    && t in s.goroutines && s.goroutines[t].todo != []
    && var g := s.goroutines[t];
       var m := s.locks[LockOf(g.todo[0])];
       match g.status
       case WaitingToRead => false
       case WaitingToWrite => m.readers == {}
       case Ready => g.todo[0].Acquire? && g.todo[0].write ==> m.writer.None?
  }

  ghost function Step(s: State, t: Id): State
    requires Total(s) && CanStep(s, t)
  {
    var g := s.goroutines[t];
    var l := LockOf(g.todo[0]);
    var m := s.locks[l];
    if g.todo[0].Access? then
      s.(goroutines := s.goroutines[t := Advance(g)])
    else if g.status.WaitingToWrite? then
      s.(goroutines := s.goroutines[t := Advance(g)], locks := s.locks[l := m.(active := true)])
    else if g.todo[0].Acquire? && g.todo[0].write then
      s.(goroutines := s.goroutines[t := g.(status := WaitingToWrite)], locks := s.locks[l := m.(writer := Some(t), active := false)])
    else if g.todo[0].Acquire? && m.writer.None? then
      s.(goroutines := s.goroutines[t := Advance(g)], locks := s.locks[l := m.(readers := m.readers + {t})])
    else if g.todo[0].Acquire? then
      s.(goroutines := s.goroutines[t := g.(status := WaitingToRead)], locks := s.locks[l := m.(queued := m.queued + {t})])
    else if l in g.held && g.held[l] then
      // the writer leaves and lets in everyone who queued up meanwhile
      State(map u | u in s.goroutines ::
              if u == t then Advance(g)
              else if u in m.queued && s.goroutines[u].todo != [] then Advance(s.goroutines[u])
              else s.goroutines[u],
            s.locks[l := RWMutex(None, false, m.readers + m.queued, {})])
    else
      s.(goroutines := s.goroutines[t := Advance(g)], locks := s.locks[l := m.(readers := m.readers - {t})])
  }

  ghost predicate IsRun(s: State, schedule: seq<Id>, t: State)
    decreases |schedule|
  {
    if schedule == [] then s == t
    else Total(s) && CanStep(s, schedule[0]) && IsRun(Step(s, schedule[0]), schedule[1..], t)
  }

  ghost predicate Initial(s: State) {
    Total(s) && (forall l :: l in s.locks ==> s.locks[l] == FREE)
    && forall t :: t in s.goroutines ==> exists ops :: s.goroutines[t] == Goroutine(Programs(ops), map[], Ready)
  }

  // ---------------------------------------------------------------- the invariant

  ghost predicate NextIs(g: Goroutine, l: Lock, write: bool) {
    g.todo != [] && g.todo[0] == Acquire(l, write)
  }

  ghost predicate LockInv(s: State, l: Lock)
    requires Total(s)
  {
    var m := s.locks[l];
    && (m.writer.Some? ==> m.writer.value in s.goroutines)
    && (m.writer.Some? && m.active ==> m.readers == {} && HoldsAs(s, m.writer.value, l, true))
    && (m.writer.Some? && !m.active ==>
          s.goroutines[m.writer.value].status.WaitingToWrite? && NextIs(s.goroutines[m.writer.value], l, true))
    && (forall r :: r in m.readers ==> HoldsAs(s, r, l, false))
    && (forall q :: q in m.queued ==>
          m.writer.Some? && q in s.goroutines && s.goroutines[q].status.WaitingToRead? && NextIs(s.goroutines[q], l, false))
  }

  ghost predicate HoldsAs(s: State, t: Id, l: Lock, write: bool) {
    t in s.goroutines && l in s.goroutines[t].held && s.goroutines[t].held[l] == write
  }

  ghost predicate GoroutineInv(s: State, t: Id)
    requires Total(s) && t in s.goroutines
  {
    var g := s.goroutines[t];
    && Ordered(g.held, g.todo)
    && (forall l :: l in g.held ==> if g.held[l] then s.locks[l].writer == Some(t) && s.locks[l].active else t in s.locks[l].readers)
    && (g.status.WaitingToWrite? ==>
          g.todo != [] && NextIs(g, LockOf(g.todo[0]), true)
          && s.locks[LockOf(g.todo[0])].writer == Some(t) && !s.locks[LockOf(g.todo[0])].active)
    && (g.status.WaitingToRead? ==>
          g.todo != [] && NextIs(g, LockOf(g.todo[0]), false) && t in s.locks[LockOf(g.todo[0])].queued)
  }

  ghost predicate Inv(s: State) {
    Total(s) && (forall l :: LockInv(s, l)) && (forall t :: t in s.goroutines ==> GoroutineInv(s, t))
  }

  lemma StepKeepsInv(s: State, t: Id)
    requires Inv(s) && CanStep(s, t)
    ensures Inv(Step(s, t))
  {
    hide Step, LockInv;
    assert GoroutineInv(s, t);
    var g := s.goroutines[t];
    var m := s.locks[LockOf(g.todo[0])];
    if g.todo[0].Access? {
      AccessKeepsInv(s, t);
    } else if g.status.WaitingToWrite? {
      GrantWriteKeepsInv(s, t);
    } else if g.todo[0].Acquire? && g.todo[0].write {
      AnnounceWriterKeepsInv(s, t);
    } else if g.todo[0].Acquire? && m.writer.None? {
      EnterReaderKeepsInv(s, t);
    } else if g.todo[0].Acquire? {
      QueueReaderKeepsInv(s, t);
    } else if g.held[LockOf(g.todo[0])] {
      WriteUnlockKeepsInv(s, t);
    } else {
      ReadUnlockKeepsInv(s, t);
    }
  }

  /** Goroutine `t` changes to `g` and lock `l` to `m`, taking nothing on that lock away from the others. */
  ghost predicate Framed(s: State, t: Id, l: Lock, g: Goroutine, m: RWMutex)
    requires Total(s) && t in s.goroutines
  {
    var before := s.goroutines[t];
    && (before.status.Ready? || (before.todo != [] && LockOf(before.todo[0]) == l))
    && (forall k :: k != l ==> (k in g.held <==> k in before.held) && (k in g.held ==> g.held[k] == before.held[k]))
    && (forall u :: u != t && s.locks[l].writer == Some(u) ==> m.writer == Some(u) && m.active == s.locks[l].active)
    && (forall u :: u != t && u in s.locks[l].readers ==> u in m.readers)
    && (forall u :: u != t && u in s.locks[l].queued ==> u in m.queued)
  }

  function Changed(s: State, t: Id, l: Lock, g: Goroutine, m: RWMutex): State {
    s.(goroutines := s.goroutines[t := g], locks := s.locks[l := m])
  }

  /** Such a step keeps the invariant if it keeps it for that goroutine and that lock. */
  lemma FrameKeepsInv(s: State, t: Id, l: Lock, g: Goroutine, m: RWMutex)
    requires Inv(s) && t in s.goroutines && Framed(s, t, l, g, m)
    requires LockInv(Changed(s, t, l, g, m), l) && GoroutineInv(Changed(s, t, l, g, m), t)
    ensures Inv(Changed(s, t, l, g, m))
  {
    var after := Changed(s, t, l, g, m);
    forall k ensures LockInv(after, k) {
      if k != l {
        assert LockInv(s, k);
        FrameLock(s, t, l, g, m, k);
      }
    }
    forall u | u in after.goroutines ensures GoroutineInv(after, u) {
      if u != t {
        assert GoroutineInv(s, u);
        FrameGoroutine(s, t, l, g, m, u);
      }
    }
  }

  lemma FrameLock(s: State, t: Id, l: Lock, g: Goroutine, m: RWMutex, k: Lock)
    requires Total(s) && t in s.goroutines && Framed(s, t, l, g, m) && LockInv(s, k) && k != l
    ensures LockInv(Changed(s, t, l, g, m), k)
  {
  }

  lemma FrameGoroutine(s: State, t: Id, l: Lock, g: Goroutine, m: RWMutex, u: Id)
    requires Total(s) && t in s.goroutines && u in s.goroutines && Framed(s, t, l, g, m) && GoroutineInv(s, u) && u != t
    ensures GoroutineInv(Changed(s, t, l, g, m), u)
  {
    hide Ordered;
  }

  lemma AccessKeepsInv(s: State, t: Id)
    requires Inv(s) && CanStep(s, t) && s.goroutines[t].todo[0].Access?
    ensures Inv(Step(s, t))
  {
    hide Ordered;
    var s', l := Step(s, t), LockOf(s.goroutines[t].todo[0]);
    assert GoroutineInv(s, t) && LockInv(s, l);
    OrderedStep(s.goroutines[t]);
    assert s' == Changed(s, t, l, s'.goroutines[t], s.locks[l]);
    FrameKeepsInv(s, t, l, s'.goroutines[t], s.locks[l]);
  }

  lemma GrantWriteKeepsInv(s: State, t: Id)
    requires Inv(s) && CanStep(s, t)
    requires s.goroutines[t].status.WaitingToWrite?
    ensures Inv(Step(s, t))
  {
    hide Ordered;
    var s', l := Step(s, t), LockOf(s.goroutines[t].todo[0]);
    assert GoroutineInv(s, t) && LockInv(s, l);
    OrderedStep(s.goroutines[t]);
    assert s' == Changed(s, t, l, s'.goroutines[t], s'.locks[l]);
    FrameKeepsInv(s, t, l, s'.goroutines[t], s'.locks[l]);
  }

  lemma AnnounceWriterKeepsInv(s: State, t: Id)
    requires Inv(s) && CanStep(s, t)
    requires s.goroutines[t].status.Ready? && s.goroutines[t].todo[0].Acquire? && s.goroutines[t].todo[0].write
    ensures Inv(Step(s, t))
  {
    hide Ordered;
    var s', l := Step(s, t), LockOf(s.goroutines[t].todo[0]);
    assert GoroutineInv(s, t) && LockInv(s, l);
    OrderedStep(s.goroutines[t]);
    assert s' == Changed(s, t, l, s'.goroutines[t], s'.locks[l]);
    FrameKeepsInv(s, t, l, s'.goroutines[t], s'.locks[l]);
  }

  lemma EnterReaderKeepsInv(s: State, t: Id)
    requires Inv(s) && CanStep(s, t)
    requires s.goroutines[t].status.Ready? && s.goroutines[t].todo[0].Acquire? && !s.goroutines[t].todo[0].write
             && s.locks[LockOf(s.goroutines[t].todo[0])].writer.None?
    ensures Inv(Step(s, t))
  {
    hide Ordered;
    var s', l := Step(s, t), LockOf(s.goroutines[t].todo[0]);
    assert GoroutineInv(s, t) && LockInv(s, l);
    OrderedStep(s.goroutines[t]);
    assert s' == Changed(s, t, l, s'.goroutines[t], s'.locks[l]);
    FrameKeepsInv(s, t, l, s'.goroutines[t], s'.locks[l]);
  }

  lemma QueueReaderKeepsInv(s: State, t: Id)
    requires Inv(s) && CanStep(s, t)
    requires s.goroutines[t].status.Ready? && s.goroutines[t].todo[0].Acquire? && !s.goroutines[t].todo[0].write
             && s.locks[LockOf(s.goroutines[t].todo[0])].writer.Some?
    ensures Inv(Step(s, t))
  {
    hide Ordered;
    var s', l := Step(s, t), LockOf(s.goroutines[t].todo[0]);
    assert GoroutineInv(s, t) && LockInv(s, l);
    OrderedStep(s.goroutines[t]);
    assert s' == Changed(s, t, l, s'.goroutines[t], s'.locks[l]);
    FrameKeepsInv(s, t, l, s'.goroutines[t], s'.locks[l]);
  }

  lemma WriteUnlockKeepsInv(s: State, t: Id)
    requires Inv(s) && CanStep(s, t)
    requires s.goroutines[t].status.Ready? && s.goroutines[t].todo[0].Release? && HoldsAs(s, t, LockOf(s.goroutines[t].todo[0]), true)
    ensures Inv(Step(s, t))
  {
    hide Ordered;
    var s', l := Step(s, t), LockOf(s.goroutines[t].todo[0]);
    assert GoroutineInv(s, t) && LockInv(s, l);
    forall k ensures LockInv(s', k) {
      WriteUnlockLock(s, t, k);
    }
    forall u | u in s'.goroutines ensures GoroutineInv(s', u) {
      WriteUnlockGoroutine(s, t, u);
    }
  }

  lemma WriteUnlockLock(s: State, t: Id, k: Lock)
    requires Inv(s) && CanStep(s, t)
    requires s.goroutines[t].status.Ready? && s.goroutines[t].todo[0].Release? && HoldsAs(s, t, LockOf(s.goroutines[t].todo[0]), true)
    ensures LockInv(Step(s, t), k)
  {
    hide Ordered;
    var l := LockOf(s.goroutines[t].todo[0]);
    assert LockInv(s, k) && LockInv(s, l) && GoroutineInv(s, t);
    hide Inv, GoroutineInv;
    if k == l {
      AdmittedReaders(s, t, l);
    } else {
      OtherLockAfterUnlock(s, t, l, k);
    }
  }

  lemma AdmittedReaders(s: State, t: Id, l: Lock)
    requires Unlocking(s, t, l) && LockInv(s, l)
    ensures LockInv(Step(s, t), l)
  {
    var s' := Step(s, t);
    forall q | q in s.locks[l].queued ensures HoldsAs(s', q, l, false) {
      assert q != t;
      assert s'.goroutines[q] == Advance(s.goroutines[q]);
    }
    assert s'.locks[l] == RWMutex(None, false, s.locks[l].queued, {});
  }

  ghost predicate Unlocking(s: State, t: Id, l: Lock) {
    Total(s) && CanStep(s, t) && s.goroutines[t].status.Ready? && s.goroutines[t].todo[0] == Release(l) && HoldsAs(s, t, l, true)
    && s.locks[l].writer == Some(t) && s.locks[l].active
  }

  lemma OtherLockAfterUnlock(s: State, t: Id, l: Lock, k: Lock)
    requires Unlocking(s, t, l) && LockInv(s, l) && LockInv(s, k) && k != l
    ensures LockInv(Step(s, t), k)
  {
    var s' := Step(s, t);
    assert s'.locks[k] == s.locks[k];
    forall u, write | HoldsAs(s, u, k, write) ensures HoldsAs(s', u, k, write) {}
    forall u | u in s.goroutines && u != t && u !in s.locks[l].queued ensures s'.goroutines[u] == s.goroutines[u] {}
    hide Step;
  }

  lemma WriteUnlockGoroutine(s: State, t: Id, u: Id)
    requires Inv(s) && CanStep(s, t) && u in s.goroutines
    requires s.goroutines[t].status.Ready? && s.goroutines[t].todo[0].Release? && HoldsAs(s, t, LockOf(s.goroutines[t].todo[0]), true)
    ensures GoroutineInv(Step(s, t), u)
  {
    hide Ordered;
    var l := LockOf(s.goroutines[t].todo[0]);
    assert LockInv(s, l) && GoroutineInv(s, t) && GoroutineInv(s, u);
    if u == t || u in s.locks[l].queued {
      OrderedStep(s.goroutines[u]);
    }
  }

  lemma ReadUnlockKeepsInv(s: State, t: Id)
    requires Inv(s) && CanStep(s, t)
    requires s.goroutines[t].status.Ready? && s.goroutines[t].todo[0].Release? && HoldsAs(s, t, LockOf(s.goroutines[t].todo[0]), false)
    ensures Inv(Step(s, t))
  {
    hide Ordered;
    var s', l := Step(s, t), LockOf(s.goroutines[t].todo[0]);
    assert GoroutineInv(s, t) && LockInv(s, l);
    OrderedStep(s.goroutines[t]);
    assert s' == Changed(s, t, l, s'.goroutines[t], s'.locks[l]);
    FrameKeepsInv(s, t, l, s'.goroutines[t], s'.locks[l]);
  }

  lemma OrderedStep(g: Goroutine)
    requires Ordered(g.held, g.todo) && g.todo != []
    ensures Ordered(Advance(g).held, Advance(g).todo)
    ensures g.todo[0].Acquire? ==> LockOf(g.todo[0]) !in g.held
    ensures g.todo[0].Release? ==> LockOf(g.todo[0]) in g.held
  {
  }

  // ---------------------------------------------------------------- progress

  ghost predicate Stuck(s: State)
    requires Total(s)
  {
    forall t :: !CanStep(s, t)
  }

  ghost predicate Unfinished(s: State, t: Id) {
    t in s.goroutines && s.goroutines[t].todo != []
  }

  /** In a stuck state, the holder of a lock waits for a higher lock. */
  lemma HolderWaitsHigher(s: State, h: Id, l: Lock)
    requires Inv(s) && Stuck(s) && h in s.goroutines && l in s.goroutines[h].held
    ensures Unfinished(s, h) && Level(l) < Level(LockOf(s.goroutines[h].todo[0]))
  {
    assert GoroutineInv(s, h);
    assert !CanStep(s, h);
  }

  /** In a stuck state, every unfinished goroutine waits, in the end, for one that waits for a higher lock. */
  lemma WaitsForHigher(s: State, t: Id) returns (u: Id)
    requires Inv(s) && Stuck(s) && Unfinished(s, t)
    ensures Unfinished(s, u) && Level(LockOf(s.goroutines[t].todo[0])) < Level(LockOf(s.goroutines[u].todo[0]))
  {
    var l := LockOf(s.goroutines[t].todo[0]);
    var m := s.locks[l];
    assert GoroutineInv(s, t) && LockInv(s, l) && !CanStep(s, t);
    assert m.writer.Some?;
    if m.active {
      u := m.writer.value;
    } else {
      assert !CanStep(s, m.writer.value);
      u :| u in m.readers;
    }
    HolderWaitsHigher(s, u, l);
  }

  lemma NeverStuck(s: State, t: Id)
    requires Inv(s) && Unfinished(s, t)
    ensures !Stuck(s)
  {
    if Stuck(s) {
      var u := WaitsForHigher(s, t);
      var v := WaitsForHigher(s, u);
      var w := WaitsForHigher(s, v);
    }
  }

  lemma InitialInv(s: State)
    requires Initial(s)
    ensures Inv(s)
  {
    forall t | t in s.goroutines ensures GoroutineInv(s, t) {
      var ops :| s.goroutines[t] == Goroutine(Programs(ops), map[], Ready);
      OperationsOrdered(ops);
    }
  }

  lemma {:induction false} RunKeepsInv(s: State, schedule: seq<Id>, t: State)
    requires Inv(s) && IsRun(s, schedule, t)
    ensures Inv(t) && |schedule| + Sum(Work(t)) <= Sum(Work(s))
    decreases |schedule|
  {
    if schedule != [] {
      StepKeepsInv(s, schedule[0]);
      StepDoesWork(s, schedule[0]);
      RunKeepsInv(Step(s, schedule[0]), schedule[1..], t);
    }
  }

  /** No interleaving of any number of goroutines gets stuck: schedules are bounded, and one that
      cannot be continued has completed every operation and released every lock. */
  lemma EveryScheduleCompletes(s: State, schedule: seq<Id>, t: State)
    requires Initial(s) && IsRun(s, schedule, t)
    ensures |schedule| <= Sum(Work(s))
    ensures Total(t) && (Stuck(t) <==> forall u :: u in t.goroutines ==> t.goroutines[u].todo == [])
    ensures Stuck(t) ==> forall u :: u in t.goroutines ==> t.goroutines[u].held == map[]
  {
    InitialInv(s);
    RunKeepsInv(s, schedule, t);
    if Stuck(t) {
      forall u | u in t.goroutines ensures t.goroutines[u].todo == [] {
        if Unfinished(t, u) {
          NeverStuck(t, u);
        }
      }
    }
    forall u | u in t.goroutines && t.goroutines[u].todo == [] ensures t.goroutines[u].held == map[] {
      assert GoroutineInv(t, u);
    }
  }

  // ---------------------------------------------------------------- what the locks protect

  /** A lock held for writing is held by no other goroutine. */
  lemma MutualExclusion(s: State, t: Id, u: Id, l: Lock)
    requires Inv(s) && HoldsAs(s, t, l, true) && u in s.goroutines && l in s.goroutines[u].held
    ensures u == t
  {
    assert LockInv(s, l) && GoroutineInv(s, t) && GoroutineInv(s, u);
  }

  /** The goroutine is about to access `d`. */
  ghost predicate AboutTo(s: State, t: Id, d: Data, write: bool) {
    t in s.goroutines && s.goroutines[t].todo != [] && s.goroutines[t].todo[0] == Access(d, write)
  }

  /** Over every schedule, the pools are accessed under the server lock, the services under the services lock and
      the index under the resolver lock, and written only while that lock is held for writing. */
  lemma AccessesAreGuarded(s: State, schedule: seq<Id>, t: State, u: Id, d: Data, write: bool)
    requires Initial(s) && IsRun(s, schedule, t) && AboutTo(t, u, d, write)
    ensures var l := match d case Pools => ServerMutex case Services => ServicesMutex case Index => ResolverMutex;
            l in t.goroutines[u].held && (write ==> t.goroutines[u].held[l])
  {
    InitialInv(s);
    RunKeepsInv(s, schedule, t);
    assert GoroutineInv(t, u);
  }

  /** Over every schedule, no two goroutines access the same data at the same time if one of them writes. */
  lemma NoDataRace(s: State, schedule: seq<Id>, t: State, u: Id, v: Id, d: Data, write: bool)
    requires Initial(s) && IsRun(s, schedule, t) && u != v
    ensures !(AboutTo(t, u, d, true) && AboutTo(t, v, d, write))
  {
    InitialInv(s);
    RunKeepsInv(s, schedule, t);
    if AboutTo(t, u, d, true) && AboutTo(t, v, d, write) {
      AccessesAreGuarded(s, schedule, t, u, d, true);
      AccessesAreGuarded(s, schedule, t, v, d, write);
      MutualExclusion(t, u, v, Guard(d));
      assert false;
    }
  }

  /** A writer that has announced itself keeps new readers out: whoever becomes a reader either finds no
      writer, or had queued up behind one that now leaves. */
  lemma WriterKeepsReadersOut(s: State, t: Id, l: Lock, u: Id)
    requires Inv(s) && CanStep(s, t) && Total(Step(s, t)) && u !in s.locks[l].readers && u in Step(s, t).locks[l].readers
    ensures s.locks[l].writer.None? || (s.locks[l].writer == Some(t) && s.locks[l].active && u in s.locks[l].queued)
  {
    assert GoroutineInv(s, t) && LockInv(s, l);
  }

  /** A writer that leaves lets in every reader that queued up behind it, before any other writer. */
  lemma QueuedReadersGetIn(s: State, t: Id, l: Lock)
    requires Inv(s) && CanStep(s, t) && s.goroutines[t].todo[0] == Release(l) && HoldsAs(s, t, l, true)
    ensures var after := Step(s, t);
            && Total(after) && after.locks[l].writer.None? && after.locks[l].queued == {}
            && after.locks[l].readers == s.locks[l].queued
            && forall u :: u in s.locks[l].queued ==> HoldsAs(after, u, l, false)
  {
    assert GoroutineInv(s, t) && LockInv(s, l);
    var after := Step(s, t);
    forall u | u in s.locks[l].queued ensures HoldsAs(after, u, l, false) {
      assert u != t && after.goroutines[u] == Advance(s.goroutines[u]);
    }
  }

  // ---------------------------------------------------------------- remaining work

  /** Two units per remaining action, one more while not waiting. */
  ghost function Work(s: State): map<Id, nat> {
    map t | t in s.goroutines :: Weight(s.goroutines[t])
  }

  ghost function Weight(g: Goroutine): nat {
    2 * |g.todo| + if g.status.Ready? then 1 else 0
  }

  ghost function Sum(f: map<Id, nat>): nat
    decreases |f|
  {
    if f == map[] then 0
    else
      var k :| k in f;
      SmallerMap(f, k);
      f[k] + Sum(f - {k})
  }

  lemma SmallerMap(f: map<Id, nat>, k: Id)
    requires k in f
    ensures |f - {k}| < |f|
  {
    assert (f - {k}).Keys == f.Keys - {k};
    assert |(f - {k}).Keys| < |f.Keys|;
  }

  lemma {:induction false} SumWithout(f: map<Id, nat>, k: Id)
    requires k in f
    ensures Sum(f) == f[k] + Sum(f - {k})
    decreases |f|
  {
    var j :| j in f && Sum(f) == f[j] + Sum(f - {j});
    if j != k {
      SmallerMap(f, j);
      SmallerMap(f, k);
      SumWithout(f - {j}, k);
      SumWithout(f - {k}, j);
      assert f - {j} - {k} == f - {k} - {j};
    }
  }

  lemma {:induction false} SumMonotone(f: map<Id, nat>, g: map<Id, nat>)
    requires f.Keys == g.Keys && forall k :: k in f ==> f[k] <= g[k]
    ensures Sum(f) <= Sum(g)
    decreases |f|
  {
    if f != map[] {
      var k :| k in f;
      SmallerMap(f, k);
      SumWithout(f, k);
      SumWithout(g, k);
      SumMonotone(f - {k}, g - {k});
    }
  }

  lemma StepDoesWork(s: State, t: Id)
    requires Inv(s) && CanStep(s, t)
    ensures Sum(Work(Step(s, t))) < Sum(Work(s))
  {
    var f, g := Work(Step(s, t)), Work(s);
    LessWork(s, t);
    hide Step, Work, Inv, CanStep;
    SumWithout(f, t);
    SumWithout(g, t);
    SumMonotone(f - {t}, g - {t});
  }

  lemma LessWork(s: State, t: Id)
    requires Inv(s) && CanStep(s, t)
    ensures Work(Step(s, t)).Keys == Work(s).Keys && Work(Step(s, t))[t] < Work(s)[t]
    ensures forall u :: u in Work(s) ==> Work(Step(s, t))[u] <= Work(s)[u]
  {
    assert GoroutineInv(s, t);
    forall u | u in s.goroutines
      ensures u in Step(s, t).goroutines && Weight(Step(s, t).goroutines[u]) <= Weight(s.goroutines[u])
      ensures Weight(Step(s, t).goroutines[t]) < Weight(s.goroutines[t])
    {
      LighterGoroutine(s, t, u);
    }
    hide Step, Inv, CanStep, GoroutineInv;
  }

  lemma LighterGoroutine(s: State, t: Id, u: Id)
    requires Total(s) && CanStep(s, t) && u in s.goroutines
    ensures u in Step(s, t).goroutines && Weight(Step(s, t).goroutines[u]) <= Weight(s.goroutines[u])
    ensures t in Step(s, t).goroutines && Weight(Step(s, t).goroutines[t]) < Weight(s.goroutines[t])
  {
  }
}
