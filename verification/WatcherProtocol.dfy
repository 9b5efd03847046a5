/**
 * All interleavings of the service watchers with ReplaceServers.
 *
 * Every watcher goroutine has a program counter; ReplaceServers runs under the server lock but
 * its clean-ups are two separate steps (cancel the watcher, then remove the server from the
 * lists).  In `Split` mode the steps are those of the code: a watcher installs its stop handle
 * only when it starts running, and it checks for cancellation before, not while, it announces
 * its services.  In `Atomic` mode the handle exists from the start and check and announcement
 * are one step.
 */
module WatcherProtocol {
  import opened Collections
  import opened ServiceLists
  import opened Proxy

  datatype Mode = Split | Atomic

  type Id = nat

  datatype Pc =
    | NotStarted                        // spawned, stop handle not installed
    | Fetching                          // asking the server for its services
    | HaveInfo(names: seq<string>)      // about to check for cancellation
    | Checked(names: seq<string>)       // check passed, about to announce
    | Waiting                           // announced, waiting for a lost connection or cancellation
    | Done                              // returned, stop handle removed

  datatype Watcher = Watcher(config: Config, pc: Pc, cancelled: bool)

  /** The circumstances of a finished clean-up: the watcher ran on without having been cancelled, it was
      about to announce services, or the server was listed twice under some service. */
  datatype Cleanup = Cleanup(notStarted: bool, checked: bool, listedTwice: bool)

  datatype Stop = NoStop | Stopping(server: Id, notStarted: bool)

  /** A ReplaceServers call holding the server lock. */
  datatype Call = NoCall | Replacing(provider: string, todo: seq<Id>, wanted: set<Config>, toBuild: set<Config>,
                                     kept: seq<Id>, stop: Stop)

  datatype State = State(
    pools: map<string, seq<Id>>,
    lists: Lists<Id>,
    watchers: map<Id, Watcher>,
    call: Call,
    cleaned: map<Id, Cleanup>)          // history: servers cleaned up so far

  const INITIAL := State(map[], map[], map[], NoCall, map[])

  datatype Event =
    | Begin(provider: string, configs: seq<Config>)
    | Examine                           // keep the next old server, or cancel its watcher
    | Remove                            // second half of the clean-up
    | Build(config: Config, id: Id)
    | Finish
    | Start(id: Id, connected: bool)    // the goroutine begins; creating its client may fail
    | Fetched(id: Id, names: seq<string>)
    | Check(id: Id)
    | Announce(id: Id)
    | Reconnect(id: Id)
    | GiveUp(id: Id)                    // a wait is ended by cancellation

  function Pool(s: State, provider: string): seq<Id> {
    if provider in s.pools then s.pools[provider] else []
  }

  /** The check is passed and there is something to announce. */
  predicate AboutToAnnounce(pc: Pc) { pc.Checked? && pc.names != [] }

  predicate HasHandle(pc: Pc) { !pc.NotStarted? && !pc.Done? }

  predicate Enabled(m: Mode, s: State, e: Event) {
    match e
    case Begin(_, _) => s.call.NoCall?
    case Examine => s.call.Replacing? && s.call.stop.NoStop? && s.call.todo != [] && s.call.todo[0] in s.watchers
    case Remove => s.call.Replacing? && s.call.stop.Stopping? && s.call.stop.server in s.watchers
    case Build(c, id) => s.call.Replacing? && s.call.stop.NoStop? && s.call.todo == [] && c in s.call.toBuild && id !in s.watchers
    case Finish => s.call.Replacing? && s.call.stop.NoStop? && s.call.todo == [] && s.call.toBuild == {}
    case Start(id, _) => m.Split? && id in s.watchers && s.watchers[id].pc.NotStarted?
    case Fetched(id, _) => id in s.watchers && s.watchers[id].pc.Fetching?
    case Check(id) => id in s.watchers && s.watchers[id].pc.HaveInfo?
    case Announce(id) => m.Split? && id in s.watchers && s.watchers[id].pc.Checked?
    case Reconnect(id) => id in s.watchers && s.watchers[id].pc.Waiting?
    case GiveUp(id) => id in s.watchers && (s.watchers[id].pc.Fetching? || s.watchers[id].pc.Waiting?) && s.watchers[id].cancelled
  }

  function WithPc(s: State, id: Id, pc: Pc): State
    requires id in s.watchers
  {
    s.(watchers := s.watchers[id := s.watchers[id].(pc := pc)])
  }

  /** What is noted when server `id` is removed from the lists. */
  ghost function CleanupOf(s: State, id: Id, notStarted: bool): Cleanup
    requires id in s.watchers
  {
    Cleanup(notStarted && !s.watchers[id].pc.Done?, AboutToAnnounce(s.watchers[id].pc),
            exists n :: n in s.lists && Listed(s.lists, n, id) > 1)
  }

  ghost function Step(m: Mode, s: State, e: Event): State
    requires Enabled(m, s, e)
  {
    match e
    case Begin(p, configs) =>
      var wanted := set c | c in configs;
      s.(call := Replacing(p, Pool(s, p), wanted, wanted, [], NoStop))
    case Examine =>
      var id := s.call.todo[0];
      var w := s.watchers[id];
      if w.config in s.call.wanted then
        s.(call := s.call.(todo := s.call.todo[1..], kept := s.call.kept + [id], toBuild := s.call.toBuild - {w.config}))
      else
        s.(call := s.call.(todo := s.call.todo[1..], stop := Stopping(id, w.pc.NotStarted?)),
           watchers := s.watchers[id := w.(cancelled := w.cancelled || HasHandle(w.pc))])
    case Remove =>
      var Stopping(id, notStarted) := s.call.stop;
      s.(call := s.call.(stop := NoStop),
         lists := CleanedUp(s.lists, id),
         cleaned := s.cleaned[id := CleanupOf(s, id, notStarted)])
    case Build(c, id) =>
      s.(call := s.call.(toBuild := s.call.toBuild - {c}, kept := s.call.kept + [id]),
         watchers := s.watchers[id := Watcher(c, if m.Split? then NotStarted else Fetching, false)])
    case Finish =>
      s.(pools := s.pools[s.call.provider := s.call.kept], call := NoCall)
    case Start(id, connected) => WithPc(s, id, if connected then Fetching else Done)
    case Fetched(id, names) => WithPc(s, id, HaveInfo(names))
    case Check(id) =>
      var w := s.watchers[id];
      if w.cancelled then WithPc(s, id, Done)
      else if m.Split? then WithPc(s, id, Checked(w.pc.names))
      else WithPc(s, id, Waiting).(lists := Announced(s.lists, id, w.pc.names))
    case Announce(id) =>
      WithPc(s, id, Waiting).(lists := Announced(s.lists, id, s.watchers[id].pc.names))
    case Reconnect(id) => WithPc(s, id, Fetching)
    case GiveUp(id) => WithPc(s, id, Done)
  }

  ghost predicate IsRun(m: Mode, s: State, events: seq<Event>, t: State)
    decreases |events|
  {
    if events == [] then s == t
    else Enabled(m, s, events[0]) && IsRun(m, Step(m, s, events[0]), events[1..], t)
  }

  // ---------------------------------------------------------------- the invariant

  ghost predicate InPools(s: State, id: Id) {
    exists p :: p in s.pools && id in s.pools[p]
  }

  /** In a pool, or already in the new pool of the running call. */
  ghost predicate Owned(s: State, id: Id) {
    InPools(s, id) || (s.call.Replacing? && id in s.call.kept)
  }

  ghost predicate IsListed(s: State, id: Id) {
    exists n :: n in s.lists && id in s.lists[n]
  }

  /** One of the three circumstances under which a cleaned-up server stays in a list or can come back. */
  predicate Excused(c: Cleanup) {
    c.notStarted || c.checked || c.listedTwice
  }

  /** The watcher may still put its server into a list. */
  predicate CanAnnounce(w: Watcher) {
    !w.pc.Done? && (!w.cancelled || AboutToAnnounce(w.pc))
  }

  ghost predicate Inv(s: State) {
    && (forall id :: id in s.watchers ==> Owned(s, id) || id in s.cleaned)
    && (forall n, id :: n in s.lists && id in s.lists[n] ==> id in s.watchers)
    && (forall id :: id in s.cleaned ==> id in s.watchers)
    && (forall id :: id in s.cleaned && !Excused(s.cleaned[id]) ==> !CanAnnounce(s.watchers[id]) && !IsListed(s, id))
    && (forall p, id :: p in s.pools && id in s.pools[p] ==> id in s.watchers)
    && (s.call.Replacing? ==> CallInv(s))
  }

  ghost predicate CallInv(s: State)
    requires s.call.Replacing?
  {
    && (forall id :: id in s.call.kept + s.call.todo ==> id in s.watchers)
    && (s.call.stop.Stopping? ==>
          && s.call.stop.server in s.watchers
          && (var w := s.watchers[s.call.stop.server];
              !s.call.stop.notStarted ==> (w.cancelled || w.pc.Done?) && !w.pc.NotStarted?))
    && (forall id :: id in Pool(s, s.call.provider) ==>
          id in s.call.kept || id in s.call.todo || id in s.cleaned || (s.call.stop.Stopping? && id == s.call.stop.server))
  }

  lemma StepKeepsInv(m: Mode, s: State, e: Event)
    requires Inv(s) && Enabled(m, s, e)
    ensures Inv(Step(m, s, e))
  {
    match e
    case Begin(_, _) =>
    case Examine =>
      if s.watchers[s.call.todo[0]].config in s.call.wanted {
        KeepServerKeepsInv(m, s);
      } else {
        StopServerKeepsInv(m, s);
      }
    case Remove => RemoveKeepsInv(m, s);
    case Build(c, id) => BuildKeepsInv(m, s, c, id);
    case Finish => FinishKeepsInv(m, s);
    case Check(id) =>
      var w := s.watchers[id];
      if w.cancelled {
        MoveKeepsInv(s, id, Done);
      } else if m.Split? {
        MoveKeepsInv(s, id, Checked(w.pc.names));
      } else {
        AnnounceKeepsInv(s, id, w.pc.names);
      }
    case Announce(id) => AnnounceKeepsInv(s, id, s.watchers[id].pc.names);
    case Start(id, connected) => MoveKeepsInv(s, id, if connected then Fetching else Done);
    case Fetched(id, names) => MoveKeepsInv(s, id, HaveInfo(names));
    case Reconnect(id) => MoveKeepsInv(s, id, Fetching);
    case GiveUp(id) => MoveKeepsInv(s, id, Done);
  }

  /** A watcher may move on as long as it does not wake up after a clean-up that silenced it. */
  lemma MoveKeepsInv(s: State, id: Id, pc: Pc)
    requires Inv(s) && id in s.watchers && !pc.NotStarted?
    requires var w := s.watchers[id]; !w.pc.Done? && (AboutToAnnounce(pc) ==> !w.cancelled)
    ensures Inv(WithPc(s, id, pc))
  {
    var t := WithPc(s, id, pc);
    assert forall x :: Owned(s, x) <==> Owned(t, x);
    assert forall x :: IsListed(s, x) <==> IsListed(t, x);
  }

  lemma KeepServerKeepsInv(m: Mode, s: State)
    requires Inv(s) && Enabled(m, s, Examine) && s.watchers[s.call.todo[0]].config in s.call.wanted
    ensures Inv(Step(m, s, Examine))
  {
    var id, t := s.call.todo[0], Step(m, s, Examine);
    forall x | x in s.call.todo ensures x == id || x in t.call.todo {}
    SameOrMore(s, t);
  }

  lemma StopServerKeepsInv(m: Mode, s: State)
    requires Inv(s) && Enabled(m, s, Examine) && s.watchers[s.call.todo[0]].config !in s.call.wanted
    ensures Inv(Step(m, s, Examine))
  {
    var id, t := s.call.todo[0], Step(m, s, Examine);
    forall x | x in s.call.todo ensures x == id || x in t.call.todo {}
    SameOrMore(s, t);
    forall x | x in s.watchers && CanAnnounce(t.watchers[x]) ensures CanAnnounce(s.watchers[x]) {}
  }

  lemma SameOrMore(s: State, t: State)
    requires t.pools == s.pools && t.lists == s.lists && s.call.Replacing? && t.call.Replacing?
    requires forall x :: x in s.call.kept ==> x in t.call.kept
    ensures forall x :: Owned(s, x) ==> Owned(t, x)
    ensures forall x :: IsListed(s, x) <==> IsListed(t, x)
  {
  }

  lemma BuildKeepsInv(m: Mode, s: State, c: Config, id: Id)
    requires Inv(s) && Enabled(m, s, Build(c, id))
    ensures Inv(Step(m, s, Build(c, id)))
  {
    var t := Step(m, s, Build(c, id));
    assert forall x :: Owned(s, x) ==> Owned(t, x);
    assert forall x :: IsListed(s, x) <==> IsListed(t, x);
  }

  lemma FinishKeepsInv(m: Mode, s: State)
    requires Inv(s) && Enabled(m, s, Finish)
    ensures Inv(Step(m, s, Finish))
  {
    var t := Step(m, s, Finish);
    forall x | x in t.watchers ensures Owned(t, x) || x in t.cleaned {
      if x in s.call.kept {
        assert x in t.pools[s.call.provider];
      } else if x !in s.cleaned {
        var p :| p in s.pools && x in s.pools[p];
        assert p != s.call.provider;
        assert x in t.pools[p];
      }
    }
    assert forall x :: IsListed(s, x) <==> IsListed(t, x);
  }

  lemma RemoveKeepsInv(m: Mode, s: State)
    requires Inv(s) && Enabled(m, s, Remove)
    ensures Inv(Step(m, s, Remove))
  {
    hide CleanedUp, Listed;
    var id, t := s.call.stop.server, Step(m, s, Remove);
    CleanupKeys(s.lists, id);
    forall n, x | n in t.lists && x in t.lists[n] ensures n in s.lists && x in s.lists[n] && (x == id ==> Excused(t.cleaned[id])) {
      CleanedUpMember(s.lists, id, n, x);
    }
    assert forall x :: IsListed(t, x) ==> IsListed(s, x) && (x == id ==> Excused(t.cleaned[id]));
    assert forall x :: Owned(s, x) <==> Owned(t, x);
    hide IsListed, Owned;
    assert CallInv(t);
  }

  lemma CleanupKeys(lists: Lists<Id>, id: Id)
    ensures CleanedUp(lists, id).Keys == lists.Keys
  {
  }

  lemma AnnounceKeepsInv(s: State, id: Id, names: seq<string>)
    requires Inv(s) && id in s.watchers && (names != [] ==> CanAnnounce(s.watchers[id]))
    requires !s.watchers[id].pc.NotStarted? && !s.watchers[id].pc.Done?
    ensures Inv(WithPc(s, id, Waiting).(lists := Announced(s.lists, id, names)))
  {
    var lists := Announced(s.lists, id, names);
    forall n, x | n in lists && x in lists[n] ensures if x == id then names != [] else n in s.lists && x in s.lists[n] {
      if x == id {
        AnnouncedName(s.lists, id, names, n);
      } else {
        AnnouncedMember(s.lists, id, names, n, x);
      }
    }
    NewListsKeepInv(s, id, lists);
  }

  lemma AnnouncedName(lists: Lists<Id>, id: Id, names: seq<string>, n: string)
    requires n in Announced(lists, id, names) && id in Announced(lists, id, names)[n]
    ensures n in names
  {
    hide Announced;
    AnnouncementConserves(lists, id, names, n);
    assert id in multiset(ListOf(Announced(lists, id, names), n));
  }

  lemma NewListsKeepInv(s: State, id: Id, lists: Lists<Id>)
    requires Inv(s) && id in s.watchers && !s.watchers[id].pc.NotStarted? && !s.watchers[id].pc.Done?
    requires forall n, x :: n in lists && x in lists[n] ==>
               if x == id then CanAnnounce(s.watchers[id]) else n in s.lists && x in s.lists[n]
    ensures Inv(WithPc(s, id, Waiting).(lists := lists))
  {
    var t := WithPc(s, id, Waiting).(lists := lists);
    assert forall x :: Owned(s, x) <==> Owned(t, x);
    assert forall x :: IsListed(t, x) ==> if x == id then CanAnnounce(s.watchers[id]) else IsListed(s, x);
  }

  lemma {:induction false} RunKeepsInv(m: Mode, s: State, events: seq<Event>, t: State)
    requires Inv(s) && IsRun(m, s, events, t)
    ensures Inv(t)
    decreases |events|
  {
    if events != [] {
      StepKeepsInv(m, s, events[0]);
      RunKeepsInv(m, Step(m, s, events[0]), events[1..], t);
    }
  }

  // ---------------------------------------------------------------- safety over all interleavings

  /** Whenever no ReplaceServers call is running, a listed server is pooled, or was cleaned up
      under one of the three excusing circumstances. */
  lemma StrayServersAreExcused(m: Mode, events: seq<Event>, t: State, id: Id)
    requires IsRun(m, INITIAL, events, t) && t.call.NoCall? && IsListed(t, id)
    ensures InPools(t, id) || (id in t.cleaned && Excused(t.cleaned[id]))
  {
    RunKeepsInv(m, INITIAL, events, t);
    assert id in t.watchers;
  }

  ghost predicate DistinctInfos(events: seq<Event>) {
    forall e :: e in events && e.Fetched? ==> NoDup(e.names)
  }

  ghost predicate DistinctInv(s: State) {
    && DuplicateFree(s.lists)
    && (forall id :: id in s.watchers && s.watchers[id].pc.HaveInfo? ==> NoDup(s.watchers[id].pc.names))
    && (forall id :: id in s.watchers && s.watchers[id].pc.Checked? ==> NoDup(s.watchers[id].pc.names))
    && (forall id :: id in s.cleaned ==> !s.cleaned[id].listedTwice)
  }

  lemma StepKeepsDistinct(m: Mode, s: State, e: Event)
    requires DistinctInv(s) && Enabled(m, s, e) && (e.Fetched? ==> NoDup(e.names))
    ensures DistinctInv(Step(m, s, e))
  {
    hide Announced, CleanedUp, NoDup, DuplicateFree, Listed;
    match e
    case Remove =>
      var id := s.call.stop.server;
      CleanupKeepsDuplicateFree(s.lists, id);
      forall n ensures Listed(s.lists, n, id) <= 1 {
        AtMostOnce(s.lists, n, id);
      }
    case Check(id) => AnnouncementKeepsDuplicateFree(s.lists, id, s.watchers[id].pc.names);
    case Announce(id) => AnnouncementKeepsDuplicateFree(s.lists, id, s.watchers[id].pc.names);
    case _ =>
  }

  /** If no server ever reports a name twice, no service ever lists a server twice. */
  lemma {:induction false} ListsStayDuplicateFree(m: Mode, s: State, events: seq<Event>, t: State)
    requires DistinctInv(s) && IsRun(m, s, events, t) && DistinctInfos(events)
    ensures DistinctInv(t)
    decreases |events|
  {
    if events != [] {
      assert events[0] in events;
      StepKeepsDistinct(m, s, events[0]);
      ListsStayDuplicateFree(m, Step(m, s, events[0]), events[1..], t);
    }
  }

  ghost predicate AtomicInv(s: State) {
    && (forall id :: id in s.watchers ==> !s.watchers[id].pc.NotStarted? && !s.watchers[id].pc.Checked?)
    && (forall id :: id in s.cleaned ==> !s.cleaned[id].notStarted && !s.cleaned[id].checked)
    && (s.call.Replacing? && s.call.stop.Stopping? ==> !s.call.stop.notStarted)
  }

  lemma {:induction false} AtomicRun(s: State, events: seq<Event>, t: State)
    requires AtomicInv(s) && IsRun(Atomic, s, events, t)
    ensures AtomicInv(t)
    decreases |events|
  {
    if events != [] {
      AtomicStep(s, events[0]);
      AtomicRun(Step(Atomic, s, events[0]), events[1..], t);
    }
  }

  lemma AtomicStep(s: State, e: Event)
    requires AtomicInv(s) && Enabled(Atomic, s, e)
    ensures AtomicInv(Step(Atomic, s, e))
  {
    hide Announced, CleanedUp, Listed;
  }

  /** With handle installation and check-and-announce atomic, and distinct names per report,
      no listed server is ever outside the pools between calls. */
  lemma AtomicRegistryIsSafe(events: seq<Event>, t: State, id: Id)
    requires IsRun(Atomic, INITIAL, events, t) && DistinctInfos(events) && t.call.NoCall? && IsListed(t, id)
    ensures InPools(t, id)
  {
    StrayServersAreExcused(Atomic, events, t, id);
    AtomicRun(INITIAL, events, t);
    ListsStayDuplicateFree(Atomic, INITIAL, events, t);
  }

  // ---------------------------------------------------------------- each excuse is needed

  ghost predicate Strays(t: State, id: Id) {
    t.call.NoCall? && IsListed(t, id) && !InPools(t, id)
  }

  ghost function WithOneServer(p: string, c: Config): State {
    State(map[p := [0]], map[], map[0 := Watcher(c, NotStarted, false)], NoCall, map[])
  }

  lemma RunStep(m: Mode, s: State, e: Event, rest: seq<Event>, t: State)
    requires Enabled(m, s, e) && IsRun(m, Step(m, s, e), rest, t)
    ensures IsRun(m, s, [e] + rest, t)
  {
    assert ([e] + rest)[1..] == rest;
  }

  lemma OneServerRun(p: string, c: Config, rest: seq<Event>, t: State)
    requires IsRun(Split, WithOneServer(p, c), rest, t)
    ensures IsRun(Split, INITIAL, [Begin(p, [c]), Build(c, 0), Finish] + rest, t)
  {
    var s1 := Step(Split, INITIAL, Begin(p, [c]));
    assert s1.call.wanted == {c};
    var s2 := Step(Split, s1, Build(c, 0));
    assert s2.call.kept == [0] && s2.call.toBuild == {};
    var s3 := Step(Split, s2, Finish);
    assert s3.watchers == map[0 := Watcher(c, NotStarted, false)];
    assert s3.pools == map[p := [0]];
    assert s3 == WithOneServer(p, c);
    RunStep(Split, s2, Finish, rest, t);
    RunStep(Split, s1, Build(c, 0), [Finish] + rest, t);
    RunStep(Split, INITIAL, Begin(p, [c]), [Build(c, 0)] + ([Finish] + rest), t);
    assert [Begin(p, [c]), Build(c, 0), Finish] + rest == [Begin(p, [c])] + ([Build(c, 0)] + ([Finish] + rest));
  }

  /** The state after provider `p` was told to have no servers any more. */
  ghost function Emptied(p: string, s: State): State
    requires 0 in s.watchers
  {
    var w := s.watchers[0];
    s.(pools := map[p := []],
       lists := CleanedUp(s.lists, 0),
       watchers := s.watchers[0 := w.(cancelled := w.cancelled || HasHandle(w.pc))],
       cleaned := s.cleaned[0 := CleanupOf(s, 0, w.pc.NotStarted?)])
  }

  lemma EmptyRun(p: string, s: State, rest: seq<Event>, t: State)
    requires s.pools == map[p := [0]] && s.call.NoCall? && 0 in s.watchers
    requires IsRun(Split, Emptied(p, s), rest, t)
    ensures IsRun(Split, s, [Begin(p, []), Examine, Remove, Finish] + rest, t)
  {
    hide CleanedUp, Listed;
    var s1 := Step(Split, s, Begin(p, []));
    assert s1.call.wanted == {} && s1.call.todo[1..] == [];
    var s2 := Step(Split, s1, Examine);
    assert s2 == s1.(call := Replacing(p, [], {}, {}, [], Stopping(0, s.watchers[0].pc.NotStarted?)), watchers := s2.watchers);
    RemoveAndFinish(p, s2, rest, t);
    RunStep(Split, s1, Examine, [Remove, Finish] + rest, t);
    RunStep(Split, s, Begin(p, []), [Examine] + ([Remove, Finish] + rest), t);
    assert [Begin(p, []), Examine, Remove, Finish] + rest == [Begin(p, [])] + ([Examine] + ([Remove, Finish] + rest));
  }

  lemma RemoveAndFinish(p: string, s: State, rest: seq<Event>, t: State)
    requires s.pools == map[p := [0]] && 0 in s.watchers
    requires s.call.Replacing? && s.call.stop.Stopping? && s.call == Replacing(p, [], {}, {}, [], Stopping(0, s.call.stop.notStarted))
    requires IsRun(Split, s.(call := NoCall, pools := map[p := []], lists := CleanedUp(s.lists, 0),
                             cleaned := s.cleaned[0 := CleanupOf(s, 0, s.call.stop.notStarted)]), rest, t)
    ensures IsRun(Split, s, [Remove, Finish] + rest, t)
  {
    hide CleanedUp, Listed;
    var s1 := Step(Split, s, Remove);
    var s2 := Step(Split, s1, Finish);
    assert s2.pools == map[p := []];
    RunStep(Split, s1, Finish, rest, t);
    RunStep(Split, s, Remove, [Finish] + rest, t);
    assert [Remove, Finish] + rest == [Remove] + ([Finish] + rest);
  }

  lemma UpToCheck(s: State, names: seq<string>, rest: seq<Event>, t: State)
    requires 0 in s.watchers && s.watchers[0].pc.NotStarted? && !s.watchers[0].cancelled
    requires IsRun(Split, WithPc(s, 0, Checked(names)), rest, t)
    ensures IsRun(Split, s, [Start(0, true), Fetched(0, names), Check(0)] + rest, t)
  {
    var s1 := Step(Split, s, Start(0, true));
    var s2 := Step(Split, s1, Fetched(0, names));
    var s3 := Step(Split, s2, Check(0));
    assert s3.watchers == WithPc(s, 0, Checked(names)).watchers;
    RunStep(Split, s2, Check(0), rest, t);
    RunStep(Split, s1, Fetched(0, names), [Check(0)] + rest, t);
    RunStep(Split, s, Start(0, true), [Fetched(0, names)] + ([Check(0)] + rest), t);
    assert [Start(0, true), Fetched(0, names), Check(0)] + rest == [Start(0, true)] + ([Fetched(0, names)] + ([Check(0)] + rest));
  }

  lemma AnnounceLists(s: State, names: seq<string>, n: string, t: State)
    requires 0 in s.watchers && s.watchers[0].pc == Checked(names) && n in names
    requires t == Step(Split, s, Announce(0))
    ensures IsListed(t, 0) && Listed(t.lists, n, 0) == multiset(names)[n] && IsRun(Split, s, [Announce(0)], t)
  {
    hide Announced;
    AnnouncementConserves(s.lists, 0, names, n);
    assert 0 in multiset(ListOf(t.lists, n));
    assert IsRun(Split, t, [], t);
  }

  /** A server cleaned up before its watcher ran at all announces itself later. */
  lemma LateStarterStrays(p: string, c: Config, n: string)
    ensures var drop := [Begin(p, []), Examine, Remove, Finish];
            exists t :: Strays(t, 0) &&
              IsRun(Split, INITIAL, [Begin(p, [c]), Build(c, 0), Finish]
                + (drop + ([Start(0, true), Fetched(0, [n]), Check(0)] + [Announce(0)])), t)
  {
    hide CleanedUp, Announced, Listed;
    var s := WithOneServer(p, c);
    var dropped := Emptied(p, s);
    var checked := WithPc(dropped, 0, Checked([n]));
    var t := Step(Split, checked, Announce(0));
    AnnounceLists(checked, [n], n, t);
    UpToCheck(dropped, [n], [Announce(0)], t);
    EmptyRun(p, s, [Start(0, true), Fetched(0, [n]), Check(0)] + [Announce(0)], t);
    OneServerRun(p, c, [Begin(p, []), Examine, Remove, Finish] + ([Start(0, true), Fetched(0, [n]), Check(0)] + [Announce(0)]), t);
    assert Strays(t, 0);
  }

  /** A server cleaned up between the check and the announcement of its watcher comes back. */
  lemma LateAnnouncementStrays(p: string, c: Config, n: string)
    ensures var drop := [Begin(p, []), Examine, Remove, Finish];
            exists t :: Strays(t, 0) &&
              IsRun(Split, INITIAL, [Begin(p, [c]), Build(c, 0), Finish]
                + ([Start(0, true), Fetched(0, [n]), Check(0)] + (drop + [Announce(0)])), t)
  {
    hide CleanedUp, Announced, Listed;
    var s := WithOneServer(p, c);
    var checked := WithPc(s, 0, Checked([n]));
    var dropped := Emptied(p, checked);
    var t := Step(Split, dropped, Announce(0));
    AnnounceLists(dropped, [n], n, t);
    EmptyRun(p, checked, [Announce(0)], t);
    UpToCheck(s, [n], [Begin(p, []), Examine, Remove, Finish] + [Announce(0)], t);
    OneServerRun(p, c, [Start(0, true), Fetched(0, [n]), Check(0)] + ([Begin(p, []), Examine, Remove, Finish] + [Announce(0)]), t);
    assert Strays(t, 0);
  }

  /** A server that reported a name twice keeps one entry after its clean-up. */
  lemma DuplicateReportStrays(p: string, c: Config, n: string)
    ensures var drop := [Begin(p, []), Examine, Remove, Finish];
            exists t :: Strays(t, 0) &&
              IsRun(Split, INITIAL, [Begin(p, [c]), Build(c, 0), Finish]
                + ([Start(0, true), Fetched(0, [n, n]), Check(0)] + ([Announce(0)] + (drop + []))), t)
  {
    hide CleanedUp, Announced, Listed;
    var s := WithOneServer(p, c);
    var checked := WithPc(s, 0, Checked([n, n]));
    var announced := Step(Split, checked, Announce(0));
    AnnounceLists(checked, [n, n], n, announced);
    assert multiset([n, n])[n] == 2;
    var t := Emptied(p, announced);
    CleanupDropsOne(announced.lists, 0, n, 0);
    ListedMember(t.lists, n, 0);
    assert IsRun(Split, t, [], t);
    EmptyRun(p, announced, [], t);
    var drop := [Begin(p, []), Examine, Remove, Finish] + [];
    RunStep(Split, checked, Announce(0), drop, t);
    UpToCheck(s, [n, n], [Announce(0)] + drop, t);
    OneServerRun(p, c, [Start(0, true), Fetched(0, [n, n]), Check(0)] + ([Announce(0)] + drop), t);
    assert Strays(t, 0);
  }
}
