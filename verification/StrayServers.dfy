/**
 * Exactly which servers can be listed under a service without being in any pool.  The runs are
 * those of the code (`Split` mode): what a watcher may still do, and what a clean-up settles.
 */
module StrayServers {
  import opened Collections
  import opened ServiceLists
  import opened Proxy
  import opened WatcherProtocol

  ghost predicate CanBeListedLater(s: State, id: Id) {
    exists events, t :: IsRun(Split, s, events, t) && IsListed(t, id)
  }

  ghost predicate CanStray(s: State, id: Id) {
    exists events, t :: IsRun(Split, s, events, t) && Strays(t, id)
  }

  // ---------------------------------------------------------------- what a watcher may still do

  ghost predicate IsQuiet(s: State, id: Id) {
    id in s.watchers && !CanAnnounce(s.watchers[id]) && !IsListed(s, id)
  }

  lemma StepKeepsQuiet(s: State, e: Event, id: Id)
    requires IsQuiet(s, id) && Enabled(Split, s, e)
    ensures IsQuiet(Step(Split, s, e), id)
  {
    hide CleanedUp, Announced, CleanupOf;
    var t := Step(Split, s, e);
    assert !CanAnnounce(t.watchers[id]);
    forall n | n in t.lists && id in t.lists[n] ensures n in s.lists && id in s.lists[n] {
      if e.Remove? {
        CleanedUpMember(s.lists, s.call.stop.server, n, id);
      } else if e.Announce? && e.id == id {
        AnnouncedName(s.lists, id, s.watchers[id].pc.names, n);
      } else if e.Announce? {
        AnnouncedMember(s.lists, e.id, s.watchers[e.id].pc.names, n, id);
      }
    }
    assert IsListed(t, id) ==> IsListed(s, id);
  }

  lemma {:induction false} QuietForever(s: State, events: seq<Event>, t: State, id: Id)
    requires IsQuiet(s, id) && IsRun(Split, s, events, t)
    ensures !IsListed(t, id)
    decreases |events|
  {
    if events != [] {
      StepKeepsQuiet(s, events[0], id);
      QuietForever(Step(Split, s, events[0]), events[1..], t, id);
    }
  }

  /** How far a watcher is from announcing something. */
  function Distance(pc: Pc): nat {
    match pc
    case Checked(names) => if names != [] then 0 else 4
    case HaveInfo(names) => if names != [] then 1 else 5
    case Fetching => 2
    case Waiting => 3
    case NotStarted => 3
    case Done => 6
  }

  /** The next step of a watcher whose server keeps answering. */
  function NextEvent(pc: Pc, id: Id): Event {
    match pc
    case Checked(_) => Announce(id)
    case HaveInfo(_) => Check(id)
    case Fetching => Fetched(id, ["service"])
    case Waiting => Reconnect(id)
    case NotStarted => Start(id, true)
    case Done => Examine
  }

  lemma {:induction false} ReachAnnouncement(s: State, id: Id) returns (events: seq<Event>, t: State)
    requires id in s.watchers && CanAnnounce(s.watchers[id])
    ensures IsRun(Split, s, events, t) && IsListed(t, id) && t.call == s.call && t.pools == s.pools
    decreases Distance(s.watchers[id].pc)
  {
    hide Announced;
    var pc := s.watchers[id].pc;
    var e := NextEvent(pc, id);
    var next := Step(Split, s, e);
    if AboutToAnnounce(pc) {
      events, t := [], next;
      AnnouncementLists(s.lists, id, pc.names);
      assert IsRun(Split, t, [], t);
    } else {
      events, t := ReachAnnouncement(next, id);
    }
    RunStep(Split, s, e, events, t);
    events := [e] + events;
  }

  lemma AnnouncementLists(lists: Lists<Id>, id: Id, names: seq<string>)
    requires names != []
    ensures names[0] in Announced(lists, id, names) && id in Announced(lists, id, names)[names[0]]
  {
    hide Announced;
    var n := names[0];
    AnnouncementConserves(lists, id, names, n);
    assert n in multiset(names);
    assert id in multiset(ListOf(Announced(lists, id, names), n));
  }

  /** A server can be listed now or later exactly if it is listed or its watcher can still announce. */
  lemma ListedLaterExactly(s: State, id: Id)
    requires id in s.watchers
    ensures CanBeListedLater(s, id) <==> IsListed(s, id) || CanAnnounce(s.watchers[id])
  {
    if IsListed(s, id) {
      assert IsRun(Split, s, [], s);
    } else if CanAnnounce(s.watchers[id]) {
      var events, t := ReachAnnouncement(s, id);
    } else {
      forall events, t | IsRun(Split, s, events, t) ensures !IsListed(t, id) {
        QuietForever(s, events, t, id);
      }
    }
  }

  // ---------------------------------------------------------------- where a server can be

  /** Kept so far or still to be examined by the running call. */
  ghost function Candidates(s: State): seq<Id> {
    if s.call.Replacing? then s.call.kept + s.call.todo else []
  }

  /** In a pool that is not being replaced, or a candidate for the new one. */
  ghost predicate HasPlace(s: State, id: Id) {
    id in Candidates(s) || exists p :: p in s.pools && id in s.pools[p] && (s.call.Replacing? ==> p != s.call.provider)
  }

  /** Every server has at most one place, and a cleaned-up server has none. */
  ghost predicate PlacesInv(s: State) {
    && (forall p :: p in s.pools ==> NoDup(s.pools[p]) && forall id :: id in s.pools[p] ==> id in s.watchers)
    && (forall p, q, id :: p in s.pools && q in s.pools && id in s.pools[p] && id in s.pools[q] ==> p == q)
    && NoDup(Candidates(s))
    && (forall id :: id in Candidates(s) ==> id in s.watchers)
    && (forall id, p :: id in Candidates(s) && p in s.pools && id in s.pools[p] ==> p == s.call.provider)
    && (forall id :: id in s.cleaned ==> id in s.watchers && !HasPlace(s, id))
    && (s.call.Replacing? && s.call.stop.Stopping? ==>
          var x := s.call.stop.server;
          x in s.watchers && x !in s.cleaned && !HasPlace(s, x))
  }

  /** Only the steps of a call move servers between places. */
  lemma StepKeepsPlaces(m: Mode, s: State, e: Event)
    requires PlacesInv(s) && Enabled(m, s, e)
    ensures PlacesInv(Step(m, s, e))
  {
    hide PlacesInv, Step;
    match e
    case Begin(p, _) => BeginKeepsPlaces(m, s, e);
    case Examine => ExamineKeepsPlaces(m, s);
    case Remove => RemoveKeepsPlaces(m, s);
    case Build(c, id) => BuildKeepsPlaces(m, s, c, id);
    case Finish => FinishKeepsPlaces(m, s);
    case _ => MoveKeepsPlaces(m, s, e);
  }

  lemma RemoveKeepsPlaces(m: Mode, s: State)
    requires PlacesInv(s) && Enabled(m, s, Remove)
    ensures PlacesInv(Step(m, s, Remove))
  {
    hide CleanedUp, CleanupOf;
    var t := Step(m, s, Remove);
    assert Candidates(t) == Candidates(s);
    assert forall x :: HasPlace(t, x) <==> HasPlace(s, x);
  }

  lemma MoveKeepsPlaces(m: Mode, s: State, e: Event)
    requires PlacesInv(s) && Enabled(m, s, e)
    requires e.Start? || e.Fetched? || e.Check? || e.Announce? || e.Reconnect? || e.GiveUp?
    ensures PlacesInv(Step(m, s, e))
  {
    hide Announced, PlacesInv;
    SamePlaces(s, Step(m, s, e));
  }

  lemma SamePlaces(s: State, t: State)
    requires PlacesInv(s)
    requires t.pools == s.pools && t.call == s.call && t.cleaned == s.cleaned && t.watchers.Keys == s.watchers.Keys
    ensures PlacesInv(t)
  {
    assert Candidates(t) == Candidates(s);
    assert forall x :: HasPlace(t, x) <==> HasPlace(s, x);
  }

  lemma BeginKeepsPlaces(m: Mode, s: State, e: Event)
    requires PlacesInv(s) && Enabled(m, s, e) && e.Begin?
    ensures PlacesInv(Step(m, s, e))
  {
    var t := Step(m, s, e);
    assert Candidates(t) == Pool(s, e.provider);
    assert forall x :: HasPlace(t, x) ==> HasPlace(s, x);
  }

  lemma ExamineKeepsPlaces(m: Mode, s: State)
    requires PlacesInv(s) && Enabled(m, s, Examine)
    ensures PlacesInv(Step(m, s, Examine))
  {
    var id, t := s.call.todo[0], Step(m, s, Examine);
    var all := Candidates(s);
    assert all == s.call.kept + [id] + s.call.todo[1..];
    if s.watchers[id].config in s.call.wanted {
      assert Candidates(t) == all;
      assert forall x :: HasPlace(t, x) <==> HasPlace(s, x);
    } else {
      assert id in all;
      NoDupWithout(s.call.kept, id, s.call.todo[1..]);
      assert forall x :: x in Candidates(t) ==> x in all && x != id;
      assert forall x :: HasPlace(t, x) ==> HasPlace(s, x);
      assert !HasPlace(t, id);
    }
  }

  lemma NoDupWithout(a: seq<Id>, x: Id, b: seq<Id>)
    requires NoDup(a + [x] + b)
    ensures NoDup(a + b) && x !in a + b
  {
    var all := a + [x] + b;
    forall i | 0 <= i < |a + b| ensures (a + b)[i] == all[if i < |a| then i else i + 1] {}
    assert all[|a|] == x;
  }

  lemma BuildKeepsPlaces(m: Mode, s: State, c: Config, id: Id)
    requires PlacesInv(s) && Enabled(m, s, Build(c, id))
    ensures PlacesInv(Step(m, s, Build(c, id)))
  {
    var t := Step(m, s, Build(c, id));
    assert Candidates(s) == s.call.kept && Candidates(t) == s.call.kept + [id];
    assert forall x :: HasPlace(t, x) ==> HasPlace(s, x) || x == id;
  }

  lemma FinishKeepsPlaces(m: Mode, s: State)
    requires PlacesInv(s) && Enabled(m, s, Finish)
    ensures PlacesInv(Step(m, s, Finish))
  {
    var t := Step(m, s, Finish);
    assert Candidates(s) == s.call.kept && Candidates(t) == [];
    assert forall x :: HasPlace(t, x) ==> HasPlace(s, x);
  }

  lemma {:induction false} RunKeepsPlaces(m: Mode, s: State, events: seq<Event>, t: State)
    requires PlacesInv(s) && IsRun(m, s, events, t)
    ensures PlacesInv(t)
    decreases |events|
  {
    if events != [] {
      StepKeepsPlaces(m, s, events[0]);
      RunKeepsPlaces(m, Step(m, s, events[0]), events[1..], t);
    }
  }

  /** With no call running, a listed server strays exactly if it was cleaned up. */
  lemma StraysExactly(m: Mode, events: seq<Event>, t: State, id: Id)
    requires IsRun(m, INITIAL, events, t) && t.call.NoCall? && IsListed(t, id)
    ensures Strays(t, id) <==> id in t.cleaned
    ensures id in t.cleaned ==> Excused(t.cleaned[id])
  {
    RunKeepsPlaces(m, INITIAL, events, t);
    RunKeepsInv(m, INITIAL, events, t);
    assert InPools(t, id) ==> HasPlace(t, id);
  }

  // ---------------------------------------------------------------- what a clean-up settles

  /** A running call can be brought to its end without affecting a server it does not handle. */
  lemma {:induction false} FinishCall(s: State, id: Id) returns (events: seq<Event>, t: State)
    requires PlacesInv(s) && id in s.cleaned
    ensures IsRun(Split, s, events, t) && PlacesInv(t) && t.call.NoCall? && id in t.cleaned
    ensures t.watchers[id] == s.watchers[id] && (IsListed(s, id) ==> IsListed(t, id))
    decreases if s.call.Replacing? then |s.call.todo| else 0,
              if s.call.Replacing? && s.call.stop.Stopping? then 1 else 0,
              if s.call.Replacing? then |s.call.toBuild| else 0, if s.call.Replacing? then 1 else 0
  {
    if s.call.NoCall? {
      events, t := [], s;
    } else {
      var e := NextCallEvent(s);
      CallStepKeeps(s, e, id);
      StepKeepsPlaces(Split, s, e);
      events, t := FinishCall(Step(Split, s, e), id);
      RunStep(Split, s, e, events, t);
      events := [e] + events;
    }
  }

  lemma NextCallEvent(s: State) returns (e: Event)
    requires PlacesInv(s) && s.call.Replacing?
    ensures Enabled(Split, s, e) && (e == Remove || e == Examine || e == Finish || e.Build?)
  {
    if s.call.stop.Stopping? {
      e := Remove;
    } else if s.call.todo != [] {
      assert s.call.todo[0] in Candidates(s);
      e := Examine;
    } else if s.call.toBuild != {} {
      var c :| c in s.call.toBuild;
      var x := FreshId(s.watchers.Keys);
      e := Build(c, x);
    } else {
      e := Finish;
    }
  }

  lemma {:induction false} FreshId(ids: set<Id>) returns (x: Id)
    ensures x !in ids && forall y :: y in ids ==> y < x
  {
    x := 0;
    if ids != {} {
      var y :| y in ids;
      x := FreshId(ids - {y});
      assert forall z :: z in ids ==> z == y || z in ids - {y};
      x := if y < x then x else y + 1;
    }
  }

  lemma CallStepKeeps(s: State, e: Event, id: Id)
    requires PlacesInv(s) && id in s.cleaned && Enabled(Split, s, e)
    requires e == Remove || e == Examine || e == Finish || e.Build?
    ensures var t := Step(Split, s, e);
            id in t.cleaned && t.watchers[id] == s.watchers[id] && (IsListed(s, id) ==> IsListed(t, id))
  {
    hide CleanedUp, CleanupOf, Listed;
    var t := Step(Split, s, e);
    if e == Examine {
      assert s.call.todo[0] in Candidates(s);
    }
    if IsListed(s, id) {
      var n :| n in s.lists && id in s.lists[n];
      if e == Remove {
        StillListed(s.lists, s.call.stop.server, n, id);
      }
      assert n in t.lists && id in t.lists[n];
    }
  }

  lemma StillListed(lists: Lists<Id>, x: Id, n: string, id: Id)
    requires n in lists && id in lists[n] && x != id
    ensures n in CleanedUp(lists, x) && id in CleanedUp(lists, x)[n]
  {
    CleanupDropsOne(lists, x, n, id);
    assert id in multiset(ListOf(lists, n));
    assert id in multiset(ListOf(CleanedUp(lists, x), n));
  }

  /** A cleaned-up server can be outside all pools and listed, now or later, exactly if it is listed
      or its watcher can still announce. */
  lemma CanStrayExactly(s: State, id: Id)
    requires PlacesInv(s) && id in s.cleaned
    ensures CanStray(s, id) <==> IsListed(s, id) || CanAnnounce(s.watchers[id])
  {
    if IsListed(s, id) || CanAnnounce(s.watchers[id]) {
      var first, u := FinishCall(s, id);
      var second, t := [], u;
      if !IsListed(u, id) {
        second, t := ReachAnnouncement(u, id);
      } else {
        assert IsRun(Split, u, [], u);
      }
      RunAppend(s, first, u, second, t);
      assert InPools(t, id) ==> HasPlace(u, id);
      assert Strays(t, id);
    } else {
      ListedLaterExactly(s, id);
    }
  }

  lemma {:induction false} RunAppend(s: State, a: seq<Event>, u: State, b: seq<Event>, t: State)
    requires IsRun(Split, s, a, u) && IsRun(Split, u, b, t)
    ensures IsRun(Split, s, a + b, t)
    decreases |a|
  {
    if a == [] {
      assert a + b == b;
    } else {
      assert (a + b)[1..] == a[1..] + b;
      RunAppend(Step(Split, s, a[0]), a[1..], u, b, t);
    }
  }

  lemma RemainsListedExactly(lists: Lists<Id>, id: Id)
    ensures (exists n :: n in CleanedUp(lists, id) && id in CleanedUp(lists, id)[n])
       <==> exists n :: n in lists && Listed(lists, n, id) > 1
  {
    hide CleanedUp, Listed;
    if n :| n in CleanedUp(lists, id) && id in CleanedUp(lists, id)[n] {
      CleanedUpMember(lists, id, n, id);
    }
    if n :| n in lists && Listed(lists, n, id) > 1 {
      CleanupDropsOne(lists, id, n, id);
      ListedMember(CleanedUp(lists, id), n, id);
    }
  }

  /** A watcher that had not started when its clean-up began cannot have been cancelled by it. */
  ghost predicate CancelInv(s: State) {
    && (forall id :: id in s.watchers && s.watchers[id].pc.NotStarted? ==> !s.watchers[id].cancelled)
    && (s.call.Replacing? && s.call.stop.Stopping? && s.call.stop.notStarted ==>
          s.call.stop.server in s.watchers && !s.watchers[s.call.stop.server].cancelled)
  }

  lemma {:induction false} RunKeepsCancel(s: State, events: seq<Event>, t: State)
    requires CancelInv(s) && IsRun(Split, s, events, t)
    ensures CancelInv(t)
    decreases |events|
  {
    if events != [] {
      StepKeepsCancel(s, events[0]);
      RunKeepsCancel(Step(Split, s, events[0]), events[1..], t);
    }
  }

  lemma StepKeepsCancel(s: State, e: Event)
    requires CancelInv(s) && Enabled(Split, s, e)
    ensures CancelInv(Step(Split, s, e))
  {
    hide CleanedUp, Announced, CleanupOf;
  }

  lemma ExcusedExactly(s: State)
    requires Inv(s) && CancelInv(s) && Enabled(Split, s, Remove)
    ensures var id, t := s.call.stop.server, Step(Split, s, Remove);
            Excused(t.cleaned[id]) <==> IsListed(t, id) || CanAnnounce(t.watchers[id])
  {
    hide CleanedUp, Listed, CancelInv;
    var id := s.call.stop.server;
    RemainsListedExactly(s.lists, id);
    CancelledUnlessNotStarted(s);
  }

  lemma CancelledUnlessNotStarted(s: State)
    requires Inv(s) && CancelInv(s) && s.call.Replacing? && s.call.stop.Stopping?
    ensures s.call.stop.server in s.watchers
    ensures var w := s.watchers[s.call.stop.server]; if s.call.stop.notStarted then !w.cancelled else w.cancelled || w.pc.Done?
  {
  }

  /** The clean-up itself decides: its server can stray afterwards exactly if the watcher ran on
      uncancelled, was about to announce services, or a service listed the server twice. */
  lemma CleanupDecidesExactly(events: seq<Event>, s: State)
    requires IsRun(Split, INITIAL, events, s) && Enabled(Split, s, Remove)
    ensures var id, t := s.call.stop.server, Step(Split, s, Remove);
            CanStray(t, id) <==> Excused(t.cleaned[id])
  {
    hide PlacesInv, Inv, CancelInv;
    RunKeepsInv(Split, INITIAL, events, s) by { InitialState(); }
    RunKeepsPlaces(Split, INITIAL, events, s) by { InitialState(); }
    RunKeepsCancel(INITIAL, events, s) by { InitialState(); }
    StepKeepsPlaces(Split, s, Remove);
    CanStrayExactly(Step(Split, s, Remove), s.call.stop.server);
    ExcusedExactly(s);
  }

  lemma InitialState()
    ensures Inv(INITIAL) && PlacesInv(INITIAL) && CancelInv(INITIAL)
  {
  }
}
