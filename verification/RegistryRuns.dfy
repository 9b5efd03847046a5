/**
 * What the pools and service lists hold over whole runs: which servers a call of ReplaceServers
 * leaves in its pool, that pooled servers keep being watched, and that the lists say what the
 * servers reported.
 */
module RegistryRuns {
  import opened Collections
  import opened ServiceLists
  import opened Proxy
  import opened WatcherProtocol
  import opened StrayServers

  // ---------------------------------------------------------------- one call

  ghost predicate AreWatched(s: State, ids: seq<Id>) {
    forall id :: id in ids ==> id in s.watchers
  }

  /** No two of these servers have the same configuration. */
  ghost predicate DistinctServers(s: State, ids: seq<Id>)
    requires AreWatched(s, ids)
  {
    forall i, j :: 0 <= i < j < |ids| ==> s.watchers[ids[i]].config != s.watchers[ids[j]].config
  }

  /** Among these servers, those whose configuration is wanted, in the same order. */
  ghost function StillWanted(s: State, ids: seq<Id>, wanted: set<Config>): seq<Id>
    requires AreWatched(s, ids)
  {
    if ids == [] then []
    else
      StillWanted(s, ids[..|ids| - 1], wanted)
      + if s.watchers[ids[|ids| - 1]].config in wanted then [ids[|ids| - 1]] else []
  }

  ghost predicate PoolsDistinct(s: State) {
    forall p :: p in s.pools ==> AreWatched(s, s.pools[p]) && DistinctServers(s, s.pools[p])
  }

  /** Watchers are never forgotten and keep their configuration. */
  ghost predicate SameConfigs(s: State, t: State) {
    forall id :: id in s.watchers ==> id in t.watchers && t.watchers[id].config == s.watchers[id].config
  }

  lemma StepKeepsConfigs(m: Mode, s: State, e: Event)
    requires Enabled(m, s, e)
    ensures SameConfigs(s, Step(m, s, e))
  {
    hide CleanedUp, Announced, CleanupOf;
  }

  ghost predicate HasConfig(s: State, ids: seq<Id>, c: Config) {
    exists id :: id in ids && id in s.watchers && s.watchers[id].config == c
  }

  /** The kept servers have distinct wanted configurations, and what is left to build are the others. */
  ghost predicate KeptFits(s: State, kept: seq<Id>, wanted: set<Config>, toBuild: set<Config>) {
    && AreWatched(s, kept) && DistinctServers(s, kept)
    && (forall id :: id in kept ==> s.watchers[id].config in wanted)
    && (forall c :: c in toBuild <==> c in wanted && !HasConfig(s, kept, c))
  }

  /** How far the call that began in `start` has got: `n` servers of the old pool are examined and `built` are new. */
  ghost predicate Progress(start: State, p: string, wanted: set<Config>, s: State, n: nat, built: seq<Id>) {
    var before := Pool(start, p);
    && AreWatched(start, before) && s.pools == start.pools
    && s.call.Replacing? && s.call.provider == p && s.call.wanted == wanted
    && n <= |before| && s.call.todo == before[n..] && (n < |before| ==> built == [])
    && s.call.kept == StillWanted(start, before[..n], wanted) + built
    && (forall id :: id in built ==> id !in start.watchers)
  }

  /** The examined servers that are not kept are cleaned up, or about to be. */
  ghost predicate OthersDropped(start: State, ids: seq<Id>, wanted: set<Config>, s: State) {
    forall id :: id in ids && id in start.watchers && start.watchers[id].config !in wanted ==>
      id in s.cleaned || (s.call.Replacing? && s.call.stop.Stopping? && s.call.stop.server == id)
  }

  ghost predicate InCall(start: State, p: string, wanted: set<Config>, s: State, n: nat, built: seq<Id>) {
    && Progress(start, p, wanted, s, n, built) && SameConfigs(start, s)
    && KeptFits(s, s.call.kept, wanted, s.call.toBuild)
    && OthersDropped(start, Pool(start, p)[..n], wanted, s)
  }

  lemma BeginStarts(m: Mode, s: State, p: string, configs: seq<Config>)
    requires Enabled(m, s, Begin(p, configs)) && PoolsDistinct(s)
    ensures InCall(s, p, (set c | c in configs), Step(m, s, Begin(p, configs)), 0, [])
  {
  }

  /** Events of watchers, and those of the running call that do not end it. */
  predicate WithinCall(e: Event) { !e.Begin? && !e.Finish? }

  lemma StepStaysInCall(m: Mode, start: State, p: string, wanted: set<Config>, s: State, n: nat, built: seq<Id>, e: Event)
    returns (k: nat, more: seq<Id>)
    requires InCall(start, p, wanted, s, n, built) && Enabled(m, s, e) && WithinCall(e) && PoolsDistinct(start)
    ensures InCall(start, p, wanted, Step(m, s, e), k, more)
  {
    hide Step, StillWanted, KeptFits, OthersDropped, PoolsDistinct;
    StepKeepsConfigs(m, s, e);
    k, more := n, built;
    if e.Examine? {
      ExamineStaysInCall(m, start, p, wanted, s, n, built);
      k := n + 1;
    } else if e.Build? {
      BuildStaysInCall(m, start, p, wanted, s, n, built, e);
      more := built + [e.id];
    } else {
      OtherStep(m, s, e);
      SameFits(s, Step(m, s, e), s.call.kept, wanted, s.call.toBuild);
      SameProgress(start, p, wanted, s, Step(m, s, e), n, built);
    }
  }

  lemma OtherStep(m: Mode, s: State, e: Event)
    requires Enabled(m, s, e) && WithinCall(e) && !e.Examine? && !e.Build? && s.call.Replacing?
    ensures var t := Step(m, s, e);
            && t.pools == s.pools && t.call.Replacing? && t.call == s.call.(stop := t.call.stop)
            && s.cleaned.Keys <= t.cleaned.Keys
            && (t.call.stop != s.call.stop ==> s.call.stop.Stopping? && s.call.stop.server in t.cleaned)
  {
    hide CleanedUp, Announced, CleanupOf;
  }

  lemma SameFits(s: State, t: State, kept: seq<Id>, wanted: set<Config>, toBuild: set<Config>)
    requires KeptFits(s, kept, wanted, toBuild) && SameConfigs(s, t)
    ensures KeptFits(t, kept, wanted, toBuild)
  {
    assert forall id :: id in kept ==> t.watchers[id].config == s.watchers[id].config;
    assert forall c :: HasConfig(t, kept, c) <==> HasConfig(s, kept, c);
    forall i | 0 <= i < |kept| ensures t.watchers[kept[i]].config == s.watchers[kept[i]].config {
      assert kept[i] in kept;
    }
  }

  lemma SameProgress(start: State, p: string, wanted: set<Config>, s: State, t: State, n: nat, built: seq<Id>)
    requires Progress(start, p, wanted, s, n, built) && n <= |Pool(start, p)| && OthersDropped(start, Pool(start, p)[..n], wanted, s)
    requires t.pools == s.pools && t.call.Replacing? && t.call == s.call.(stop := t.call.stop) && s.cleaned.Keys <= t.cleaned.Keys
    requires t.call.stop != s.call.stop ==> s.call.stop.Stopping? && s.call.stop.server in t.cleaned
    ensures Progress(start, p, wanted, t, n, built) && OthersDropped(start, Pool(start, p)[..n], wanted, t)
  {
  }

  lemma StillWantedStep(s: State, ids: seq<Id>, n: nat, wanted: set<Config>)
    requires AreWatched(s, ids) && n < |ids|
    ensures AreWatched(s, ids[..n]) && AreWatched(s, ids[..n + 1]) && ids[n] in s.watchers
    ensures StillWanted(s, ids[..n + 1], wanted)
         == StillWanted(s, ids[..n], wanted) + if s.watchers[ids[n]].config in wanted then [ids[n]] else []
  {
    assert ids[..n + 1][..n] == ids[..n];
  }

  lemma {:induction false} StillWantedExactly(s: State, ids: seq<Id>, wanted: set<Config>, id: Id)
    requires AreWatched(s, ids)
    ensures id in StillWanted(s, ids, wanted) <==> id in ids && s.watchers[id].config in wanted
  {
    if ids != [] {
      assert ids == ids[..|ids| - 1] + [ids[|ids| - 1]];
      StillWantedExactly(s, ids[..|ids| - 1], wanted, id);
    }
  }

  /** The order is that of `ids`. */
  lemma {:induction false} StillWantedInOrder(s: State, ids: seq<Id>, wanted: set<Config>, i: nat, j: nat)
    requires AreWatched(s, ids) && i < j < |StillWanted(s, ids, wanted)|
    ensures exists k, l :: 0 <= k < l < |ids| && ids[k] == StillWanted(s, ids, wanted)[i] && ids[l] == StillWanted(s, ids, wanted)[j]
  {
    var front, last := ids[..|ids| - 1], |ids| - 1;
    var kept := StillWanted(s, front, wanted);
    if j < |kept| {
      StillWantedInOrder(s, front, wanted, i, j);
      var k, l :| 0 <= k < l < |front| && front[k] == kept[i] && front[l] == kept[j];
      assert ids[k] == kept[i] && ids[l] == kept[j];
    } else {
      StillWantedExactly(s, front, wanted, kept[i]);
      var k :| 0 <= k < |front| && front[k] == kept[i];
      assert ids[k] == kept[i] && ids[last] == StillWanted(s, ids, wanted)[j];
    }
  }

  /** The servers kept so far differ in configuration from the next old one. */
  lemma NextIsDifferent(start: State, p: string, n: nat, wanted: set<Config>, x: Id)
    requires PoolsDistinct(start) && n < |Pool(start, p)| && AreWatched(start, Pool(start, p))
    requires x in StillWanted(start, Pool(start, p)[..n], wanted)
    ensures x in start.watchers && start.watchers[x].config != start.watchers[Pool(start, p)[n]].config
  {
    var ids := Pool(start, p);
    StillWantedExactly(start, ids[..n], wanted, x);
    var i :| 0 <= i < n && ids[i] == x;
    assert DistinctServers(start, ids);
  }

  lemma ExamineStaysInCall(m: Mode, start: State, p: string, wanted: set<Config>, s: State, n: nat, built: seq<Id>)
    requires InCall(start, p, wanted, s, n, built) && Enabled(m, s, Examine) && PoolsDistinct(start)
    ensures InCall(start, p, wanted, Step(m, s, Examine), n + 1, built)
  {
    var t := Step(m, s, Examine);
    ExamineProgress(m, start, p, wanted, s, n, built);
    StepKeepsConfigs(m, s, Examine);
    var id := Pool(start, p)[n];
    var c := start.watchers[id].config;
    assert id in start.watchers && s.watchers[id].config == c;
    if c in wanted {
      forall x | x in s.call.kept ensures s.watchers[x].config != c {
        NextIsDifferent(start, p, n, wanted, x);
      }
      assert t.call.kept == s.call.kept + [id] && t.call.toBuild == s.call.toBuild - {c};
      hide Step, Progress, OthersDropped, PoolsDistinct;
      OneMoreKept(s, t, s.call.kept, wanted, s.call.toBuild, id);
    } else {
      assert t.call.kept == s.call.kept && t.call.toBuild == s.call.toBuild;
      hide Step, Progress, OthersDropped, PoolsDistinct;
      SameFits(s, t, s.call.kept, wanted, s.call.toBuild);
    }
  }

  lemma ExamineProgress(m: Mode, start: State, p: string, wanted: set<Config>, s: State, n: nat, built: seq<Id>)
    requires InCall(start, p, wanted, s, n, built) && Enabled(m, s, Examine)
    ensures n < |Pool(start, p)| && built == [] && s.call.todo[0] == Pool(start, p)[n]
    ensures Progress(start, p, wanted, Step(m, s, Examine), n + 1, built)
    ensures OthersDropped(start, Pool(start, p)[..n + 1], wanted, Step(m, s, Examine))
  {
    hide KeptFits;
    var before := Pool(start, p);
    assert s.call.todo[1..] == before[n + 1..];
    assert before[..n + 1] == before[..n] + [before[n]];
    StillWantedStep(start, before, n, wanted);
    hide StillWanted;
  }

  /** Keeping or building a server of a configuration that the kept ones do not have. */
  lemma OneMoreKept(s: State, t: State, kept: seq<Id>, wanted: set<Config>, toBuild: set<Config>, id: Id)
    requires KeptFits(s, kept, wanted, toBuild) && SameConfigs(s, t) && id in t.watchers && t.watchers[id].config in wanted
    requires forall x :: x in kept ==> x in s.watchers && s.watchers[x].config != t.watchers[id].config
    ensures KeptFits(t, kept + [id], wanted, toBuild - {t.watchers[id].config})
  {
    var more := kept + [id];
    forall i | 0 <= i < |kept| ensures t.watchers[kept[i]].config == s.watchers[kept[i]].config != t.watchers[id].config {
      assert kept[i] in kept;
    }
    forall c ensures HasConfig(t, more, c) <==> HasConfig(s, kept, c) || t.watchers[id].config == c {
      assert id in more && forall x :: x in kept ==> x in more;
    }
  }

  lemma BuildStaysInCall(m: Mode, start: State, p: string, wanted: set<Config>, s: State, n: nat, built: seq<Id>, e: Event)
    requires InCall(start, p, wanted, s, n, built) && Enabled(m, s, e) && e.Build?
    ensures InCall(start, p, wanted, Step(m, s, e), n, built + [e.id])
  {
    var t := Step(m, s, e);
    StepKeepsConfigs(m, s, e);
    assert t.call.kept == s.call.kept + [e.id] && t.call.toBuild == s.call.toBuild - {e.config};
    assert t.watchers[e.id].config == e.config && e.config in wanted;
    BuildProgress(m, start, p, wanted, s, n, built, e);
    assert e.config in s.call.toBuild;
    hide Step, Progress, OthersDropped;
    OneMoreKept(s, t, s.call.kept, wanted, s.call.toBuild, e.id);
  }

  lemma BuildProgress(m: Mode, start: State, p: string, wanted: set<Config>, s: State, n: nat, built: seq<Id>, e: Event)
    requires InCall(start, p, wanted, s, n, built) && Enabled(m, s, e) && e.Build?
    ensures Progress(start, p, wanted, Step(m, s, e), n, built + [e.id])
    ensures OthersDropped(start, Pool(start, p)[..n], wanted, Step(m, s, e))
  {
    hide KeptFits, StillWanted;
    var kept := StillWanted(start, Pool(start, p)[..n], wanted);
    assert kept + built + [e.id] == kept + (built + [e.id]);
  }

  /** First come the servers whose configuration is still wanted, in their old order, then new servers. */
  ghost predicate KeptFirst(s: State, before: seq<Id>, wanted: set<Config>, pool: seq<Id>) {
    && AreWatched(s, before)
    && var kept := StillWanted(s, before, wanted);
       kept <= pool && forall id :: id in pool[|kept|..] ==> id !in s.watchers
  }

  /** Every configuration given to the call occurs exactly once, and no other. */
  ghost predicate HasExactly(t: State, pool: seq<Id>, configs: seq<Config>) {
    AreWatched(t, pool) && DistinctServers(t, pool) && forall c :: c in configs <==> HasConfig(t, pool, c)
  }

  /** No other pool is touched, and the servers that are not kept are cleaned up. */
  ghost predicate OthersHandled(s: State, p: string, configs: seq<Config>, t: State) {
    && (forall q :: q != p ==> Pool(t, q) == Pool(s, q))
    && (forall id :: id in Pool(s, p) && id in s.watchers && s.watchers[id].config !in configs ==> id in t.cleaned)
  }

  /** What a call leaves behind, in terms of pools and configurations only. */
  ghost predicate IsReplaced(s: State, p: string, configs: seq<Config>, t: State) {
    && KeptFirst(s, Pool(s, p), (set c | c in configs), Pool(t, p))
    && HasExactly(t, Pool(t, p), configs)
    && OthersHandled(s, p, configs, t)
  }

  lemma {:induction false} CallReplaces(m: Mode, start: State, p: string, configs: seq<Config>, s: State, n: nat, built: seq<Id>,
                                        events: seq<Event>, t: State)
    requires PoolsDistinct(start) && InCall(start, p, (set c | c in configs), s, n, built)
    requires IsRun(m, s, events + [Finish], t) && forall e :: e in events ==> WithinCall(e)
    ensures IsReplaced(start, p, configs, t) && SameConfigs(start, t) && t.call.NoCall?
    decreases |events|
  {
    hide InCall, WithinCall, IsReplaced, Step, Enabled, PoolsDistinct;
    var all := events + [Finish];
    if events == [] {
      assert all[1..] == [];
      FinishReplaces(m, start, p, configs, s, n, built);
    } else {
      assert all[1..] == events[1..] + [Finish];
      assert events[0] in events;
      var k, more := StepStaysInCall(m, start, p, (set c | c in configs), s, n, built, events[0]);
      CallReplaces(m, start, p, configs, Step(m, s, events[0]), k, more, events[1..], t);
    }
  }

  lemma FinishReplaces(m: Mode, start: State, p: string, configs: seq<Config>, s: State, n: nat, built: seq<Id>)
    requires PoolsDistinct(start) && InCall(start, p, (set c | c in configs), s, n, built) && Enabled(m, s, Finish)
    ensures IsReplaced(start, p, configs, Step(m, s, Finish)) && SameConfigs(start, Step(m, s, Finish)) && Step(m, s, Finish).call.NoCall?
  {
    var t := Step(m, s, Finish);
    assert t == s.(pools := s.pools[p := s.call.kept], call := NoCall);
    assert Pool(t, p) == s.call.kept && forall q :: q != p ==> Pool(t, q) == Pool(start, q);
    assert n == |Pool(start, p)| && s.call.toBuild == {} && s.call.stop.NoStop?;
    hide Step, Enabled, PoolsDistinct, KeptFits, KeptFirst, HasExactly;
    FinishedConfigs(s, t, s.call.kept, configs);
    FinishedOrder(start, p, (set c | c in configs), s, n, built);
    assert Pool(start, p)[..n] == Pool(start, p);
  }

  lemma FinishedOrder(start: State, p: string, wanted: set<Config>, s: State, n: nat, built: seq<Id>)
    requires Progress(start, p, wanted, s, n, built) && n == |Pool(start, p)|
    ensures KeptFirst(start, Pool(start, p), wanted, s.call.kept)
  {
    var before := Pool(start, p);
    assert before[..n] == before;
    hide StillWanted;
    assert s.call.kept[|StillWanted(start, before, wanted)|..] == built;
  }

  lemma FinishedConfigs(s: State, t: State, kept: seq<Id>, configs: seq<Config>)
    requires KeptFits(s, kept, (set c | c in configs), {}) && t.watchers == s.watchers
    ensures HasExactly(t, kept, configs)
  {
    forall c ensures c in configs <==> HasConfig(t, kept, c) {
      assert HasConfig(t, kept, c) <==> HasConfig(s, kept, c);
    }
  }

  lemma SameDistinct(s: State, t: State, ids: seq<Id>)
    requires SameConfigs(s, t) && AreWatched(s, ids) && DistinctServers(s, ids)
    ensures AreWatched(t, ids) && DistinctServers(t, ids)
  {
    forall i | 0 <= i < |ids| ensures ids[i] in t.watchers && t.watchers[ids[i]].config == s.watchers[ids[i]].config {
      assert ids[i] in ids;
    }
  }

  // ---------------------------------------------------------------- all calls of a run

  /** Between calls, or within one that began with distinct pools. */
  ghost predicate CallOnTrack(s: State) {
    if s.call.NoCall? then PoolsDistinct(s)
    else exists start, n, built :: PoolsDistinct(start) && InCall(start, s.call.provider, s.call.wanted, s, n, built)
  }

  lemma StepKeepsCallOnTrack(m: Mode, s: State, e: Event)
    requires CallOnTrack(s) && Enabled(m, s, e)
    ensures CallOnTrack(Step(m, s, e))
  {
    hide InCall, PoolsDistinct;
    var t := Step(m, s, e);
    if e.Begin? {
      BeginStarts(m, s, e.provider, e.configs);
      assert InCall(s, t.call.provider, t.call.wanted, t, 0, []);
    } else if s.call.NoCall? {
      StepKeepsConfigs(m, s, e);
      IdleStepKeepsPools(m, s, e);
    } else {
      var start, n, built :| PoolsDistinct(start) && InCall(start, s.call.provider, s.call.wanted, s, n, built);
      if e.Finish? {
        FinishKeepsPoolsDistinct(m, start, s, n, built);
      } else {
        var k, more := StepStaysInCall(m, start, s.call.provider, s.call.wanted, s, n, built, e);
        CallGoesOn(m, s, e);
        assert InCall(start, t.call.provider, t.call.wanted, t, k, more);
      }
    }
  }

  lemma CallGoesOn(m: Mode, s: State, e: Event)
    requires Enabled(m, s, e) && WithinCall(e) && s.call.Replacing?
    ensures var t := Step(m, s, e); t.call.Replacing? && t.call.provider == s.call.provider && t.call.wanted == s.call.wanted
  {
    hide CleanedUp, Announced, CleanupOf;
  }

  lemma IdleStepKeepsPools(m: Mode, s: State, e: Event)
    requires PoolsDistinct(s) && s.call.NoCall? && Enabled(m, s, e) && !e.Begin? && SameConfigs(s, Step(m, s, e))
    ensures Step(m, s, e).call.NoCall? && PoolsDistinct(Step(m, s, e))
  {
    hide CleanedUp, Announced, CleanupOf;
    var t := Step(m, s, e);
    assert t.pools == s.pools && t.call == s.call;
    hide Step;
    forall p | p in t.pools ensures AreWatched(t, t.pools[p]) && DistinctServers(t, t.pools[p]) {
      SameDistinct(s, t, s.pools[p]);
    }
  }

  lemma FinishKeepsPoolsDistinct(m: Mode, start: State, s: State, n: nat, built: seq<Id>)
    requires PoolsDistinct(start) && s.call.Replacing? && InCall(start, s.call.provider, s.call.wanted, s, n, built)
    requires Enabled(m, s, Finish)
    ensures Step(m, s, Finish).call.NoCall? && PoolsDistinct(Step(m, s, Finish))
  {
    hide StillWanted;
    var t, p := Step(m, s, Finish), s.call.provider;
    assert t.watchers == s.watchers && t.pools == s.pools[p := s.call.kept] && s.pools == start.pools;
    forall q | q in t.pools ensures AreWatched(t, t.pools[q]) && DistinctServers(t, t.pools[q]) {
      if q != p {
        SameDistinct(start, t, start.pools[q]);
      }
    }
  }

  lemma {:induction false} RunKeepsCallOnTrack(m: Mode, s: State, events: seq<Event>, t: State)
    requires CallOnTrack(s) && IsRun(m, s, events, t)
    ensures CallOnTrack(t)
    decreases |events|
  {
    hide CallOnTrack, Step, Enabled;
    if events != [] {
      StepKeepsCallOnTrack(m, s, events[0]);
      RunKeepsCallOnTrack(m, Step(m, s, events[0]), events[1..], t);
    }
  }

  /** Over every run, in both modes, no two servers of a pool have the same configuration. */
  lemma PoolsStayDistinct(m: Mode, events: seq<Event>, t: State)
    requires IsRun(m, INITIAL, events, t) && t.call.NoCall?
    ensures PoolsDistinct(t)
  {
    RunKeepsCallOnTrack(m, INITIAL, events, t);
  }

  /** Over every run, in both modes, a call that began in `s` and is finished has put into its pool
      exactly what it was given, whatever the watchers did meanwhile. */
  lemma FinishedCallReplaces(m: Mode, before: seq<Event>, s: State, p: string, configs: seq<Config>, during: seq<Event>, t: State)
    requires IsRun(m, INITIAL, before, s) && s.call.NoCall?
    requires IsRun(m, s, [Begin(p, configs)] + (during + [Finish]), t) && forall e :: e in during ==> WithinCall(e)
    ensures IsReplaced(s, p, configs, t)
  {
    hide InCall, IsReplaced, PoolsDistinct, WithinCall;
    PoolsStayDistinct(m, before, s);
    var all := [Begin(p, configs)] + (during + [Finish]);
    assert all[0] == Begin(p, configs) && all[1..] == during + [Finish];
    BeginStarts(m, s, p, configs);
    CallReplaces(m, s, p, configs, Step(m, s, Begin(p, configs)), 0, [], during, t);
  }

  // ---------------------------------------------------------------- pooled servers stay watched

  /** Only servers that are, or are about to be, cleaned up have cancelled watchers. */
  ghost predicate CancelledAreDropped(s: State) {
    forall id :: id in s.watchers && s.watchers[id].cancelled ==>
      id in s.cleaned || (s.call.Replacing? && s.call.stop.Stopping? && s.call.stop.server == id)
  }

  lemma StepKeepsCancelledDropped(m: Mode, s: State, e: Event)
    requires CancelledAreDropped(s) && Enabled(m, s, e)
    ensures CancelledAreDropped(Step(m, s, e))
  {
    hide CleanedUp, Announced, CleanupOf;
  }

  lemma {:induction false} RunKeepsCancelledDropped(m: Mode, s: State, events: seq<Event>, t: State)
    requires CancelledAreDropped(s) && IsRun(m, s, events, t)
    ensures CancelledAreDropped(t)
    decreases |events|
  {
    hide CancelledAreDropped, Step, Enabled;
    if events != [] {
      StepKeepsCancelledDropped(m, s, events[0]);
      RunKeepsCancelledDropped(m, Step(m, s, events[0]), events[1..], t);
    }
  }

  /** How a watcher can be done. */
  lemma {:induction false} DoneWatchers(s: State, events: seq<Event>, t: State, id: Id)
    requires IsRun(Split, s, events, t) && id in t.watchers
    requires id in s.watchers ==> !s.watchers[id].pc.Done?
    ensures !t.watchers[id].cancelled ==> (t.watchers[id].pc.Done? <==> Start(id, false) in events)
    decreases |events|
  {
    if events != [] {
      var next := Step(Split, s, events[0]);
      OneStepOfWatcher(s, events[0], id);
      if id in next.watchers && next.watchers[id].pc.Done? {
        StaysDone(next, events[1..], t, id);
      } else {
        DoneWatchers(next, events[1..], t, id);
      }
      assert events == [events[0]] + events[1..];
    }
  }

  lemma OneStepOfWatcher(s: State, e: Event, id: Id)
    requires Enabled(Split, s, e) && (id in s.watchers ==> !s.watchers[id].pc.Done?)
    ensures var t := Step(Split, s, e);
            && (id in s.watchers ==> id in t.watchers)
            && (id in t.watchers && t.watchers[id].pc.Done? ==> e == Start(id, false) || t.watchers[id].cancelled)
            && (e == Start(id, false) ==> id in t.watchers && t.watchers[id].pc.Done?)
  {
    hide CleanedUp, Announced, CleanupOf;
  }

  lemma {:induction false} StaysDone(s: State, events: seq<Event>, t: State, id: Id)
    requires IsRun(Split, s, events, t) && id in s.watchers && s.watchers[id].pc.Done?
    ensures id in t.watchers && t.watchers[id].pc.Done? && Start(id, false) !in events
    ensures t.watchers[id].cancelled == s.watchers[id].cancelled
    decreases |events|
  {
    if events != [] {
      DoneStep(s, events[0], id);
      StaysDone(Step(Split, s, events[0]), events[1..], t, id);
      assert events == [events[0]] + events[1..];
    }
  }

  lemma DoneStep(s: State, e: Event, id: Id)
    requires Enabled(Split, s, e) && id in s.watchers && s.watchers[id].pc.Done?
    ensures var t := Step(Split, s, e);
            id in t.watchers && t.watchers[id].pc.Done? && t.watchers[id].cancelled == s.watchers[id].cancelled && e != Start(id, false)
  {
    hide CleanedUp, Announced, CleanupOf;
  }

  /** Between calls, the watcher of a pooled server is not cancelled, has ended exactly if it could not create
      its client, and otherwise can still announce what the server reports. */
  lemma PooledServersStayWatched(events: seq<Event>, t: State, id: Id)
    requires IsRun(Split, INITIAL, events, t) && t.call.NoCall? && InPools(t, id)
    ensures id in t.watchers && !t.watchers[id].cancelled && id !in t.cleaned
    ensures t.watchers[id].pc.Done? <==> Start(id, false) in events
    ensures CanBeListedLater(t, id) || Start(id, false) in events
  {
    RunKeepsPlaces(Split, INITIAL, events, t);
    RunKeepsCancelledDropped(Split, INITIAL, events, t);
    assert HasPlace(t, id);
    DoneWatchers(INITIAL, events, t, id);
    ListedLaterExactly(t, id);
  }

  // ---------------------------------------------------------------- the lists say what was reported

  /** The names in the last report of server `id`. */
  ghost function LastReport(events: seq<Event>, id: Id): seq<string> {
    if events == [] then []
    else
      match events[|events| - 1]
      case Fetched(x, names) => if x == id then names else LastReport(events[..|events| - 1], id)
      case _ => LastReport(events[..|events| - 1], id)
  }

  /** The names in the report that server `id` announced last. */
  ghost function LastAnnounced(events: seq<Event>, id: Id): seq<string> {
    if events == [] then []
    else if events[|events| - 1] == Announce(id) then LastReport(events[..|events| - 1], id)
    else LastAnnounced(events[..|events| - 1], id)
  }

  ghost predicate Reported(events: seq<Event>, s: State, id: Id) {
    if id !in s.watchers then LastAnnounced(events, id) == [] && LastReport(events, id) == []
    else
      && (s.watchers[id].pc.HaveInfo? ==> s.watchers[id].pc.names == LastReport(events, id))
      && (s.watchers[id].pc.Checked? ==> s.watchers[id].pc.names == LastReport(events, id))
  }

  lemma ReportedStep(front: seq<Event>, s: State, e: Event, id: Id)
    requires Reported(front, s, id) && Enabled(Split, s, e)
    ensures Reported(front + [e], Step(Split, s, e), id)
    ensures LastAnnounced(front + [e], id) == if e == Announce(id) then LastReport(front, id) else LastAnnounced(front, id)
  {
    hide CleanedUp, Announced, CleanupOf;
    assert (front + [e])[..|front|] == front;
  }

  /** Every list has `id` as often as the last announced report says. */
  ghost predicate ListsSay(events: seq<Event>, s: State, id: Id) {
    id in s.cleaned || forall n :: Listed(s.lists, n, id) == multiset(LastAnnounced(events, id))[n]
  }

  lemma ListsSayStep(front: seq<Event>, s: State, e: Event, id: Id)
    requires ListsSay(front, s, id) && Reported(front, s, id) && Enabled(Split, s, e)
    ensures ListsSay(front + [e], Step(Split, s, e), id)
  {
    hide CleanedUp, Announced, CleanupOf, Listed, LastAnnounced, LastReport;
    ReportedStep(front, s, e, id);
    var t := Step(Split, s, e);
    if id !in t.cleaned {
      forall n ensures Listed(t.lists, n, id) == multiset(LastAnnounced(front + [e], id))[n] {
        if e.Remove? {
          CleanupDropsOne(s.lists, s.call.stop.server, n, id);
        } else if e == Announce(id) {
          AnnouncementConserves(s.lists, id, s.watchers[id].pc.names, n);
        } else if e.Announce? {
          OtherListed(s.lists, e.id, s.watchers[e.id].pc.names, n, id);
        }
      }
    }
  }

  lemma {:induction false} WatcherRunSnoc(m: Mode, s: State, events: seq<Event>, t: State) returns (u: State)
    requires events != [] && IsRun(m, s, events, t)
    ensures var n := |events| - 1; IsRun(m, s, events[..n], u) && Enabled(m, u, events[n]) && t == Step(m, u, events[n])
    decreases |events|
  {
    hide Step, Enabled;
    if |events| == 1 {
      assert events[1..] == [];
      u := s;
    } else {
      u := WatcherRunSnoc(m, Step(m, s, events[0]), events[1..], t);
      var n := |events| - 1;
      assert events[1..][..n - 1] == events[..n][1..];
    }
  }

  lemma {:induction false} RunKeepsLists(events: seq<Event>, t: State, id: Id)
    requires IsRun(Split, INITIAL, events, t)
    ensures Reported(events, t, id) && ListsSay(events, t, id)
    decreases |events|
  {
    if events != [] {
      var n := |events| - 1;
      var u := WatcherRunSnoc(Split, INITIAL, events, t);
      RunKeepsLists(events[..n], u, id);
      assert events == events[..n] + [events[n]];
      hide Step, Enabled, Reported, ListsSay, IsRun;
      ReportedStep(events[..n], u, events[n], id);
      ListsSayStep(events[..n], u, events[n], id);
    }
  }

  /** Over every run, a server that was not cleaned up is listed under each name exactly as often as
      that name occurs in the last report it announced. */
  lemma ListsFollowReports(events: seq<Event>, t: State, id: Id, n: string)
    requires IsRun(Split, INITIAL, events, t) && id !in t.cleaned
    ensures Listed(t.lists, n, id) == multiset(LastAnnounced(events, id))[n]
  {
    hide Listed, LastAnnounced, IsRun;
    RunKeepsLists(events, t, id);
  }

  /** With check and announcement atomic, the check of a watcher that was not cancelled announces its report,
      and that of a cancelled one changes no list. */
  lemma AtomicCheckAnnounces(s: State, id: Id, other: Id, n: string)
    requires Enabled(Atomic, s, Check(id))
    ensures var t := Step(Atomic, s, Check(id));
            && (other != id || s.watchers[id].cancelled ==> Listed(t.lists, n, other) == Listed(s.lists, n, other))
            && (!s.watchers[id].cancelled ==> Listed(t.lists, n, id) == multiset(s.watchers[id].pc.names)[n])
  {
    hide Announced, Listed;
    AnnouncementConserves(s.lists, id, s.watchers[id].pc.names, n);
    if other != id {
      OtherListed(s.lists, id, s.watchers[id].pc.names, n, other);
    }
  }
}
