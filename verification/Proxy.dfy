/** The routing registry: provider pools, service lists and round-robin selection. */
module Proxy {
  import opened Collections
  import opened ImportGraph
  import opened Resolver
  import opened ResolverProperties
  import opened ServiceLists

  const COUNTER_RANGE := 0x1_0000_0000

  /** The value of a 32-bit counter. */
  type Counter32 = n: nat | n < COUNTER_RANGE

  datatype Config = Config(address: string, plaintext: bool, insecureSkipVerify: bool)

  datatype ServiceInfo = ServiceInfo(services: seq<string>, fileDescriptors: seq<File>)

  class UpstreamServer {
    const config: Config
    const provider: string
    /** Set while the watcher goroutine has installed its cancel function. */
    var stopServiceWatcher: bool
    /** The watcher's context has been cancelled. */
    var cancelled: bool

    constructor (provider: string, config: Config)
      ensures this.provider == provider && this.config == config && !stopServiceWatcher && !cancelled
    {
      this.provider, this.config := provider, config;
      stopServiceWatcher, cancelled := false, false;
    }

    method StopWatchingServices()
      modifies this`cancelled
      ensures cancelled == (old(cancelled) || stopServiceWatcher)
    {
      if stopServiceWatcher {
        cancelled := true;
      }
    }
  }

  class UpstreamService {
    var servers: seq<UpstreamServer>
    var next: Counter32

    constructor ()
      ensures servers == [] && next == 0
    {
      servers, next := [], 0;
    }

    method SwapRemoveServer(server: UpstreamServer)
      modifies this`servers
      ensures servers == SwapRemove(old(servers), server)
    {
      if server in servers {
        var serverIndex := IndexOf(servers, server);
        servers := servers[serverIndex := servers[|servers| - 1]];
        servers := servers[..|servers| - 1];
      }
    }
  }

  // ---------------------------------------------------------------- pools as lists of servers

  /** The servers of a pool whose configuration is still wanted, in order. */
  function Kept(pool: seq<UpstreamServer>, wanted: set<Config>): seq<UpstreamServer> {
    if pool == [] then []
    else Kept(pool[..|pool| - 1], wanted) + if pool[|pool| - 1].config in wanted then [pool[|pool| - 1]] else []
  }

  function Dropped(pool: seq<UpstreamServer>, wanted: set<Config>): seq<UpstreamServer> {
    if pool == [] then []
    else Dropped(pool[..|pool| - 1], wanted) + if pool[|pool| - 1].config in wanted then [] else [pool[|pool| - 1]]
  }

  function ConfigsOf(pool: seq<UpstreamServer>): set<Config> {
    set s | s in pool :: s.config
  }

  ghost predicate DistinctConfigs(pool: seq<UpstreamServer>) {
    forall i, j :: 0 <= i < j < |pool| ==> pool[i].config != pool[j].config
  }

  lemma {:induction false} KeptIsSubPool(pool: seq<UpstreamServer>, wanted: set<Config>)
    requires NoDup(pool)
    ensures NoDup(Kept(pool, wanted)) && forall s :: s in Kept(pool, wanted) <==> s in pool && s.config in wanted
  {
    if pool != [] {
      var front := pool[..|pool| - 1];
      KeptIsSubPool(front, wanted);
      assert pool == front + [pool[|pool| - 1]];
      forall s | s in front ensures s != pool[|pool| - 1] {}
    }
  }

  lemma ConfigsOfAppend(pool: seq<UpstreamServer>, server: UpstreamServer)
    ensures ConfigsOf(pool + [server]) == ConfigsOf(pool) + {server.config}
  {
    assert server in pool + [server];
  }

  lemma EmptyPool(wanted: set<Config>)
    ensures Kept([], wanted) == [] && Dropped([], wanted) == [] && ConfigsOf([]) == {}
  {
  }

  lemma PoolStep(pool: seq<UpstreamServer>, i: nat, wanted: set<Config>)
    requires i < |pool|
    ensures Kept(pool[..i + 1], wanted) == Kept(pool[..i], wanted) + if pool[i].config in wanted then [pool[i]] else []
    ensures Dropped(pool[..i + 1], wanted)
         == if pool[i].config in wanted then Dropped(pool[..i], wanted) else Dropped(pool[..i], wanted) + [pool[i]]
    ensures ConfigsOf(pool[..i + 1]) == ConfigsOf(pool[..i]) + {pool[i].config}
  {
    assert pool[..i + 1][..i] == pool[..i];
    assert pool[..i + 1] == pool[..i] + [pool[i]];
    ConfigsOfAppend(pool[..i], pool[i]);
  }

  method FilterOut(servers: seq<UpstreamServer>, target: UpstreamServer) returns (filtered: seq<UpstreamServer>)
    ensures filtered == Without(servers, target)
  {
    filtered := [];
    for i := 0 to |servers|
      invariant filtered == Without(servers[..i], target)
    {
      assert servers[..i + 1][..i] == servers[..i];
      if servers[i] != target {
        filtered := filtered + [servers[i]];
      }
    }
    assert servers[..|servers|] == servers;
  }

  lemma AppendStep(lists: Lists<UpstreamServer>, x: UpstreamServer, names: seq<string>, i: nat)
    requires i < |names|
    ensures var before := AppendedTo(lists, x, names[..i]);
            AppendedTo(lists, x, names[..i + 1]) == before[names[i] := ListOf(before, names[i]) + [x]]
  {
    assert names[..i + 1][..i] == names[..i];
  }

  class Proxy {
    var servers: map<string, seq<UpstreamServer>>
    var services: map<string, UpstreamService>
    const reflectionResolver: SimpleResolver

    constructor ()
      ensures Valid() && servers == map[] && services == map[]
      ensures fresh(reflectionResolver) && reflectionResolver.Valid()
    {
      servers, services := map[], map[];
      reflectionResolver := new SimpleResolver();
    }

    /** Every service name has its own service object; every pooled server belongs to its provider's pool,
        once, and shares its configuration with no other server of that pool. */
    ghost predicate Valid()
      reads this
    {
      && (forall m, n :: m in services && n in services && m != n ==> services[m] != services[n])
      && (forall p :: p in servers ==>
            NoDup(servers[p]) && DistinctConfigs(servers[p]) && forall s :: s in servers[p] ==> s.provider == p)
    }

    ghost function Lists(): Lists<UpstreamServer>
      reads this`services, services.Values`servers
    {
      map n | n in services :: services[n].servers
    }

    function Pool(provider: string): seq<UpstreamServer>
      reads this
    {
      if provider in servers then servers[provider] else []
    }

    // -------------------------------------------------------------- servers.go

    method CleanupServer(server: UpstreamServer)
      requires Valid()
      modifies server`cancelled, services.Values`servers
      ensures Valid() && server.cancelled == (old(server.cancelled) || server.stopServiceWatcher)
      ensures Lists() == CleanedUp(old(Lists()), server)
    {
      server.StopWatchingServices();
      RemoveFromAll(server);
    }

    method RemoveFromAll(server: UpstreamServer)
      requires Valid()
      modifies services.Values`servers
      ensures Lists() == CleanedUp(old(Lists()), server)
    {
      hide SwapRemove;
      ghost var before := Lists();
      var todo := services.Keys;
      while todo != {}
        modifies services.Values`servers
        invariant todo <= services.Keys
        invariant forall n :: n in services ==>
                    services[n].servers == if n in todo then before[n] else SwapRemove(before[n], server)
      {
        var name := Pick(todo);
        todo := todo - {name};
        services[name].SwapRemoveServer(server);
      }
      assert Lists() == CleanedUp(before, server);
    }

    /** Returns the servers for which a watcher goroutine was started. */
    method ReplaceServers(provider: string, newConfigs: seq<Config>) returns (spawned: seq<UpstreamServer>)
      requires Valid()
      modifies this`servers, services.Values`servers, Pool(provider)`cancelled
      ensures Valid()
      ensures var wanted := set c | c in newConfigs;
              && servers == old(servers)[provider := Kept(old(Pool(provider)), wanted) + spawned]
              && Lists() == AllCleanedUp(old(Lists()), Dropped(old(Pool(provider)), wanted))
              && ConfigsOf(spawned) == wanted - ConfigsOf(old(Pool(provider)))
              && DistinctConfigs(Pool(provider)) && ConfigsOf(Pool(provider)) == wanted
      ensures forall s :: s in spawned ==> fresh(s) && !s.stopServiceWatcher && !s.cancelled
      ensures forall s :: s in old(Pool(provider)) ==>
                s.cancelled == (old(s.cancelled) || (s.config !in newConfigs && s.stopServiceWatcher))
    {
      hide Lists, SwapRemove, CleanedUp, AllCleanedUp, Kept, Dropped, DistinctConfigs;
      var shouldBuildConfigs: map<Config, bool> := map[];
      for i := 0 to |newConfigs|
        invariant shouldBuildConfigs == map c | c in newConfigs[..i] :: true
      {
        shouldBuildConfigs := shouldBuildConfigs[newConfigs[i] := true];
      }
      assert newConfigs[..|newConfigs|] == newConfigs;
      var oldServers := Pool(provider);
      var newServers;
      newServers, shouldBuildConfigs := KeepOrCleanup(oldServers, shouldBuildConfigs);
      spawned := Spawn(provider, shouldBuildConfigs);
      KeptIsSubPool(oldServers, set c | c in newConfigs);
      DistinctConfigsNoDup(spawned);
      NoDupAppend(newServers, spawned);
      EmptyPoolIsDistinct();
      PoolHoldsEachConfigOnce(oldServers, (set c | c in newConfigs), spawned);
      servers := servers[provider := newServers + spawned];
    }

    /** Two calls in a row with the same configurations: the second one changes nothing. */
    method ReplaceServersTwice(provider: string, newConfigs: seq<Config>) returns (spawned: seq<UpstreamServer>)
      requires Valid()
      modifies this`servers, services.Values`servers, Pool(provider)`cancelled
      ensures Valid()
      ensures var wanted := set c | c in newConfigs;
              && servers == old(servers)[provider := Kept(old(Pool(provider)), wanted) + spawned]
              && Lists() == AllCleanedUp(old(Lists()), Dropped(old(Pool(provider)), wanted))
      ensures forall s :: s in spawned ==> fresh(s) && !s.cancelled
      ensures forall s :: s in old(Pool(provider)) ==>
                s.cancelled == (old(s.cancelled) || (s.config !in newConfigs && s.stopServiceWatcher))
    {
      hide Valid, Lists, AllCleanedUp, Kept, Dropped, DistinctConfigs;
      ghost var wanted, before := (set c | c in newConfigs), Pool(provider);
      spawned := ReplaceServers(provider, newConfigs);
      ghost var pool, lists := Pool(provider), Lists();
      assert pool == Kept(before, wanted) + spawned;
      forall i | 0 <= i < |pool| ensures fresh(pool[i]) || exists j :: 0 <= j < |before| && before[j] == pool[i] {
        KeptAreOld(before, wanted, pool[i]);
        if i < |Kept(before, wanted)| {
          assert pool[i] in Kept(before, wanted);
        } else {
          assert pool[i] == spawned[i - |Kept(before, wanted)|] && pool[i] in spawned;
        }
      }
      var again := ReplaceServers(provider, newConfigs);
      RepeatChangesNothing(pool, wanted);
      ServersHaveConfigs(again);
      NothingCleanedYet(lists);
      assert Pool(provider) == pool;
    }

    /** The first loop over the old pool: keep a wanted server, clean up any other. */
    method KeepOrCleanup(oldServers: seq<UpstreamServer>, buildAll: map<Config, bool>)
      returns (newServers: seq<UpstreamServer>, shouldBuildConfigs: map<Config, bool>)
      requires Valid() && NoDup(oldServers) && forall c :: c in buildAll ==> buildAll[c]
      modifies services.Values`servers, oldServers`cancelled
      ensures Valid()
      ensures newServers == Kept(oldServers, buildAll.Keys)
      ensures shouldBuildConfigs == map c | c in buildAll :: c !in ConfigsOf(oldServers)
      ensures Lists() == AllCleanedUp(old(Lists()), Dropped(oldServers, buildAll.Keys))
      ensures forall s :: s in oldServers ==> s.cancelled == (old(s.cancelled) || (s.config !in buildAll && s.stopServiceWatcher))
    {
      hide Lists, SwapRemove, CleanedUp, AllCleanedUp, Kept, Dropped, ConfigsOf;
      shouldBuildConfigs := buildAll;
      newServers := [];
      EmptyPool(buildAll.Keys);
      NothingCleanedYet(Lists());
      for i := 0 to |oldServers|
        invariant Valid()
        invariant newServers == Kept(oldServers[..i], buildAll.Keys)
        invariant shouldBuildConfigs.Keys == buildAll.Keys
        invariant forall c :: c in buildAll ==> (shouldBuildConfigs[c] <==> c !in ConfigsOf(oldServers[..i]))
        invariant Lists() == AllCleanedUp(old(Lists()), Dropped(oldServers[..i], buildAll.Keys))
        invariant forall s :: s in oldServers[..i] ==> s.cancelled == (old(s.cancelled) || (s.config !in buildAll && s.stopServiceWatcher))
        invariant forall s :: s in oldServers[i..] ==> s.cancelled == old(s.cancelled)
      {
        var server := oldServers[i];
        PoolStep(oldServers, i, buildAll.Keys);
        AllCleanedUpAppend(old(Lists()), Dropped(oldServers[..i], buildAll.Keys), server);
        if server.config in shouldBuildConfigs {
          newServers := newServers + [server];
          shouldBuildConfigs := shouldBuildConfigs[server.config := false];
        } else {
          CleanupServer(server);
        }
      }
      assert oldServers[..|oldServers|] == oldServers;
    }

    /** The second loop: build one server per configuration still marked, in unspecified order. */
    method Spawn(provider: string, shouldBuildConfigs: map<Config, bool>) returns (spawned: seq<UpstreamServer>)
      ensures DistinctConfigs(spawned)
      ensures ConfigsOf(spawned) == set c | c in shouldBuildConfigs && shouldBuildConfigs[c]
      ensures forall s :: s in spawned ==> fresh(s) && s.provider == provider && !s.stopServiceWatcher && !s.cancelled
    {
      spawned := [];
      var todo := shouldBuildConfigs.Keys;
      while todo != {}
        invariant todo <= shouldBuildConfigs.Keys
        invariant DistinctConfigs(spawned)
        invariant ConfigsOf(spawned) == set c | c in shouldBuildConfigs && shouldBuildConfigs[c] && c !in todo
        invariant forall s :: s in spawned ==> fresh(s) && s.provider == provider && !s.stopServiceWatcher && !s.cancelled
      {
        var config := Pick(todo);
        todo := todo - {config};
        if shouldBuildConfigs[config] {
          var server := new UpstreamServer(provider, config);
          ConfigsOfAppend(spawned, server);
          spawned := spawned + [server];
        }
      }
    }

    // -------------------------------------------------------------- services.go

    method ReplaceServices(target: UpstreamServer, info: ServiceInfo)
      requires Valid() && reflectionResolver.Valid()
      modifies this`services, services.Values`servers, reflectionResolver
      ensures Valid() && reflectionResolver.Valid()
      ensures Lists() == Announced(old(Lists()), target, info.services)
      ensures forall n :: n in old(services) ==> n in services && services[n] == old(services[n])
      ensures forall n :: n in services && n !in old(services) ==> fresh(services[n]) && services[n].next == 0
      ensures reflectionResolver.visits
           == old(reflectionResolver.visits) + Times(Preorders(info.fileDescriptors), |info.services|)
    {
      hide *;
      RemoveEverywhere(target);
      ghost var lists, once := Lists(), Preorders(info.fileDescriptors);
      NothingAppendedYet(lists, target);
      NoTimes(once);
      for i := 0 to |info.services|
        invariant Valid() && reflectionResolver.Valid()
        invariant old(services).Keys <= services.Keys
        invariant forall n :: n in services ==>
                    if n in old(services) then services[n] == old(services[n]) else fresh(services[n]) && services[n].next == 0
        invariant Lists() == AppendedTo(lists, target, info.services[..i])
        invariant reflectionResolver.visits == old(reflectionResolver.visits) + Times(once, i)
      {
        RegisterAndAppend(info.services[i], target, info.fileDescriptors);
        AppendStep(lists, target, info.services, i);
        OneMoreTime(old(reflectionResolver.visits), once, i);
      }
      assert info.services[..|info.services|] == info.services;
      RemoveThenAppend(old(Lists()), target, info.services);
    }

    /** One announced name: look up or create its entry, register the files, append the server. */
    method RegisterAndAppend(serviceName: string, target: UpstreamServer, fds: seq<File>)
      requires Valid() && reflectionResolver.Valid()
      modifies this`services, services.Values`servers, reflectionResolver
      ensures Valid() && reflectionResolver.Valid()
      ensures reflectionResolver.visits == old(reflectionResolver.visits) + Preorders(fds)
      ensures Lists() == old(Lists())[serviceName := ListOf(old(Lists()), serviceName) + [target]]
      ensures services.Keys == old(services).Keys + {serviceName}
      ensures forall n :: n in old(services) ==> services[n] == old(services[n])
      ensures serviceName !in old(services) ==> fresh(services[serviceName]) && services[serviceName].next == 0
    {
      hide SimpleResolver.Valid, Preorders, Lists;
      var service := ServiceEntry(serviceName);
      reflectionResolver.RegisterFiles(fds);
      AppendServer(serviceName, service, target);
    }

    method AppendServer(serviceName: string, service: UpstreamService, target: UpstreamServer)
      requires Valid() && serviceName in services && service == services[serviceName]
      modifies service`servers
      ensures Lists() == old(Lists())[serviceName := old(service.servers) + [target]]
    {
      service.servers := service.servers + [target];
    }

    method ServiceEntry(serviceName: string) returns (service: UpstreamService)
      requires Valid()
      modifies this`services
      ensures Valid() && serviceName in services && service == services[serviceName]
      ensures service.servers == ListOf(old(Lists()), serviceName)
      ensures Lists() == old(Lists())[serviceName := service.servers]
      ensures services.Keys == old(services).Keys + {serviceName}
      ensures forall n :: n in old(services) ==> services[n] == old(services[n])
      ensures serviceName !in old(services) ==> fresh(service) && service.next == 0
    {
      if serviceName !in services {
        service := new UpstreamService();
        services := services[serviceName := service];
      } else {
        service := services[serviceName];
      }
    }

    /** The first loop of ReplaceServices: filter the server out of every list. */
    method RemoveEverywhere(target: UpstreamServer)
      requires Valid()
      modifies services.Values`servers
      ensures Lists() == RemovedEverywhere(old(Lists()), target)
    {
      hide Without;
      var todo := services.Keys;
      while todo != {}
        invariant todo <= services.Keys
        invariant forall n :: n in services ==>
                    services[n].servers == if n in todo then old(services[n].servers) else Without(old(services[n].servers), target)
      {
        var name := Pick(todo);
        todo := todo - {name};
        var service := services[name];
        service.servers := FilterOut(service.servers, target);
      }
    }

    // -------------------------------------------------------------- proxy.go

    method FindServer(serviceName: string) returns (server: Option<UpstreamServer>)
      requires Valid()
      modifies services.Values`next
      ensures server.None? <==> serviceName !in services || services[serviceName].servers == []
      ensures server.Some? ==>
                var service := services[serviceName];
                && service.next == (old(service.next) + 1) % 4294967296
                && server.value == service.servers[service.next % |service.servers|]
      ensures forall n :: n in services && (n != serviceName || server.None?) ==> services[n].next == old(services[n].next)
    {
      if serviceName !in services || services[serviceName].servers == [] {
        return None;
      }
      var service := services[serviceName];
      service.next := (service.next + 1) % COUNTER_RANGE;
      server := Some(service.servers[service.next % |service.servers|]);
    }
  }

  // ---------------------------------------------------------------- ReplaceServers is an exact diff

  lemma {:induction false} DroppedExact(pool: seq<UpstreamServer>, wanted: set<Config>)
    ensures forall s :: s in Dropped(pool, wanted) <==> s in pool && s.config !in wanted
  {
    if pool != [] {
      DroppedExact(pool[..|pool| - 1], wanted);
      assert pool == pool[..|pool| - 1] + [pool[|pool| - 1]];
    }
  }

  /** Kept servers stay in the order of the old pool. */
  lemma {:induction false} KeptInOrder(pool: seq<UpstreamServer>, wanted: set<Config>, i: nat, j: nat)
    requires i < j < |Kept(pool, wanted)|
    ensures exists k, l :: 0 <= k < l < |pool| && pool[k] == Kept(pool, wanted)[i] && pool[l] == Kept(pool, wanted)[j]
  {
    var front, last := pool[..|pool| - 1], |pool| - 1;
    var kept := Kept(front, wanted);
    if j < |kept| {
      KeptInOrder(front, wanted, i, j);
      var k, l :| 0 <= k < l < |front| && front[k] == kept[i] && front[l] == kept[j];
      assert pool[k] == kept[i] && pool[l] == kept[j];
    } else {
      KeptFromPool(front, wanted, i);
      var k :| 0 <= k < |front| && front[k] == kept[i];
      assert pool[k] == kept[i] && pool[last] == Kept(pool, wanted)[j];
    }
  }

  lemma {:induction false} KeptFromPool(pool: seq<UpstreamServer>, wanted: set<Config>, i: nat)
    requires i < |Kept(pool, wanted)|
    ensures exists k :: 0 <= k < |pool| && pool[k] == Kept(pool, wanted)[i] && pool[k].config in wanted
  {
    var front := pool[..|pool| - 1];
    if i < |Kept(front, wanted)| {
      KeptFromPool(front, wanted, i);
      var k :| 0 <= k < |front| && front[k] == Kept(front, wanted)[i] && front[k].config in wanted;
      assert pool[k] == front[k];
    } else {
      assert pool[|pool| - 1] == Kept(pool, wanted)[i];
    }
  }

  lemma DistinctConfigsNoDup(pool: seq<UpstreamServer>)
    requires DistinctConfigs(pool)
    ensures NoDup(pool)
  {
  }

  lemma EmptyPoolIsDistinct()
    ensures DistinctConfigs([])
  {
  }

  lemma ServersHaveConfigs(pool: seq<UpstreamServer>)
    ensures ConfigsOf(pool) == {} ==> pool == []
  {
    if pool != [] {
      assert pool[0].config in ConfigsOf(pool);
    }
  }

  lemma {:induction false} KeptAreOld(pool: seq<UpstreamServer>, wanted: set<Config>, s: UpstreamServer)
    ensures s in Kept(pool, wanted) ==> s in pool
  {
    if pool != [] {
      KeptAreOld(pool[..|pool| - 1], wanted, s);
      assert pool == pool[..|pool| - 1] + [pool[|pool| - 1]];
    }
  }

  /** With distinct configurations before, the provider afterwards holds each wanted configuration exactly once. */
  lemma PoolHoldsEachConfigOnce(pool: seq<UpstreamServer>, wanted: set<Config>, spawned: seq<UpstreamServer>)
    requires DistinctConfigs(pool) && DistinctConfigs(spawned) && ConfigsOf(spawned) == wanted - ConfigsOf(pool)
    ensures DistinctConfigs(Kept(pool, wanted) + spawned)
    ensures ConfigsOf(Kept(pool, wanted) + spawned) == wanted
  {
    var kept := Kept(pool, wanted);
    forall i | 0 <= i < |kept| ensures kept[i].config in wanted && kept[i].config in ConfigsOf(pool) {
      KeptFromPool(pool, wanted, i);
    }
    forall i, j | 0 <= i < j < |kept| ensures kept[i].config != kept[j].config {
      KeptInOrder(pool, wanted, i, j);
    }
    forall i | 0 <= i < |spawned| ensures spawned[i].config in wanted - ConfigsOf(pool) {
      assert spawned[i] in spawned;
    }
    forall c | c in wanted ensures c in ConfigsOf(kept + spawned) {
      if c in ConfigsOf(pool) {
        var s :| s in pool && s.config == c;
        KeptHas(pool, wanted, s);
        assert s in kept + spawned;
      } else {
        assert c in ConfigsOf(spawned);
        var s :| s in spawned && s.config == c;
        assert s in kept + spawned;
      }
    }
  }

  lemma {:induction false} KeptHas(pool: seq<UpstreamServer>, wanted: set<Config>, s: UpstreamServer)
    requires s in pool && s.config in wanted
    ensures s in Kept(pool, wanted)
  {
    assert pool == pool[..|pool| - 1] + [pool[|pool| - 1]];
    if s in pool[..|pool| - 1] {
      KeptHas(pool[..|pool| - 1], wanted, s);
    }
  }

  /** Asking again for the configurations a pool already has keeps the pool, drops nothing and builds nothing. */
  lemma {:induction false} RepeatChangesNothing(pool: seq<UpstreamServer>, wanted: set<Config>)
    requires ConfigsOf(pool) <= wanted
    ensures Kept(pool, wanted) == pool && Dropped(pool, wanted) == []
    ensures wanted <= ConfigsOf(pool) ==> wanted - ConfigsOf(pool) == {}
  {
    hide ConfigsOf;
    if pool != [] {
      var front, last := pool[..|pool| - 1], pool[|pool| - 1];
      assert pool == front + [last];
      ConfigsOfAppend(front, last);
      RepeatChangesNothing(front, wanted);
    }
  }

  /** With duplicate-free lists, cleaned-up servers are gone from every list and nobody else is touched. */
  lemma {:induction false} CleanedUpServersAreGone(lists: Lists<UpstreamServer>, gone: seq<UpstreamServer>, x: UpstreamServer, n: string)
    requires DuplicateFree(lists)
    ensures DuplicateFree(AllCleanedUp(lists, gone))
    ensures Listed(AllCleanedUp(lists, gone), n, x) == if x in gone then 0 else Listed(lists, n, x)
  {
    hide SwapRemove, CleanedUp, Listed, DuplicateFree;
    if gone != [] {
      var front, last := gone[..|gone| - 1], gone[|gone| - 1];
      assert gone == front + [last];
      CleanedUpServersAreGone(lists, front, x, n);
      CleanupKeepsDuplicateFree(AllCleanedUp(lists, front), last);
      CleanupDropsOne(AllCleanedUp(lists, front), last, n, x);
    }
  }
}
