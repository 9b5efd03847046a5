/** The dashboard's two views of the routing relation: services with servers, servers with services. */
module Dashboard {
  import opened Collections
  import opened ServiceLists
  import opened Proxy

  class ServerInfo {
    const config: Config
    const provider: string
    var services: seq<ServiceInfo>

    constructor (config: Config, provider: string)
      ensures this.config == config && this.provider == provider && services == []
    {
      this.config, this.provider := config, provider;
      services := [];
    }
  }

  class ServiceInfo {
    const name: string
    var servers: seq<ServerInfo>

    constructor (name: string)
      ensures this.name == name && servers == []
    {
      this.name := name;
      servers := [];
    }
  }

  // ---------------------------------------------------------------- names in order

  predicate Leq(a: string, b: string) {
    a == [] || (b != [] && (a[0] < b[0] || (a[0] == b[0] && Leq(a[1..], b[1..]))))
  }

  /** A prefix comes first; otherwise the first character that differs decides. */
  lemma {:induction false} LeqExactly(a: string, b: string)
    ensures Leq(a, b) <==> a <= b || exists i :: FirstDifference(a, b, i) && a[i] < b[i]
  {
    if a != [] && b != [] && a[0] == b[0] {
      LeqExactly(a[1..], b[1..]);
      if i :| FirstDifference(a[1..], b[1..], i) && a[1..][i] < b[1..][i] {
        DifferenceShifts(a, b, i);
      }
      if i :| FirstDifference(a, b, i) && a[i] < b[i] {
        assert i > 0;
        DifferenceShifts(a, b, i - 1);
      }
    } else if a != [] && b != [] {
      assert FirstDifference(a, b, 0);
    }
  }

  ghost predicate FirstDifference(a: string, b: string, i: int) {
    0 <= i < |a| && i < |b| && a[i] != b[i] && forall j :: 0 <= j < i ==> a[j] == b[j]
  }

  lemma DifferenceShifts(a: string, b: string, i: nat)
    requires a != [] && b != [] && a[0] == b[0]
    ensures FirstDifference(a, b, i + 1) <==> FirstDifference(a[1..], b[1..], i)
  {
    if FirstDifference(a, b, i + 1) {
      forall j | 0 <= j < i ensures a[1..][j] == b[1..][j] {
        assert a[j + 1] == b[j + 1];
      }
    }
    if FirstDifference(a[1..], b[1..], i) {
      forall j | 0 < j < i + 1 ensures a[j] == b[j] {
        assert a[1..][j - 1] == b[1..][j - 1];
      }
    }
  }

  lemma {:induction false} LeqTotal(a: string, b: string)
    ensures Leq(a, b) || Leq(b, a)
  {
    if a != [] && b != [] && a[0] == b[0] {
      LeqTotal(a[1..], b[1..]);
    }
  }

  lemma {:induction false} LeqTransitive(a: string, b: string, c: string)
    requires Leq(a, b) && Leq(b, c)
    ensures Leq(a, c)
  {
    if a != [] && a[0] == b[0] == c[0] {
      LeqTransitive(a[1..], b[1..], c[1..]);
    }
  }

  ghost predicate InOrder(names: seq<string>) {
    forall i, j :: 0 <= i < j < |names| ==> Leq(names[i], names[j]) && names[i] != names[j]
  }

  function Insert(x: string, names: seq<string>): seq<string> {
    if names == [] || Leq(x, names[0]) then [x] + names else [names[0]] + Insert(x, names[1..])
  }

  lemma {:induction false} InsertKeepsOrder(x: string, names: seq<string>)
    requires InOrder(names) && x !in names
    ensures InOrder(Insert(x, names))
    ensures forall y :: y in Insert(x, names) <==> y == x || y in names
  {
    if names != [] {
      assert names == [names[0]] + names[1..];
      if Leq(x, names[0]) {
        forall j | 0 <= j < |names| ensures Leq(x, names[j]) && x != names[j] {
          if j > 0 {
            LeqTransitive(x, names[0], names[j]);
          }
        }
      } else {
        LeqTotal(x, names[0]);
        InsertKeepsOrder(x, names[1..]);
        var rest := Insert(x, names[1..]);
        forall j | 0 <= j < |rest| ensures Leq(names[0], rest[j]) && names[0] != rest[j] {
          assert rest[j] in rest;
        }
      }
    }
  }

  /** The keys of a map in ascending order. */
  method SortedKeys(keys: set<string>) returns (names: seq<string>)
    ensures InOrder(names) && forall n :: n in names <==> n in keys
  {
    names := [];
    var todo := keys;
    while todo != {}
      invariant todo <= keys && InOrder(names)
      invariant forall n :: n in names <==> n in keys && n !in todo
    {
      var key := Pick(todo);
      todo := todo - {key};
      InsertKeepsOrder(key, names);
      names := Insert(key, names);
    }
  }

  // ---------------------------------------------------------------- the two views

  ghost predicate Pooled(p: Proxy, s: UpstreamServer)
    reads p
  {
    exists provider :: provider in p.servers && s in p.servers[provider]
  }

  /** Each service entry as often as it lists `s`, in the order of the services. */
  ghost function Mentions(shown: seq<ServiceInfo>, lists: Lists<UpstreamServer>, s: UpstreamServer): seq<ServiceInfo> {
    if shown == [] then []
    else
      var last := shown[|shown| - 1];
      Mentions(shown[..|shown| - 1], lists, s) + Copies(last, Listed(lists, last.name, s))
  }

  /** The server view: one fresh entry per pooled server. */
  ghost predicate ServerView(p: Proxy, infos: map<UpstreamServer, ServerInfo>)
    reads p
  {
    && (forall s :: s in infos ==> Pooled(p, s))
    && (forall q, s :: q in p.servers && s in p.servers[q] ==> s in infos)
    && Describe(infos)
  }

  /** What a service entry shows for one of its servers. */
  function Shown(infos: map<UpstreamServer, ServerInfo>, unknown: ServerInfo, s: UpstreamServer): ServerInfo {
    if s in infos then infos[s] else unknown
  }

  /** Each entry describes its server and no other. */
  ghost predicate Describe(infos: map<UpstreamServer, ServerInfo>) {
    && (forall s :: s in infos ==> infos[s].config == s.config && infos[s].provider == s.provider)
    && (forall s, t :: s in infos && t in infos && s != t ==> infos[s] != infos[t])
  }

  lemma NoCopies(info: ServiceInfo)
    ensures Copies(info, 0) == []
  {
  }

  lemma OneMoreCopy(info: ServiceInfo, k: nat)
    ensures Copies(info, k + 1) == Copies(info, k) + [info]
  {
  }

  lemma CountOneMore(servers: seq<UpstreamServer>, i: nat)
    requires i < |servers|
    ensures forall s :: multiset(servers[..i + 1])[s] == multiset(servers[..i])[s] + if s == servers[i] then 1 else 0
  {
    assert servers[..i + 1] == servers[..i] + [servers[i]];
  }

  /** The list holds each entry of the map once, in unspecified order. */
  ghost predicate ListsEntries(list: seq<ServerInfo>, infos: map<UpstreamServer, ServerInfo>) {
    NoDup(list) && (forall s :: s in infos ==> infos[s] in list) && forall x :: x in list ==> exists s :: s in infos && infos[s] == x
  }

  ghost predicate AllNew(infos: map<UpstreamServer, ServerInfo>)
    reads infos.Values
  {
    forall s :: s in infos ==> infos[s].services == []
  }

  method ServerInfos(p: Proxy) returns (infos: map<UpstreamServer, ServerInfo>, list: seq<ServerInfo>)
    requires p.Valid()
    ensures ServerView(p, infos) && ListsEntries(list, infos)
    ensures fresh(infos.Values) && AllNew(infos)
  {
    infos, list := map[], [];
    var todo := p.servers.Keys;
    while todo != {}
      invariant todo <= p.servers.Keys
      invariant forall s :: s in infos ==> Pooled(p, s) && s.provider !in todo
      invariant forall q, s :: q in p.servers && q !in todo && s in p.servers[q] ==> s in infos
      invariant Describe(infos) && ListsEntries(list, infos)
      invariant fresh(infos.Values) && AllNew(infos)
    {
      hide Describe, ListsEntries, AllNew;
      var provider := Pick(todo);
      todo := todo - {provider};
      infos, list := PoolInfos(p.servers[provider], infos, list);
    }
  }

  method PoolInfos(servers: seq<UpstreamServer>, before: map<UpstreamServer, ServerInfo>, listBefore: seq<ServerInfo>)
    returns (infos: map<UpstreamServer, ServerInfo>, list: seq<ServerInfo>)
    requires Describe(before) && ListsEntries(listBefore, before) && AllNew(before)
    requires NoDup(servers) && forall s :: s in servers ==> s !in before
    ensures Describe(infos) && ListsEntries(list, infos) && AllNew(infos)
    ensures forall s :: s in infos <==> s in before || s in servers
    ensures fresh(infos.Values - before.Values)
  {
    hide *;
    infos, list := before, listBefore;
    for i := 0 to |servers|
      invariant Describe(infos) && ListsEntries(list, infos) && AllNew(infos)
      invariant forall s :: s in infos <==> s in before || s in servers[..i]
      invariant fresh(infos.Values - before.Values)
    {
      NoDupPrefix(servers, i);
      infos, list := AddEntry(servers[i], infos, list);
    }
    assert servers[..|servers|] == servers;
  }

  method AddEntry(server: UpstreamServer, before: map<UpstreamServer, ServerInfo>, listBefore: seq<ServerInfo>)
    returns (infos: map<UpstreamServer, ServerInfo>, list: seq<ServerInfo>)
    requires Describe(before) && ListsEntries(listBefore, before) && AllNew(before) && server !in before
    ensures Describe(infos) && ListsEntries(list, infos) && AllNew(infos)
    ensures (forall s :: s in infos <==> s in before || s == server) && fresh(infos.Values - before.Values)
  {
    hide Describe, ListsEntries, AllNew;
    var info := new ServerInfo(server.config, server.provider);
    OneMoreEntry(listBefore, before, server, info);
    infos := before[server := info];
    list := listBefore + [info];
  }

  lemma OneMoreEntry(list: seq<ServerInfo>, infos: map<UpstreamServer, ServerInfo>, s: UpstreamServer, info: ServerInfo)
    requires Describe(infos) && ListsEntries(list, infos) && AllNew(infos) && s !in infos && info !in infos.Values
    requires info.config == s.config && info.provider == s.provider && info.services == []
    ensures var more := infos[s := info];
            Describe(more) && ListsEntries(list + [info], more) && AllNew(more) && more.Values == infos.Values + {info}
  {
    assert info !in list;
    NoDupAppend(list, [info]);
    var more := infos[s := info];
    forall x | x in infos ensures infos[x] != info {
      assert infos[x] in infos.Values;
    }
    assert more[s] == info && forall x: UpstreamServer :: x in infos ==> more[x] == infos[x];
    forall v | v in infos.Values + {info} ensures v in more.Values {
      if v != info {
        var x: UpstreamServer :| x in infos && infos[x] == v;
        assert more[x] == v;
      }
    }
  }

  /** Appends the entry of one service and enters it with each of its servers. */
  method ShowService(name: string, servers: seq<UpstreamServer>, infos: map<UpstreamServer, ServerInfo>, unknown: ServerInfo)
    returns (info: ServiceInfo)
    requires forall s, t :: s in infos && t in infos && s != t ==> infos[s] != infos[t]
    modifies infos.Values`services
    ensures fresh(info) && info.name == name && |info.servers| == |servers|
    ensures forall i :: 0 <= i < |servers| ==> info.servers[i] == Shown(infos, unknown, servers[i])
    ensures forall s :: s in infos ==> infos[s].services == old(infos[s].services) + Copies(info, multiset(servers)[s])
  {
    hide Copies, Shown;
    info := new ServiceInfo(name);
    NoCopies(info);
    for i := 0 to |servers|
      invariant |info.servers| == i && forall j :: 0 <= j < i ==> info.servers[j] == Shown(infos, unknown, servers[j])
      invariant forall s :: s in infos ==> infos[s].services == old(infos[s].services) + Copies(info, multiset(servers[..i])[s])
    {
      CountOneMore(servers, i);
      OneMoreCopy(info, multiset(servers[..i])[servers[i]]);
      ShowServer(info, servers[i], infos, unknown);
    }
    assert servers[..|servers|] == servers;
  }

  /** One server of a service: shown as its entry, which mentions the service, or as the placeholder. */
  method ShowServer(info: ServiceInfo, server: UpstreamServer, infos: map<UpstreamServer, ServerInfo>, unknown: ServerInfo)
    requires forall s, t :: s in infos && t in infos && s != t ==> infos[s] != infos[t]
    modifies info`servers, infos.Values`services
    ensures info.servers == old(info.servers) + [Shown(infos, unknown, server)]
    ensures forall s :: s in infos && s != server ==> infos[s].services == old(infos[s].services)
    ensures server in infos ==> infos[server].services == old(infos[server].services) + [info]
  {
    info.servers := info.servers + [Shown(infos, unknown, server)];
    if server in infos {
      infos[server].services := infos[server].services + [info];
    }
  }

  /** Each service entry shows the servers of that service, in order. */
  ghost predicate ServiceView(p: Proxy, services: seq<ServiceInfo>, infos: map<UpstreamServer, ServerInfo>, unknown: ServerInfo)
    reads p, p.services.Values, services
  {
    forall i :: 0 <= i < |services| ==> services[i].name in p.services && Shows(p, services[i], infos, unknown)
  }

  ghost predicate Shows(p: Proxy, info: ServiceInfo, infos: map<UpstreamServer, ServerInfo>, unknown: ServerInfo)
    requires info.name in p.services
    reads p, p.services.Values, info
  {
    var listed := p.services[info.name].servers;
    |info.servers| == |listed| && forall k :: 0 <= k < |listed| ==> info.servers[k] == Shown(infos, unknown, listed[k])
  }

  function NamesOf(services: seq<ServiceInfo>): seq<string> {
    seq(|services|, i requires 0 <= i < |services| => services[i].name)
  }

  lemma NothingShown(p: Proxy, infos: map<UpstreamServer, ServerInfo>, unknown: ServerInfo)
    ensures ServiceView(p, [], infos, unknown)
  {
  }

  lemma ShownOneMore(p: Proxy, services: seq<ServiceInfo>, info: ServiceInfo, infos: map<UpstreamServer, ServerInfo>, unknown: ServerInfo)
    requires ServiceView(p, services, infos, unknown) && info.name in p.services
    requires |info.servers| == |p.services[info.name].servers|
    requires forall k :: 0 <= k < |info.servers| ==> info.servers[k] == Shown(infos, unknown, p.services[info.name].servers[k])
    ensures ServiceView(p, services + [info], infos, unknown)
  {
  }

  lemma NothingMentioned(lists: Lists<UpstreamServer>)
    ensures forall s :: Mentions([], lists, s) == []
  {
  }

  lemma MentionsOneMore(shown: seq<ServiceInfo>, info: ServiceInfo, lists: Lists<UpstreamServer>)
    ensures forall s :: Mentions(shown + [info], lists, s) == Mentions(shown, lists, s) + Copies(info, Listed(lists, info.name, s))
  {
    assert (shown + [info])[..|shown|] == shown;
  }

  /** Services are listed once each by name; both views are computed from the same lists. */
  method DashboardContext(p: Proxy, unknown: ServerInfo)
    returns (services: seq<ServiceInfo>, infos: map<UpstreamServer, ServerInfo>, servers: seq<ServerInfo>)
    requires p.Valid()
    ensures ServerView(p, infos) && ListsEntries(servers, infos) && forall s :: s in infos ==> infos[s] != unknown
    ensures InOrder(NamesOf(services)) && forall n :: n in NamesOf(services) <==> n in p.services
    ensures ServiceView(p, services, infos, unknown)
    ensures forall s :: s in infos ==> infos[s].services == Mentions(services, p.Lists(), s) && ByName(infos[s].services)
  {
    hide ListsEntries, ServiceView, Mentions, ByName, InOrder;
    infos, servers := ServerInfos(p);
    var names := SortedKeys(p.services.Keys);
    services := ShowServices(p, names, infos, unknown);
    forall s | s in infos ensures ByName(Mentions(services, p.Lists(), s)) {
      MentionsInOrder(services, p.Lists(), s);
    }
  }

  method ShowServices(p: Proxy, names: seq<string>, infos: map<UpstreamServer, ServerInfo>, unknown: ServerInfo)
    returns (services: seq<ServiceInfo>)
    requires Describe(infos) && (forall s :: s in infos ==> infos[s].services == []) && forall n :: n in names ==> n in p.services
    modifies infos.Values`services
    ensures NamesOf(services) == names
    ensures ServiceView(p, services, infos, unknown)
    ensures forall s :: s in infos ==> infos[s].services == Mentions(services, p.Lists(), s)
  {
    hide ServiceView, Mentions;
    services := [];
    NothingMentioned(p.Lists());
    NothingShown(p, infos, unknown);
    for j := 0 to |names|
      invariant NamesOf(services) == names[..j]
      invariant ServiceView(p, services, infos, unknown)
      invariant forall s :: s in infos ==> infos[s].services == Mentions(services, p.Lists(), s)
    {
      services := ShowNext(p, services, names[j], infos, unknown);
    }
  }

  method ShowNext(p: Proxy, before: seq<ServiceInfo>, name: string, infos: map<UpstreamServer, ServerInfo>, unknown: ServerInfo)
    returns (services: seq<ServiceInfo>)
    requires Describe(infos) && name in p.services && ServiceView(p, before, infos, unknown)
    requires forall s :: s in infos ==> infos[s].services == Mentions(before, p.Lists(), s)
    modifies infos.Values`services
    ensures NamesOf(services) == NamesOf(before) + [name]
    ensures ServiceView(p, services, infos, unknown)
    ensures forall s :: s in infos ==> infos[s].services == Mentions(services, p.Lists(), s)
  {
    hide ServiceView, Shows, Mentions, Copies, Shown;
    var info := ShowService(name, p.services[name].servers, infos, unknown);
    MentionsOneMore(before, info, p.Lists());
    ShownOneMore(p, before, info, infos, unknown);
    services := before + [info];
  }

  // ---------------------------------------------------------------- what the views mean

  /** The placeholder shows up exactly if some service lists a server that is in no pool. */
  lemma PlaceholderShownExactly(p: Proxy, services: seq<ServiceInfo>, infos: map<UpstreamServer, ServerInfo>, unknown: ServerInfo)
    requires ServerView(p, infos) && ServiceView(p, services, infos, unknown)
    requires forall s :: s in infos ==> infos[s] != unknown
    requires forall n :: n in p.services ==> n in NamesOf(services)
    ensures (exists i :: 0 <= i < |services| && unknown in services[i].servers)
       <==> exists n, s :: n in p.services && s in p.services[n].servers && !Pooled(p, s)
  {
    if i :| 0 <= i < |services| && unknown in services[i].servers {
      var k :| 0 <= k < |services[i].servers| && services[i].servers[k] == unknown;
      assert Shows(p, services[i], infos, unknown);
      var n := services[i].name;
      var s := p.services[n].servers[k];
      assert n in p.services && s in p.services[n].servers && !Pooled(p, s);
    }
    if n, s :| n in p.services && s in p.services[n].servers && !Pooled(p, s) {
      var i :| 0 <= i < |services| && services[i].name == n;
      var k :| 0 <= k < |p.services[n].servers| && p.services[n].servers[k] == s;
      assert Shows(p, services[i], infos, unknown);
      assert services[i].servers[k] == unknown;
    }
  }

  /** A service appears among a server's services exactly as often as the server among the service's servers. */
  lemma {:induction false} MentionedAsOftenAsListed(shown: seq<ServiceInfo>, lists: Lists<UpstreamServer>, s: UpstreamServer, i: nat)
    requires InOrder(NamesOf(shown)) && i < |shown|
    ensures multiset(Mentions(shown, lists, s))[shown[i]] == Listed(lists, shown[i].name, s)
  {
    hide Leq, Listed, Copies;
    var front, last := shown[..|shown| - 1], shown[|shown| - 1];
    forall j, k | 0 <= j < k < |shown| ensures Leq(shown[j].name, shown[k].name) && shown[j].name != shown[k].name {
      assert NamesOf(shown)[j] == shown[j].name && NamesOf(shown)[k] == shown[k].name;
    }
    LastMention(shown, lists, s, shown[i]);
    if i < |front| {
      MentionedAsOftenAsListed(front, lists, s, i);
    } else {
      MentionsOnlyShown(front, lists, s, last);
    }
  }

  ghost predicate ByName(infos: seq<ServiceInfo>) {
    forall j, k :: 0 <= j < k < |infos| ==> Leq(infos[j].name, infos[k].name)
  }

  /** The services of a server appear in the order of their names. */
  lemma {:induction false} MentionsInOrder(shown: seq<ServiceInfo>, lists: Lists<UpstreamServer>, s: UpstreamServer)
    requires InOrder(NamesOf(shown))
    ensures ByName(Mentions(shown, lists, s))
  {
    hide Leq, Listed, Copies, ByName;
    if shown == [] {
      NothingToOrder();
    } else {
      var front, last := shown[..|shown| - 1], shown[|shown| - 1];
      var earlier, copies := Mentions(front, lists, s), Copies(last, Listed(lists, last.name, s));
      forall j, k | 0 <= j < k < |shown| ensures Leq(shown[j].name, shown[k].name) && shown[j].name != shown[k].name {
        assert NamesOf(shown)[j] == shown[j].name && NamesOf(shown)[k] == shown[k].name;
      }
      MentionsInOrder(front, lists, s);
      forall x | x in earlier ensures Leq(x.name, last.name) {
        if x !in front {
          MentionsOnlyShown(front, lists, s, x);
          assert false;
        }
        var i :| 0 <= i < |front| && front[i] == x;
        assert shown[i] == x;
      }
      CopiesOnly(last, Listed(lists, last.name, s));
      CopiesKeepOrder(earlier, copies, last);
    }
  }

  lemma NothingToOrder()
    ensures ByName([])
  {
  }

  lemma CopiesKeepOrder(earlier: seq<ServiceInfo>, copies: seq<ServiceInfo>, last: ServiceInfo)
    requires ByName(earlier) && (forall x :: x in earlier ==> Leq(x.name, last.name)) && forall x :: x in copies ==> x == last
    ensures ByName(earlier + copies)
  {
    var all := earlier + copies;
    LeqTotal(last.name, last.name);
    forall j, k | 0 <= j < k < |all| ensures Leq(all[j].name, all[k].name) {
      if k >= |earlier| {
        assert copies[k - |earlier|] in copies;
        assert all[j] in if j < |earlier| then earlier else copies;
      }
    }
  }

  lemma {:induction false} CopiesOnly(info: ServiceInfo, k: nat)
    ensures forall x :: x in Copies(info, k) ==> x == info
  {
    if k > 0 {
      CopiesOnly(info, k - 1);
      OneMoreCopy(info, k - 1);
    }
  }

  lemma LastMention(shown: seq<ServiceInfo>, lists: Lists<UpstreamServer>, s: UpstreamServer, x: ServiceInfo)
    requires shown != []
    ensures multiset(Mentions(shown, lists, s))[x]
         == multiset(Mentions(shown[..|shown| - 1], lists, s))[x]
            + if x == shown[|shown| - 1] then Listed(lists, x.name, s) else 0
  {
    var last := shown[|shown| - 1];
    CountCopies(last, Listed(lists, last.name, s));
  }

  lemma {:induction false} MentionsOnlyShown(shown: seq<ServiceInfo>, lists: Lists<UpstreamServer>, s: UpstreamServer, info: ServiceInfo)
    requires info !in shown
    ensures info !in Mentions(shown, lists, s)
  {
    if shown != [] {
      assert shown == shown[..|shown| - 1] + [shown[|shown| - 1]];
      MentionsOnlyShown(shown[..|shown| - 1], lists, s, info);
    }
  }
}
