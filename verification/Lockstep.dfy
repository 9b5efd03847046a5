/**
 * The deduplicating transfer protocol: the server remembers per stream what it sent, the
 * client remembers what it received, and the two stay in step over every run.
 *
 * Steps: opening a stream, asking for a symbol (the lookup may fail), receiving the answer,
 * and losing the stream.  An answer already buffered when the stream is lost may still be
 * received afterwards.
 */
module Lockstep {
  import opened Collections
  import opened ImportGraph
  import opened ReflectionServer
  import opened ReflectionClient

  /** `sentBefore` records what the server had marked as sent when it computed the answer. */
  datatype Exchange = Idle | Answered(root: File, files: seq<File>, sentBefore: set<string>)

  /** An answer that was received after the loss of its stream. */
  datatype Late = Late(root: File, sentBefore: set<string>)

  datatype State = State(
    connected: bool,
    sent: set<string>,                  // the server's memory for the current stream
    cache: map<string, FileProto>,      // the client's memory
    exchange: Exchange,                 // an answer not yet read by the client
    roots: seq<File>,                   // history: requests completed on the current stream
    leftover: set<string>,              // history: cache keys present when the stream was opened
    late: Option<Late>)                 // history: the late answer received since the last loss, if any

  datatype Event =
    | Open
    | Ask(root: Option<File>)           // the file found for the symbol, if any
    | Receive
    | Lose(answerKept: bool)

  const INITIAL := State(false, {}, map[], Idle, [], {}, None)

  ghost predicate Enabled(s: State, e: Event) {
    match e
    case Open => !s.connected && s.exchange.Idle?
    case Ask(_) => s.connected && s.exchange.Idle?
    case Receive => s.exchange.Answered?
    case Lose(_) => s.connected
  }

  ghost function Encode(files: seq<File>): (protos: seq<FileProto>)
    ensures IsEncodingOf(protos, files)
  {
    seq(|files|, i requires 0 <= i < |files| => ToProto(files[i]))
  }

  ghost function Step(s: State, e: Event): State
    requires Enabled(s, e)
  {
    match e
    case Open => s.(connected := true, sent := {}, roots := [], leftover := s.cache.Keys)
    case Ask(root) =>
      if root.None? || root.value.Placeholder? then s
      else
        s.(exchange := Answered(root.value, Transfer(root.value, s.sent), s.sent),
           sent := s.sent + PathSet(Closure(root.value)))
    case Receive =>
      s.(exchange := Idle,
         cache := Fill(s.cache, Encode(s.exchange.files)),
         roots := if s.connected then s.roots + [s.exchange.root] else s.roots,
         late := if s.connected then s.late else Some(Late(s.exchange.root, s.exchange.sentBefore)))
    case Lose(answerKept) =>
      s.(connected := false, cache := map[], exchange := if answerKept then s.exchange else Idle, late := None)
  }

  ghost predicate IsRun(s: State, events: seq<Event>, t: State)
    decreases |events|
  {
    if events == [] then s == t
    else Enabled(s, events[0]) && IsRun(Step(s, events[0]), events[1..], t)
  }

  // ---------------------------------------------------------------- the invariant

  /** Some file requested or imported on the current stream has this path and this encoding. */
  ghost predicate FromStream(roots: seq<File>, p: string, proto: FileProto) {
    exists x :: x in Closures(roots) && x.path == p && ToProto(x) == proto
  }

  /** The files of the late answer. */
  ghost function LateFiles(s: State): seq<File> {
    if s.late.Some? && s.late.value.root.File? then Transfer(s.late.value.root, s.late.value.sentBefore) else []
  }

  ghost function CurrentRoots(s: State): seq<File> {
    if s.connected then s.roots else []
  }

  /** The paths in `sent` are what the requests completed on the current stream account for.  They and
      those of a late answer are cached, each with a file of this stream or of that answer. */
  ghost predicate Matches(sent: set<string>, s: State) {
    && sent == PathSet(Closures(CurrentRoots(s)))
    && (forall p :: p in s.cache <==> p in sent || HasPath(LateFiles(s), p))
    && (forall p :: p in sent ==> FromStream(CurrentRoots(s), p, s.cache[p]))
    && (forall f :: f in LateFiles(s) && f.path !in sent ==> f.path in s.cache && s.cache[f.path] == ToProto(f))
  }

  ghost predicate InStep(s: State) {
    && (s.connected ==> forall p :: p in s.leftover <==> HasPath(LateFiles(s), p))
    && match s.exchange
       case Idle => Matches(if s.connected then s.sent else {}, s)
       case Answered(root, files, sentBefore) =>
         && root.File? && files == Transfer(root, sentBefore)
         && s.sent == sentBefore + PathSet(Closure(root))
         && (if s.connected then Matches(sentBefore, s) else s.cache == map[])
  }

  lemma StepKeepsInStep(s: State, e: Event)
    requires InStep(s) && Enabled(s, e)
    ensures InStep(Step(s, e))
  {
    hide Transfer, Fill, PathSet, FromStream;
    if e.Receive? && s.connected {
      ReceiveKeepsInStep(s);
    } else if e.Receive? {
      LateReceiveKeepsInStep(s);
    } else if e.Open? || e.Lose? {
      NothingSent();
    }
  }

  lemma NothingSent()
    ensures PathSet(Closures([])) == {} && forall p :: !HasPath([], p)
  {
  }

  lemma ReceiveKeepsInStep(s: State)
    requires InStep(s) && s.connected && s.exchange.Answered?
    ensures InStep(Step(s, Receive))
  {
    hide Transfer, Closure, Closures, Fill, FromStream, PathSet, HasPath;
    var t := Step(s, Receive);
    AppendRoot(s.roots, s.exchange.root);
    PathSetUnion(Closures(s.roots), Closure(s.exchange.root));
    assert LateFiles(t) == LateFiles(s);
    forall p ensures p in t.cache <==> p in t.sent || HasPath(LateFiles(t), p)
             ensures p in t.sent ==> p in t.cache && FromStream(t.roots, p, t.cache[p])
             ensures p !in t.sent && p in s.cache ==> p in t.cache && t.cache[p] == s.cache[p]
    {
      ReceivedEntry(s, p);
    }
  }

  lemma ReceivedEntry(s: State, p: string)
    requires InStep(s) && s.connected && s.exchange.Answered?
    ensures var t := Step(s, Receive);
            && (p in t.cache <==> p in t.sent || HasPath(LateFiles(t), p))
            && (p in t.sent ==> p in t.cache && FromStream(t.roots, p, t.cache[p]))
            && (p !in t.sent && p in s.cache ==> p in t.cache && t.cache[p] == s.cache[p])
  {
    hide Transfer, Closure, Closures, Fill, PathSet;
    var t := Step(s, Receive);
    var Answered(root, files, sentBefore) := s.exchange;
    AppendRoot(s.roots, root);
    RootInClosure(root);
    RootPathInPathSet(root);
    TransferPaths(root, sentBefore, p);
    TransferElements(root, sentBefore);
    ReceivedName(s.cache, files, p);
    if p in t.sent && HasPath(files, p) {
      var f :| f in files && f.path == p && t.cache[p] == ToProto(f);
      assert f in Closures(t.roots);
    } else if p in t.sent {
      assert FromStream(s.roots, p, s.cache[p]);
    }
  }

  lemma LateReceiveKeepsInStep(s: State)
    requires InStep(s) && !s.connected && s.exchange.Answered?
    ensures InStep(Step(s, Receive))
  {
    hide Transfer, Closure, Fill, PathSet, HasPath, FromStream;
    NothingSent();
    var t, files := Step(s, Receive), s.exchange.files;
    TransferIsFresh(s.exchange.root, s.exchange.sentBefore);
    forall p ensures p in t.cache <==> HasPath(files, p) {
      ReceivedName(map[], files, p);
    }
    forall f | f in files ensures f.path in t.cache && t.cache[f.path] == ToProto(f) {
      ReceivedFile(files, f);
    }
  }

  lemma ReceivedFile(files: seq<File>, f: File)
    requires DistinctPaths(files) && f in files
    ensures var cache := Fill(map[], Encode(files)); f.path in cache && cache[f.path] == ToProto(f)
  {
    hide Fill;
    ReceivedName(map[], files, f.path);
    assert HasPath(files, f.path);
    var g :| g in files && g.path == f.path && Fill(map[], Encode(files))[f.path] == ToProto(g);
    var i, j :| 0 <= i < |files| && 0 <= j < |files| && files[i] == f && files[j] == g;
    assert i == j;
  }

  /** What reading one answer does to one cache entry. */
  lemma ReceivedName(cache: map<string, FileProto>, files: seq<File>, p: string)
    ensures p in Fill(cache, Encode(files)) <==> p in cache || HasPath(files, p)
    ensures HasPath(files, p) ==> exists f :: f in files && f.path == p && Fill(cache, Encode(files))[p] == ToProto(f)
    ensures !HasPath(files, p) && p in cache ==> Fill(cache, Encode(files))[p] == cache[p]
  {
    hide Fill;
    var protos := Encode(files);
    FillExact(cache, protos, p);
    if HasPath(files, p) {
      var f :| f in files && f.path == p;
      var i :| 0 <= i < |files| && files[i] == f;
      assert protos[i].name == p;
      var k :| 0 <= k < |protos| && protos[k].name == p && Fill(cache, protos)[p] == protos[k];
      assert files[k] in files && files[k].path == p;
    } else {
      forall i | 0 <= i < |protos| ensures protos[i].name != p {
        assert files[i] in files;
      }
    }
  }

  lemma RootPathInPathSet(root: File)
    requires root.File?
    ensures root.path in PathSet(Closure(root))
  {
    RootInClosure(root);
  }

  lemma PathSetUnion(a: set<File>, b: set<File>)
    ensures PathSet(a + b) == PathSet(a) + PathSet(b)
  {
  }

  lemma AppendRoot(roots: seq<File>, root: File)
    ensures Closures(roots + [root]) == Closures(roots) + Closure(root)
  {
    ClosuresAppend(roots, [root]);
    assert Closures([root]) == Closure(root) + Closures([]);
  }

  lemma {:induction false} RunKeepsInStep(s: State, events: seq<Event>, t: State)
    requires InStep(s) && IsRun(s, events, t)
    ensures InStep(t)
    decreases |events|
  {
    if events != [] {
      StepKeepsInStep(s, events[0]);
      RunKeepsInStep(Step(s, events[0]), events[1..], t);
    }
  }

  lemma ReachableInStep(events: seq<Event>, t: State)
    requires IsRun(INITIAL, events, t)
    ensures InStep(t)
  {
    NothingSent();
    RunKeepsInStep(INITIAL, events, t);
  }

  // ---------------------------------------------------------------- lockstep

  /** Everything the answer under way relies on is cached: its stream was not lost meanwhile, or
      nothing but its root had been sent before. */
  ghost predicate NothingMissing(s: State)
    requires s.exchange.Answered?
  {
    s.connected || PathSet(Closure(s.exchange.root)) * s.exchange.sentBefore <= {s.exchange.root.path}
  }

  /** Completing an exchange leaves the client with the whole closure of the requested file exactly if
      nothing is missing, and with all the server marked as sent exactly if the stream was not lost or
      had carried nothing but that file's path before. */
  lemma ServerNeverAheadOfClient(events: seq<Event>, s: State)
    requires IsRun(INITIAL, events, s) && s.exchange.Answered?
    ensures var t := Step(s, Receive);
            && (PathSet(Closure(s.exchange.root)) <= t.cache.Keys <==> NothingMissing(s))
            && (t.sent <= t.cache.Keys <==> s.connected || s.exchange.sentBefore <= {s.exchange.root.path})
  {
    hide Closure, Closures, PathSet, Transfer, Fill, FromStream, HasPath;
    ReachableInStep(events, s);
    RootPathInPathSet(s.exchange.root);
    forall p ensures p in Step(s, Receive).cache
                <==> p in s.cache || p == s.exchange.root.path || (p in PathSet(Closure(s.exchange.root)) && p !in s.exchange.sentBefore)
    {
      CachedAfterReceive(s, p);
    }
    Covers(s.cache.Keys, Step(s, Receive).cache.Keys, PathSet(Closure(s.exchange.root)), s.exchange.sentBefore,
           s.exchange.root.path, s.connected);
  }

  lemma Covers(cache: set<string>, after: set<string>, closure: set<string>, sentBefore: set<string>, root: string, connected: bool)
    requires forall p :: p in after <==> p in cache || p == root || (p in closure && p !in sentBefore)
    requires root in closure && if connected then sentBefore <= cache else cache == {}
    ensures closure <= after <==> connected || closure * sentBefore <= {root}
    ensures sentBefore + closure <= after <==> connected || sentBefore <= {root}
  {
    if !connected && closure <= after {
      forall p | p in closure * sentBefore ensures p == root {}
    }
    if !connected && sentBefore + closure <= after {
      forall p | p in sentBefore ensures p == root {
        assert p in sentBefore + closure;
      }
    }
    if connected || closure * sentBefore <= {root} {
      forall p | p in closure ensures p in after {
        assert p in sentBefore ==> p in closure * sentBefore;
      }
    }
  }

  lemma CachedAfterReceive(s: State, p: string)
    requires InStep(s) && s.exchange.Answered?
    ensures p in Step(s, Receive).cache
       <==> p in s.cache || p == s.exchange.root.path || (p in PathSet(Closure(s.exchange.root)) && p !in s.exchange.sentBefore)
  {
    hide Closure, PathSet, Transfer, Fill, HasPath;
    ReceivedName(s.cache, s.exchange.files, p);
    TransferPaths(s.exchange.root, s.exchange.sentBefore, p);
  }

  /** As long as a stream lives, between exchanges the cache holds exactly what the server marked as
      sent and what was left over: in particular the whole closure of every file requested on it. */
  lemma WholeStreamIsCached(events: seq<Event>, t: State)
    requires IsRun(INITIAL, events, t) && t.connected && t.exchange.Idle?
    ensures t.sent <= t.cache.Keys && t.cache.Keys == t.sent + t.leftover
    ensures forall i, x :: 0 <= i < |t.roots| && x in Closure(t.roots[i]) ==> x.path in t.cache
  {
    hide Closure, Closures;
    ReachableInStep(events, t);
    forall i, x | 0 <= i < |t.roots| && x in Closure(t.roots[i]) ensures x.path in t.cache {
      ClosuresMember(t.roots, i);
    }
  }

  /** Equal paths on one stream mean equal files, as far as their encoding shows. */
  ghost predicate Consistent(roots: seq<File>) {
    forall x, y :: x in Closures(roots) && y in Closures(roots) && x.path == y.path ==> ToProto(x) == ToProto(y)
  }

  /** With equal paths meaning equal files, an answer changes the cache as sending the full closure
      would have done exactly if nothing is missing. */
  lemma SameAsSendingEverything(events: seq<Event>, s: State)
    requires IsRun(INITIAL, events, s) && s.exchange.Answered?
    requires Consistent(CurrentRoots(s) + [s.exchange.root])
    ensures Step(s, Receive).cache == Fill(s.cache, Encode(Bfs([s.exchange.root]))) <==> NothingMissing(s)
  {
    hide Closures, Closure, Fill, Bfs, Transfer, PathSet;
    ReachableInStep(events, s);
    var full, deduplicated := Fill(s.cache, Encode(Bfs([s.exchange.root]))), Step(s, Receive).cache;
    if NothingMissing(s) {
      forall p ensures p in full <==> p in deduplicated
               ensures p in full ==> full[p] == deduplicated[p]
      {
        SameEntry(s, p);
      }
      assert full == deduplicated;
    } else {
      var p :| p in PathSet(Closure(s.exchange.root)) * s.exchange.sentBefore && p != s.exchange.root.path;
      CachedAfterReceive(s, p);
      FullClosureHas(s, p);
      assert p in full && p !in deduplicated;
    }
  }

  lemma FullClosureHas(s: State, p: string)
    requires s.exchange.Answered? && p in PathSet(Closure(s.exchange.root))
    ensures p in Fill(s.cache, Encode(Bfs([s.exchange.root])))
  {
    hide Closure, Bfs, Fill;
    EverythingIsClosure(s.exchange.root);
    ReceivedName(s.cache, Bfs([s.exchange.root]), p);
    var f :| f in Closure(s.exchange.root) && f.path == p;
    assert f in Bfs([s.exchange.root]);
  }

  lemma EverythingIsClosure(root: File)
    ensures forall f :: f in Bfs([root]) <==> f in Closure(root)
  {
    hide Closure, Bfs;
    forall f ensures f in Bfs([root]) <==> f in Closure(root) {
      BfsVisitsClosure([root], f);
      SingletonClosure(root);
    }
  }

  lemma SingletonClosure(root: File)
    ensures Closures([root]) == Closure(root)
  {
    assert [root][1..] == [];
  }

  lemma SameEntry(s: State, p: string)
    requires InStep(s) && s.exchange.Answered? && NothingMissing(s) && Consistent(CurrentRoots(s) + [s.exchange.root])
    ensures var full, deduplicated := Fill(s.cache, Encode(Bfs([s.exchange.root]))), Step(s, Receive).cache;
            (p in full <==> p in deduplicated) && (p in full ==> full[p] == deduplicated[p])
  {
    hide Closures, Closure, Fill, Bfs, Transfer;
    var Answered(root, files, sentBefore) := s.exchange;
    EverythingIsClosure(root);
    AppendRoot(CurrentRoots(s), root);
    RootInClosure(root);
    ReceivedName(s.cache, Bfs([root]), p);
    ReceivedName(s.cache, files, p);
    TransferPaths(root, sentBefore, p);
    TransferElements(root, sentBefore);
    if HasPath(Bfs([root]), p) {
      assert p in PathSet(Closure(root));
    }
    if p in PathSet(Closure(root)) {
      var f :| f in Closure(root) && f.path == p;
      assert f in Bfs([root]);
    }
    if p in PathSet(Closure(root)) && p in sentBefore {
      if s.connected {
        assert FromStream(s.roots, p, s.cache[p]);
      } else {
        assert p in PathSet(Closure(root)) * sentBefore;
      }
    }
  }

  /** The cached contents are right for every requested file exactly when the stream is consistent. */
  lemma ContentsAgreeExactly(events: seq<Event>, t: State)
    requires IsRun(INITIAL, events, t) && t.connected && t.exchange.Idle?
    ensures Consistent(t.roots)
       <==> forall x :: x in Closures(t.roots) ==> x.path in t.cache && t.cache[x.path] == ToProto(x)
  {
    hide Closures, Closure;
    ReachableInStep(events, t);
    forall x | x in Closures(t.roots) ensures x.path in t.cache && FromStream(t.roots, x.path, t.cache[x.path]) {}
  }

  ghost predicate IsLeaf(f: File) { f.File? && f.imports == [] }

  /** Two different files sharing a path: the second one is never sent, and the client keeps the first. */
  lemma InconsistentStreamMisleads(v1: File, v2: File, root: File)
    requires IsLeaf(v1) && IsLeaf(v2) && v1.path == v2.path && ToProto(v1) != ToProto(v2)
    requires root.File? && root.imports == [v2] && root.path != v1.path
    ensures exists t :: IsRun(INITIAL, [Open, Ask(Some(v1)), Receive, Ask(Some(root)), Receive], t)
                        && t.sent == {v1.path, root.path} && v2.path in t.cache && t.cache[v2.path] == ToProto(v1)
  {
    var s1 := Step(INITIAL, Open);
    var s2 := Step(s1, Ask(Some(v1)));
    LeafTransfer(v1, {});
    var s3 := Step(s2, Receive);
    FillOne(map[], v1);
    var s4 := Step(s3, Ask(Some(root)));
    ImportsLeaf(root, v2, s3.sent);
    var t := Step(s4, Receive);
    FillOne(s3.cache, root);
    assert IsRun(t, [], t);
    assert IsRun(s4, [Receive], t);
    assert IsRun(s3, [Ask(Some(root)), Receive], t);
    assert IsRun(s2, [Receive, Ask(Some(root)), Receive], t);
    assert IsRun(s1, [Ask(Some(v1)), Receive, Ask(Some(root)), Receive], t);
    assert IsRun(INITIAL, [Open, Ask(Some(v1)), Receive, Ask(Some(root)), Receive], t);
  }

  lemma LeafTransfer(f: File, sent: set<string>)
    requires IsLeaf(f)
    ensures Transfer(f, sent) == [f] && PathSet(Closure(f)) == {f.path}
  {
    assert Closure(f) == {f};
  }

  lemma ImportsLeaf(root: File, leaf: File, sent: set<string>)
    requires root.File? && root.imports == [leaf] && IsLeaf(leaf) && leaf.path in sent
    ensures Transfer(root, sent) == [root] && PathSet(Closure(root)) == {root.path, leaf.path}
  {
    assert [leaf][1..] + leaf.imports == [];
    assert Bfs([leaf]) == [leaf] + Bfs([]);
    assert [leaf][1..] == [];
    assert Unsent([leaf], sent + {root.path}) == Unsent([], sent + {root.path});
    assert Closures([leaf]) == {leaf};
    assert Closure(root) == {root, leaf};
  }

  lemma FillOne(cache: map<string, FileProto>, f: File)
    ensures Fill(cache, Encode([f])) == cache[f.path := ToProto(f)]
  {
    assert Encode([f]) == [ToProto(f)];
    assert [ToProto(f)][..0] == [];
  }

  // ---------------------------------------------------------------- the life of the cache

  /** An answer was received after the loss of its stream and before the current stream was opened. */
  ghost predicate LateReceive(events: seq<Event>) {
    exists r, o :: IsLateReceive(events, r, o)
  }

  /** Event `o` opened the current stream, and no stream was lost between the receipt at `r` and it. */
  ghost predicate IsLateReceive(events: seq<Event>, r: int, o: int) {
    && 0 <= r < o < |events| && events[r].Receive? && events[o].Open?
    && (forall j :: r < j < o ==> !events[j].Lose?)
    && (forall j :: o < j < |events| ==> !events[j].Open?)
  }

  ghost predicate ReceivedSinceLoss(events: seq<Event>) {
    exists r :: IsReceiptSinceLoss(events, r)
  }

  ghost predicate IsReceiptSinceLoss(events: seq<Event>, r: int) {
    0 <= r < |events| && events[r].Receive? && forall j :: r < j < |events| ==> !events[j].Lose?
  }

  lemma ReceivedSinceLossStep(events: seq<Event>, e: Event)
    ensures ReceivedSinceLoss(events + [e]) <==> e.Receive? || (!e.Lose? && ReceivedSinceLoss(events))
  {
    var all, n := events + [e], |events|;
    if e.Receive? {
      assert IsReceiptSinceLoss(all, n);
    } else if ReceivedSinceLoss(events) && !e.Lose? {
      var r :| IsReceiptSinceLoss(events, r);
      assert IsReceiptSinceLoss(all, r);
    } else if ReceivedSinceLoss(all) {
      var r :| IsReceiptSinceLoss(all, r);
      assert all[n] == e;
      EarlierReceipt(events, e, r);
    }
  }

  lemma EarlierReceipt(events: seq<Event>, e: Event, r: int)
    requires IsReceiptSinceLoss(events + [e], r) && r < |events|
    ensures IsReceiptSinceLoss(events, r)
  {
    forall j | r <= j < |events| ensures events[j] == (events + [e])[j] {}
  }

  lemma LateReceiveStep(events: seq<Event>, e: Event)
    ensures LateReceive(events + [e]) <==> if e.Open? then ReceivedSinceLoss(events) else LateReceive(events)
  {
    var all, n := events + [e], |events|;
    if e.Open? && ReceivedSinceLoss(events) {
      var r :| IsReceiptSinceLoss(events, r);
      assert IsLateReceive(all, r, n);
    } else if !e.Open? && LateReceive(events) {
      var r, o :| IsLateReceive(events, r, o);
      assert IsLateReceive(all, r, o);
    } else if LateReceive(all) {
      var r, o :| IsLateReceive(all, r, o);
      EarlierLateReceive(events, e, r, o);
    }
  }

  lemma EarlierLateReceive(events: seq<Event>, e: Event, r: int, o: int)
    requires IsLateReceive(events + [e], r, o)
    ensures if e.Open? then IsReceiptSinceLoss(events, r) else IsLateReceive(events, r, o)
  {
    var all := events + [e];
    assert all[|events|] == e;
    forall j | 0 <= j < |events| ensures events[j] == all[j] {}
  }

  lemma {:induction false} RunSnoc(s: State, events: seq<Event>, t: State) returns (u: State)
    requires events != [] && IsRun(s, events, t)
    ensures var n := |events| - 1; IsRun(s, events[..n], u) && Enabled(u, events[n]) && t == Step(u, events[n])
    decreases |events|
  {
    if |events| == 1 {
      assert events[1..] == [];
      u := s;
    } else {
      u := RunSnoc(Step(s, events[0]), events[1..], t);
      var n := |events| - 1;
      assert events[1..][..n - 1] == events[..n][1..];
    }
  }

  /** What the caches of both kinds of states tell about the events that led to them. */
  ghost predicate CacheTells(events: seq<Event>, t: State) {
    && (t.exchange.Answered? ==> t.exchange.files != [])
    && (if t.connected then t.leftover == {} <==> !LateReceive(events)
        else t.cache == map[] <==> !ReceivedSinceLoss(events))
  }

  lemma {:induction false} RunKeepsCacheTelling(events: seq<Event>, t: State)
    requires IsRun(INITIAL, events, t)
    ensures CacheTells(events, t)
    decreases |events|
  {
    hide LateReceive, ReceivedSinceLoss, Fill, Closure;
    if events != [] {
      var n := |events| - 1;
      var u := RunSnoc(INITIAL, events, t);
      RunKeepsCacheTelling(events[..n], u);
      assert events == events[..n] + [events[n]];
      ReceivedSinceLossStep(events[..n], events[n]);
      LateReceiveStep(events[..n], events[n]);
      if events[n].Receive? {
        FillsSomething(u.cache, u.exchange.files);
      }
    } else {
      NothingReceivedYet();
    }
  }

  lemma NothingReceivedYet()
    ensures !ReceivedSinceLoss([])
  {
  }

  lemma FillsSomething(cache: map<string, FileProto>, files: seq<File>)
    requires files != []
    ensures Fill(cache, Encode(files)) != map[]
  {
    hide Fill;
    ReceivedName(cache, files, files[0].path);
    assert files[0] in files;
  }

  /** The cache holds one stream's files and nothing else exactly when no answer was received between
      the last loss of a stream and the opening of the current one. */
  lemma CacheLivesForOneStream(events: seq<Event>, t: State)
    requires IsRun(INITIAL, events, t) && t.connected
    ensures t.leftover == {} <==> !LateReceive(events)
    ensures t.exchange.Idle? && !LateReceive(events) ==> t.cache.Keys == PathSet(Closures(t.roots))
  {
    hide LateReceive, Closures, PathSet;
    RunKeepsCacheTelling(events, t);
    ReachableInStep(events, t);
  }

  /** A run with such an answer: its file is still cached on the next stream. */
  lemma LateAnswerOutlivesItsStream(f: File)
    requires IsLeaf(f)
    ensures var events := [Open, Ask(Some(f)), Lose(true), Receive, Open];
            exists t :: IsRun(INITIAL, events, t) && t.connected && t.sent == {} && t.cache.Keys == {f.path}
  {
    var s1 := Step(INITIAL, Open);
    var s2 := Step(s1, Ask(Some(f)));
    LeafTransfer(f, {});
    var s3 := Step(s2, Lose(true));
    var s4 := Step(s3, Receive);
    FillOne(map[], f);
    var t := Step(s4, Open);
    assert IsRun(t, [], t);
    assert IsRun(s4, [Open], t);
    assert IsRun(s3, [Receive, Open], t);
    assert IsRun(s2, [Lose(true), Receive, Open], t);
    assert IsRun(s1, [Ask(Some(f)), Lose(true), Receive, Open], t);
    assert IsRun(INITIAL, [Open, Ask(Some(f)), Lose(true), Receive, Open], t);
  }

  /** A run whose late answer is incomplete: `a` and `b` both import `c`, which was sent with `a`. */
  function RunUpToLateAnswer(a: File, b: File): seq<Event> {
    [Open, Ask(Some(a)), Receive, Ask(Some(b)), Lose(true), Receive]
  }

  /** Where it ends. */
  ghost function AfterLateAnswer(a: File, b: File, c: File): State {
    State(false, {a.path, b.path, c.path}, map[b.path := ToProto(b)], Idle, [a], {}, Some(Late(b, {a.path, c.path})))
  }

  lemma LateAnswerRun(a: File, b: File, c: File, rest: seq<Event>, t: State)
    requires a.File? && b.File? && a.imports == [c] && b.imports == [c] && IsLeaf(c)
    requires IsRun(AfterLateAnswer(a, b, c), rest, t)
    ensures IsRun(INITIAL, RunUpToLateAnswer(a, b) + rest, t)
  {
    hide Fill, Transfer, PathSet, Closure, Encode, IsRun;
    ImportsLeaf(a, c, {c.path});
    ImportsLeaf(b, c, {a.path, c.path});
    FillOne(map[], b);
    var s1 := Step(INITIAL, Open);
    var s2 := Step(s1, Ask(Some(a)));
    var s3 := Step(s2, Receive);
    var s4 := Step(s3, Ask(Some(b)));
    var s5 := Step(s4, Lose(true));
    assert s2.sent == {a.path, c.path} && s4.sent == {a.path, b.path, c.path} && s3.roots == [a];
    assert Step(s5, Receive) == AfterLateAnswer(a, b, c);
    RunCons(s5, Receive, rest, t);
    RunCons(s4, Lose(true), [Receive] + rest, t);
    RunCons(s3, Ask(Some(b)), [Lose(true)] + ([Receive] + rest), t);
    RunCons(s2, Receive, [Ask(Some(b))] + ([Lose(true)] + ([Receive] + rest)), t);
    RunCons(s1, Ask(Some(a)), [Receive] + ([Ask(Some(b))] + ([Lose(true)] + ([Receive] + rest))), t);
    RunCons(INITIAL, Open, [Ask(Some(a))] + ([Receive] + ([Ask(Some(b))] + ([Lose(true)] + ([Receive] + rest)))), t);
    assert RunUpToLateAnswer(a, b) + rest
        == [Open] + ([Ask(Some(a))] + ([Receive] + ([Ask(Some(b))] + ([Lose(true)] + ([Receive] + rest)))));
  }

  lemma RunCons(s: State, e: Event, rest: seq<Event>, t: State)
    requires Enabled(s, e) && IsRun(Step(s, e), rest, t)
    ensures IsRun(s, [e] + rest, t)
  {
    assert ([e] + rest)[1..] == rest;
  }

  /** After it the client lacks a file that the server marked as sent and that the requested file imports. */
  lemma LateAnswerLacksImports(a: File, b: File, c: File)
    requires a.File? && b.File? && a.imports == [c] && b.imports == [c] && IsLeaf(c) && c.path != b.path
    ensures exists t :: IsRun(INITIAL, RunUpToLateAnswer(a, b) + [], t)
                        && c.path in t.sent && c.path in PathSet(Closure(b)) && c.path !in t.cache
  {
    hide IsRun;
    ImportsLeaf(b, c, {c.path});
    var t := AfterLateAnswer(a, b, c);
    EmptyRun(t);
    LateAnswerRun(a, b, c, [], t);
  }

  lemma EmptyRun(s: State)
    ensures IsRun(s, [], s)
  {
  }

  /** A stream opened after it cannot link anything, although nothing was asked on it yet and no
      placeholder is involved. */
  lemma LateAnswerBreaksLinking(a: File, b: File, c: File)
    requires a.File? && b.File? && a.imports == [c] && b.imports == [c] && IsLeaf(c) && c.path != b.path
    ensures exists t :: IsRun(INITIAL, RunUpToLateAnswer(a, b) + [Open], t)
                        && t.connected && t.exchange.Idle? && t.roots == [] && !Linkable(t.cache)
  {
    hide IsRun;
    var s := AfterLateAnswer(a, b, c);
    var t := Step(s, Open);
    EmptyRun(t);
    RunCons(s, Open, [], t);
    assert [Open] + [] == [Open];
    LateAnswerRun(a, b, c, [Open], t);
    assert b.path in t.cache && t.cache[b.path].dependencies[0] == c.path && c.path !in t.cache;
  }

  // ---------------------------------------------------------------- linking

  /** The client holds this very file, as far as its encoding shows. */
  ghost predicate IsHeld(t: State, x: File) {
    x.path in t.cache && t.cache[x.path] == ToProto(x)
  }

  ghost predicate ImportsCached(t: State, x: File) {
    x.File? ==> forall i :: 0 <= i < |x.imports| ==> x.imports[i].path in t.cache
  }

  /** All placeholders that `x` imports share their paths with cached files. */
  ghost predicate PlaceholdersCovered(t: State, x: File) {
    x.File? ==> forall i :: 0 <= i < |x.imports| && x.imports[i].Placeholder? ==> x.imports[i].path in t.cache
  }

  /** Whether linking succeeds between exchanges: exactly if the cache covers the placeholders imported
      by the held files of the current stream, and all imports of what a late answer left over. */
  lemma LinkingSucceedsExactly(events: seq<Event>, t: State)
    requires IsRun(INITIAL, events, t) && t.exchange.Idle?
    ensures Linkable(t.cache)
       <==> (forall x :: x in Closures(CurrentRoots(t)) && IsHeld(t, x) ==> PlaceholdersCovered(t, x))
            && forall f :: f in LateFiles(t) && f.path !in PathSet(Closures(CurrentRoots(t))) ==> ImportsCached(t, f)
  {
    hide Closures, Closure, PathSet, FromStream, Transfer;
    ReachableInStep(events, t);
    var all := Closures(CurrentRoots(t));
    if Linkable(t.cache) {
      forall x | x in all && IsHeld(t, x) ensures PlaceholdersCovered(t, x) {
        LinkedImports(t, x);
      }
      forall f | f in LateFiles(t) && f.path !in PathSet(all) ensures ImportsCached(t, f) {
        LinkedImports(t, f);
      }
    }
    if (forall x :: x in all && IsHeld(t, x) ==> PlaceholdersCovered(t, x))
       && forall f :: f in LateFiles(t) && f.path !in PathSet(all) ==> ImportsCached(t, f)
    {
      forall name | name in t.cache ensures exists x :: t.cache[name] == ToProto(x) && ImportsCached(t, x) {
        var x := CachedFile(t, name);
        if name in PathSet(all) {
          StreamImportsCached(t, x);
        }
      }
      AllImportsCachedLinks(t);
    }
  }

  lemma LinkedImports(t: State, x: File)
    requires Linkable(t.cache) && IsHeld(t, x)
    ensures ImportsCached(t, x)
  {
    if x.File? {
      forall i | 0 <= i < |x.imports| ensures x.imports[i].path in t.cache {
        assert t.cache[x.path].dependencies[i] == x.imports[i].path;
      }
    }
  }

  lemma AllImportsCachedLinks(t: State)
    requires forall name :: name in t.cache ==> exists x :: t.cache[name] == ToProto(x) && ImportsCached(t, x)
    ensures Linkable(t.cache)
  {
    forall name, i | name in t.cache && 0 <= i < |t.cache[name].dependencies| ensures t.cache[name].dependencies[i] in t.cache {
      var x :| t.cache[name] == ToProto(x) && ImportsCached(t, x);
      assert t.cache[name].dependencies[i] == x.imports[i].path;
    }
  }

  /** The file behind a cache entry. */
  lemma CachedFile(t: State, name: string) returns (x: File)
    requires InStep(t) && t.exchange.Idle? && name in t.cache
    ensures IsHeld(t, x) && x.path == name
    ensures if name in PathSet(Closures(CurrentRoots(t))) then x in Closures(CurrentRoots(t)) else x in LateFiles(t)
  {
    hide Closures, PathSet, Transfer;
    if name in PathSet(Closures(CurrentRoots(t))) {
      assert FromStream(CurrentRoots(t), name, t.cache[name]);
      x :| x in Closures(CurrentRoots(t)) && x.path == name && ToProto(x) == t.cache[name];
    } else {
      x :| x in LateFiles(t) && x.path == name;
    }
  }

  lemma StreamImportsCached(t: State, x: File)
    requires InStep(t) && t.exchange.Idle? && x in Closures(CurrentRoots(t)) && PlaceholdersCovered(t, x)
    ensures ImportsCached(t, x)
  {
    hide Closures, PathSet, Transfer, FromStream;
    if x.File? {
      forall i | 0 <= i < |x.imports| ensures x.imports[i].path in t.cache {
        if x.imports[i].File? {
          ResolvedImportsAreCached(CurrentRoots(t), x, i);
        }
      }
    }
  }

  /** With equal paths meaning equal files and no late answer, only the imported placeholders matter. */
  lemma LinkingOnOneStream(events: seq<Event>, t: State)
    requires IsRun(INITIAL, events, t) && t.connected && t.exchange.Idle? && Consistent(t.roots)
    ensures t.leftover == {} ==>
              (Linkable(t.cache) <==> forall x :: x in Closures(t.roots) ==> PlaceholdersCovered(t, x))
  {
    hide Closures, PathSet, Transfer, FromStream, PlaceholdersCovered;
    ReachableInStep(events, t);
    LinkingSucceedsExactly(events, t);
    ContentsAgreeExactly(events, t);
    forall f | f in LateFiles(t) ensures f.path in t.leftover {
      assert HasPath(LateFiles(t), f.path);
    }
  }

  /** What a late answer leaves over: its root and what was not sent before on its own stream. */
  lemma LeftoverExactly(events: seq<Event>, t: State)
    requires IsRun(INITIAL, events, t) && t.connected
    ensures t.late.None? ==> t.leftover == {}
    ensures t.late.Some? ==> t.late.value.root.File?
                             && t.leftover == {t.late.value.root.path} + (PathSet(Closure(t.late.value.root)) - t.late.value.sentBefore)
  {
    hide Closure, PathSet, Transfer, HasPath;
    ReachableInStep(events, t);
    NothingSent();
    RunKeepsLateRoot(INITIAL, events, t);
    if t.late.Some? {
      forall p ensures p in t.leftover
                  <==> p == t.late.value.root.path || (p in PathSet(Closure(t.late.value.root)) && p !in t.late.value.sentBefore)
      {
        TransferPaths(t.late.value.root, t.late.value.sentBefore, p);
      }
    }
  }

  lemma {:induction false} RunKeepsLateRoot(s: State, events: seq<Event>, t: State)
    requires IsRun(s, events, t)
    requires (s.late.Some? ==> s.late.value.root.File?) && (s.exchange.Answered? ==> s.exchange.root.File?)
    ensures t.late.Some? ==> t.late.value.root.File?
    decreases |events|
  {
    hide Fill, Transfer, Closure, PathSet;
    if events != [] {
      RunKeepsLateRoot(Step(s, events[0]), events[1..], t);
    }
  }

  lemma ResolvedImportsAreCached(roots: seq<File>, x: File, i: nat)
    requires x in Closures(roots) && x.File? && i < |x.imports| && x.imports[i].File?
    ensures x.imports[i].path in PathSet(Closures(roots))
  {
    var k, p := ClosuresWitness(roots, x);
    PathEndInClosure(roots[k], p);
    ClosureIsClosed(roots[k], x, i);
    ClosuresMember(roots, k);
  }
}
