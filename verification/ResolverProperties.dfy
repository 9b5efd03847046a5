/** What the index means: last declaration wins, and every registered declaration is found. */
module ResolverProperties {
  import opened Collections
  import opened ImportGraph
  import opened Resolver

  // ---------------------------------------------------------------- last write wins

  /** The latest entry of the log that writes key `k`. */
  ghost function Last(log: seq<Write>, k: Key): Option<Write> {
    if log == [] then None
    else if Touches(log[|log| - 1], k) then Some(log[|log| - 1])
    else Last(log[..|log| - 1], k)
  }

  /** Key `k` of the index holds exactly what `w` wrote, or nothing if there is no such write. */
  ghost predicate Holds(idx: Index, k: Key, w: Option<Write>) {
    match k
    case FileKey(p) =>
      (p in idx.files <==> w.Some?) && (w.Some? ==> w.value == WriteFile(idx.files[p]))
    case SymbolKey(n) =>
      (n in idx.symbols <==> w.Some?) && (w.Some? ==> w.value == WriteSymbol(idx.symbols[n]))
    case MessageKey(m) =>
      m in idx.extensions <==> w.Some?
    case FieldKey(m, n) =>
      (m in idx.extensions && n in idx.extensions[m] <==> w.Some?)
      && (w.Some? ==> w.value == WriteField(idx.extensions[m][n]))
  }

  lemma {:induction false} IndexIsLastWrite(log: seq<Write>, k: Key)
    ensures Holds(Apply(EMPTY, log), k, Last(log, k))
  {
    hide Put, Touches;
    if log == [] {
      EmptyHolds(k);
    } else {
      IndexIsLastWrite(log[..|log| - 1], k);
      PutHolds(Apply(EMPTY, log[..|log| - 1]), log[|log| - 1], k, Last(log[..|log| - 1], k));
    }
  }

  lemma EmptyHolds(k: Key)
    ensures Holds(EMPTY, k, None)
  {
  }

  lemma PutHolds(idx: Index, w: Write, k: Key, before: Option<Write>)
    requires Holds(idx, k, before)
    ensures Holds(Put(idx, w), k, if Touches(w, k) then Some(w) else before)
  {
  }

  /** `Last` really is the last position of the log that writes the key. */
  lemma {:induction false} LastIsLatest(log: seq<Write>, k: Key)
    ensures Last(log, k).None? <==> forall w :: w in log ==> !Touches(w, k)
    ensures Last(log, k).Some? ==> exists i :: 0 <= i < |log| && log[i] == Last(log, k).value && Touches(log[i], k)
                                               && forall j :: i < j < |log| ==> !Touches(log[j], k)
  {
    if log != [] {
      var front, w := log[..|log| - 1], log[|log| - 1];
      assert log == front + [w];
      if !Touches(w, k) {
        LastIsLatest(front, k);
        if Last(front, k).Some? {
          var i :| 0 <= i < |front| && front[i] == Last(front, k).value && Touches(front[i], k)
                   && forall j :: i < j < |front| ==> !Touches(front[j], k);
          assert log[i] == Last(log, k).value && Touches(log[i], k);
        }
      }
    }
  }

  lemma {:induction false} LastAppend(a: seq<Write>, b: seq<Write>, k: Key)
    ensures Last(a + b, k) == if Last(b, k).Some? then Last(b, k) else Last(a, k)
  {
    if b == [] {
      assert a + b == a;
    } else {
      assert (a + b)[..|a + b| - 1] == a + b[..|b| - 1];
      LastAppend(a, b[..|b| - 1], k);
    }
  }

  /** Two logs with the same last writes build the same index. */
  lemma SameLastWritesSameIndex(a: seq<Write>, b: seq<Write>)
    requires forall k :: Last(a, k) == Last(b, k)
    ensures Apply(EMPTY, a) == Apply(EMPTY, b)
  {
    hide Apply, Last;
    var x, y := Apply(EMPTY, a), Apply(EMPTY, b);
    forall k ensures Holds(x, k, Last(a, k)) && Holds(y, k, Last(a, k)) {
      IndexIsLastWrite(a, k);
      IndexIsLastWrite(b, k);
    }
    forall p ensures p in x.files <==> p in y.files
             ensures p in x.files ==> x.files[p] == y.files[p]
    {
      assert Holds(x, FileKey(p), Last(a, FileKey(p)));
    }
    assert x.files == y.files;
    forall n ensures n in x.symbols <==> n in y.symbols
             ensures n in x.symbols ==> x.symbols[n] == y.symbols[n]
    {
      assert Holds(x, SymbolKey(n), Last(a, SymbolKey(n)));
    }
    assert x.symbols == y.symbols;
    forall m ensures m in x.extensions <==> m in y.extensions
             ensures m in x.extensions ==> x.extensions[m] == y.extensions[m]
    {
      assert Holds(x, MessageKey(m), Last(a, MessageKey(m)));
      if m in x.extensions {
        forall n ensures n in x.extensions[m] <==> n in y.extensions[m]
                 ensures n in x.extensions[m] ==> x.extensions[m][n] == y.extensions[m][n]
        {
          assert Holds(x, FieldKey(m, n), Last(a, FieldKey(m, n)));
        }
      }
    }
    assert x.extensions == y.extensions;
  }

  // ---------------------------------------------------------------- idempotence

  ghost function Times(visits: seq<File>, n: nat): seq<File> {
    if n == 0 then [] else Times(visits, n - 1) + visits
  }

  lemma NoTimes(visits: seq<File>)
    ensures Times(visits, 0) == []
  {
  }

  lemma OneMoreTime(earlier: seq<File>, visits: seq<File>, n: nat)
    ensures earlier + Times(visits, n) + visits == earlier + Times(visits, n + 1)
  {
  }

  /** Registering the same files once more right away changes none of the three maps. */
  lemma RegistrationIdempotent(earlier: seq<File>, fds: seq<File>)
    ensures Apply(EMPTY, Log(earlier + Preorders(fds) + Preorders(fds)))
         == Apply(EMPTY, Log(earlier + Preorders(fds)))
  {
    hide Apply, Last, Log;
    var again := Preorders(fds);
    LogAppend(earlier, again);
    LogAppend(earlier + again, again);
    forall k ensures Last(Log(earlier + again + again), k) == Last(Log(earlier + again), k) {
      LastAppend(Log(earlier), Log(again), k);
      LastAppend(Log(earlier + again), Log(again), k);
    }
    SameLastWritesSameIndex(Log(earlier + again + again), Log(earlier + again));
  }

  /** Registering once per service name is the same as registering once, if there is a name. */
  lemma {:induction false} RepeatedRegistration(earlier: seq<File>, fds: seq<File>, n: nat)
    requires n > 0
    ensures Apply(EMPTY, Log(earlier + Times(Preorders(fds), n))) == Apply(EMPTY, Log(earlier + Preorders(fds)))
  {
    hide Apply, Log;
    var once := Preorders(fds);
    if n == 1 {
      assert Times(once, 0) + once == once;
    } else {
      RepeatedRegistration(earlier, fds, n - 1);
      var before := earlier + Times(once, n - 1);
      assert earlier + Times(once, n) == before + once;
      assert earlier + Times(once, n - 1) == earlier + Times(once, n - 2) + once;
      RegistrationIdempotent(earlier + Times(once, n - 2), fds);
    }
  }

  // ---------------------------------------------------------------- what is registered

  /** Top-level registration visits its argument even if that is a placeholder. */
  ghost function Registered(fds: seq<File>): set<File> {
    Closures(fds) + set f | f in fds
  }

  /** The preorder walk visits exactly the closure, plus the root. */
  lemma {:induction false} PreorderVisitsClosure(f: File, x: File)
    ensures x in Preorder(f) <==> x == f || x in Closure(f)
    decreases f
  {
    if f.File? {
      forall i | 0 <= i < |f.imports| ensures x in Preorder(f.imports[i]) <==> x == f.imports[i] || x in Closure(f.imports[i]) {
        PreorderVisitsClosure(f.imports[i], x);
      }
      ImportPreorderVisits(f.imports, |f.imports|, x);
      assert f.imports[..|f.imports|] == f.imports;
    }
  }

  lemma {:induction false} ImportPreorderVisits(fs: seq<File>, k: nat, x: File)
    requires k <= |fs|
    requires forall i :: 0 <= i < k ==> (x in Preorder(fs[i]) <==> x == fs[i] || x in Closure(fs[i]))
    ensures x in ImportPreorder(fs, k) <==> x in Closures(fs[..k])
    decreases k
  {
    hide ImportPreorder, Preorder, Closure, Closures;
    ImportPreorderUnfolds(fs, k, x);
    if k > 0 {
      ImportPreorderVisits(fs, k - 1, x);
    }
  }

  /** The last import contributes its own walk to the visits and its closure to the closures. */
  lemma ImportPreorderUnfolds(fs: seq<File>, k: nat, x: File)
    requires k <= |fs|
    ensures k == 0 ==> ImportPreorder(fs, k) == [] && Closures(fs[..k]) == {}
    ensures k > 0 ==> (x in ImportPreorder(fs, k) <==> x in ImportPreorder(fs, k - 1) || (fs[k - 1].File? && x in Preorder(fs[k - 1])))
    ensures k > 0 ==> (x in Closures(fs[..k]) <==> x in Closures(fs[..k - 1]) || x in Closure(fs[k - 1]))
    ensures k > 0 && fs[k - 1].Placeholder? ==> x !in Closure(fs[k - 1])
    ensures k > 0 && fs[k - 1].File? ==> fs[k - 1] in Closure(fs[k - 1])
  {
    hide Preorder;
    if k > 0 {
      ClosuresSnoc(fs[..k - 1], fs[k - 1]);
      assert fs[..k] == fs[..k - 1] + [fs[k - 1]];
    }
  }

  lemma ClosuresSnoc(fs: seq<File>, f: File)
    ensures Closures(fs + [f]) == Closures(fs) + Closure(f)
  {
    hide Closure;
    ClosuresAppend(fs, [f]);
    assert [f][1..] == [];
  }

  lemma {:induction false} PreordersVisitRegistered(fds: seq<File>, x: File)
    ensures x in Preorders(fds) <==> x in Registered(fds)
  {
    if fds != [] {
      var front, f := fds[..|fds| - 1], fds[|fds| - 1];
      assert fds == front + [f];
      PreordersVisitRegistered(front, x);
      PreorderVisitsClosure(f, x);
      ClosuresAppend(front, [f]);
      assert Closures([f]) == Closure(f) + Closures([]);
    }
  }

  // ---------------------------------------------------------------- what one file writes

  ghost predicate Declares(f: File, name: string) {
    f.File? && (name in f.services || name in f.enums || name in f.messages
                || exists e :: e in f.extensions && e.name == name)
  }

  ghost predicate Extends(f: File, message: string, number: int) {
    f.File? && exists e :: e in f.extensions && e.extendee == message && e.number == number
  }

  ghost predicate Mentions(f: File, message: string) {
    f.File? && (message in f.messages || exists e :: e in f.extensions && e.extendee == message)
  }

  /** File `f` itself declares something under key `k`. */
  ghost predicate DeclaresKey(f: File, k: Key) {
    match k
    case FileKey(p) => f.path == p
    case SymbolKey(n) => Declares(f, n)
    case MessageKey(m) => Mentions(f, m)
    case FieldKey(m, n) => Extends(f, m, n)
  }

  /** `w` records a declaration of `f` and names `f` as its parent. */
  ghost predicate DeclaredBy(f: File, w: Write) {
    match w
    case WriteFile(g) => g == f
    case WriteSymbol(s) => s.parent == f && Declares(f, s.name)
    case WriteMessage(m) => f.File? && m in f.messages
    case WriteField(x) => x.parent == f && f.File? && x.declaration in f.extensions
  }

  lemma FileLogSound(f: File, w: Write)
    requires w in FileLog(f)
    ensures DeclaredBy(f, w)
  {
    hide ServiceLog, EnumLog, MessageLog, ExtensionLog;
    if f.File? {
      ServiceLogAt(f, |f.services|);
      EnumLogAt(f, |f.enums|);
      MessageLogAt(f, |f.messages|);
      ExtensionLogAt(f, |f.extensions|);
    }
  }

  lemma FileLogComplete(f: File, k: Key) returns (w: Write)
    requires DeclaresKey(f, k)
    ensures w in FileLog(f) && Touches(w, k)
  {
    hide ServiceLog, EnumLog, MessageLog, ExtensionLog;
    if k.FileKey? {
      return WriteFile(f);
    }
    ServiceLogAt(f, |f.services|);
    EnumLogAt(f, |f.enums|);
    MessageLogAt(f, |f.messages|);
    ExtensionLogAt(f, |f.extensions|);
    match k
    case SymbolKey(n) =>
      if n in f.services {
        w := WriteSymbol(Symbol(ServiceKind, n, f));
        assert w in ServiceLog(f, |f.services|);
      } else if n in f.enums {
        w := WriteSymbol(Symbol(EnumKind, n, f));
        assert w in EnumLog(f, |f.enums|);
      } else if n in f.messages {
        w := WriteSymbol(Symbol(MessageKind, n, f));
        assert w in MessageLog(f, |f.messages|);
      } else {
        w := WriteSymbol(Symbol(ExtensionKind, n, f));
        assert w in ExtensionLog(f, |f.extensions|);
      }
    case MessageKey(m) =>
      if m in f.messages {
        w := WriteMessage(m);
        assert w in MessageLog(f, |f.messages|);
      } else {
        var e :| e in f.extensions && e.extendee == m;
        w := WriteField(Field(e, f));
        assert w in ExtensionLog(f, |f.extensions|);
      }
    case FieldKey(m, n) =>
      var e :| e in f.extensions && e.extendee == m && e.number == n;
      w := WriteField(Field(e, f));
      assert w in ExtensionLog(f, |f.extensions|);
  }

  lemma {:induction false} ServiceLogAt(f: File, k: nat)
    requires f.File? && k <= |f.services|
    ensures |ServiceLog(f, k)| == k
    ensures forall i :: 0 <= i < k ==> ServiceLog(f, k)[i] == WriteSymbol(Symbol(ServiceKind, f.services[i], f))
  {
    if k > 0 { ServiceLogAt(f, k - 1); }
  }

  lemma {:induction false} EnumLogAt(f: File, k: nat)
    requires f.File? && k <= |f.enums|
    ensures |EnumLog(f, k)| == k
    ensures forall i :: 0 <= i < k ==> EnumLog(f, k)[i] == WriteSymbol(Symbol(EnumKind, f.enums[i], f))
  {
    if k > 0 { EnumLogAt(f, k - 1); }
  }

  lemma {:induction false} MessageLogAt(f: File, k: nat)
    requires f.File? && k <= |f.messages|
    ensures forall w :: w in MessageLog(f, k) <==>
              exists i :: 0 <= i < k && (w == WriteSymbol(Symbol(MessageKind, f.messages[i], f))
                                         || w == WriteMessage(f.messages[i]))
  {
    if k > 0 { MessageLogAt(f, k - 1); }
  }

  lemma {:induction false} ExtensionLogAt(f: File, k: nat)
    requires f.File? && k <= |f.extensions|
    ensures forall w :: w in ExtensionLog(f, k) <==>
              exists i :: 0 <= i < k && (w == WriteSymbol(Symbol(ExtensionKind, f.extensions[i].name, f))
                                         || w == WriteField(Field(f.extensions[i], f)))
  {
    if k > 0 { ExtensionLogAt(f, k - 1); }
  }

  lemma {:induction false} LogMembers(visits: seq<File>, w: Write)
    ensures w in Log(visits) <==> exists f :: f in visits && w in FileLog(f)
  {
    hide FileLog;
    if visits != [] {
      LogMembers(visits[..|visits| - 1], w);
      assert visits == visits[..|visits| - 1] + [visits[|visits| - 1]];
    }
  }

  // ---------------------------------------------------------------- register, then query

  /** A key is present exactly when a registered file declares it, and then holds such a declaration. */
  lemma IndexHoldsRegistered(fds: seq<File>, k: Key)
    ensures var w := Last(Log(Preorders(fds)), k);
            && Holds(Apply(EMPTY, Log(Preorders(fds))), k, w)
            && (w.Some? <==> exists f :: f in Registered(fds) && DeclaresKey(f, k))
            && (w.Some? ==> exists f :: f in Registered(fds) && DeclaredBy(f, w.value) && Touches(w.value, k))
  {
    hide Apply, Last, Log, FileLog;
    var visits := Preorders(fds);
    var w := Last(Log(visits), k);
    IndexIsLastWrite(Log(visits), k);
    LastIsLatest(Log(visits), k);
    if w.Some? {
      LogMembers(visits, w.value);
      var f :| f in visits && w.value in FileLog(f);
      FileLogSound(f, w.value);
      PreordersVisitRegistered(fds, f);
      assert DeclaresKey(f, k);
    }
    forall f | f in Registered(fds) && DeclaresKey(f, k) ensures w.Some? {
      var v := FileLogComplete(f, k);
      PreordersVisitRegistered(fds, f);
      LogMembers(visits, v);
    }
  }

  /** Paths: the known paths are those of the registered closure, each leading to a file of that path. */
  lemma FileQueries(resolver: SimpleResolver, path: string)
    requires resolver.Valid()
    ensures var found := resolver.FindFileByPath(path);
            && (found.Ok? <==> path in PathSet(Registered(resolver.registered)))
            && (found.Ok? ==> found.value in Registered(resolver.registered) && found.value.path == path)
  {
    hide Apply, Last, Log;
    IndexHoldsRegistered(resolver.registered, FileKey(path));
  }

  /** Symbols: found exactly when some resolved file of the closure declares them at top level. */
  lemma SymbolQueries(resolver: SimpleResolver, name: string)
    requires resolver.Valid()
    ensures var found, all := resolver.FindDescriptorByName(name), Closures(resolver.registered);
            && (found.Ok? <==> exists f :: f in all && Declares(f, name))
            && (found.Ok? ==> found.value.name == name && found.value.parent in all && Declares(found.value.parent, name))
  {
    hide Apply, Last, Log;
    var fds := resolver.registered;
    IndexHoldsRegistered(fds, SymbolKey(name));
    RegisteredFilesAreClosure(fds);
    if f :| f in Closures(fds) && Declares(f, name) {
      assert DeclaresKey(f, SymbolKey(name));
    }
  }

  /** Extensions: found exactly when some resolved file of the closure declares them. */
  lemma ExtensionQueries(resolver: SimpleResolver, message: string, number: int)
    requires resolver.Valid()
    ensures var found, all := resolver.FindExtensionByNumber(message, number), Closures(resolver.registered);
            && (found.Ok? <==> exists f :: f in all && Extends(f, message, number))
            && (found.Ok? ==> found.value.parent in all && Extends(found.value.parent, message, number))
            && (message in resolver.extensionMap <==> exists f :: f in all && Mentions(f, message))
  {
    hide Apply, Last, Log;
    var fds := resolver.registered;
    IndexHoldsRegistered(fds, FieldKey(message, number));
    IndexHoldsRegistered(fds, MessageKey(message));
    RegisteredFilesAreClosure(fds);
    if f :| f in Closures(fds) && Extends(f, message, number) {
      assert DeclaresKey(f, FieldKey(message, number));
    }
    if f :| f in Closures(fds) && Mentions(f, message) {
      assert DeclaresKey(f, MessageKey(message));
    }
  }

  // ---------------------------------------------------------------- which file a path leads to

  ghost function LastVisit(visits: seq<File>, path: string): Option<File> {
    if visits == [] then None
    else if visits[|visits| - 1].path == path then Some(visits[|visits| - 1])
    else LastVisit(visits[..|visits| - 1], path)
  }

  lemma {:induction false} LastVisitAppend(a: seq<File>, b: seq<File>, path: string)
    ensures LastVisit(a + b, path) == if LastVisit(b, path).Some? then LastVisit(b, path) else LastVisit(a, path)
  {
    if b == [] {
      assert a + b == a;
    } else {
      assert (a + b)[..|a + b| - 1] == a + b[..|b| - 1];
      LastVisitAppend(a, b[..|b| - 1], path);
    }
  }

  lemma {:induction false} LastVisitIsVisit(visits: seq<File>, path: string)
    ensures LastVisit(visits, path).Some? <==> exists x :: x in visits && x.path == path
    ensures LastVisit(visits, path).Some? ==> LastVisit(visits, path).value in visits && LastVisit(visits, path).value.path == path
  {
    if visits != [] {
      LastVisitIsVisit(visits[..|visits| - 1], path);
      assert visits == visits[..|visits| - 1] + [visits[|visits| - 1]];
    }
  }

  /** The log's last write of a path comes from the last visit to it. */
  lemma {:induction false} LastWriteIsLastVisit(visits: seq<File>, path: string)
    ensures Last(Log(visits), FileKey(path))
         == match LastVisit(visits, path) case None => None case Some(f) => Some(WriteFile(f))
  {
    hide FileLog;
    if visits != [] {
      var front, f := visits[..|visits| - 1], visits[|visits| - 1];
      LastWriteIsLastVisit(front, path);
      LastAppend(Log(front), FileLog(f), FileKey(path));
      LastOfFileLog(f, path);
    }
  }

  lemma LastOfFileLog(f: File, path: string)
    ensures Last(FileLog(f), FileKey(path)) == if f.path == path then Some(WriteFile(f)) else None
  {
    hide Last;
    var k := FileKey(path);
    LastIsLatest(FileLog(f), k);
    forall w | w in FileLog(f) && Touches(w, k) ensures w == WriteFile(f) {
      FileLogSound(f, w);
    }
    assert WriteFile(f) in FileLog(f);
  }

  lemma LookupIsLastVisit(resolver: SimpleResolver, path: string)
    requires resolver.Valid()
    ensures resolver.FindFileByPath(path) == match LastVisit(resolver.visits, path) case None => Err(NotFound) case Some(f) => Ok(f)
  {
    hide Apply, Last, Log, LastVisit;
    IndexIsLastWrite(Log(resolver.visits), FileKey(path));
    LastWriteIsLastVisit(resolver.visits, path);
  }

  /** The path belongs to the closure of a registered file, and no placeholder for it was registered later. */
  ghost predicate ResolvedLast(fds: seq<File>, path: string) {
    exists j :: 0 <= j < |fds| && path in PathSet(Closure(fds[j])) && forall i :: j < i < |fds| ==> fds[i] != Placeholder(path)
  }

  lemma ResolvedLastStep(fds: seq<File>, f: File, path: string)
    ensures ResolvedLast(fds + [f], path)
       <==> path in PathSet(Closure(f)) || (f != Placeholder(path) && ResolvedLast(fds, path))
  {
    hide PathSet, Closure;
    var all, n := fds + [f], |fds|;
    assert all[n] == f && forall i :: 0 <= i < n ==> all[i] == fds[i];
    if j :| 0 <= j < n && path in PathSet(Closure(fds[j])) && (forall i :: j < i < n ==> fds[i] != Placeholder(path)) && f != Placeholder(path) {
      assert path in PathSet(Closure(all[j]));
    }
    if path in PathSet(Closure(f)) {
      assert path in PathSet(Closure(all[n]));
    }
  }

  /** The last visit to a path is a resolved file exactly then. */
  lemma {:induction false} LastVisitResolvedExactly(fds: seq<File>, path: string)
    ensures LastVisit(Preorders(fds), path).Some? && LastVisit(Preorders(fds), path).value.File? <==> ResolvedLast(fds, path)
  {
    hide LastVisit, Preorder, ResolvedLast, PathSet, Closure;
    if fds == [] {
      NothingResolved(path);
    } else {
      var front, f := fds[..|fds| - 1], fds[|fds| - 1];
      assert fds == front + [f];
      LastVisitResolvedExactly(front, path);
      ResolvedLastStep(front, f, path);
      LastVisitAppend(Preorders(front), Preorder(f), path);
      LastVisitOfWalk(f, path);
    }
  }

  /** If only resolved files are registered, as `AllFilesForSymbol` hands out no others, that holds for
      every path of their closure. */
  lemma {:induction false} ResolvedWithoutPlaceholders(fds: seq<File>, path: string)
    requires forall f :: f in fds ==> f.File?
    ensures ResolvedLast(fds, path) <==> path in PathSet(Closures(fds))
  {
    hide ResolvedLast, Closure;
    if fds == [] {
      NothingResolved(path);
    } else {
      var front, f := fds[..|fds| - 1], fds[|fds| - 1];
      assert fds == front + [f];
      ResolvedWithoutPlaceholders(front, path);
      assert f in fds && f != Placeholder(path);
      ResolvedLastStep(front, f, path);
      ClosuresSnoc(front, f);
      assert path in PathSet(Closures(fds)) <==> path in PathSet(Closures(front)) || path in PathSet(Closure(f));
    }
  }

  lemma NothingResolved(path: string)
    ensures LastVisit([], path).None? && !ResolvedLast([], path)
  {
  }

  lemma LastVisitOfWalk(f: File, path: string)
    ensures var last := LastVisit(Preorder(f), path);
            && (last.Some? && last.value.File? <==> path in PathSet(Closure(f)))
            && (last.Some? && last.value.Placeholder? <==> f == Placeholder(path))
  {
    hide LastVisit;
    LastVisitIsVisit(Preorder(f), path);
    if f.Placeholder? {
      assert Preorder(f) == [f];
    } else {
      hide Preorder, Closure;
      RootInClosure(f);
      forall x ensures x in Preorder(f) <==> x in Closure(f) {
        PreorderVisitsClosure(f, x);
      }
      ClosureHasOnlyFiles(f);
    }
  }

  lemma RegisteredFilesAreClosure(fds: seq<File>)
    ensures forall f :: f in Registered(fds) && f.File? ==> f in Closures(fds)
  {
    forall f | f in fds && f.File? ensures f in Closures(fds) {
      var i :| 0 <= i < |fds| && fds[i] == f;
      ClosuresMember(fds, i);
    }
  }
}
