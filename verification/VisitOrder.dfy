/**
 * The order of the two walks over an import graph, in terms of import paths: registration visits
 * files in the lexicographic order of their paths, the reflection server by length first.
 */
module VisitOrder {
  import opened Collections
  import opened ImportGraph
  import opened Resolver
  import opened ReflectionServer

  type Path = seq<nat>

  /** Lexicographic order; a path comes before its extensions. */
  ghost predicate Before(p: Path, q: Path)
    decreases |p|
  {
    q != [] && (p == [] || p[0] < q[0] || (p[0] == q[0] && Before(p[1..], q[1..])))
  }

  lemma {:induction false} BeforeTransitive(p: Path, q: Path, r: Path)
    requires Before(p, q) && Before(q, r)
    ensures Before(p, r)
    decreases |p|
  {
    if p != [] && p[0] == q[0] == r[0] {
      BeforeTransitive(p[1..], q[1..], r[1..]);
    }
  }

  /** The path leads to `x`. */
  ghost predicate LeadsTo(f: File, p: Path, x: File) {
    IsImportPath(f, p) && At(f, p) == x
  }

  /** `ps` lists, in the given order of paths, where the visits are found. */
  ghost predicate Locates(f: File, visits: seq<File>, ps: seq<Path>) {
    |ps| == |visits| && forall i :: 0 <= i < |ps| ==> LeadsTo(f, ps[i], visits[i])
  }

  ghost predicate InOrder(ps: seq<Path>) {
    forall i, j :: 0 <= i < j < |ps| ==> Before(ps[i], ps[j])
  }

  /** Every import path to a resolved file is listed. */
  ghost predicate ListsAll(f: File, ps: seq<Path>) {
    forall p :: IsImportPath(f, p) && At(f, p).File? ==> p in ps
  }

  // ---------------------------------------------------------------- registration

  ghost function Under(k: nat, ps: seq<Path>): (r: seq<Path>)
    ensures |r| == |ps| && forall i :: 0 <= i < |ps| ==> r[i] == [k] + ps[i]
  {
    seq(|ps|, i requires 0 <= i < |ps| => [k] + ps[i])
  }

  /** A path through one of the first `k` imports, to `x`. */
  ghost predicate LeadsFrom(fs: seq<File>, k: nat, p: Path, x: File)
    requires k <= |fs|
  {
    p != [] && p[0] < k && LeadsTo(fs[p[0]], p[1..], x)
  }

  /** Registration visits a file and everything it imports, once per import path, in the order of the paths. */
  lemma {:induction false} PreorderInPathOrder(f: File) returns (ps: seq<Path>)
    ensures Locates(f, Preorder(f), ps) && InOrder(ps)
    ensures f.File? ==> ListsAll(f, ps)
    decreases f, 1
  {
    ps := [[]];
    if f.File? {
      var qs := ImportsInPathOrder(f.imports, |f.imports|);
      ps := ps + qs;
      forall i | 0 <= i < |qs| ensures LeadsTo(f, qs[i], ImportPreorder(f.imports, |f.imports|)[i]) {
        assert LeadsFrom(f.imports, |f.imports|, qs[i], ImportPreorder(f.imports, |f.imports|)[i]);
      }
      forall p | IsImportPath(f, p) && At(f, p).File? ensures p in ps {
        if p != [] {
          assert LeadsFrom(f.imports, |f.imports|, p, At(f, p));
        }
      }
    }
  }

  lemma {:induction false} ImportsInPathOrder(fs: seq<File>, k: nat) returns (ps: seq<Path>)
    requires k <= |fs|
    ensures |ps| == |ImportPreorder(fs, k)| && InOrder(ps)
    ensures forall i :: 0 <= i < |ps| ==> LeadsFrom(fs, k, ps[i], ImportPreorder(fs, k)[i])
    ensures forall p, x :: LeadsFrom(fs, k, p, x) && x.File? ==> p in ps
    decreases fs, 0, k
  {
    ps := [];
    if k > 0 {
      var front := ImportsInPathOrder(fs, k - 1);
      var qs: seq<Path> := [];
      if fs[k - 1].File? {
        qs := PreorderInPathOrder(fs[k - 1]);
      }
      ps := front + Under(k - 1, qs);
      Appended(fs, k, front, qs);
    }
  }

  lemma Appended(fs: seq<File>, k: nat, front: seq<Path>, qs: seq<Path>)
    requires 0 < k <= |fs| && InOrder(front) && InOrder(qs) && |front| == |ImportPreorder(fs, k - 1)|
    requires forall i :: 0 <= i < |front| ==> LeadsFrom(fs, k - 1, front[i], ImportPreorder(fs, k - 1)[i])
    requires forall p, x :: LeadsFrom(fs, k - 1, p, x) && x.File? ==> p in front
    requires if fs[k - 1].File? then Locates(fs[k - 1], Preorder(fs[k - 1]), qs) && ListsAll(fs[k - 1], qs) else qs == []
    ensures var ps := front + Under(k - 1, qs);
            && |ps| == |ImportPreorder(fs, k)| && InOrder(ps)
            && (forall i :: 0 <= i < |ps| ==> LeadsFrom(fs, k, ps[i], ImportPreorder(fs, k)[i]))
            && (forall p, x :: LeadsFrom(fs, k, p, x) && x.File? ==> p in ps)
  {
    hide Preorder;
    var under := Under(k - 1, qs);
    var ps, visits := front + under, ImportPreorder(fs, k);
    forall i | 0 <= i < |ps| ensures LeadsFrom(fs, k, ps[i], visits[i]) {
      if i < |front| {
        assert LeadsFrom(fs, k - 1, front[i], ImportPreorder(fs, k - 1)[i]);
      } else {
        assert under[i - |front|][1..] == qs[i - |front|];
      }
    }
    forall i, j | 0 <= i < j < |ps| ensures Before(ps[i], ps[j]) {
      if i < |front| <= j {
        assert LeadsFrom(fs, k - 1, front[i], ImportPreorder(fs, k - 1)[i]);
      } else if |front| <= i {
        assert under[i - |front|][1..] == qs[i - |front|] && under[j - |front|][1..] == qs[j - |front|];
      }
    }
    forall p, x | LeadsFrom(fs, k, p, x) && x.File? ensures p in ps {
      if p[0] == k - 1 {
        LastImportListed(fs, k, qs, p, x);
      } else {
        assert LeadsFrom(fs, k - 1, p, x);
      }
    }
  }

  lemma LastImportListed(fs: seq<File>, k: nat, qs: seq<Path>, p: Path, x: File)
    requires 0 < k <= |fs| && LeadsFrom(fs, k, p, x) && x.File? && p[0] == k - 1
    requires fs[k - 1].File? ==> ListsAll(fs[k - 1], qs)
    ensures p in Under(k - 1, qs)
  {
    assert fs[k - 1].File?;
    var i :| 0 <= i < |qs| && qs[i] == p[1..];
    assert p == [p[0]] + p[1..];
    assert Under(k - 1, qs)[i] == p;
  }

  // ---------------------------------------------------------------- the server's walk

  /** Shorter paths first, those of one length in lexicographic order. */
  ghost predicate Shortlex(p: Path, q: Path) {
    |p| < |q| || (|p| == |q| && Before(p, q))
  }

  lemma ShortlexTransitive(p: Path, q: Path, r: Path)
    requires Shortlex(p, q) && Shortlex(q, r)
    ensures Shortlex(p, r)
  {
    if |p| == |q| == |r| {
      BeforeTransitive(p, q, r);
    }
  }

  ghost predicate InShortlexOrder(ps: seq<Path>) {
    forall i, j :: 0 <= i < j < |ps| ==> Shortlex(ps[i], ps[j])
  }

  ghost predicate ArePaths(f: File, qs: seq<Path>) {
    forall i :: 0 <= i < |qs| ==> IsImportPath(f, qs[i])
  }

  ghost function FilesAt(f: File, qs: seq<Path>): (files: seq<File>)
    requires ArePaths(f, qs)
    ensures |files| == |qs| && forall i :: 0 <= i < |qs| ==> files[i] == At(f, qs[i])
  {
    seq(|qs|, i requires 0 <= i < |qs| => At(f, qs[i]))
  }

  /** A queue as the walk produces it: in order, and the longer paths extend paths before the first. */
  ghost predicate IsQueue(qs: seq<Path>) {
    InShortlexOrder(qs)
    && forall i :: 0 <= i < |qs| ==>
         |qs[i]| <= |qs[0]| + 1 && (|qs[i]| == |qs[0]| + 1 ==> Before(qs[i][..|qs[0]|], qs[0]))
  }

  ghost function Children(q: Path, n: nat): (r: seq<Path>)
    ensures |r| == n && forall i :: 0 <= i < n ==> r[i] == q + [i]
  {
    seq(n, i => q + [i])
  }

  lemma {:induction false} BeforeSibling(q: Path, i: nat, j: nat)
    requires i < j
    ensures Before(q + [i], q + [j])
    decreases |q|
  {
    if q != [] {
      assert (q + [i])[1..] == q[1..] + [i] && (q + [j])[1..] == q[1..] + [j];
      BeforeSibling(q[1..], i, j);
    }
  }

  lemma {:induction false} BeforeNephew(p: Path, q: Path, i: nat)
    requires p != [] && |p| == |q| + 1 && Before(p[..|q|], q)
    ensures Before(p, q + [i])
    decreases |q|
  {
    if q != [] {
      assert p[..|q|][0] == p[0];
      if p[0] == q[0] {
        assert (q + [i])[1..] == q[1..] + [i] && p[..|q|][1..] == p[1..][..|q| - 1];
        BeforeNephew(p[1..], q[1..], i);
      }
    }
  }

  lemma QueueGoesOn(qs: seq<Path>, n: nat)
    requires qs != [] && IsQueue(qs)
    ensures IsQueue(qs[1..]) && IsQueue(qs[1..] + Children(qs[0], n))
    ensures forall p :: p in qs[1..] + Children(qs[0], n) ==> Shortlex(qs[0], p)
  {
    var q, rest, children := qs[0], qs[1..], Children(qs[0], n);
    var next := rest + children;
    forall i | 0 <= i < |rest| && |rest[i]| == |rest[0]| + 1 ensures Before(rest[i][..|rest[0]|], rest[0]) {
      assert rest[i] == qs[i + 1] && rest[0] == qs[1];
      LaterInQueue(qs, i + 1);
    }
    forall i, j | 0 <= i < j < |next| ensures Shortlex(next[i], next[j]) {
      if i < |rest| <= j {
        if |rest[i]| == |q| + 1 {
          assert rest[i] == qs[i + 1];
          BeforeNephew(rest[i], q, j - |rest|);
        }
      } else if |rest| <= i {
        BeforeSibling(q, i - |rest|, j - |rest|);
      }
    }
    forall i | 0 <= i < |next| && |next[i]| == |next[0]| + 1 ensures Before(next[i][..|next[0]|], next[0]) {
      if i >= |rest| {
        assert next[i][..|q|] == q;
        assert rest != [] && next[0] == qs[1];
      }
    }
  }

  lemma LaterInQueue(qs: seq<Path>, i: nat)
    requires IsQueue(qs) && 1 <= i < |qs| && |qs[i]| == |qs[1]| + 1
    ensures Before(qs[i][..|qs[1]|], qs[1])
  {
    assert |qs[1]| == |qs[0]|;
    BeforeTransitive(qs[i][..|qs[0]|], qs[0], qs[1]);
  }

  /** The children of a path continue it with the imports of the file there. */
  lemma ChildrenArePaths(f: File, q: Path)
    requires IsImportPath(f, q) && At(f, q).File?
    ensures ArePaths(f, Children(q, |At(f, q).imports|))
    ensures FilesAt(f, Children(q, |At(f, q).imports|)) == At(f, q).imports
  {
    var imports := At(f, q).imports;
    forall i | 0 <= i < |imports| ensures IsImportPath(f, q + [i]) && At(f, q + [i]) == imports[i] {
      ExtendPath(f, q, i);
    }
  }

  ghost predicate Extends(q: Path, p: Path) {
    q <= p
  }

  /** All that the queued paths and their extensions lead to is listed. */
  ghost predicate ListsExtensions(f: File, qs: seq<Path>, ps: seq<Path>) {
    forall p, q :: q in qs && Extends(q, p) && IsImportPath(f, p) && At(f, p).File? ==> p in ps
  }

  /** No listed path comes before the first of the queue. */
  ghost predicate StartsAt(qs: seq<Path>, ps: seq<Path>) {
    forall p :: p in ps ==> qs != [] && (p == qs[0] || Shortlex(qs[0], p))
  }

  /** From any queue, the walk visits what the queued paths and their extensions lead to, in shortlex order. */
  lemma {:induction false} WalkInPathOrder(f: File, qs: seq<Path>) returns (ps: seq<Path>)
    requires ArePaths(f, qs) && IsQueue(qs)
    ensures Locates(f, Bfs(FilesAt(f, qs)), ps) && InShortlexOrder(ps) && StartsAt(qs, ps) && ListsExtensions(f, qs, ps)
    decreases PathCounts(FilesAt(f, qs))
  {
    hide *;
    if qs == [] {
      ps := [];
      NothingQueued(f);
    } else {
      var q := qs[0];
      FirstIsPath(f, qs);
      var n := if At(f, q).File? then |At(f, q).imports| else 0;
      var next := qs[1..] + Children(q, n);
      QueueGoesOn(qs, n);
      NextFiles(f, qs, n);
      var rest := WalkInPathOrder(f, next);
      ps := if At(f, q).File? then [q] + rest else rest;
      OneMoreInOrder(qs, n, rest, At(f, q).File?);
      OneMoreListed(f, qs, n, rest);
      if At(f, q).File? {
        OneMoreLocated(f, Bfs(FilesAt(f, next)), q, rest);
      } else {
        assert [] + Bfs(FilesAt(f, next)) == Bfs(FilesAt(f, next));
      }
    }
  }

  lemma FirstIsPath(f: File, qs: seq<Path>)
    requires qs != [] && ArePaths(f, qs)
    ensures IsImportPath(f, qs[0])
  {
  }

  lemma OneMoreLocated(f: File, visits: seq<File>, q: Path, rest: seq<Path>)
    requires Locates(f, visits, rest) && IsImportPath(f, q)
    ensures Locates(f, [At(f, q)] + visits, [q] + rest)
  {
    hide IsImportPath, At;
  }

  lemma NothingQueued(f: File)
    ensures Locates(f, Bfs(FilesAt(f, [])), []) && InShortlexOrder([]) && StartsAt([], []) && ListsExtensions(f, [], [])
  {
  }

  lemma OneMoreInOrder(qs: seq<Path>, n: nat, rest: seq<Path>, first: bool)
    requires qs != [] && IsQueue(qs) && InShortlexOrder(rest) && StartsAt(qs[1..] + Children(qs[0], n), rest)
    ensures var ps := if first then [qs[0]] + rest else rest; InShortlexOrder(ps) && StartsAt(qs, ps)
  {
    var next := qs[1..] + Children(qs[0], n);
    QueueGoesOn(qs, n);
    hide IsQueue;
    forall p | p in rest ensures Shortlex(qs[0], p) {
      assert next[0] in next;
      if p != next[0] {
        ShortlexTransitive(qs[0], next[0], p);
      }
    }
    forall i | 0 <= i < |rest| ensures Shortlex(qs[0], rest[i]) {
      assert rest[i] in rest;
    }
    hide Shortlex;
  }

  lemma OneMoreListed(f: File, qs: seq<Path>, n: nat, rest: seq<Path>)
    requires qs != [] && ArePaths(f, qs) && n == if At(f, qs[0]).File? then |At(f, qs[0]).imports| else 0
    requires ListsExtensions(f, qs[1..] + Children(qs[0], n), rest)
    ensures ListsExtensions(f, qs, if At(f, qs[0]).File? then [qs[0]] + rest else rest)
  {
    var q := qs[0];
    var ps, next := if At(f, q).File? then [q] + rest else rest, qs[1..] + Children(q, n);
    forall p, o | o in qs && Extends(o, p) && IsImportPath(f, p) && At(f, p).File? ensures p in ps {
      if o == q && p != q {
        ExtendsChild(f, q, p);
        assert Children(q, n)[p[|q|]] in next;
      } else if o != q {
        assert o in qs[1..];
      }
    }
  }

  /** What the queue holds after its first element is handled. */
  lemma NextFiles(f: File, qs: seq<Path>, n: nat)
    requires qs != [] && ArePaths(f, qs)
    requires n == if At(f, qs[0]).File? then |At(f, qs[0]).imports| else 0
    ensures var next, files := qs[1..] + Children(qs[0], n), FilesAt(f, qs);
            && ArePaths(f, next) && PathCounts(FilesAt(f, next)) < PathCounts(files)
            && Bfs(files) == (if files[0].File? then [files[0]] else []) + Bfs(FilesAt(f, next))
  {
    var q, files := qs[0], FilesAt(f, qs);
    var next := qs[1..] + Children(q, n);
    assert ArePaths(f, qs[1..]) && FilesAt(f, qs[1..]) == files[1..];
    if files[0].File? {
      ChildrenArePaths(f, q);
      assert FilesAt(f, next) == files[1..] + files[0].imports;
      PathCountsAppend(files[1..], files[0].imports);
      assert PathCount(files[0]) == 1 + PathCounts(files[0].imports);
    } else {
      assert next == qs[1..];
    }
  }

  lemma {:induction false} ExtendsChild(f: File, q: Path, p: Path)
    requires q <= p && q != p && IsImportPath(f, p) && IsImportPath(f, q)
    ensures At(f, q).File? && p[|q|] < |At(f, q).imports| && q + [p[|q|]] <= p
    decreases |q|
  {
    if q != [] {
      assert p[0] == q[0];
      ExtendsChild(f.imports[q[0]], q[1..], p[1..]);
    }
  }

  /** The walk from a file visits everything it imports, once per import path, shorter paths first. */
  lemma BfsInPathOrder(f: File) returns (ps: seq<Path>)
    ensures Locates(f, Bfs([f]), ps) && InShortlexOrder(ps) && ListsAll(f, ps)
  {
    var start: Path := [];
    assert FilesAt(f, [start]) == [f];
    ps := WalkInPathOrder(f, [start]);
    forall p | IsImportPath(f, p) && At(f, p).File? ensures p in ps {
      assert start in [start] && Extends(start, p);
    }
  }

  /** Visit `i` is `x`, and none before has its path. */
  ghost predicate IsFirstVisit(visits: seq<File>, i: nat, x: File) {
    i < |visits| && visits[i] == x && forall j :: 0 <= j < i ==> visits[j].path != x.path
  }

  ghost predicate FirstVisits(visits: seq<File>, xs: seq<File>, at: seq<nat>) {
    && |at| == |xs| && (forall i :: 0 <= i < |at| ==> IsFirstVisit(visits, at[i], xs[i]))
    && (forall i, j :: 0 <= i < j < |at| ==> at[i] < at[j])
  }

  ghost function Shifted(at: seq<nat>): (r: seq<nat>)
    ensures |r| == |at| && forall i :: 0 <= i < |at| ==> r[i] == at[i] + 1
  {
    seq(|at|, i requires 0 <= i < |at| => at[i] + 1)
  }

  /** Of the visits to a path, the first is sent, and what is sent is in the order of the visits. */
  lemma {:induction false} UnsentTakesFirst(visits: seq<File>, sent: set<string>) returns (at: seq<nat>)
    ensures FirstVisits(visits, Unsent(visits, sent), at)
  {
    hide Unsent, FirstVisits;
    UnsentUnfolds(visits, sent);
    if visits == [] {
      at := [];
      NoVisits();
    } else {
      var next := if visits[0].path in sent then sent else sent + {visits[0].path};
      var rest := UnsentTakesFirst(visits[1..], next);
      UnsentIsFresh(visits[1..], next);
      ShiftedVisits(visits, Unsent(visits[1..], next), rest, next);
      at := Shifted(rest);
      if visits[0].path !in sent {
        WithFirst(visits, Unsent(visits[1..], next), at);
        at := [0] + at;
      }
    }
  }

  lemma NoVisits()
    ensures FirstVisits([], [], [])
  {
  }

  lemma ShiftedVisits(visits: seq<File>, xs: seq<File>, rest: seq<nat>, sent: set<string>)
    requires visits != [] && FirstVisits(visits[1..], xs, rest)
    requires visits[0].path in sent && forall x :: x in xs ==> x.path !in sent
    ensures FirstVisits(visits, xs, Shifted(rest))
  {
    hide IsFirstVisit;
    forall i | 0 <= i < |rest| ensures IsFirstVisit(visits, rest[i] + 1, xs[i]) {
      LaterVisit(visits, rest[i], xs, i, sent);
    }
  }

  lemma WithFirst(visits: seq<File>, xs: seq<File>, at: seq<nat>)
    requires visits != [] && FirstVisits(visits, xs, at) && forall i :: 0 <= i < |at| ==> at[i] > 0
    ensures FirstVisits(visits, [visits[0]] + xs, [0] + at)
  {
    hide IsFirstVisit;
    FirstIsFirst(visits);
  }

  lemma UnsentUnfolds(visits: seq<File>, sent: set<string>)
    ensures visits == [] ==> Unsent(visits, sent) == []
    ensures visits != [] ==>
              Unsent(visits, sent) == if visits[0].path in sent then Unsent(visits[1..], sent)
                                      else [visits[0]] + Unsent(visits[1..], sent + {visits[0].path})
  {
  }

  lemma FirstIsFirst(visits: seq<File>)
    requires visits != []
    ensures IsFirstVisit(visits, 0, visits[0])
  {
  }

  lemma LaterVisit(visits: seq<File>, k: nat, unsent: seq<File>, i: nat, sent: set<string>)
    requires visits != [] && i < |unsent| && IsFirstVisit(visits[1..], k, unsent[i])
    requires visits[0].path in sent && forall x :: x in unsent ==> x.path !in sent
    ensures IsFirstVisit(visits, k + 1, unsent[i])
  {
    assert unsent[i] in unsent;
    forall j | 0 <= j < k + 1 ensures visits[j].path != unsent[i].path {
      if j > 0 {
        assert visits[j] == visits[1..][j - 1];
      }
    }
  }
}
