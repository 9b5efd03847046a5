/**
 * Protobuf file descriptors and the import graph they span.
 *
 * A descriptor is an immutable value holding its imports, so every value of `File` is an
 * acyclic graph; two different files may share a path, and one file may be imported along
 * several paths.  A `Placeholder` stands for an import that could not be resolved: it has a
 * path but no declarations and no imports.
 */
module ImportGraph {
  datatype Extension = Extension(name: string, extendee: string, number: int)

  datatype File =
    | File(path: string, services: seq<string>, enums: seq<string>, messages: seq<string>,
           extensions: seq<Extension>, imports: seq<File>)
    | Placeholder(path: string)

  /** The wire form of a file: its imports are reduced to their paths. */
  datatype FileProto = FileProto(name: string, dependencies: seq<string>, services: seq<string>,
                                 enums: seq<string>, messages: seq<string>, extensions: seq<Extension>)

  function PathsOf(fs: seq<File>): (ps: seq<string>)
    ensures |ps| == |fs| && forall i :: 0 <= i < |fs| ==> ps[i] == fs[i].path
  {
    seq(|fs|, i requires 0 <= i < |fs| => fs[i].path)
  }

  function ToProto(f: File): FileProto {
    match f
    case File(path, services, enums, messages, extensions, imports) =>
      FileProto(path, PathsOf(imports), services, enums, messages, extensions)
    case Placeholder(path) => FileProto(path, [], [], [], [], [])
  }

  /** Field by field, `p` says what file `f` declares and imports. */
  ghost predicate Describes(p: FileProto, f: File) {
    && f.File? && p.name == f.path
    && |p.dependencies| == |f.imports| && (forall i :: 0 <= i < |f.imports| ==> p.dependencies[i] == f.imports[i].path)
    && p.services == f.services && p.enums == f.enums && p.messages == f.messages && p.extensions == f.extensions
  }

  /** The wire form of a file is its description, and nothing else is. */
  lemma ToProtoDescribes(p: FileProto, f: File)
    requires f.File?
    ensures Describes(p, f) <==> p == ToProto(f)
  {
    if Describes(p, f) {
      assert p.dependencies == PathsOf(f.imports);
    }
  }

  // ---------------------------------------------------------------- import paths

  /** `p` selects, step by step, an import of the file reached so far. */
  ghost predicate IsImportPath(f: File, p: seq<nat>)
    decreases |p|
  {
    p == [] || (f.File? && p[0] < |f.imports| && IsImportPath(f.imports[p[0]], p[1..]))
  }

  /** The file (or placeholder) at the end of an import path. */
  ghost function At(f: File, p: seq<nat>): File
    requires IsImportPath(f, p)
    decreases |p|
  {
    if p == [] then f else At(f.imports[p[0]], p[1..])
  }

  ghost function ImportPaths(f: File): set<seq<nat>>
    decreases f, 1
  {
    {[]} + if f.File? then BranchPaths(f.imports, |f.imports|) else {}
  }

  /** The import paths whose first step is one of the first `k` imports. */
  ghost function BranchPaths(fs: seq<File>, k: nat): set<seq<nat>>
    requires k <= |fs|
    decreases fs, 0, k
  {
    if k == 0 then {}
    else BranchPaths(fs, k - 1) + Prepended(k - 1, ImportPaths(fs[k - 1]))
  }

  ghost function Prepended(k: nat, paths: set<seq<nat>>): set<seq<nat>> {
    set p | p in paths :: [k] + p
  }

  lemma PrependedExact(k: nat, paths: set<seq<nat>>, p: seq<nat>)
    ensures p in Prepended(k, paths) <==> p != [] && p[0] == k && p[1..] in paths
  {
    if p != [] {
      assert p == [p[0]] + p[1..];
    }
    forall q | q in paths ensures ([k] + q)[1..] == q {}
  }

  lemma {:induction false} ImportPathsExact(f: File, p: seq<nat>)
    ensures p in ImportPaths(f) <==> IsImportPath(f, p)
    decreases f, 1
  {
    if f.File? && p != [] {
      BranchPathsExact(f.imports, |f.imports|, p);
    }
  }

  lemma {:induction false} BranchPathsExact(fs: seq<File>, k: nat, p: seq<nat>)
    requires k <= |fs|
    ensures p in BranchPaths(fs, k) <==> p != [] && p[0] < k && IsImportPath(fs[p[0]], p[1..])
    decreases fs, 0, k
  {
    if k > 0 {
      BranchPathsExact(fs, k - 1, p);
      PrependedExact(k - 1, ImportPaths(fs[k - 1]), p);
      if p != [] {
        ImportPathsExact(fs[k - 1], p[1..]);
      }
    }
  }

  /** How often a walk without a visited check meets a file when it starts at `f`. */
  ghost function PathCount(f: File): (n: nat)
    ensures n > 0
    decreases f
  {
    1 + if f.File? then PathCounts(f.imports) else 0
  }

  ghost function PathCounts(fs: seq<File>): nat
    decreases fs
  {
    if fs == [] then 0 else PathCount(fs[0]) + PathCounts(fs[1..])
  }

  lemma {:induction false} PathCountsAppend(a: seq<File>, b: seq<File>)
    ensures PathCounts(a + b) == PathCounts(a) + PathCounts(b)
  {
    if a == [] {
      assert a + b == b;
    } else {
      assert (a + b)[1..] == a[1..] + b;
      PathCountsAppend(a[1..], b);
    }
  }

  lemma {:induction false} PrefixedCardinality(k: nat, s: set<seq<nat>>)
    ensures |Prepended(k, s)| == |s|
  {
    if s != {} {
      var q :| q in s;
      PrefixedCardinality(k, s - {q});
      assert Prepended(k, s) == Prepended(k, s - {q}) + {[k] + q};
      forall p | p in s - {q} ensures [k] + p != [k] + q {
        assert ([k] + p)[1..] == p && ([k] + q)[1..] == q;
      }
    }
  }

  /** The weight of a file is exactly the number of import paths starting at it. */
  lemma {:induction false} PathCountIsNumberOfPaths(f: File)
    ensures |ImportPaths(f)| == PathCount(f)
    decreases f
  {
    if f.File? {
      forall i | 0 <= i < |f.imports| ensures |ImportPaths(f.imports[i])| == PathCount(f.imports[i]) {
        PathCountIsNumberOfPaths(f.imports[i]);
      }
      BranchCount(f.imports, |f.imports|);
      assert f.imports[..|f.imports|] == f.imports;
      BranchPathsExact(f.imports, |f.imports|, []);
    }
  }

  lemma {:induction false} BranchCount(fs: seq<File>, k: nat)
    requires k <= |fs|
    requires forall i :: 0 <= i < k ==> |ImportPaths(fs[i])| == PathCount(fs[i])
    ensures |BranchPaths(fs, k)| == PathCounts(fs[..k])
    decreases k
  {
    hide *;
    if k == 0 {
      NoBranches(fs);
    } else {
      BranchCount(fs, k - 1);
      OneMoreBranch(fs, k);
      PathCountsSnoc(fs, k);
    }
  }

  lemma NoBranches(fs: seq<File>)
    ensures |BranchPaths(fs, 0)| == PathCounts(fs[..0]) == 0
  {
  }

  lemma OneMoreBranch(fs: seq<File>, k: nat)
    requires 0 < k <= |fs|
    ensures |BranchPaths(fs, k)| == |BranchPaths(fs, k - 1)| + |ImportPaths(fs[k - 1])|
  {
    hide ImportPaths, Prepended;
    var last := Prepended(k - 1, ImportPaths(fs[k - 1]));
    PrefixedCardinality(k - 1, ImportPaths(fs[k - 1]));
    forall p | p in last ensures p !in BranchPaths(fs, k - 1) {
      PrependedExact(k - 1, ImportPaths(fs[k - 1]), p);
      BranchPathsExact(fs, k - 1, p);
    }
    assert BranchPaths(fs, k - 1) !! last;
  }

  lemma PathCountsSnoc(fs: seq<File>, k: nat)
    requires 0 < k <= |fs|
    ensures PathCounts(fs[..k]) == PathCounts(fs[..k - 1]) + PathCount(fs[k - 1])
  {
    hide PathCount;
    assert fs[..k] == fs[..k - 1] + [fs[k - 1]];
    PathCountsAppend(fs[..k - 1], [fs[k - 1]]);
    assert [fs[k - 1]][1..] == [];
  }

  // ---------------------------------------------------------------- closure

  /** All files reachable from `f` through imports that are not placeholders. */
  ghost function Closure(f: File): set<File>
    decreases f
  {
    if f.File? then {f} + Closures(f.imports) else {}
  }

  ghost function Closures(fs: seq<File>): set<File>
    decreases fs
  {
    if fs == [] then {} else Closure(fs[0]) + Closures(fs[1..])
  }

  ghost function PathSet(fs: set<File>): set<string> {
    set f | f in fs :: f.path
  }

  ghost predicate HasPath(fs: seq<File>, path: string) {
    exists f :: f in fs && f.path == path
  }

  ghost predicate DistinctPaths(fs: seq<File>) {
    forall i, j :: 0 <= i < j < |fs| ==> fs[i].path != fs[j].path
  }

  lemma RootInClosure(f: File)
    requires f.File?
    ensures f in Closure(f)
  {
  }

  lemma {:induction false} ClosuresAppend(a: seq<File>, b: seq<File>)
    ensures Closures(a + b) == Closures(a) + Closures(b)
  {
    if a == [] {
      assert a + b == b;
    } else {
      assert (a + b)[1..] == a[1..] + b;
      ClosuresAppend(a[1..], b);
    }
  }

  lemma {:induction false} ClosuresMember(fs: seq<File>, i: nat)
    requires i < |fs|
    ensures Closure(fs[i]) <= Closures(fs)
  {
    if i > 0 {
      ClosuresMember(fs[1..], i - 1);
    }
  }

  /** Soundness and completeness of the closure: it holds exactly the ends of import paths. */
  lemma ClosureIsReachability(f: File, x: File)
    ensures x in Closure(f) <==> x.File? && exists p :: IsImportPath(f, p) && At(f, p) == x
  {
    if x in Closure(f) {
      var p := ClosureWitness(f, x);
    }
    forall p | IsImportPath(f, p) && At(f, p) == x && x.File?
      ensures x in Closure(f)
    {
      PathEndInClosure(f, p);
    }
  }

  lemma {:induction false} ClosureWitness(f: File, x: File) returns (p: seq<nat>)
    requires x in Closure(f)
    ensures x.File? && IsImportPath(f, p) && At(f, p) == x
    decreases f
  {
    if x == f {
      p := [];
    } else {
      var i, q := ClosuresWitness(f.imports, x);
      p := [i] + q;
      assert p[1..] == q;
    }
  }

  lemma {:induction false} ClosuresWitness(fs: seq<File>, x: File) returns (i: nat, p: seq<nat>)
    requires x in Closures(fs)
    ensures i < |fs| && x.File? && IsImportPath(fs[i], p) && At(fs[i], p) == x
    decreases fs
  {
    if x in Closure(fs[0]) {
      p := ClosureWitness(fs[0], x);
      i := 0;
    } else {
      i, p := ClosuresWitness(fs[1..], x);
      i := i + 1;
    }
  }

  lemma {:induction false} PathEndInClosure(f: File, p: seq<nat>)
    requires IsImportPath(f, p) && At(f, p).File?
    ensures At(f, p) in Closure(f)
    decreases |p|
  {
    if p != [] {
      PathEndInClosure(f.imports[p[0]], p[1..]);
      ClosuresMember(f.imports, p[0]);
    }
  }

  /** A closure is closed: it contains the resolved imports of each of its files. */
  lemma {:induction false} ClosureIsClosed(f: File, x: File, i: nat)
    requires x in Closure(f) && x.File? && i < |x.imports| && x.imports[i].File?
    ensures x.imports[i] in Closure(f)
  {
    var p := ClosureWitness(f, x);
    ExtendPath(f, p, i);
    PathEndInClosure(f, p + [i]);
  }

  lemma {:induction false} ExtendPath(f: File, p: seq<nat>, i: nat)
    requires IsImportPath(f, p) && At(f, p).File? && i < |At(f, p).imports|
    ensures IsImportPath(f, p + [i]) && At(f, p + [i]) == At(f, p).imports[i]
    decreases |p|
  {
    if p == [] {
      assert p + [i] == [i];
    } else {
      assert (p + [i])[1..] == p[1..] + [i];
      ExtendPath(f.imports[p[0]], p[1..], i);
    }
  }

  lemma {:induction false} ClosureHasOnlyFiles(f: File)
    ensures forall x :: x in Closure(f) ==> x.File?
  {
    forall x | x in Closure(f) ensures x.File? {
      var p := ClosureWitness(f, x);
    }
  }
}
