/** Which servers provide which service: the lists kept per service name, and how they change. */
module ServiceLists {
  import opened Collections

  type Lists<T> = map<string, seq<T>>

  // ---------------------------------------------------------------- specification

  /** `s` without any occurrence of `x`, the rest in order. */
  function Without<T(==)>(s: seq<T>, x: T): seq<T> {
    if s == [] then [] else Without(s[..|s| - 1], x) + if s[|s| - 1] == x then [] else [s[|s| - 1]]
  }

  function IndexOf<T(==)>(s: seq<T>, x: T): (i: nat)
    requires x in s
    ensures i < |s| && s[i] == x && x !in s[..i]
  {
    if s[0] == x then 0 else 1 + IndexOf(s[1..], x)
  }

  /** The last element takes the place of the first `x`. */
  function SwapRemove<T(==)>(s: seq<T>, x: T): seq<T> {
    if x in s then s[IndexOf(s, x) := s[|s| - 1]][..|s| - 1] else s
  }

  /** What that means for every index. */
  lemma SwapRemoveAt<T>(s: seq<T>, x: T, i: nat)
    requires i < |s| && s[i] == x && x !in s[..i]
    ensures |SwapRemove(s, x)| == |s| - 1
    ensures forall k :: 0 <= k < |s| - 1 ==> SwapRemove(s, x)[k] == s[if k == i then |s| - 1 else k]
  {
    var j := IndexOf(s, x);
    InPrefix(s, j, i);
    InPrefix(s, i, j);
  }

  lemma InPrefix<T>(s: seq<T>, j: nat, i: nat)
    ensures j < i <= |s| ==> s[j] in s[..i]
  {
  }

  lemma SwapRemoveNothing<T>(s: seq<T>, x: T)
    requires x !in s
    ensures SwapRemove(s, x) == s
  {
  }

  ghost function Copies<T>(x: T, n: nat): (s: seq<T>)
    ensures |s| == n && forall i :: 0 <= i < n ==> s[i] == x
  {
    seq(n, _ => x)
  }

  ghost function ListOf<T>(lists: Lists<T>, name: string): seq<T> {
    if name in lists then lists[name] else []
  }

  function Names(names: seq<string>): set<string> {
    set n | n in names
  }

  /** `x` announces `names`: it is listed under each as often as it occurs there, and nowhere else. */
  ghost function Announced<T>(lists: Lists<T>, x: T, names: seq<string>): Lists<T> {
    map n | n in lists.Keys + Names(names) :: Without(ListOf(lists, n), x) + Copies(x, multiset(names)[n])
  }

  ghost function RemovedEverywhere<T>(lists: Lists<T>, x: T): Lists<T> {
    map n | n in lists :: Without(lists[n], x)
  }

  ghost function AppendedTo<T>(lists: Lists<T>, x: T, names: seq<string>): Lists<T> {
    if names == [] then lists
    else
      var before, name := AppendedTo(lists, x, names[..|names| - 1]), names[|names| - 1];
      before[name := ListOf(before, name) + [x]]
  }

  lemma {:induction false} AppendedKeys<T>(lists: Lists<T>, x: T, names: seq<string>)
    ensures AppendedTo(lists, x, names).Keys == lists.Keys + Names(names)
  {
    if names != [] {
      AppendedKeys(lists, x, names[..|names| - 1]);
      assert names == names[..|names| - 1] + [names[|names| - 1]];
    }
  }

  lemma {:induction false} AppendedCopies<T>(lists: Lists<T>, x: T, names: seq<string>, n: string)
    ensures ListOf(AppendedTo(lists, x, names), n) == ListOf(lists, n) + Copies(x, multiset(names)[n])
  {
    hide ListOf, AppendedTo;
    if names == [] {
      NothingAppendedYet(lists, x);
    } else {
      var front, name := names[..|names| - 1], names[|names| - 1];
      AppendedCopies(lists, x, front, n);
      AppendedOnce(lists, x, front, name, n);
      assert names == front + [name];
    }
  }

  lemma AppendedOnce<T>(lists: Lists<T>, x: T, front: seq<string>, name: string, n: string)
    ensures ListOf(AppendedTo(lists, x, front + [name]), n)
         == ListOf(AppendedTo(lists, x, front), n) + if n == name then [x] else []
  {
    assert (front + [name])[..|front|] == front;
  }

  /** Removing the server everywhere and then appending it name by name is the announcement. */
  lemma RemoveThenAppend<T>(lists: Lists<T>, x: T, names: seq<string>)
    ensures AppendedTo(RemovedEverywhere(lists, x), x, names) == Announced(lists, x, names)
  {
    var left, right := AppendedTo(RemovedEverywhere(lists, x), x, names), Announced(lists, x, names);
    AppendedKeys(RemovedEverywhere(lists, x), x, names);
    forall n | n in left ensures left[n] == right[n] {
      AppendedCopies(RemovedEverywhere(lists, x), x, names, n);
      assert ListOf(left, n) == left[n];
    }
  }

  ghost function CleanedUp<T>(lists: Lists<T>, x: T): Lists<T> {
    map n | n in lists :: SwapRemove(lists[n], x)
  }

  ghost function AllCleanedUp<T>(lists: Lists<T>, xs: seq<T>): Lists<T> {
    if xs == [] then lists else CleanedUp(AllCleanedUp(lists, xs[..|xs| - 1]), xs[|xs| - 1])
  }

  lemma NothingCleanedYet<T>(lists: Lists<T>)
    ensures AllCleanedUp(lists, []) == lists
  {
  }

  lemma NothingAppendedYet<T>(lists: Lists<T>, x: T)
    ensures AppendedTo(lists, x, []) == lists
  {
  }

  lemma AllCleanedUpAppend<T>(lists: Lists<T>, xs: seq<T>, x: T)
    ensures AllCleanedUp(lists, xs + [x]) == CleanedUp(AllCleanedUp(lists, xs), x)
  {
    assert (xs + [x])[..|xs|] == xs;
  }

  /** How often `x` is listed under `name`. */
  ghost function Listed<T>(lists: Lists<T>, name: string, x: T): nat {
    multiset(ListOf(lists, name))[x]
  }

  ghost predicate DuplicateFree<T>(lists: Lists<T>) {
    forall n, x :: n in lists && x in lists[n] ==> Listed(lists, n, x) <= 1
  }

  // ---------------------------------------------------------------- counting

  lemma {:induction false} WithoutCounts<T>(s: seq<T>, x: T)
    ensures multiset(Without(s, x)) == multiset(s)[x := 0]
  {
    if s != [] {
      var front, last := s[..|s| - 1], s[|s| - 1];
      WithoutCounts(front, x);
      assert s == front + [last];
      assert Without(s, x) == Without(front, x) + if last == x then [] else [last];
      hide Without;
      CountsWithout(multiset(front), last, x);
    }
  }

  lemma CountsWithout<T>(m: multiset<T>, last: T, x: T)
    ensures (m + multiset{last})[x := 0] == m[x := 0] + if last == x then multiset{} else multiset{last}
  {
  }

  lemma {:induction false} WithoutAppend<T>(a: seq<T>, b: seq<T>, x: T)
    ensures Without(a + b, x) == Without(a, x) + Without(b, x)
  {
    if b == [] {
      assert a + b == a;
    } else {
      assert (a + b)[..|a + b| - 1] == a + b[..|b| - 1];
      WithoutAppend(a, b[..|b| - 1], x);
    }
  }

  lemma {:induction false} WithoutNothing<T>(s: seq<T>, x: T)
    requires x !in s
    ensures Without(s, x) == s
  {
    if s != [] {
      assert s == s[..|s| - 1] + [s[|s| - 1]];
      WithoutNothing(s[..|s| - 1], x);
    }
  }

  lemma {:induction false} WithoutCopies<T>(x: T, n: nat)
    ensures Without(Copies(x, n), x) == []
  {
    if n > 0 {
      assert Copies(x, n)[..n - 1] == Copies(x, n - 1);
      WithoutCopies(x, n - 1);
    }
  }

  lemma {:induction false} CountCopies<T>(x: T, n: nat)
    ensures multiset(Copies(x, n)) == multiset{}[x := n]
  {
    if n > 0 {
      CountCopies(x, n - 1);
      assert Copies(x, n) == Copies(x, n - 1) + [x];
    }
  }

  lemma SwapRemoveCounts<T>(s: seq<T>, x: T)
    ensures multiset(SwapRemove(s, x)) == multiset(s) - multiset{x}
  {
    if x in s {
      var i, last := IndexOf(s, x), |s| - 1;
      SwapRemoveParts(s, i);
      if i < last {
        CountParts(s[..i], s[i], s[i + 1..last], s[last]);
      }
    } else {
      assert x !in multiset(s);
    }
  }

  lemma SwapRemoveParts<T>(s: seq<T>, i: nat)
    requires i < |s|
    ensures s == s[..i] + [s[i]] + s[i + 1..]
    ensures i < |s| - 1 ==> s == s[..i] + [s[i]] + s[i + 1..|s| - 1] + [s[|s| - 1]]
    ensures i < |s| - 1 ==> s[i := s[|s| - 1]][..|s| - 1] == s[..i] + [s[|s| - 1]] + s[i + 1..|s| - 1]
    ensures i == |s| - 1 ==> s[i := s[|s| - 1]][..|s| - 1] == s[..i] && s == s[..i] + [s[i]]
  {
  }

  lemma CountParts<T>(a: seq<T>, x: T, b: seq<T>, y: T)
    ensures multiset(a + [x] + b + [y]) == multiset(a + [y] + b) + multiset{x}
  {
  }

  // ---------------------------------------------------------------- conservation

  /** An announcement lists the server exactly as often as announced and leaves all others untouched, in order. */
  lemma AnnouncementConserves<T>(lists: Lists<T>, x: T, names: seq<string>, n: string)
    ensures Listed(Announced(lists, x, names), n, x) == multiset(names)[n]
    ensures Without(ListOf(Announced(lists, x, names), n), x) == Without(ListOf(lists, n), x)
    ensures n in Announced(lists, x, names) <==> n in lists || n in names
  {
    var before, after := ListOf(lists, n), ListOf(Announced(lists, x, names), n);
    var copies := Copies(x, multiset(names)[n]);
    if n in lists || n in names {
      assert after == Without(before, x) + copies;
      WithoutCounts(before, x);
      CountCopies(x, multiset(names)[n]);
      WithoutAppend(Without(before, x), copies, x);
      assert x !in multiset(Without(before, x));
      WithoutNothing(Without(before, x), x);
      WithoutCopies(x, multiset(names)[n]);
    }
  }

  /** Cleaning up drops exactly one occurrence per list, so it removes the server exactly if it was listed at most once. */
  lemma CleanupDropsOne<T>(lists: Lists<T>, x: T, n: string, y: T)
    ensures Listed(CleanedUp(lists, x), n, x) == if Listed(lists, n, x) == 0 then 0 else Listed(lists, n, x) - 1
    ensures y != x ==> Listed(CleanedUp(lists, x), n, y) == Listed(lists, n, y)
    ensures Listed(CleanedUp(lists, x), n, x) == 0 <==> Listed(lists, n, x) <= 1
  {
    hide SwapRemove;
    if n in lists {
      SwapRemoveCounts(lists[n], x);
    }
  }

  lemma AnnouncementKeepsDuplicateFree<T>(lists: Lists<T>, x: T, names: seq<string>)
    requires DuplicateFree(lists) && NoDup(names)
    ensures DuplicateFree(Announced(lists, x, names))
  {
    var after := Announced(lists, x, names);
    forall n, y | n in after && y in after[n] ensures Listed(after, n, y) <= 1 {
      if y == x {
        AnnouncementConserves(lists, x, names, n);
        NoDupCounts(names, n);
      } else {
        OtherListed(lists, x, names, n, y);
        AtMostOnce(lists, n, y);
      }
    }
  }

  lemma AtMostOnce<T>(lists: Lists<T>, n: string, x: T)
    requires DuplicateFree(lists)
    ensures Listed(lists, n, x) <= 1
  {
    if x in multiset(ListOf(lists, n)) {
      assert x in lists[n];
    }
  }

  lemma OtherListed<T>(lists: Lists<T>, x: T, names: seq<string>, n: string, y: T)
    requires y != x
    ensures Listed(Announced(lists, x, names), n, y) == Listed(lists, n, y)
  {
    AnnouncementConserves(lists, x, names, n);
    WithoutCounts(ListOf(lists, n), x);
    WithoutCounts(ListOf(Announced(lists, x, names), n), x);
  }

  lemma CleanupKeepsDuplicateFree<T>(lists: Lists<T>, x: T)
    requires DuplicateFree(lists)
    ensures DuplicateFree(CleanedUp(lists, x))
    ensures forall n :: Listed(CleanedUp(lists, x), n, x) == 0
  {
    forall n ensures Listed(CleanedUp(lists, x), n, x) == 0 {
      AtMostOnce(lists, n, x);
      CleanupDropsOne(lists, x, n, x);
    }
    forall n, y | n in lists && y in CleanedUp(lists, x)[n] ensures Listed(CleanedUp(lists, x), n, y) <= 1 {
      AtMostOnce(lists, n, y);
      CleanupDropsOne(lists, x, n, y);
    }
  }

  /** Who is still listed after a clean-up, and who may be listed after an announcement. */
  lemma CleanedUpMember<T>(lists: Lists<T>, x: T, n: string, y: T)
    requires n in CleanedUp(lists, x) && y in CleanedUp(lists, x)[n]
    ensures n in lists && y in lists[n] && (y == x ==> Listed(lists, n, x) > 1)
  {
    CleanupDropsOne(lists, x, n, y);
    assert y in multiset(CleanedUp(lists, x)[n]);
    assert y in multiset(lists[n]);
  }

  lemma ListedMember<T>(lists: Lists<T>, n: string, x: T)
    requires Listed(lists, n, x) > 0
    ensures n in lists && x in lists[n]
  {
    assert x in multiset(ListOf(lists, n));
  }

  lemma AnnouncedMember<T>(lists: Lists<T>, x: T, names: seq<string>, n: string, y: T)
    requires n in Announced(lists, x, names) && y in Announced(lists, x, names)[n] && y != x
    ensures n in lists && y in lists[n]
  {
    OtherListed(lists, x, names, n, y);
    assert y in multiset(Announced(lists, x, names)[n]);
    assert y in multiset(ListOf(lists, n));
  }
}
