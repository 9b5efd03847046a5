/** How evenly the wrapping 32-bit counter of a service spreads requests over its servers. */
module RoundRobin {
  import opened Collections
  import opened Proxy

  /** The counter after `k` selections: each one adds 1 modulo 2^32, as in `FindServer`. */
  ghost function Counter(start: nat, k: nat): nat {
    if k == 0 then start else (Counter(start, k - 1) + 1) % COUNTER_RANGE
  }

  /** How many of `m` consecutive selections from a list of `n` servers choose position `p`. */
  ghost function Picks(start: nat, m: nat, n: nat, p: nat): nat
    requires n > 0
  {
    if m == 0 then 0
    else Picks(start, m - 1, n, p) + if Counter(start, m) % n == p then 1 else 0
  }

  /** How often the counter returns to zero within the window, after its first selection. */
  ghost function Wraps(start: nat, m: nat): nat {
    if m == 0 then 0 else (start + m) / COUNTER_RANGE - (start + 1) / COUNTER_RANGE
  }

  /** That is how many of its values after the first are zero. */
  lemma {:induction false} WrapsCountsZeros(start: nat, m: nat)
    requires start < 4294967296 && m > 0
    ensures Wraps(start, m) == ZerosAfterFirst(start, m)
  {
    if m > 1 {
      WrapsCountsZeros(start, m - 1);
      CounterIsModular(start, m);
      var x := start + m;
      if x % COUNTER_RANGE == 0 {
        assert (x - 1) / COUNTER_RANGE == x / COUNTER_RANGE - 1;
      } else {
        assert (x - 1) / COUNTER_RANGE == x / COUNTER_RANGE;
      }
    }
  }

  ghost function ZerosAfterFirst(start: nat, m: nat): nat {
    if m <= 1 then 0 else ZerosAfterFirst(start, m - 1) + if Counter(start, m) == 0 then 1 else 0
  }

  lemma {:induction false} CounterIsModular(start: nat, k: nat)
    requires start < COUNTER_RANGE
    ensures Counter(start, k) == (start + k) % 4294967296 && Counter(start, k) < COUNTER_RANGE
  {
    if k > 0 {
      CounterIsModular(start, k - 1);
      var before := Counter(start, k - 1);
      NextRemainder(start + k - 1, COUNTER_RANGE);
      assert (before + 1) % COUNTER_RANGE == if before == COUNTER_RANGE - 1 then 0 else before + 1;
    }
  }

  /** `m` calls of FindServer with nothing else happening: the k-th picks by the k-th counter value,
      so in a duplicate-free list each server is chosen as often as its position is picked. */
  method FindServers(proxy: Proxy, serviceName: string, m: nat) returns (chosen: seq<UpstreamServer>)
    requires proxy.Valid() && serviceName in proxy.services && proxy.services[serviceName].servers != []
    modifies proxy.services.Values`next
    ensures var service := proxy.services[serviceName];
            var start, n := old(service.next), |service.servers|;
            && service.next == Counter(start, m) && |chosen| == m
            && (forall k :: 0 <= k < m ==> chosen[k] == service.servers[Counter(start, k + 1) % n])
            && (NoDup(service.servers) ==> forall p :: 0 <= p < n ==> multiset(chosen)[service.servers[p]] == Picks(start, m, n, p))
  {
    chosen := [];
    var service := proxy.services[serviceName];
    ghost var start, n := service.next, |service.servers|;
    for i := 0 to m
      invariant service.next == Counter(start, i) && |chosen| == i
      invariant forall k :: 0 <= k < i ==> chosen[k] == service.servers[Counter(start, k + 1) % n]
    {
      var server := proxy.FindServer(serviceName);
      chosen := chosen + [server.value];
    }
    if NoDup(service.servers) {
      forall p | 0 <= p < n ensures multiset(chosen)[service.servers[p]] == Picks(start, m, n, p) {
        ChosenAsOftenAsPicked(service.servers, chosen, start, p);
      }
    }
  }

  lemma {:induction false} ChosenAsOftenAsPicked(servers: seq<UpstreamServer>, chosen: seq<UpstreamServer>, start: nat, p: nat)
    requires NoDup(servers) && p < |servers|
    requires forall k :: 0 <= k < |chosen| ==> chosen[k] == servers[Counter(start, k + 1) % |servers|]
    ensures multiset(chosen)[servers[p]] == Picks(start, |chosen|, |servers|, p)
  {
    hide Counter;
    if chosen != [] {
      var m := |chosen| - 1;
      ChosenAsOftenAsPicked(servers, chosen[..m], start, p);
      assert chosen == chosen[..m] + [chosen[m]];
      var q := Counter(start, m + 1) % |servers|;
      assert servers[q] == servers[p] <==> q == p;
    }
  }

  /** The lead of position `p` over the later position `q` after counting 0, 1, .., x - 1 modulo n. */
  ghost function Lead(x: nat, n: nat, p: nat, q: nat): int
    requires p < q < n
  {
    (if p < x % n then 1 else 0) - (if q < x % n then 1 else 0)
  }

  /** The same for a counter that starts again at 0 after each full range. */
  ghost function WrappedLead(y: nat, n: nat, p: nat, q: nat): int
    requires p < q < n
  {
    (if Lead(COUNTER_RANGE, n, p, q) == 1 then y / COUNTER_RANGE else 0) + Lead(y % COUNTER_RANGE, n, p, q)
  }

  lemma LeadStep(x: nat, n: nat, p: nat, q: nat)
    requires p < q < n
    ensures Lead(x + 1, n, p, q) - Lead(x, n, p, q) == (if x % n == p then 1 else 0) - (if x % n == q then 1 else 0)
  {
    NextRemainder(x, n);
  }

  lemma NextRemainder(x: nat, n: nat)
    requires n > 0
    ensures (x + 1) % n == if x % n == n - 1 then 0 else x % n + 1
  {
    var d, r := x / n, x % n;
    assert x == d * n + r;
    if r == n - 1 {
      assert x + 1 == (d + 1) * n;
      RemainderUnique(x + 1, n, d + 1, 0);
    } else {
      RemainderUnique(x + 1, n, d, r + 1);
    }
  }

  lemma RemainderUnique(x: nat, n: nat, d: nat, r: nat)
    requires r < n && x == d * n + r
    ensures x % n == r
  {
    var e, s := x / n, x % n;
    if d < e {
      Multiples(d, e, n);
    } else if e < d {
      Multiples(e, d, n);
    }
  }

  /** Different multiples of n are at least n apart. */
  lemma {:induction false} Multiples(d: nat, e: nat, n: nat)
    requires d < e
    ensures e * n >= d * n + n
  {
    assert e * n == (e - 1) * n + n;
    if e - 1 > d {
      Multiples(d, e - 1, n);
    }
  }

  lemma WrappedLeadStep(y: nat, n: nat, p: nat, q: nat)
    requires p < q < n
    ensures WrappedLead(y + 1, n, p, q) - WrappedLead(y, n, p, q)
         == (if y % COUNTER_RANGE % n == p then 1 else 0) - (if y % COUNTER_RANGE % n == q then 1 else 0)
  {
    hide Lead;
    LeadStep(y % COUNTER_RANGE, n, p, q);
    LeadBounds(COUNTER_RANGE, n, p, q);
    LeadBounds(0, n, p, q);
    if y % COUNTER_RANGE == COUNTER_RANGE - 1 {
      assert (y + 1) % COUNTER_RANGE == 0 && (y + 1) / COUNTER_RANGE == y / COUNTER_RANGE + 1;
    } else {
      assert (y + 1) % COUNTER_RANGE == y % COUNTER_RANGE + 1 && (y + 1) / COUNTER_RANGE == y / COUNTER_RANGE;
    }
  }

  lemma LeadBounds(x: nat, n: nat, p: nat, q: nat)
    requires p < q < n
    ensures 0 <= Lead(x, n, p, q) <= 1 && (x == 0 ==> Lead(x, n, p, q) == 0)
    ensures x % n == 0 ==> Lead(x, n, p, q) == 0
  {
  }

  lemma NoPicks(start: nat, n: nat, p: nat)
    requires n > 0
    ensures Picks(start, 0, n, p) == 0
  {
  }

  lemma OneMorePick(start: nat, m: nat, n: nat, p: nat)
    requires n > 0 && m > 0
    ensures Picks(start, m, n, p) == Picks(start, m - 1, n, p) + if Counter(start, m) % n == p then 1 else 0
  {
  }

  /** The exact difference between the pick counts of two positions over any window. */
  lemma {:induction false} DifferenceExact(start: nat, m: nat, n: nat, p: nat, q: nat)
    requires start < COUNTER_RANGE && p < q < n
    ensures Picks(start, m, n, p) - Picks(start, m, n, q)
         == WrappedLead(start + 1 + m, n, p, q) - WrappedLead(start + 1, n, p, q)
  {
    hide WrappedLead, Picks, Counter;
    NoPicks(start, n, p);
    NoPicks(start, n, q);
    if m > 0 {
      DifferenceExact(start, m - 1, n, p, q);
      CounterIsModular(start, m);
      WrappedLeadStep(start + m, n, p, q);
      OneMorePick(start, m, n, p);
      OneMorePick(start, m, n, q);
    }
  }

  /** Fairness: any two positions differ by at most one per started counter range,
      and by at most one altogether when the list length divides 2^32. */
  lemma Fairness(start: nat, m: nat, n: nat, p: nat, q: nat)
    requires start < 4294967296 && p < n && q < n
    ensures Picks(start, m, n, p) - Picks(start, m, n, q) <= 1 + Wraps(start, m)
    ensures 4294967296 % n == 0 ==> Picks(start, m, n, p) - Picks(start, m, n, q) <= 1
  {
    if p < q {
      DifferenceExact(start, m, n, p, q);
      WindowBound(start, m, n, p, q);
    } else if q < p {
      DifferenceExact(start, m, n, q, p);
      WindowBound(start, m, n, q, p);
    }
  }

  lemma WindowBound(start: nat, m: nat, n: nat, p: nat, q: nat)
    requires start < COUNTER_RANGE && p < q < n
    ensures -1 <= WrappedLead(start + 1 + m, n, p, q) - WrappedLead(start + 1, n, p, q) <= 1 + Wraps(start, m)
    ensures COUNTER_RANGE % n == 0 ==> WrappedLead(start + 1 + m, n, p, q) - WrappedLead(start + 1, n, p, q) <= 1
  {
    hide Lead;
    var first, end := start + 1, start + 1 + m;
    LeadBounds(COUNTER_RANGE, n, p, q);
    LeadBounds(first % COUNTER_RANGE, n, p, q);
    LeadBounds(end % COUNTER_RANGE, n, p, q);
    if end % COUNTER_RANGE == 0 && m > 0 {
      assert (end - 1) / COUNTER_RANGE == end / COUNTER_RANGE - 1;
    } else if m > 0 {
      assert (end - 1) / COUNTER_RANGE == end / COUNTER_RANGE;
    }
  }

  /** The bound of one fails for every other list length: some window picks the first server
      two times more often than another one. */
  lemma FairExactlyForDivisors(n: nat)
    requires n > 0
    ensures 4294967296 % n == 0
       <==> forall start: nat, m: nat, p: nat, q: nat :: start < 4294967296 && p < n && q < n ==> Even(start, m, n, p, q)
  {
    hide Picks;
    if COUNTER_RANGE % n == 0 {
      forall start: nat, m: nat, p: nat, q: nat | start < COUNTER_RANGE && p < n && q < n
        ensures Even(start, m, n, p, q)
      {
        Fairness(start, m, n, p, q);
      }
    } else {
      UnfairWindow(n);
      assert !Even(COUNTER_RANGE - 1, COUNTER_RANGE + 1, n, 0, COUNTER_RANGE % n);
    }
  }

  /** In this window, position `p` is picked at most once more often than `q`. */
  ghost predicate Even(start: nat, m: nat, n: nat, p: nat, q: nat)
    requires n > 0
  {
    Picks(start, m, n, p) - Picks(start, m, n, q) <= 1
  }

  lemma UnfairWindow(n: nat)
    requires n > 0 && COUNTER_RANGE % n != 0
    ensures Picks(COUNTER_RANGE - 1, COUNTER_RANGE + 1, n, 0)
          - Picks(COUNTER_RANGE - 1, COUNTER_RANGE + 1, n, COUNTER_RANGE % n) == 2
  {
    hide Picks, Counter;
    var q := COUNTER_RANGE % n;
    assert n > 1;
    DifferenceExact(COUNTER_RANGE - 1, COUNTER_RANGE + 1, n, 0, q);
    assert Lead(COUNTER_RANGE, n, 0, q) == 1;
    assert Lead(1, n, 0, q) == 1 by { RemainderUnique(1, n, 0, 1); }
    assert Lead(0, n, 0, q) == 0;
    assert (2 * COUNTER_RANGE + 1) / COUNTER_RANGE == 2 && (2 * COUNTER_RANGE + 1) % COUNTER_RANGE == 1;
  }
}
