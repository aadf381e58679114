/**
 * Ranking and selection in `main`: drop the servers that never answered,
 * stable-sort the rest by average latency, keep the first `TOP_DNS_COUNT`
 * and hand their addresses, best first, to the DNS configurator.
 */
module Ranking {
  import opened Stats

  /** Number of top DNS servers to recommend. */
  const TopDnsCount: nat := 4

  /** A result record of `main`: the server's statistics plus its `company`. */
  datatype ServerResult = ServerResult(stats: ServerStats, company: string)

  /** The sort key `x["avg"]`. */
  function AvgOf(r: ServerResult): Latency { r.stats.avg }

  /** The filter `r["successful_pings"] > 0`. */
  predicate Responded(r: ServerResult) { r.stats.successfulPings > 0 }

  // ---------------------------------------------------------------------
  // The order on latencies

  lemma LatencyLeTotal(a: Latency, b: Latency)
    ensures LatencyLe(a, b) || LatencyLe(b, a)
  {
  }

  lemma LatencyLeTransitive(a: Latency, b: Latency, c: Latency)
    requires LatencyLe(a, b) && LatencyLe(b, c)
    ensures LatencyLe(a, c)
  {
  }

  lemma LatencyLeAntisymmetric(a: Latency, b: Latency)
    requires LatencyLe(a, b) && LatencyLe(b, a)
    ensures a == b
  {
  }

  // ---------------------------------------------------------------------
  // Filtering

  /** `[r for r in results if r["successful_pings"] > 0]` */
  function Responding(results: seq<ServerResult>): seq<ServerResult>
  {
    if results == [] then []
    else (if Responded(results[0]) then [results[0]] else []) + Responding(results[1..])
  }

  /** The filter keeps every responding result as often as it occurs, and nothing else. */
  lemma {:induction false} RespondingCount(results: seq<ServerResult>)
    ensures forall x :: multiset(Responding(results))[x] == if Responded(x) then multiset(results)[x] else 0
    decreases |results|
  {
    if results != [] {
      assert results == [results[0]] + results[1..];
      RespondingCount(results[1..]);
    }
  }

  /** Unfolding the filter at the head of a non-empty sequence. */
  lemma RespondingCons(x: ServerResult, rest: seq<ServerResult>)
    ensures Responding([x] + rest) == (if Responded(x) then [x] else []) + Responding(rest)
  {
    assert ([x] + rest)[1..] == rest;
  }

  /** The filter keeps its input's order: filtering a concatenation filters each part. */
  lemma {:induction false} RespondingAppend(a: seq<ServerResult>, b: seq<ServerResult>)
    ensures Responding(a + b) == Responding(a) + Responding(b)
    decreases |a|
  {
    if a == [] {
      assert a + b == b;
    } else {
      var y, t := a[0], a[1..];
      assert a + b == [y] + (t + b);
      assert a == [y] + t;
      RespondingCons(y, t + b);
      RespondingCons(y, t);
      RespondingAppend(t, b);
    }
  }

  /**
   * Filtering and taking the entries of one `avg` commute: for every key,
   * the responding entries with that key are in their order in `results`.
   */
  lemma {:induction false} RespondingWithAvg(s: seq<ServerResult>, k: Latency)
    ensures WithAvg(Responding(s), k) == Responding(WithAvg(s, k))
    decreases |s|
  {
    if s == [] {
      assert Responding(s) == [] && WithAvg(s, k) == [];
    } else {
      var y, t := s[0], s[1..];
      assert s == [y] + t;
      var rt, wt := Responding(t), WithAvg(t, k);
      RespondingWithAvg(t, k);
      RespondingCons(y, t);
      WithAvgCons(y, t, k);
      if Responded(y) {
        assert Responding(s) == [y] + rt;
        WithAvgCons(y, rt, k);
      } else {
        assert Responding(s) == rt;
      }
      if AvgOf(y) == k {
        assert WithAvg(s, k) == [y] + wt;
        RespondingCons(y, wt);
      } else {
        assert WithAvg(s, k) == wt;
      }
    }
  }

  // ---------------------------------------------------------------------
  // Stable sorting by average latency

  /** Non-decreasing by `avg`. */
  ghost predicate SortedByAvg(s: seq<ServerResult>)
  {
    forall i, j :: 0 <= i < j < |s| ==> LatencyLe(AvgOf(s[i]), AvgOf(s[j]))
  }

  /** The entries of `s` whose `avg` is `k`, in the order of `s`. */
  function WithAvg(s: seq<ServerResult>, k: Latency): seq<ServerResult>
  {
    if s == [] then []
    else (if AvgOf(s[0]) == k then [s[0]] else []) + WithAvg(s[1..], k)
  }

  /**
   * A stable sort keeps, for every key, the entries with that key in their
   * input order.
   */
  ghost predicate StableFor(output: seq<ServerResult>, input: seq<ServerResult>)
  {
    forall k :: WithAvg(output, k) == WithAvg(input, k)
  }

  /**
   * Put `x` in front of the first entry whose key is not below `x`'s key:
   * `x` lands before every entry with an equal key.
   */
  function Insert(x: ServerResult, s: seq<ServerResult>): (r: seq<ServerResult>)
    requires SortedByAvg(s)
    ensures SortedByAvg(r)
    ensures multiset(r) == multiset(s) + multiset{x}
  {
    if s == [] then [x]
    else if LatencyLe(AvgOf(x), AvgOf(s[0])) then
      SortedCons(x, s);
      [x] + s
    else
      SortedByAvgTail(s);
      var rest := Insert(x, s[1..]);
      InsertBehind(x, s, rest);
      [s[0]] + rest
  }

  /** An entry whose key is at most the first key of a sorted sequence can go in front. */
  lemma SortedCons(x: ServerResult, s: seq<ServerResult>)
    requires SortedByAvg(s) && s != [] && LatencyLe(AvgOf(x), AvgOf(s[0]))
    ensures SortedByAvg([x] + s)
  {
    forall j | 0 <= j < |s| ensures LatencyLe(AvgOf(x), AvgOf(s[j])) {
      if j > 0 {
        LatencyLeTransitive(AvgOf(x), AvgOf(s[0]), AvgOf(s[j]));
      }
    }
  }

  /** `s[0]` stays in front when `x`, whose key is above it, is inserted into the rest. */
  lemma InsertBehind(x: ServerResult, s: seq<ServerResult>, rest: seq<ServerResult>)
    requires SortedByAvg(s) && s != [] && !LatencyLe(AvgOf(x), AvgOf(s[0]))
    requires SortedByAvg(rest) && multiset(rest) == multiset(s[1..]) + multiset{x}
    ensures SortedByAvg([s[0]] + rest)
    ensures multiset([s[0]] + rest) == multiset(s) + multiset{x}
  {
    assert s == [s[0]] + s[1..];
    forall j | 0 <= j < |rest| ensures LatencyLe(AvgOf(s[0]), AvgOf(rest[j])) {
      assert rest[j] in multiset(rest);
      if rest[j] == x {
        LatencyLeTotal(AvgOf(x), AvgOf(s[0]));
      } else {
        assert rest[j] in multiset(s[1..]);
        var m :| 0 <= m < |s[1..]| && s[1..][m] == rest[j];
        assert s[m + 1] == rest[j];
      }
    }
    var r := [s[0]] + rest;
    forall i, j | 0 <= i < j < |r| ensures LatencyLe(AvgOf(r[i]), AvgOf(r[j])) {
      if i > 0 {
        assert r[i] == rest[i - 1] && r[j] == rest[j - 1];
      } else {
        assert r[j] == rest[j - 1];
      }
    }
  }

  /** Insertion sort from the back, so that earlier entries win ties. */
  function SortByAvg(s: seq<ServerResult>): (r: seq<ServerResult>)
    ensures SortedByAvg(r)
    ensures multiset(r) == multiset(s)
  {
    if s == [] then []
    else
      assert s == [s[0]] + s[1..];
      Insert(s[0], SortByAvg(s[1..]))
  }

  /** `sorted([r for r in results if r["successful_pings"] > 0], key=lambda x: x["avg"])` */
  function Rank(results: seq<ServerResult>): seq<ServerResult>
  {
    SortByAvg(Responding(results))
  }

  /** Unfolding `WithAvg` at the head of a non-empty sequence. */
  lemma WithAvgCons(y: ServerResult, s: seq<ServerResult>, k: Latency)
    ensures WithAvg([y] + s, k) == (if AvgOf(y) == k then [y] else []) + WithAvg(s, k)
  {
    assert ([y] + s)[1..] == s;
  }

  lemma {:induction false} WithAvgInsert(x: ServerResult, s: seq<ServerResult>, k: Latency)
    requires SortedByAvg(s)
    ensures WithAvg(Insert(x, s), k) == (if AvgOf(x) == k then [x] else []) + WithAvg(s, k)
    decreases |s|, 1
  {
    if s == [] {
      assert Insert(x, s) == [x] + s;
      WithAvgCons(x, s, k);
    } else if LatencyLe(AvgOf(x), AvgOf(s[0])) {
      assert Insert(x, s) == [x] + s;
      WithAvgCons(x, s, k);
    } else {
      WithAvgInsertBehind(x, s, k);
    }
  }

  /** The case of `WithAvgInsert` where `x` goes behind `s[0]`. */
  lemma {:induction false} WithAvgInsertBehind(x: ServerResult, s: seq<ServerResult>, k: Latency)
    requires SortedByAvg(s) && s != [] && !LatencyLe(AvgOf(x), AvgOf(s[0]))
    ensures WithAvg(Insert(x, s), k) == (if AvgOf(x) == k then [x] else []) + WithAvg(s, k)
    decreases |s|, 0
  {
    var own := if AvgOf(x) == k then [x] else [];
    var head := if AvgOf(s[0]) == k then [s[0]] else [];
    SortedByAvgTail(s);
    var rest := Insert(x, s[1..]);
    assert Insert(x, s) == [s[0]] + rest;
    WithAvgCons(s[0], rest, k);
    WithAvgInsert(x, s[1..], k);
    // s[0]'s key is strictly below x's, so at most one of them has key k
    assert AvgOf(s[0]) != AvgOf(x);
    SwapDisjoint(head, own, WithAvg(s[1..], k));
  }

  lemma SwapDisjoint<T>(a: seq<T>, b: seq<T>, tail: seq<T>)
    requires a == [] || b == []
    ensures a + (b + tail) == b + (a + tail)
  {
    if a == [] {
      assert a + (b + tail) == b + tail;
    } else {
      assert b + (a + tail) == a + tail;
    }
  }

  /** The sort is stable: entries with equal `avg` keep their input order. */
  lemma {:induction false} SortByAvgStable(s: seq<ServerResult>)
    ensures StableFor(SortByAvg(s), s)
  {
    if s != [] {
      SortByAvgStable(s[1..]);
      forall k ensures WithAvg(SortByAvg(s), k) == WithAvg(s, k) {
        WithAvgInsert(s[0], SortByAvg(s[1..]), k);
      }
    }
  }

  lemma {:induction false} WithAvgMembers(s: seq<ServerResult>, k: Latency, y: ServerResult)
    requires y in WithAvg(s, k)
    ensures y in s && AvgOf(y) == k
  {
    if s != [] {
      if y != s[0] || AvgOf(s[0]) != k {
        WithAvgMembers(s[1..], k, y);
      }
    }
  }

  /**
   * A sorted sequence is determined by its per-key subsequences: any two
   * sorted sequences that agree on every key are equal. Hence every stable
   * sort by `avg`, Python's `sorted` included, gives the same result.
   */
  lemma {:induction false} SortedStableUnique(a: seq<ServerResult>, b: seq<ServerResult>)
    requires SortedByAvg(a) && SortedByAvg(b)
    requires StableFor(a, b)
    ensures a == b
    decreases |a|
  {
    WithAvgHead(a);
    WithAvgHead(b);
    if a != [] && b != [] {
      HeadsAgree(a, b);
      TailsAgree(a, b);
      SortedByAvgTail(a);
      SortedByAvgTail(b);
      SortedStableUnique(a[1..], b[1..]);
      assert a == [a[0]] + a[1..];
      assert b == [b[0]] + b[1..];
    }
  }

  lemma SortedByAvgTail(s: seq<ServerResult>)
    requires SortedByAvg(s) && s != []
    ensures SortedByAvg(s[1..])
  {
    forall i, j | 0 <= i < j < |s| - 1 ensures LatencyLe(AvgOf(s[1..][i]), AvgOf(s[1..][j])) {
      assert s[1..][i] == s[i + 1] && s[1..][j] == s[j + 1];
    }
  }

  /** Two sorted sequences that agree on every key start with the same entry. */
  lemma HeadsAgree(a: seq<ServerResult>, b: seq<ServerResult>)
    requires SortedByAvg(a) && SortedByAvg(b) && StableFor(a, b)
    requires a != [] && b != []
    ensures a[0] == b[0]
  {
    var ka, kb := AvgOf(a[0]), AvgOf(b[0]);
    WithAvgHead(a);
    WithAvgHead(b);
    assert WithAvg(a, ka)[0] == a[0];
    assert WithAvg(b, kb)[0] == b[0];
    assert WithAvg(a, ka) == WithAvg(b, ka);
    assert WithAvg(a, kb) == WithAvg(b, kb);
    FirstKeyBelow(b, ka, WithAvg(b, ka)[0]);
    FirstKeyBelow(a, kb, WithAvg(a, kb)[0]);
    LatencyLeAntisymmetric(ka, kb);
  }

  /** Dropping a common first entry keeps the two sequences in agreement on every key. */
  lemma TailsAgree(a: seq<ServerResult>, b: seq<ServerResult>)
    requires a != [] && b != [] && a[0] == b[0] && StableFor(a, b)
    ensures StableFor(a[1..], b[1..])
  {
    forall k ensures WithAvg(a[1..], k) == WithAvg(b[1..], k) {
      assert WithAvg(a, k) == WithAvg(b, k);
      var own := if AvgOf(a[0]) == k then [a[0]] else [];
      assert WithAvg(a, k) == own + WithAvg(a[1..], k);
      assert WithAvg(b, k) == own + WithAvg(b[1..], k);
      assert (own + WithAvg(a[1..], k))[|own|..] == WithAvg(a[1..], k);
      assert (own + WithAvg(b[1..], k))[|own|..] == WithAvg(b[1..], k);
    }
  }

  lemma WithAvgHead(s: seq<ServerResult>)
    ensures s != [] ==> WithAvg(s, AvgOf(s[0])) != []
  {
  }

  /** In a sorted sequence the first key is at most the key of any entry. */
  lemma FirstKeyBelow(s: seq<ServerResult>, k: Latency, y: ServerResult)
    requires SortedByAvg(s) && s != []
    requires y in WithAvg(s, k)
    ensures LatencyLe(AvgOf(s[0]), k)
  {
    WithAvgMembers(s, k, y);
    var j :| 0 <= j < |s| && s[j] == y;
    if j == 0 {
      LatencyLeTotal(k, k);
    }
  }

  /**
   * The ranked list is exactly the responding results (as a multiset, so
   * duplicates are kept), ordered by non-decreasing `avg`, with ties in
   * input order; and it is the only list with those properties.
   */
  lemma RankSpec(results: seq<ServerResult>)
    ensures forall x :: multiset(Rank(results))[x] == if Responded(x) then multiset(results)[x] else 0
    ensures SortedByAvg(Rank(results))
    ensures StableFor(Rank(results), Responding(results))
    ensures forall t :: SortedByAvg(t) && StableFor(t, Responding(results)) ==> t == Rank(results)
    ensures forall k :: WithAvg(Rank(results), k) == Responding(WithAvg(results, k))
  {
    RespondingCount(results);
    SortByAvgStable(Responding(results));
    forall k ensures WithAvg(Rank(results), k) == Responding(WithAvg(results, k)) {
      RespondingWithAvg(results, k);
    }
    forall t | SortedByAvg(t) && StableFor(t, Responding(results)) ensures t == Rank(results) {
      SortedStableUnique(t, Rank(results));
    }
  }

  // ---------------------------------------------------------------------
  // Selection

  /** `results_sorted[:TOP_DNS_COUNT]`: fewer eligible servers is not an error. */
  function TopServers(ranked: seq<ServerResult>, count: nat): (top: seq<ServerResult>)
    ensures |top| == if count < |ranked| then count else |ranked|
    ensures top == ranked[..|top|]
  {
    ranked[..if count < |ranked| then count else |ranked|]
  }

  /** `[result["ip"] for result in top_dns]` */
  function DnsIps(top: seq<ServerResult>): (ips: seq<string>)
    ensures |ips| == |top|
    ensures forall i :: 0 <= i < |top| ==> ips[i] == top[i].stats.ip
  {
    if top == [] then [] else [top[0].stats.ip] + DnsIps(top[1..])
  }

  /** The addresses handed to `set_dns`. */
  function RecommendedIps(results: seq<ServerResult>): seq<string>
  {
    DnsIps(TopServers(Rank(results), TopDnsCount))
  }

  /**
   * The addresses handed to the configurator are those of the first
   * `min(TOP_DNS_COUNT, |ranked|)` ranked results, in rank order; each
   * belongs to a server that answered, and the first one is a fastest
   * responding server.
   */
  lemma RecommendedIpsSpec(results: seq<ServerResult>)
    ensures var ranked, ips := Rank(results), RecommendedIps(results);
      && |ips| == (if TopDnsCount < |ranked| then TopDnsCount else |ranked|)
      && (forall i :: 0 <= i < |ips| ==> ips[i] == ranked[i].stats.ip)
      && (forall i :: 0 <= i < |ips| ==> ranked[i] in results && Responded(ranked[i]))
      && (|ips| > 0 ==> forall x :: x in results && Responded(x) ==> LatencyLe(AvgOf(ranked[0]), AvgOf(x)))
  {
    RankMembers(results);
    RankFirstFastest(results);
  }

  /** The ranked list holds exactly the responding results. */
  lemma RankMembers(results: seq<ServerResult>)
    ensures forall x :: x in Rank(results) <==> x in results && Responded(x)
  {
    var ranked := Rank(results);
    RespondingCount(results);
    forall x ensures x in ranked <==> x in results && Responded(x) {
      assert x in ranked <==> x in multiset(ranked);
      assert x in results <==> x in multiset(results);
    }
  }

  /** The head of the ranked list is at least as fast as every responding result. */
  lemma RankFirstFastest(results: seq<ServerResult>)
    ensures Rank(results) != [] ==>
      forall x :: x in results && Responded(x) ==> LatencyLe(AvgOf(Rank(results)[0]), AvgOf(x))
  {
    var ranked := Rank(results);
    RankMembers(results);
    forall x | x in results && Responded(x) && ranked != [] ensures LatencyLe(AvgOf(ranked[0]), AvgOf(x)) {
      var j :| 0 <= j < |ranked| && ranked[j] == x;
      if j == 0 {
        LatencyLeTotal(AvgOf(x), AvgOf(x));
      }
    }
  }

  /** Every recommended server is at least as fast as every ranked server left out. */
  lemma TopServersAreBest(ranked: seq<ServerResult>, count: nat)
    requires SortedByAvg(ranked)
    ensures var top := TopServers(ranked, count);
      forall i, j :: 0 <= i < |top| <= j < |ranked| ==> LatencyLe(AvgOf(top[i]), AvgOf(ranked[j]))
  {
  }
}
