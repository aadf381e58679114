/**
 * The benchmark loop of `main`: every catalog entry that has both an `ip`
 * and a `company` is tested and gets a result record; the others are
 * skipped with a logged error.
 */
module Benchmark {
  import opened Wrappers
  import opened Stats
  import opened Ranking

  /** One entry of the catalog's `list`; a missing key is `None`. */
  datatype CatalogEntry = CatalogEntry(ip: Option<string>, company: Option<string>)

  /** Reading `dns_entry["ip"]` and `dns_entry["company"]` succeeds. */
  predicate WellFormed(e: CatalogEntry) { e.ip.Some? && e.company.Some? }

  /**
   * The record `main` appends for catalog entry `idx`; `ping(idx)(i)` is
   * the outcome of that server's attempt `i`.
   */
  function Probe(catalog: seq<CatalogEntry>, idx: nat, numPings: nat, ping: nat -> nat -> Option<real>): ServerResult
    requires idx < |catalog| && WellFormed(catalog[idx])
  {
    ServerResult(Summarize(catalog[idx].ip.value, Attempts(numPings, ping(idx))), catalog[idx].company.value)
  }

  /** Results for the first `n` catalog entries, in catalog order. */
  function ProbeFirst(catalog: seq<CatalogEntry>, n: nat, numPings: nat, ping: nat -> nat -> Option<real>): seq<ServerResult>
    requires n <= |catalog|
  {
    if n == 0 then []
    else
      var earlier := ProbeFirst(catalog, n - 1, numPings, ping);
      if WellFormed(catalog[n - 1]) then earlier + [Probe(catalog, n - 1, numPings, ping)] else earlier
  }

  /** The addresses of the well-formed entries, in catalog order. */
  function CatalogIps(catalog: seq<CatalogEntry>): seq<string>
  {
    if catalog == [] then []
    else (if WellFormed(catalog[0]) then [catalog[0].ip.value] else []) + CatalogIps(catalog[1..])
  }

  /** The loop over `DNS_SERVERS` building `results`. */
  method TestAllServers(catalog: seq<CatalogEntry>, numPings: nat, ping: nat -> nat -> Option<real>)
    returns (results: seq<ServerResult>)
    ensures results == ProbeFirst(catalog, |catalog|, numPings, ping)
  {
    results := [];
    for idx := 0 to |catalog|
      invariant results == ProbeFirst(catalog, idx, numPings, ping)
    {
      var entry := catalog[idx];
      if entry.ip.Some? && entry.company.Some? {
        var result := TestDnsPerformance(entry.ip.value, numPings, ping(idx));
        results := results + [ServerResult(result, entry.company.value)];
      }
    }
  }

  /** Results keep catalog order: one per well-formed entry, with that entry's address. */
  lemma {:induction false} ProbeFirstIps(catalog: seq<CatalogEntry>, n: nat, numPings: nat, ping: nat -> nat -> Option<real>)
    requires n <= |catalog|
    ensures DnsIps(ProbeFirst(catalog, n, numPings, ping)) == CatalogIps(catalog[..n])
  {
    if n > 0 {
      ProbeFirstIps(catalog, n - 1, numPings, ping);
      ProbeFirstIpsStep(catalog, n, numPings, ping);
      CatalogIpsSnoc(catalog[..n - 1], catalog[n - 1]);
      assert catalog[..n] == catalog[..n - 1] + [catalog[n - 1]];
    }
  }

  lemma ProbeFirstIpsStep(catalog: seq<CatalogEntry>, n: nat, numPings: nat, ping: nat -> nat -> Option<real>)
    requires 0 < n <= |catalog|
    ensures DnsIps(ProbeFirst(catalog, n, numPings, ping))
      == DnsIps(ProbeFirst(catalog, n - 1, numPings, ping)) + (if WellFormed(catalog[n - 1]) then [catalog[n - 1].ip.value] else [])
  {
    if WellFormed(catalog[n - 1]) {
      var last := Probe(catalog, n - 1, numPings, ping);
      DnsIpsAppend(ProbeFirst(catalog, n - 1, numPings, ping), [last]);
      ProbeIp(catalog, n - 1, numPings, ping);
      assert DnsIps([last]) == [catalog[n - 1].ip.value];
    }
  }

  lemma ProbeIp(catalog: seq<CatalogEntry>, idx: nat, numPings: nat, ping: nat -> nat -> Option<real>)
    requires idx < |catalog| && WellFormed(catalog[idx])
    ensures Probe(catalog, idx, numPings, ping).stats.ip == catalog[idx].ip.value
  {
  }

  /** `r` is the record built for one of the first `n` catalog entries. */
  ghost predicate ProbedFrom(catalog: seq<CatalogEntry>, n: nat, numPings: nat, ping: nat -> nat -> Option<real>, r: ServerResult)
    requires n <= |catalog|
  {
    exists idx :: 0 <= idx < n && WellFormed(catalog[idx]) && r == Probe(catalog, idx, numPings, ping)
  }

  /** Each result is the one built from some well-formed entry, from that entry's own pings. */
  lemma {:induction false} ProbeFirstMembers(catalog: seq<CatalogEntry>, n: nat, numPings: nat, ping: nat -> nat -> Option<real>)
    requires n <= |catalog|
    ensures forall r :: r in ProbeFirst(catalog, n, numPings, ping) ==> ProbedFrom(catalog, n, numPings, ping, r)
  {
    if n > 0 {
      ProbeFirstMembers(catalog, n - 1, numPings, ping);
      var earlier := ProbeFirst(catalog, n - 1, numPings, ping);
      var results := ProbeFirst(catalog, n, numPings, ping);
      forall r | r in results ensures ProbedFrom(catalog, n, numPings, ping, r) {
        if r in earlier {
          assert ProbedFrom(catalog, n - 1, numPings, ping, r);
        } else {
          assert r == Probe(catalog, n - 1, numPings, ping);
        }
      }
    } else {
      assert ProbeFirst(catalog, n, numPings, ping) == [];
    }
  }

  /**
   * Each well-formed entry has its own record, at the position given by the
   * number of well-formed entries before it, even when two entries share an
   * address; there is no other record.
   */
  lemma {:induction false} ProbeFirstAt(catalog: seq<CatalogEntry>, n: nat, numPings: nat, ping: nat -> nat -> Option<real>)
    requires n <= |catalog|
    ensures |ProbeFirst(catalog, n, numPings, ping)| == |CatalogIps(catalog[..n])|
    ensures forall idx :: 0 <= idx < n && WellFormed(catalog[idx]) ==>
      |CatalogIps(catalog[..idx])| < |ProbeFirst(catalog, n, numPings, ping)|
      && ProbeFirst(catalog, n, numPings, ping)[|CatalogIps(catalog[..idx])|] == Probe(catalog, idx, numPings, ping)
  {
    ProbeFirstIps(catalog, n, numPings, ping);
    if n > 0 {
      ProbeFirstAt(catalog, n - 1, numPings, ping);
      var earlier := ProbeFirst(catalog, n - 1, numPings, ping);
      var results := ProbeFirst(catalog, n, numPings, ping);
      assert results[..|earlier|] == earlier;
      forall idx | 0 <= idx < n && WellFormed(catalog[idx])
        ensures |CatalogIps(catalog[..idx])| < |results|
        ensures results[|CatalogIps(catalog[..idx])|] == Probe(catalog, idx, numPings, ping)
      {
        if idx == n - 1 {
          assert results == earlier + [Probe(catalog, n - 1, numPings, ping)];
        } else {
          assert idx < n - 1;
        }
      }
    }
  }

  lemma {:induction false} CatalogIpsSnoc(init: seq<CatalogEntry>, e: CatalogEntry)
    ensures CatalogIps(init + [e]) == CatalogIps(init) + (if WellFormed(e) then [e.ip.value] else [])
  {
    if init == [] {
      assert [e][1..] == [];
    } else {
      assert (init + [e])[1..] == init[1..] + [e];
      CatalogIpsSnoc(init[1..], e);
    }
  }

  lemma DnsIpsAppend(a: seq<ServerResult>, b: seq<ServerResult>)
    ensures DnsIps(a + b) == DnsIps(a) + DnsIps(b)
  {
  }

  /**
   * The run end to end: the addresses applied are, best first, those of
   * the fastest responding catalog entries, at most `TOP_DNS_COUNT` of them.
   */
  function Recommendation(catalog: seq<CatalogEntry>, ping: nat -> nat -> Option<real>): seq<string>
  {
    RecommendedIps(ProbeFirst(catalog, |catalog|, PingsPerServer, ping))
  }

  /** `ip` is the address of a well-formed catalog entry that answered at least one of its pings. */
  ghost predicate AnsweredEntry(catalog: seq<CatalogEntry>, numPings: nat, ping: nat -> nat -> Option<real>, ip: string)
  {
    exists idx :: 0 <= idx < |catalog| && WellFormed(catalog[idx]) && catalog[idx].ip.value == ip
      && exists a :: 0 <= a < numPings && ping(idx)(a).Some?
  }

  /**
   * At most `TOP_DNS_COUNT` addresses are applied, and each belongs to a
   * catalog entry with both keys that answered at least one ping.
   */
  lemma RecommendationSpec(catalog: seq<CatalogEntry>, ping: nat -> nat -> Option<real>)
    ensures |Recommendation(catalog, ping)| <= TopDnsCount
    ensures forall ip :: ip in Recommendation(catalog, ping) ==> AnsweredEntry(catalog, PingsPerServer, ping, ip)
  {
    var results := ProbeFirst(catalog, |catalog|, PingsPerServer, ping);
    var ranked, ips := Rank(results), Recommendation(catalog, ping);
    RecommendedIpsSpec(results);
    ProbeFirstMembers(catalog, |catalog|, PingsPerServer, ping);
    forall ip | ip in ips ensures AnsweredEntry(catalog, PingsPerServer, ping, ip) {
      var i :| 0 <= i < |ips| && ips[i] == ip;
      ResultAnswered(catalog, PingsPerServer, ping, ranked[i]);
    }
  }

  lemma ResultAnswered(catalog: seq<CatalogEntry>, numPings: nat, ping: nat -> nat -> Option<real>, r: ServerResult)
    requires ProbedFrom(catalog, |catalog|, numPings, ping, r) && Responded(r)
    ensures AnsweredEntry(catalog, numPings, ping, r.stats.ip)
  {
    var idx :| 0 <= idx < |catalog| && WellFormed(catalog[idx]) && r == Probe(catalog, idx, numPings, ping);
    var samples := Attempts(numPings, ping(idx));
    SummarizeSentinel(catalog[idx].ip.value, samples);
    var a :| 0 <= a < |samples| && samples[a] != None;
    assert ping(idx)(a).Some?;
  }

  const ScenarioA: ServerStats := ServerStats("9.9.9.9", Finite(10.0), 12.0, Finite(11.0), 3)
  const ScenarioB: ServerStats := ServerStats("8.8.8.8", Infinity, 0.0, Infinity, 0)
  const ScenarioC: ServerStats := ServerStats("1.1.1.1", Finite(20.0), 22.0, Finite(21.0), 2)

  /** Server A of the scenario answers 10, 12 and 11 ms: average 11. */
  lemma ScenarioServerA()
    ensures Summarize("9.9.9.9", [Some(10.0), Some(12.0), Some(11.0)]) == ScenarioA
  {
    var a: seq<Option<real>> := [Some(10.0), Some(12.0), Some(11.0)];
    assert a[..2][..1] == a[..1] && a[..1][..0] == [];
    assert Successes(a[..1]) == [10.0];
    assert Successes(a[..2]) == [10.0, 12.0];
    var la := [10.0, 12.0, 11.0];
    assert Successes(a) == la;
    LatenciesA(la);
  }

  lemma LatenciesA(la: seq<real>)
    requires la == [10.0, 12.0, 11.0]
    ensures Min(la) == 10.0 && Max(la) == 12.0 && Mean(la) == 11.0
  {
    assert la[..2][..1] == la[..1] && la[..1][..0] == [];
    assert Sum(la[..1]) == 10.0;
    assert Sum(la[..2]) == 22.0;
    assert Sum(la) == 33.0;
    assert la[1..][1..] == [11.0];
    assert Min(la[1..]) == 11.0;
    assert Max(la[1..]) == 12.0;
  }

  /** Server B of the scenario never answers: the sentinel record. */
  lemma ScenarioServerB()
    ensures Summarize("8.8.8.8", [None, None, None]) == ScenarioB
  {
    var b: seq<Option<real>> := [None, None, None];
    assert b[..2][..1] == b[..1] && b[..1][..0] == [];
    assert Successes(b[..1]) == [];
    assert Successes(b[..2]) == [];
    assert Successes(b) == [];
  }

  /** Server C of the scenario answers 20 and 22 ms: average 21. */
  lemma ScenarioServerC()
    ensures Summarize("1.1.1.1", [Some(20.0), Some(22.0)]) == ScenarioC
  {
    var c: seq<Option<real>> := [Some(20.0), Some(22.0)];
    assert c[..1][..0] == [];
    var lc := [20.0, 22.0];
    assert Successes(c) == lc;
    assert lc[..1][..0] == [];
    assert Sum(lc[..1]) == 20.0;
    assert Sum(lc) == 42.0;
    assert lc[1..] == [22.0];
  }

  /** The scenario's results, in catalog order. */
  const ScenarioResults: seq<ServerResult> :=
    [ServerResult(ScenarioA, "Quad9"), ServerResult(ScenarioB, "Google"), ServerResult(ScenarioC, "Cloudflare")]

  lemma ScenarioResponding()
    ensures Responding(ScenarioResults) == [ScenarioResults[0], ScenarioResults[2]]
  {
    var a, b, c := ScenarioResults[0], ScenarioResults[1], ScenarioResults[2];
    assert ScenarioResults == [a] + ([b] + [c]);
    RespondingCons(c, []);
    RespondingCons(b, [c]);
    RespondingCons(a, [b] + [c]);
  }

  lemma ScenarioSorted()
    ensures SortByAvg([ScenarioResults[0], ScenarioResults[2]]) == [ScenarioResults[0], ScenarioResults[2]]
  {
    var eligible := [ScenarioResults[0], ScenarioResults[2]];
    assert eligible[1..] == [ScenarioResults[2]];
    assert [ScenarioResults[2]][1..] == [];
    assert SortByAvg([ScenarioResults[2]]) == [ScenarioResults[2]];
    assert Insert(ScenarioResults[0], [ScenarioResults[2]]) == eligible;
  }

  /** Ranking the scenario: A before C, B absent; with room for four only A and C are applied, A first. */
  lemma ScenarioRanking()
    ensures Rank(ScenarioResults) == [ScenarioResults[0], ScenarioResults[2]]
    ensures RecommendedIps(ScenarioResults) == ["9.9.9.9", "1.1.1.1"]
  {
    var eligible := [ScenarioResults[0], ScenarioResults[2]];
    ScenarioResponding();
    ScenarioSorted();
    assert TopServers(eligible, TopDnsCount) == eligible;
    assert DnsIps(eligible) == ["9.9.9.9", "1.1.1.1"];
  }
}
