/**
 * Aggregation of one server's ping samples (`test_dns_performance`).
 * A ping attempt either yields a latency in milliseconds or `None`
 * (timeout, unreachable host, unparseable output).
 */
module Stats {
  import opened Wrappers

  /** Number of pings per server used by the benchmark run. */
  const PingsPerServer: nat := 15

  /** A latency that may be Python's `float('inf')`. */
  datatype Latency = Finite(ms: real) | Infinity

  /** `a <= b` on latencies, with infinity above every finite value. */
  predicate LatencyLe(a: Latency, b: Latency)
  {
    match (a, b)
    case (Finite(x), Finite(y)) => x <= y
    case (_, Infinity) => true
    case (Infinity, Finite(_)) => false
  }

  /** The record `{ip, min, max, avg, successful_pings}`. */
  datatype ServerStats = ServerStats(ip: string, min: Latency, max: real, avg: Latency, successfulPings: nat)

  /** The outcomes of attempts `0 .. n-1`, in the order they are made. */
  function Attempts(n: nat, ping: nat -> Option<real>): (s: seq<Option<real>>)
    ensures |s| == n
    ensures forall i :: 0 <= i < n ==> s[i] == ping(i)
  {
    if n == 0 then [] else Attempts(n - 1, ping) + [ping(n - 1)]
  }

  /** The `latencies` list: the successful samples' values, in order. */
  function Successes(samples: seq<Option<real>>): seq<real>
  {
    if samples == [] then []
    else
      var last := samples[|samples| - 1];
      Successes(samples[..|samples| - 1]) + (if last.Some? then [last.value] else [])
  }

  function Sum(s: seq<real>): real
  {
    if s == [] then 0.0 else Sum(s[..|s| - 1]) + s[|s| - 1]
  }

  /** Python's `min` over a non-empty list. */
  function Min(s: seq<real>): (m: real)
    requires |s| > 0
    ensures m in s
    ensures forall x :: x in s ==> m <= x
  {
    if |s| == 1 then s[0]
    else
      var m' := Min(s[1..]);
      assert s == [s[0]] + s[1..];
      if s[0] <= m' then s[0] else m'
  }

  /** Python's `max` over a non-empty list. */
  function Max(s: seq<real>): (m: real)
    requires |s| > 0
    ensures m in s
    ensures forall x :: x in s ==> x <= m
  {
    if |s| == 1 then s[0]
    else
      var m' := Max(s[1..]);
      assert s == [s[0]] + s[1..];
      if m' <= s[0] then s[0] else m'
  }

  /** `sum(latencies) / len(latencies)` */
  function Mean(s: seq<real>): real
    requires |s| > 0
  {
    Sum(s) / (|s| as real)
  }

  /** What `test_dns_performance` returns for this sequence of ping outcomes. */
  function Summarize(ip: string, samples: seq<Option<real>>): ServerStats
  {
    var latencies := Successes(samples);
    if |latencies| > 0 then
      ServerStats(ip, Finite(Min(latencies)), Max(latencies), Finite(Mean(latencies)), |latencies|)
    else
      ServerStats(ip, Infinity, 0.0, Infinity, 0)
  }

  /**
   * `test_dns_performance(ip, num_pings)`: ping `num_pings` times, keep the
   * successes, and summarise them; `ping(i)` is the outcome of attempt `i`.
   */
  method TestDnsPerformance(ip: string, numPings: nat, ping: nat -> Option<real>) returns (r: ServerStats)
    ensures r == Summarize(ip, Attempts(numPings, ping))
  {
    var latencies: seq<real> := [];
    ghost var made: seq<Option<real>> := [];
    for i := 0 to numPings
      invariant made == Attempts(i, ping)
      invariant latencies == Successes(made)
    {
      var latency := ping(i);
      assert (made + [latency])[..|made|] == made;
      if latency.Some? {
        latencies := latencies + [latency.value];
      }
      made := made + [latency];
    }
    if |latencies| > 0 {
      var minLat := Min(latencies);
      var maxLat := Max(latencies);
      var avgLat := Sum(latencies) / (|latencies| as real);
      r := ServerStats(ip, Finite(minLat), maxLat, Finite(avgLat), |latencies|);
    } else {
      r := ServerStats(ip, Infinity, 0.0, Infinity, 0);
    }
  }

  // ---------------------------------------------------------------------
  // Properties of the aggregation

  /** Splitting the samples splits the latency list. */
  lemma {:induction false} SuccessesAppend(a: seq<Option<real>>, b: seq<Option<real>>)
    ensures Successes(a + b) == Successes(a) + Successes(b)
    decreases |b|
  {
    if b == [] {
      assert a + b == a;
    } else {
      var b' := b[..|b| - 1];
      assert (a + b)[..|a + b| - 1] == a + b';
      SuccessesAppend(a, b');
    }
  }

  /** A latency is in the list exactly when some sample produced it. */
  lemma {:induction false} SuccessesMembers(samples: seq<Option<real>>, x: real)
    ensures x in Successes(samples) <==> Some(x) in samples
  {
    if samples != [] {
      var init := samples[..|samples| - 1];
      assert samples == init + [samples[|samples| - 1]];
      SuccessesMembers(init, x);
    }
  }

  /** `successful_pings` counts the non-`None` samples: all attempts minus the failures. */
  lemma {:induction false} SuccessesCount(samples: seq<Option<real>>)
    ensures |Successes(samples)| == |samples| - multiset(samples)[None]
  {
    if samples != [] {
      var init := samples[..|samples| - 1];
      assert samples == init + [samples[|samples| - 1]];
      SuccessesCount(init);
    }
  }

  /** Summing a concatenation adds the sums of its parts. */
  lemma {:induction false} SumAppend(a: seq<real>, b: seq<real>)
    ensures Sum(a + b) == Sum(a) + Sum(b)
    decreases |b|
  {
    if b == [] {
      assert a + b == a;
    } else {
      var init := b[..|b| - 1];
      assert (a + b)[..|a + b| - 1] == a + init;
      SumAppend(a, init);
    }
  }

  lemma {:induction false} SumAtLeast(s: seq<real>, lo: real)
    requires forall x :: x in s ==> lo <= x
    ensures lo * (|s| as real) <= Sum(s)
  {
    if s != [] {
      var init, last := s[..|s| - 1], s[|s| - 1];
      assert s == init + [last];
      assert forall x :: x in init ==> x in s;
      assert last in s;
      SumAtLeast(init, lo);
      var n := |init| as real;
      assert lo * (n + 1.0) == lo * n + lo;
    }
  }

  lemma {:induction false} SumAtMost(s: seq<real>, hi: real)
    requires forall x :: x in s ==> x <= hi
    ensures Sum(s) <= hi * (|s| as real)
  {
    if s != [] {
      var init, last := s[..|s| - 1], s[|s| - 1];
      assert s == init + [last];
      assert forall x :: x in init ==> x in s;
      assert last in s;
      SumAtMost(init, hi);
      var n := |init| as real;
      assert hi * (n + 1.0) == hi * n + hi;
    }
  }

  lemma QuotientAtLeast(lo: real, total: real, n: real)
    requires n > 0.0 && lo * n <= total
    ensures lo <= total / n
  {
    assert (total / n) * n == total;
  }

  lemma QuotientAtMost(total: real, hi: real, n: real)
    requires n > 0.0 && total <= hi * n
    ensures total / n <= hi
  {
    assert (total / n) * n == total;
  }

  /** The mean of a non-empty list lies between its minimum and its maximum. */
  lemma MeanBetween(s: seq<real>)
    requires |s| > 0
    ensures Min(s) <= Mean(s) <= Max(s)
  {
    MeanAtLeast(s, Min(s));
    MeanAtMost(s, Max(s));
  }

  /** A lower bound of every element is a lower bound of the mean. */
  lemma MeanAtLeast(s: seq<real>, lo: real)
    requires |s| > 0
    requires forall x :: x in s ==> lo <= x
    ensures lo <= Mean(s)
  {
    SumAtLeast(s, lo);
    QuotientAtLeast(lo, Sum(s), |s| as real);
  }

  /** An upper bound of every element is an upper bound of the mean. */
  lemma MeanAtMost(s: seq<real>, hi: real)
    requires |s| > 0
    requires forall x :: x in s ==> x <= hi
    ensures Mean(s) <= hi
  {
    SumAtMost(s, hi);
    QuotientAtMost(Sum(s), hi, |s| as real);
  }

  /**
   * `lo`, `hi` and `mean` are the minimum, the maximum and the arithmetic
   * mean of `lat`, and `lo <= mean <= hi`.
   */
  ghost predicate LatencyStats(lat: seq<real>, lo: real, hi: real, mean: real)
  {
    && lo in lat && (forall x :: x in lat ==> lo <= x)
    && hi in lat && (forall x :: x in lat ==> x <= hi)
    && mean * (|lat| as real) == Sum(lat)
    && lo <= mean <= hi
  }

  lemma MeanTimesCount(s: seq<real>)
    requires |s| > 0
    ensures Mean(s) * (|s| as real) == Sum(s)
  {
  }

  /**
   * With some success, min/max/avg are the minimum, maximum and arithmetic
   * mean of exactly the successful latencies, and min <= avg <= max.
   */
  lemma SummarizeWithSuccesses(ip: string, samples: seq<Option<real>>)
    requires exists i :: 0 <= i < |samples| && samples[i].Some?
    ensures Summarize(ip, samples).ip == ip
    ensures Summarize(ip, samples).successfulPings == |Successes(samples)| > 0
    ensures Summarize(ip, samples).min.Finite? && Summarize(ip, samples).avg.Finite?
    ensures LatencyStats(Successes(samples), Summarize(ip, samples).min.ms, Summarize(ip, samples).max, Summarize(ip, samples).avg.ms)
  {
    var i :| 0 <= i < |samples| && samples[i].Some?;
    SuccessesMembers(samples, samples[i].value);
    StatsOfLatencies(Successes(samples));
  }

  lemma StatsOfLatencies(lat: seq<real>)
    requires |lat| > 0
    ensures LatencyStats(lat, Min(lat), Max(lat), Mean(lat))
  {
    MeanBetween(lat);
    MeanTimesCount(lat);
  }

  /** Zero successes gives the sentinel record, and only then. */
  lemma SummarizeSentinel(ip: string, samples: seq<Option<real>>)
    ensures var r := Summarize(ip, samples);
      r.successfulPings == 0 <==> forall i :: 0 <= i < |samples| ==> samples[i] == None
    ensures var r := Summarize(ip, samples);
      r.successfulPings == 0 ==> r == ServerStats(ip, Infinity, 0.0, Infinity, 0)
    ensures var r := Summarize(ip, samples);
      r.successfulPings > 0 <==> r.avg.Finite?
  {
    var lat := Successes(samples);
    if lat == [] {
      forall i | 0 <= i < |samples| ensures samples[i] == None {
        if samples[i].Some? {
          SuccessesMembers(samples, samples[i].value);
        }
      }
    } else {
      SuccessesMembers(samples, lat[0]);
    }
  }

  /** A failed sample changes nothing: it is neither a zero nor a timeout ceiling. */
  lemma FailureIgnored(ip: string, before: seq<Option<real>>, after: seq<Option<real>>)
    ensures Summarize(ip, before + [None] + after) == Summarize(ip, before + after)
  {
    SuccessesAppend(before + [None], after);
    SuccessesAppend(before, [None]);
    SuccessesAppend(before, after);
    var fail: seq<Option<real>> := [None];
    assert fail[..0] == [];
    assert Successes(fail) == [];
    assert Successes(before + [None] + after) == Successes(before + after);
  }

  /** The run makes exactly `numPings` attempts, and attempt `i` is the `i`-th sample. */
  lemma AttemptsExact(n: nat, ping: nat -> Option<real>)
    ensures |Attempts(n, ping)| == n
    ensures |Successes(Attempts(n, ping))| == n - multiset(Attempts(n, ping))[None]
  {
    SuccessesCount(Attempts(n, ping));
  }
}
