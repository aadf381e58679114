# dnsJumper probing-and-ranking engine in Dafny

dnsJumper pings every DNS server of its catalog a fixed number of times,
summarises each server's successful round-trip times (minimum, maximum,
average, number of answers), ranks the servers that answered by average
latency and offers the four fastest to the operating system as its DNS
servers, fastest first. This project models that engine and proves what it
promises.

Modules (one file each):

- `Wrappers` (`wrappers.dfy`): the `Option` type that stands for Python's `None`.
- `Stats` (`stats.dfy`): `test_dns_performance`. The ping is a parameter
  `ping: nat -> Option<real>`: the outcome of attempt `i` is `ping(i)`, and
  `None` means a timeout or an unreachable host. The method `TestDnsPerformance`
  has the source's loop, which appends the successes to `latencies`. It is proved
  equal to the specification function `Summarize`, and the lemmas state what
  `Summarize` means. `float('inf')` is the `Infinity` variant of `Latency`.
- `Ranking` (`ranking.dfy`): the expressions of `main` that filter by
  `successful_pings > 0`, sort by `avg`, slice `[:TOP_DNS_COUNT]` and
  collect the `ip`s. Python's stable `sorted` is modelled as a stable
  insertion sort. `SortedStableUnique` proves that every stable sort by
  `avg` gives this same list, so the choice of algorithm does not matter.
- `Benchmark` (`benchmark.dfy`): the loop of `main` over the catalog. An
  entry without `ip` or `company` is skipped. Each other entry gets its
  record, from that entry's own pings `ping(idx)`. The module also holds the
  whole run, from catalog to addresses applied, and a worked three-server
  example.
- `PingOutput` (`ping_output.dfy`): the regular-expression search of
  `ping_server`, as a scanner that returns the captured text.
- `OsAdapters` (`os_adapters.dfy`): the `netsh` commands that `set_dns_windows`
  issues, in order, and the macOS fallback choice of network service.

The record that `test_dns_performance` returns has no field for the number
of attempts. That number is stated about `Attempts` instead. The slice
`results_sorted[:TOP_DNS_COUNT]` asks nothing of the number of eligible
servers: with fewer than four it returns them all, and `TopServers` models
that.

## Model

| member | source | states |
|---|---|---|
| `Stats.Attempts` | dns_jumper.py:165-166 | exactly `num_pings` attempts are made; attempt `i` is the `i`-th sample |
| `Stats.TestDnsPerformance` | dns_jumper.py:160-194 | the loop's record is `Summarize` of exactly the `num_pings` outcomes, in attempt order |
| `Stats.Min` | dns_jumper.py:175 | `min(latencies)` is an element of the list and no element is smaller |
| `Stats.Max` | dns_jumper.py:176 | `max(latencies)` is an element of the list and no element is larger |
| `Stats.Sum` | dns_jumper.py:177 | `sum(latencies)`; no contract of its own: `Stats.SumAppend` states that it adds over concatenation, which with `Sum([x]) == x` determines it, and `Stats.SumAtLeast`/`Stats.SumAtMost` bound it |
| `Stats.SumAppend` | dns_jumper.py:177 | the sum of a concatenation is the sum of the sums of its parts |
| `Stats.Mean` | dns_jumper.py:177 | `sum(latencies) / len(latencies)`; no contract of its own: `Stats.MeanBetween` bounds it by the minimum and maximum, and `Stats.SummarizeWithSuccesses` states `avg * successful_pings == sum(latencies)` |
| `Stats.Successes` | dns_jumper.py:165-169 | the `latencies` list, appended to under `is not None`; no contract of its own: `Stats.SuccessesMembers`, `Stats.SuccessesCount` and `Stats.SuccessesAppend` fix its elements, its length and its order |
| `Stats.Summarize` | dns_jumper.py:174-194 | the returned record; no contract of its own: `Stats.SummarizeWithSuccesses`, `Stats.SummarizeSentinel` and `Stats.FailureIgnored` state what each field means, and `Stats.TestDnsPerformance` is proved equal to it |
| `Stats.SuccessesMembers` | dns_jumper.py:166-169 | a latency is in `latencies` exactly when some attempt returned it; `None` never enters |
| `Stats.SuccessesCount` | dns_jumper.py:163-184 | `successful_pings` is the number of attempts minus the number of `None` outcomes |
| `Stats.AttemptsExact` | dns_jumper.py:165-184 | for a run of `num_pings` attempts, `successful_pings` equals `num_pings` minus the failed attempts |
| `Stats.SuccessesAppend` | dns_jumper.py:165-169 | the list built from two runs of samples is the concatenation of their lists |
| `Stats.MeanBetween` | dns_jumper.py:175-177 | the arithmetic mean of a non-empty list lies between its minimum and its maximum |
| `Stats.SummarizeWithSuccesses` | dns_jumper.py:174-185 | with at least one answer: `min`, `max` and `avg` are the minimum, maximum and mean of the successful latencies only; `min <= avg <= max`; `successful_pings` is their count |
| `Stats.SummarizeSentinel` | dns_jumper.py:186-194 | `successful_pings == 0` exactly when every attempt failed, and then the record is `min = inf, max = 0, avg = inf`; `avg` is finite exactly when some attempt answered |
| `Stats.FailureIgnored` | dns_jumper.py:167-177 | inserting a failed attempt anywhere changes no field of the record |
| `Ranking.Responding` | dns_jumper.py:266 | the comprehension `[r for r in results if r["successful_pings"] > 0]`; no contract of its own: `Ranking.RespondingCount` (what is kept, with multiplicity) and `Ranking.RespondingAppend` (order) determine it, and `Ranking.RespondingWithAvg` gives the per-`avg` order |
| `Ranking.RespondingCount` | dns_jumper.py:266 | the filter keeps every result with `successful_pings > 0`, as often as it occurs, and nothing else |
| `Ranking.RespondingAppend` | dns_jumper.py:266 | the filter keeps the order of `results`: filtering a concatenation is the concatenation of the filtered parts |
| `Ranking.RespondingWithAvg` | dns_jumper.py:266 | for every `avg` value, the responding results with that value are those of `results` with that value, in the same order |
| `Ranking.Insert` | dns_jumper.py:266 | inserting into a list sorted by `avg` keeps it sorted and adds exactly that element |
| `Ranking.SortByAvg` | dns_jumper.py:266 | the sort yields a permutation of its input, ordered by non-decreasing `avg` |
| `Ranking.SortByAvgStable` | dns_jumper.py:266 | the sort is stable: for every `avg` value, the entries with that value keep their input order |
| `Ranking.SortedStableUnique` | dns_jumper.py:266 | two lists sorted by `avg` that agree on the order of the entries of every `avg` value are equal, so `sorted` and this sort agree |
| `Ranking.Rank` | dns_jumper.py:266 | `results_sorted = sorted(..., key=avg)` of the responding results; no contract of its own: `Ranking.RankSpec` states that it is the unique sorted, stable permutation of the responding results |
| `Ranking.RankSpec` | dns_jumper.py:266 | `results_sorted` is a permutation of the responding results, sorted by `avg`, stable, and the only such list; for every `avg` value its entries with that value are the responding entries of `results` with that value, in their order in `results` |
| `Ranking.TopServers` | dns_jumper.py:277 | `top_dns` is the prefix of the ranked list of length `min(TOP_DNS_COUNT, len(results_sorted))`; fewer servers is not an error |
| `Ranking.TopServersAreBest` | dns_jumper.py:277 | every recommended server has an `avg` no larger than that of any ranked server left out |
| `Ranking.DnsIps` | dns_jumper.py:292 | `dns_ips_to_set` has one address per recommended server, the `i`-th being the `i`-th server's `ip` |
| `Ranking.RecommendedIps` | dns_jumper.py:266-292 | `dns_ips_to_set`, from `results` to the addresses; no contract of its own: `Ranking.RecommendedIpsSpec` states its length, order and origin |
| `Ranking.RecommendedIpsSpec` | dns_jumper.py:266-294 | the addresses handed to `set_dns` are the first `min(4, ranked)` ranked `ip`s, in rank order; each comes from a result that answered, and the first comes from a fastest one |
| `Benchmark.Probe` | dns_jumper.py:255-259 | the record appended for one well-formed entry: `test_dns_performance(dns_ip, PINGS_PER_SERVER)` with `company` added; no contract of its own: it is `Stats.Summarize` of that entry's own outcomes, whose meaning the Stats lemmas give, and `Benchmark.ProbeFirstAt` places it in `results` |
| `Benchmark.ProbeFirst` | dns_jumper.py:252-263 | the `results` list built by the catalog loop; no contract of its own: `Benchmark.ProbeFirstAt` gives its length and the record of each well-formed entry at that entry's position, duplicated addresses included; `Benchmark.ProbeFirstIps` and `Benchmark.ProbeFirstMembers` give its addresses and the origin of every record, and `Benchmark.TestAllServers` is proved equal to it |
| `Benchmark.TestAllServers` | dns_jumper.py:252-263 | the loop's `results` are the records of the well-formed catalog entries, in catalog order |
| `Benchmark.ProbeFirstAt` | dns_jumper.py:252-260 | one record per well-formed entry, none for the others: the list is as long as the number of well-formed entries, and entry `idx` has its own record (its own pings, its own `company`) at the position of the number of well-formed entries before it, even when another entry has the same `ip` |
| `Benchmark.ProbeFirstIps` | dns_jumper.py:253-260 | the results' addresses are exactly those of the catalog entries with both `ip` and `company`, in catalog order |
| `Benchmark.ProbeFirstMembers` | dns_jumper.py:254-260 | every result is the record of one well-formed entry, built from that entry's own pings and carrying its `company` |
| `Benchmark.Recommendation` | dns_jumper.py:252-294 | the addresses applied by a whole run, from catalog to `set_dns`; no contract of its own: `Benchmark.RecommendationSpec` bounds their number and ties each to a well-formed entry that answered |
| `Benchmark.RecommendationSpec` | dns_jumper.py:252-294 | the run applies at most `TOP_DNS_COUNT` addresses, each of a well-formed catalog entry that answered at least one of its pings |
| `Benchmark.ScenarioServerA` | dns_jumper.py:174-185 | answers of 10, 12 and 11 ms give min 10, max 12, avg 11, three successes |
| `Benchmark.ScenarioServerB` | dns_jumper.py:186-194 | three failed attempts give the sentinel record |
| `Benchmark.ScenarioServerC` | dns_jumper.py:174-185 | answers of 20 and 22 ms give min 20, max 22, avg 21, two successes |
| `Benchmark.ScenarioRanking` | dns_jumper.py:266-292 | for those three servers, A ranks before C, B is absent, and the addresses applied are A's then C's |
| `PingOutput.RunLength` | dns_jumper.py:152 | the greedy `[\d.]+`/`\d+` run: every character of the run is in the class and the next one is not |
| `PingOutput.Search` | dns_jumper.py:148-152 | `re.search` finds the leftmost position where the pattern matches, or reports that it matches nowhere |
| `PingOutput.Extract` | dns_jumper.py:148-154 | the group is `None` exactly when the pattern matches nowhere; otherwise it is the non-empty maximal run after the leftmost match |
| `PingOutput.ParseLatency` | dns_jumper.py:147-158 | the per-platform choice of pattern in `ping_server`; no contract of its own: `PingOutput.ParseLatencyUnix` and `PingOutput.ParseLatencyWindows` state what it extracts on each platform |
| `PingOutput.ParseLatencyUnix` | dns_jumper.py:151-158 | on macOS and Linux the text is the maximal run of digits and dots after the first `time=` followed by one; it holds only digits and dots; `None` when there is no such occurrence |
| `PingOutput.ParseLatencyWindows` | dns_jumper.py:147-150 | on Windows the text is the digits after the first `Average = ` that is followed by a digit; `None` otherwise |
| `OsAdapters.SetDnsWindowsCommands` | dns_jumper.py:86-92 | the first address is set as `primary`; address `i` (`i >= 1`) is added with `index=i+1`, in list order; running the commands leaves exactly the given list, in order; an empty list raises before any command |
| `OsAdapters.ToLower` | dns_jumper.py:48 | `str.lower()` maps `A`..`Z` to `a`..`z` and keeps every other character |
| `OsAdapters.Contains` | dns_jumper.py:48 | Python's substring test `sub in s`; no contract of its own: it is the reference definition, some position at which `sub` occurs in `s` |
| `OsAdapters.IsWiredOrWireless` | dns_jumper.py:48 | the test `"wi-fi" in service.lower() or "ethernet" in service.lower()`; no contract of its own: it is the qualifying test that `OsAdapters.FallbackService` states its result by |
| `OsAdapters.FallbackService` | dns_jumper.py:45-49 | skipping the header line, the first service whose lower-cased name contains `wi-fi` or `ethernet`; `None` exactly when no service after the header qualifies |

## Left out

- Running programs is not modelled: `ping`, `scutil`, `nmcli`, `powershell`, `netsh`, `networksetup` and the cache flush (`clear_dns_cache`). A ping is an input outcome, and a `netsh` command is a `NetshCommand` value.
- `ping` as an input: the outcome of a ping depends on the network and the clock, not on the attempt index. The model takes any outcome for each (entry, attempt) pair, so it covers every possible run.
- The default `num_pings=5` of `test_dns_performance`: the only call, in `main`, passes `PINGS_PER_SERVER`, so nothing in the modelled run depends on the default. `Stats.TestDnsPerformance` takes the count as a parameter.
- `time.sleep(0.5)` between pings: timing only, with no state.
- `log`, the results tables, the progress lines and the `input` confirmation prompt: console I/O. The model covers the list that is applied once the user answers `y`.
- `check_privileges`, platform detection and `sys.exit`: environment queries and process exit.
- `load_dns_servers`: reading and parsing `dnsList.json`. The catalog is a given sequence of `CatalogEntry`; a missing key is `None`.
- The primary paths of `get_active_interface_macos`, `get_active_interface_linux` and `get_active_interface_windows` (the `scutil`, `nmcli` and `powershell` queries). Only the macOS fallback over the listed services is modelled. The line splitting of that command's output is also left out.
- `set_dns_macos` and `set_dns_linux`: each hands the address list to a single external command.
- Benchmark.ProbeFirst: models only the `KeyError` of a catalog entry without `ip` or `company` as a reason to skip a server. Other runtime exceptions are not modelled. One of them is a `ValueError` from `float()` on matched text such as `.` or `1.2.3`, which would skip that server.
- PingOutput.Extract: the `float(...)` conversion is left out; the model returns the matched text. Latencies are `real`, so floating-point rounding is not modelled.
- Stats.MeanBetween: the bound `min <= avg <= max`, here and in `Stats.SummarizeWithSuccesses`, holds for the real-number mean of the model only. With IEEE doubles, `sum(latencies) / len(latencies)` can round below `min`, for example for many equal samples.
- PingOutput.IsDigit: only `0`..`9` count as digits. Python's `\d` on `str` also matches other Unicode decimal digits.
- OsAdapters.ToLower: only ASCII letters are lower-cased. Python's `str.lower()` also folds other Unicode letters.
- OsAdapters.SetDnsWindowsCommands: a `netsh` call that fails part way raises and leaves the earlier commands applied; this is not modelled. `RunNetsh` assumes that `add dnsservers ... index=k` puts the address at position `k` of the interface's list. That is what the `index` parameter of `netsh` selects.
