/**
 * The ordering and selection rules inside the OS adapters; the commands
 * themselves are run by the operating system and are not modelled.
 */
module OsAdapters {
  import opened Wrappers

  // ---------------------------------------------------------------------
  // Windows: `set_dns_windows`

  /**
   * One `netsh interface ipv4` invocation: `set dnsservers ... static <ip>
   * primary`, or `add dnsservers ... <ip> index=<index>`.
   */
  datatype NetshCommand =
    | SetPrimary(iface: string, ip: string)
    | AddServer(iface: string, ip: string, index: nat)

  /**
   * The resolver list of the interface after one command: `set` replaces
   * the list by the single address, `add` with `index=k` puts the address
   * at (1-based) position `k`, or at the end when the list is shorter.
   */
  function ApplyNetsh(resolvers: seq<string>, cmd: NetshCommand): seq<string>
  {
    match cmd
    case SetPrimary(_, ip) => [ip]
    case AddServer(_, ip, index) =>
      var at := if index == 0 then 0 else if index - 1 <= |resolvers| then index - 1 else |resolvers|;
      resolvers[..at] + [ip] + resolvers[at..]
  }

  /** The resolver list after running `cmds` in order on an interface whose list was `resolvers`. */
  function RunNetsh(resolvers: seq<string>, cmds: seq<NetshCommand>): seq<string>
    decreases |cmds|
  {
    if cmds == [] then resolvers
    else RunNetsh(ApplyNetsh(resolvers, cmds[0]), cmds[1..])
  }

  lemma {:induction false} RunNetshSnoc(resolvers: seq<string>, cmds: seq<NetshCommand>, last: NetshCommand)
    ensures RunNetsh(resolvers, cmds + [last]) == ApplyNetsh(RunNetsh(resolvers, cmds), last)
    decreases |cmds|
  {
    if cmds == [] {
      assert ([] + [last])[1..] == [];
    } else {
      assert (cmds + [last])[1..] == cmds[1..] + [last];
      RunNetshSnoc(ApplyNetsh(resolvers, cmds[0]), cmds[1..], last);
    }
  }

  /**
   * The commands `set_dns_windows(interface, dns_ips)` issues, in order;
   * `None` when `dns_ips` is empty, where `dns_ips[0]` raises before any
   * command is run.
   */
  method SetDnsWindowsCommands(iface: string, dnsIps: seq<string>) returns (r: Option<seq<NetshCommand>>)
    ensures r.None? <==> dnsIps == []
    ensures r.Some? ==> |r.value| == |dnsIps| && r.value[0] == SetPrimary(iface, dnsIps[0])
    ensures r.Some? ==> forall i :: 1 <= i < |dnsIps| ==> r.value[i] == AddServer(iface, dnsIps[i], i + 1)
    ensures r.Some? ==> forall before :: RunNetsh(before, r.value) == dnsIps
  {
    if dnsIps == [] {
      return None;
    }
    var cmds := [SetPrimary(iface, dnsIps[0])];
    var idx := 2;
    while idx <= |dnsIps|
      invariant 2 <= idx <= |dnsIps| + 1
      invariant |cmds| == idx - 1
      invariant cmds[0] == SetPrimary(iface, dnsIps[0])
      invariant forall i :: 1 <= i < idx - 1 ==> cmds[i] == AddServer(iface, dnsIps[i], i + 1)
      invariant forall before :: RunNetsh(before, cmds) == dnsIps[..idx - 1]
    {
      var cmd := AddServer(iface, dnsIps[idx - 1], idx);
      forall before ensures RunNetsh(before, cmds + [cmd]) == dnsIps[..idx] {
        RunNetshSnoc(before, cmds, cmd);
        assert dnsIps[..idx] == dnsIps[..idx - 1] + [dnsIps[idx - 1]];
      }
      cmds := cmds + [cmd];
      idx := idx + 1;
    }
    assert dnsIps[..|dnsIps|] == dnsIps;
    return Some(cmds);
  }

  // ---------------------------------------------------------------------
  // macOS: the fallback of `get_active_interface_macos`

  /** ASCII lower-casing, `str.lower()` on the characters `A`..`Z`. */
  function ToLower(s: string): (r: string)
    ensures |r| == |s|
    ensures forall i :: 0 <= i < |s| ==> r[i] == if 'A' <= s[i] <= 'Z' then (s[i] - 'A' + 'a') as char else s[i]
  {
    if s == [] then []
    else [if 'A' <= s[0] <= 'Z' then (s[0] - 'A' + 'a') as char else s[0]] + ToLower(s[1..])
  }

  /** `sub` occurs in `s` at position `i`. */
  predicate OccursAt(s: string, sub: string, i: int)
  {
    0 <= i <= |s| - |sub| && s[i..i + |sub|] == sub
  }

  /** Python's `sub in s` on strings. */
  predicate Contains(s: string, sub: string)
  {
    exists i :: 0 <= i <= |s| - |sub| && OccursAt(s, sub, i)
  }

  /** `"wi-fi" in service.lower() or "ethernet" in service.lower()` */
  predicate IsWiredOrWireless(service: string)
  {
    Contains(ToLower(service), "wi-fi") || Contains(ToLower(service), "ethernet")
  }

  /** `services[i]` is the first service after the header line that qualifies. */
  ghost predicate FirstQualifying(services: seq<string>, i: int)
  {
    1 <= i < |services| && IsWiredOrWireless(services[i])
    && forall j :: 1 <= j < i ==> !IsWiredOrWireless(services[j])
  }

  /**
   * The loop over `services[1:]` with early return: the first service
   * after the header line whose name mentions Wi-Fi or Ethernet, or
   * `None` when there is none.
   */
  method FallbackService(services: seq<string>) returns (r: Option<string>)
    ensures r.None? <==> forall i :: 1 <= i < |services| ==> !IsWiredOrWireless(services[i])
    ensures r.Some? ==> exists i :: FirstQualifying(services, i) && services[i] == r.value
  {
    var i := 1;
    while i < |services|
      invariant 1 <= i
      invariant forall j :: 1 <= j < i && j < |services| ==> !IsWiredOrWireless(services[j])
    {
      var service := services[i];
      if IsWiredOrWireless(service) {
        assert FirstQualifying(services, i);
        return Some(service);
      }
      i := i + 1;
    }
    return None;
  }
}
