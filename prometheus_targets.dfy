/**
 * The scrape-config generator of `generate_prometheus_targets.py`: it turns the
 * `_meta.hostvars` part of an Ansible inventory into one Prometheus
 * scrape-config record with one static target per remote host.
 *
 * `Entries` and `ConfigFor` are the functional specification of the output;
 * `GenerateConfig` is the loop-and-append of the script, proved equal to it.
 * The lemmas below state what the script promises about that output.
 */
module PrometheusTargets {

  import opened Wrappers
  import Decimal

  /** The variables Ansible reports for one host (string-valued only). */
  type HostVars = map<string, string>

  /** One `(hostname, host_vars)` item of `hostvars`, in iteration order. */
  type Host = (string, HostVars)

  /** The `_meta` entry of an inventory; `hostvars` may be missing. */
  datatype Meta = Meta(hostvars: Option<seq<Host>>)

  /** The parsed inventory; only its `_meta` key is looked at. */
  datatype Inventory = Inventory(meta: Option<Meta>)

  /** One element of `static_configs`. */
  datatype TargetEntry = TargetEntry(targets: seq<string>, labels: map<string, string>)

  /** The scrape-config record the script returns. */
  datatype ScrapeConfig = ScrapeConfig(jobName: string, staticConfigs: seq<TargetEntry>)

  const JobName: string := "node_exporter_homelab"
  const Environment: string := "homelab"
  const DefaultPort: int := 9100
  const AnsibleHostKey: string := "ansible_host"
  const InstanceLabel: string := "instance"
  const EnvironmentLabel: string := "environment"

  /** The two host names that never become a target. */
  predicate IsLocal(hostname: string) {
    hostname == "localhost" || hostname == "127.0.0.1"
  }

  /** Hostnames of a `hostvars` mapping are keys of a dictionary. */
  predicate DistinctHostnames(hosts: seq<Host>) {
    forall i, j :: 0 <= i < j < |hosts| ==> hosts[i].0 != hosts[j].0
  }

  /** The hosts under `_meta.hostvars`, or none when either key is missing. */
  function AllHosts(inv: Inventory): (hosts: seq<Host>) {
    match inv.meta
    case None => []
    case Some(m) =>
      match m.hostvars
      case None => []
      case Some(hosts) => hosts
  }

  /**
   * The address Prometheus connects to: the host's `ansible_host` variable
   * whenever it is set (even to the empty string), otherwise the hostname.
   */
  function Address(hostname: string, vars: HostVars): (address: string) {
    if AnsibleHostKey in vars then vars[AnsibleHostKey] else hostname
  }

  /** The scrape target text: the address, a colon, and the port in decimal. */
  function Target(address: string, port: int): (target: string) {
    address + ":" + Decimal.IntToString(port)
  }

  /** The record appended for one remote host. */
  function EntryFor(hostname: string, vars: HostVars, port: int): (entry: TargetEntry) {
    TargetEntry(
      [Target(Address(hostname, vars), port)],
      map[InstanceLabel := hostname, EnvironmentLabel := Environment])
  }

  /** The `static_configs` list for the given hosts, in their order. */
  function Entries(hosts: seq<Host>, port: int): (entries: seq<TargetEntry>)
    decreases |hosts|
  {
    if hosts == [] then []
    else
      var last := hosts[|hosts| - 1];
      Entries(hosts[..|hosts| - 1], port)
        + (if IsLocal(last.0) then [] else [EntryFor(last.0, last.1, port)])
  }

  /** The scrape config for an inventory. */
  function ConfigFor(inv: Inventory, port: int := DefaultPort): (config: ScrapeConfig) {
    ScrapeConfig(JobName, Entries(AllHosts(inv), port))
  }

  /**
   * Builds the scrape config by walking the hosts in order, skipping the
   * local ones and appending one entry per remaining host; the port is 9100
   * unless the caller gives one.
   */
  method GenerateConfig(inventoryData: Inventory, port: int := DefaultPort)
    returns (scrapeConfig: ScrapeConfig)
    ensures scrapeConfig == ConfigFor(inventoryData, port)
    ensures scrapeConfig.jobName == "node_exporter_homelab"
  {
    var targets: seq<TargetEntry> := [];
    var allHosts := AllHosts(inventoryData);
    for i := 0 to |allHosts|
      invariant targets == Entries(allHosts[..i], port)
    {
      assert allHosts[..i + 1][..i] == allHosts[..i];
      var (hostname, hostVars) := allHosts[i];
      if IsLocal(hostname) {
        continue;
      }
      var hostIp := Address(hostname, hostVars);
      var target := Target(hostIp, port);
      targets := targets + [TargetEntry([target], map[InstanceLabel := hostname, EnvironmentLabel := Environment])];
    }
    assert allHosts[..|allHosts|] == allHosts;
    scrapeConfig := ScrapeConfig(JobName, targets);
  }

  // ---------------------------------------------------------------------
  // Reading a target back: the partner of `Target`.

  /** Position of the last ':' in `t`, if any. */
  function LastColon(t: string): (r: Option<nat>)
    ensures r.Some? ==>
      && r.value < |t| && t[r.value] == ':'
      && (forall k :: r.value < k < |t| ==> t[k] != ':')
    ensures r.None? ==> forall k :: 0 <= k < |t| ==> t[k] != ':'
    decreases |t|
  {
    if t == [] then None
    else if t[|t| - 1] == ':' then Some(|t| - 1)
    else LastColon(t[..|t| - 1])
  }

  /** Splits `address:port` at its last colon. */
  function SplitTarget(t: string): (parts: Option<(string, string)>) {
    match LastColon(t)
    case None => None
    case Some(k) => Some((t[..k], t[k + 1..]))
  }

  /**
   * A target splits back into the address and the rendered port, even when
   * the address itself holds colons, and the port part reads back as `port`.
   */
  lemma TargetRoundTrip(address: string, port: int)
    ensures SplitTarget(Target(address, port)) == Some((address, Decimal.IntToString(port)))
    ensures Decimal.ParseInt(Decimal.IntToString(port)) == Some(port)
  {
    var p := Decimal.IntToString(port);
    var t := Target(address, port);
    assert t[|address|] == ':';
    forall k | |address| < k < |t| ensures t[k] != ':' {
      assert t[k] == p[k - |address| - 1];
    }
    var r := LastColon(t);
    assert r == Some(|address|);
    assert t[..|address|] == address;
    assert t[|address| + 1..] == p;
    Decimal.IntToStringRoundTrip(port);
  }

  /**
   * Each entry has exactly one target, whose address is `ansible_host` when
   * that key is present (even if empty) and the hostname otherwise, and whose
   * port is `port`; its labels are exactly `instance` and `environment`.
   */
  lemma EntryFields(hostname: string, vars: HostVars, port: int)
    ensures var e := EntryFor(hostname, vars, port);
      && |e.targets| == 1
      && SplitTarget(e.targets[0]) == Some((
           if "ansible_host" in vars then vars["ansible_host"] else hostname,
           Decimal.IntToString(port)))
      && Decimal.ParseInt(SplitTarget(e.targets[0]).value.1) == Some(port)
      && e.labels.Keys == {"instance", "environment"}
      && e.labels["instance"] == hostname
      && e.labels["environment"] == "homelab"
  {
    TargetRoundTrip(Address(hostname, vars), port);
  }

  // ---------------------------------------------------------------------
  // The output as an order-preserving filter-and-map of the hosts.

  /** Indices of the hosts that produce an entry, in increasing order. */
  function KeptIndices(hosts: seq<Host>): (indices: seq<nat>)
    decreases |hosts|
  {
    if hosts == [] then []
    else
      KeptIndices(hosts[..|hosts| - 1])
        + (if IsLocal(hosts[|hosts| - 1].0) then [] else [|hosts| - 1])
  }

  lemma {:induction false} KeptIndicesIncrease(hosts: seq<Host>)
    ensures forall k :: 0 <= k < |KeptIndices(hosts)| ==> KeptIndices(hosts)[k] < |hosts|
    ensures forall k, l :: 0 <= k < l < |KeptIndices(hosts)| ==>
      KeptIndices(hosts)[k] < KeptIndices(hosts)[l]
    decreases |hosts|
  {
    if hosts != [] {
      KeptIndicesIncrease(hosts[..|hosts| - 1]);
    }
  }

  lemma {:induction false} KeptIndicesAreRemote(hosts: seq<Host>)
    ensures forall i :: 0 <= i < |hosts| ==> (i in KeptIndices(hosts) <==> !IsLocal(hosts[i].0))
    decreases |hosts|
  {
    if hosts != [] {
      var n := |hosts| - 1;
      var prefix := hosts[..n];
      KeptIndicesAreRemote(prefix);
      KeptIndicesIncrease(prefix);
      assert forall i :: 0 <= i < n ==> prefix[i] == hosts[i];
    }
  }

  lemma {:induction false} EntriesAtKeptIndices(hosts: seq<Host>, port: int)
    ensures |Entries(hosts, port)| == |KeptIndices(hosts)|
    ensures forall k :: 0 <= k < |KeptIndices(hosts)| ==>
      KeptIndices(hosts)[k] < |hosts|
      && Entries(hosts, port)[k]
         == EntryFor(hosts[KeptIndices(hosts)[k]].0, hosts[KeptIndices(hosts)[k]].1, port)
    decreases |hosts|
  {
    KeptIndicesIncrease(hosts);
    if hosts != [] {
      var n := |hosts| - 1;
      var prefix := hosts[..n];
      EntriesAtKeptIndices(prefix, port);
      KeptIndicesIncrease(prefix);
      var idx := KeptIndices(prefix);
      var es := Entries(prefix, port);
      forall k | 0 <= k < |idx|
        ensures Entries(hosts, port)[k] == EntryFor(hosts[idx[k]].0, hosts[idx[k]].1, port)
      {
        assert Entries(hosts, port)[k] == es[k];
        assert prefix[idx[k]] == hosts[idx[k]];
      }
    }
  }

  /**
   * Entry `k` is the entry of host `KeptIndices(hosts)[k]`; those indices
   * increase strictly, and an index is among them exactly when its host is
   * not local.
   */
  lemma {:induction false} EntriesAreOrderedSubsequence(hosts: seq<Host>, port: int)
    ensures |Entries(hosts, port)| == |KeptIndices(hosts)|
    ensures forall k :: 0 <= k < |KeptIndices(hosts)| ==>
      KeptIndices(hosts)[k] < |hosts|
      && Entries(hosts, port)[k]
         == EntryFor(hosts[KeptIndices(hosts)[k]].0, hosts[KeptIndices(hosts)[k]].1, port)
    ensures forall k, l :: 0 <= k < l < |KeptIndices(hosts)| ==>
      KeptIndices(hosts)[k] < KeptIndices(hosts)[l]
    ensures forall i :: 0 <= i < |hosts| ==> (i in KeptIndices(hosts) <==> !IsLocal(hosts[i].0))
  {
    EntriesAtKeptIndices(hosts, port);
    KeptIndicesIncrease(hosts);
    KeptIndicesAreRemote(hosts);
  }

  /** A local host never produces an entry, whatever its variables. */
  lemma {:induction false} LocalHostsSkipped(hosts: seq<Host>, port: int)
    ensures forall k :: 0 <= k < |Entries(hosts, port)| ==>
      "instance" in Entries(hosts, port)[k].labels
      && Entries(hosts, port)[k].labels["instance"] != "localhost"
      && Entries(hosts, port)[k].labels["instance"] != "127.0.0.1"
  {
    EntriesAreOrderedSubsequence(hosts, port);
    var idx := KeptIndices(hosts);
    forall k | 0 <= k < |Entries(hosts, port)|
      ensures !IsLocal(Entries(hosts, port)[k].labels["instance"])
    {
      assert idx[k] in idx;
    }
  }

  /** The number of entries is the number of non-local hosts. */
  lemma {:induction false} EntriesCount(hosts: seq<Host>, port: int)
    ensures |Entries(hosts, port)| == |set i | 0 <= i < |hosts| && !IsLocal(hosts[i].0)|
    decreases |hosts|
  {
    if hosts != [] {
      var n := |hosts| - 1;
      var prefix := hosts[..n];
      EntriesCount(prefix, port);
      var before := set i | 0 <= i < n && !IsLocal(prefix[i].0);
      var after := set i | 0 <= i < |hosts| && !IsLocal(hosts[i].0);
      if IsLocal(hosts[n].0) {
        assert after == before;
      } else {
        assert after == before + {n};
      }
    }
  }

  lemma SameHostname(hosts: seq<Host>, a: nat, b: nat)
    requires DistinctHostnames(hosts)
    requires a < |hosts| && b < |hosts| && hosts[a].0 == hosts[b].0
    ensures a == b
  {
  }

  /**
   * With distinct hostnames, every non-local host has exactly one entry
   * carrying its name as `instance`, and that entry is its `EntryFor`.
   */
  lemma EachRemoteHostOnce(hosts: seq<Host>, port: int, i: nat)
    requires DistinctHostnames(hosts)
    requires i < |hosts| && !IsLocal(hosts[i].0)
    ensures exists k :: (
      && 0 <= k < |Entries(hosts, port)|
      && Entries(hosts, port)[k] == EntryFor(hosts[i].0, hosts[i].1, port)
      && forall k' :: (
           && 0 <= k' < |Entries(hosts, port)|
           && "instance" in Entries(hosts, port)[k'].labels
           && Entries(hosts, port)[k'].labels["instance"] == hosts[i].0) ==> k' == k)
  {
    EntriesAreOrderedSubsequence(hosts, port);
    var idx := KeptIndices(hosts);
    var es := Entries(hosts, port);
    var k :| 0 <= k < |idx| && idx[k] == i;
    forall k' | 0 <= k' < |es| && "instance" in es[k'].labels && es[k'].labels["instance"] == hosts[i].0
      ensures k' == k
    {
      assert es[k'].labels["instance"] == hosts[idx[k']].0;
      SameHostname(hosts, idx[k'], i);
    }
  }

  /** With distinct hostnames, no two entries share an `instance` label. */
  lemma DistinctInstances(hosts: seq<Host>, port: int)
    requires DistinctHostnames(hosts)
    ensures forall k, l :: 0 <= k < l < |Entries(hosts, port)| ==>
      && "instance" in Entries(hosts, port)[k].labels
      && "instance" in Entries(hosts, port)[l].labels
      && Entries(hosts, port)[k].labels["instance"] != Entries(hosts, port)[l].labels["instance"]
  {
    EntriesAreOrderedSubsequence(hosts, port);
    var idx := KeptIndices(hosts);
    var es := Entries(hosts, port);
    forall k, l | 0 <= k < l < |es|
      ensures es[k].labels["instance"] != es[l].labels["instance"]
    {
      assert idx[k] < idx[l];
      assert es[k].labels["instance"] == hosts[idx[k]].0;
      assert es[l].labels["instance"] == hosts[idx[l]].0;
    }
  }

  // ---------------------------------------------------------------------
  // The whole record.

  /** A missing `_meta` or `hostvars` gives an empty, valid scrape config. */
  lemma EmptyWithoutHostvars(inv: Inventory, port: int)
    requires inv.meta.None? || inv.meta.value.hostvars.None?
    ensures ConfigFor(inv, port) == ScrapeConfig("node_exporter_homelab", [])
  {
  }

  /** The default port renders as `9100`. */
  lemma DefaultPortText()
    ensures Decimal.IntToString(DefaultPort) == "9100"
  {
    assert Decimal.NatToString(9) == "9";
    assert Decimal.NatToString(91) == "91";
    assert Decimal.NatToString(910) == "910";
  }

  /** Without a port argument every target ends in `:9100`. */
  lemma DefaultPortTargets(inv: Inventory)
    ensures ConfigFor(inv).jobName == "node_exporter_homelab"
    ensures forall k :: 0 <= k < |ConfigFor(inv).staticConfigs| ==>
      |ConfigFor(inv).staticConfigs[k].targets| == 1
      && SplitTarget(ConfigFor(inv).staticConfigs[k].targets[0]).Some?
      && SplitTarget(ConfigFor(inv).staticConfigs[k].targets[0]).value.1 == "9100"
  {
    var hosts := AllHosts(inv);
    var es := ConfigFor(inv).staticConfigs;
    EntriesAreOrderedSubsequence(hosts, DefaultPort);
    DefaultPortText();
    forall k | 0 <= k < |es|
      ensures |es[k].targets| == 1 && SplitTarget(es[k].targets[0]) == Some((
        Address(hosts[KeptIndices(hosts)[k]].0, hosts[KeptIndices(hosts)[k]].1), "9100"))
    {
      var h := hosts[KeptIndices(hosts)[k]];
      EntryFields(h.0, h.1, DefaultPort);
    }
  }

  /** A remote host reached through `ansible_host`, next to a local host. */
  lemma WorkedExample()
    ensures ConfigFor(Inventory(Some(Meta(Some([
              ("web1", map["ansible_host" := "10.0.0.5"]),
              ("localhost", map[])])))), 9100)
      == ScrapeConfig("node_exporter_homelab", [
           TargetEntry(["10.0.0.5:9100"], map["instance" := "web1", "environment" := "homelab"])])
  {
    var hosts: seq<Host> := [("web1", map["ansible_host" := "10.0.0.5"]), ("localhost", map[])];
    assert hosts[..1][..0] == [];
    assert hosts[..2 - 1] == hosts[..1];
    DefaultPortText();
    assert Entries(hosts[..1], 9100) == [EntryFor("web1", map["ansible_host" := "10.0.0.5"], 9100)];
    assert Entries(hosts, 9100) == Entries(hosts[..1], 9100);
    assert Target("10.0.0.5", 9100) == "10.0.0.5:9100";
    assert EntryFor("web1", map["ansible_host" := "10.0.0.5"], 9100)
      == TargetEntry(["10.0.0.5:9100"], map["instance" := "web1", "environment" := "homelab"]);
  }

}
