# Prometheus targets from an Ansible inventory

A Dafny model of `generate_prometheus_config`, the one transformation in the
homelab script `scripts/generate_prometheus_targets.py`. It takes the inventory
that `ansible-inventory --list` reports, walks `_meta.hostvars` in order, skips
the hosts `localhost` and `127.0.0.1`, and builds one Prometheus scrape-config
record: job `node_exporter_homelab` with one static target per remaining host.
Each target is `address:port`, where the address is the host's `ansible_host`
variable when it has one and the hostname otherwise. Each target carries the
labels `instance` (the hostname) and `environment` (`homelab`).

Layout:

- `wrappers.dfy` (module `Wrappers`): the `Option` type used for keys that may be missing.
- `decimal.dfy` (module `Decimal`): `IntToString` renders an integer as Python's
  `str()` does for integers within its digit limit; this is what the f-string
  does to the port. `ParseInt` reads the
  text back, and the round-trip lemmas show that no information is lost.
- `prometheus_targets.dfy` (module `PrometheusTargets`): the data model
  (`Inventory`, `Meta`, `TargetEntry`, `ScrapeConfig`), and the functional
  specification `Entries` and `ConfigFor`. It also holds `GenerateConfig`, the
  script's loop-and-append as a Dafny `for` loop with `continue`, proved equal
  to `ConfigFor`, and the lemmas below.

The inventory is the already-parsed JSON. `hostvars` is an ordered sequence of
`(hostname, variables)` pairs, because the output follows dictionary iteration
order. Host variables are modelled as strings. `_meta` and `hostvars` can each
be absent (`Option`); the script then uses an empty mapping.

An `ansible_host` that is present but empty is used as the address, because
`dict.get` returns the stored value whenever the key exists (`EntryFields`).
Nothing checks the port's sign or range, so the model takes any `int`, and a
negative port renders with a leading `-`.

## Model

| member | source | states |
|---|---|---|
| `PrometheusTargets.IsLocal` | scripts/generate_prometheus_targets.py:41-42 | the two skipped names; its property is stated by `LocalHostsSkipped` and `EntriesAreOrderedSubsequence` |
| `PrometheusTargets.AllHosts` | scripts/generate_prometheus_targets.py:37 | the hosts under `_meta.hostvars`, empty when a key is missing; its property is stated by `EmptyWithoutHostvars` |
| `PrometheusTargets.Address` | scripts/generate_prometheus_targets.py:45 | `ansible_host` when present, else the hostname; its property is stated by `EntryFields` |
| `PrometheusTargets.Target` | scripts/generate_prometheus_targets.py:46 | address, colon, decimal port; its property is stated by `TargetRoundTrip` |
| `PrometheusTargets.EntryFor` | scripts/generate_prometheus_targets.py:48-53 | the entry appended for one host; its property is stated by `EntryFields` |
| `PrometheusTargets.Entries` | scripts/generate_prometheus_targets.py:39-54 | the `static_configs` list; its properties are stated by `EntriesAreOrderedSubsequence`, `EntriesCount`, `LocalHostsSkipped`, `EachRemoteHostOnce` and `DistinctInstances` |
| `PrometheusTargets.ConfigFor` | scripts/generate_prometheus_targets.py:56-59 | the returned record; its properties are stated by `EmptyWithoutHostvars`, `DefaultPortTargets` and `WorkedExample`, and `GenerateConfig` is proved equal to it |
| `PrometheusTargets.GenerateConfig` | scripts/generate_prometheus_targets.py:32-61 | the loop over the hosts returns exactly the specified record `ConfigFor(inventory, port)`, whose job name is `node_exporter_homelab`; `port` defaults to 9100 |
| `PrometheusTargets.EmptyWithoutHostvars` | scripts/generate_prometheus_targets.py:37 | a missing `_meta` or a missing `hostvars` gives job `node_exporter_homelab` with an empty `static_configs`, not an error |
| `PrometheusTargets.LocalHostsSkipped` | scripts/generate_prometheus_targets.py:41-42 | no entry has `instance` equal to `localhost` or `127.0.0.1`, whatever those hosts' variables are |
| `PrometheusTargets.EntriesCount` | scripts/generate_prometheus_targets.py:39-54 | the number of entries equals the number of host positions whose name is not local |
| `PrometheusTargets.EntriesAreOrderedSubsequence` | scripts/generate_prometheus_targets.py:39-54 | entry k is the entry of the k-th non-local host; the host indices used strictly increase (order is kept); an index is used exactly when its host is not local |
| `PrometheusTargets.EachRemoteHostOnce` | scripts/generate_prometheus_targets.py:39-54 | with distinct hostnames, every non-local host has exactly one entry carrying its name as `instance`, and that entry is the one built from its variables |
| `PrometheusTargets.DistinctInstances` | scripts/generate_prometheus_targets.py:48-53 | with distinct hostnames, no two entries share an `instance` label |
| `PrometheusTargets.EntryFields` | scripts/generate_prometheus_targets.py:45-53 | an entry has one target, which splits at its last colon into the address and the port text; the address is `ansible_host` when that key is present (even if empty), otherwise the hostname; the port text reads back as `port`; the labels are exactly `instance` = hostname and `environment` = `homelab` |
| `PrometheusTargets.TargetRoundTrip` | scripts/generate_prometheus_targets.py:46 | `address:port` splits back at its last colon into `address` and the decimal port, even when the address contains colons, and the port text parses back to `port` |
| `PrometheusTargets.DefaultPortText` | scripts/generate_prometheus_targets.py:32 | the default port 9100 renders as `9100` |
| `PrometheusTargets.DefaultPortTargets` | scripts/generate_prometheus_targets.py:32-57 | without a port argument the job name is `node_exporter_homelab` and every entry has one target whose port part is `9100` |
| `PrometheusTargets.WorkedExample` | scripts/generate_prometheus_targets.py:32-61 | hosts `web1` (with `ansible_host` 10.0.0.5) and `localhost` on port 9100 give exactly one entry, `10.0.0.5:9100`, with labels `instance: web1` and `environment: homelab` |
| `Decimal.NatToString` | scripts/generate_prometheus_targets.py:46 | the decimal rendering of a natural number is non-empty, all digits, with no leading zero, and one character long exactly for values below 10 |
| `Decimal.NatToStringRoundTrip` | scripts/generate_prometheus_targets.py:46 | the digits of `NatToString(n)` denote `n` |
| `Decimal.IntToString` | scripts/generate_prometheus_targets.py:46 | the rendering of an integer starts with `-` exactly for negative values, followed by a non-empty run of digits with no leading zero (the canonical form `str()` writes), so it never holds a colon |
| `Decimal.IntToStringRoundTrip` | scripts/generate_prometheus_targets.py:46 | parsing the rendering of any integer gives that integer back |

## Left out

- `get_ansible_inventory` (lines 14-29) runs the external `ansible-inventory` command and parses its JSON output. This is a subprocess call and I/O, so the model takes the parsed inventory as its input.
- `main` (lines 64-86) is left out. It covers argument handling, `int()` parsing of the port, the usage message, `sys.exit`, and the progress lines on standard error. This is process plumbing.
- YAML output through `yaml.dump` (line 82) is left out. It is a library call, so the model stops at the structured record. For the same reason the order of keys inside the labels dictionary is not modelled, because `labels` is a Dafny `map`.
- Non-string `ansible_host` values are left out. The f-string would render them with `str()`, but the model's host variables are strings only.
- Malformed inventories are left out. A `_meta` that is not a mapping (such as JSON `null`) makes line 37 raise `AttributeError`; a `hostvars` that is not a mapping makes line 39 raise it at `.items()`. A non-local host whose variables are not a mapping makes line 45 raise `AttributeError`; a local host with such variables is skipped at line 42 before that point. The model's types admit only mappings, so these exceptions are not modelled.
- Non-string hostnames are left out. JSON object keys are always strings, so they arise only for a caller that builds the dictionary itself; the target string would then render them with `str()`, while the `instance` label would keep the original value.
- Decimal.IntToString: renders integers of any length. Since Python 3.11 the f-string at line 46 raises `ValueError` for an integer with more than 4300 digits (the default `int_max_str_digits` limit); the model does not reproduce that error.
- `PrometheusTargets.EachRemoteHostOnce` and `PrometheusTargets.DistinctInstances` assume distinct hostnames, which a Python dictionary guarantees. The other lemmas hold for any sequence of host pairs.
