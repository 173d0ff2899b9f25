/**
  The host table: the `hosts` mapping of the configuration file, from alias
  to connection profile. Python dictionaries keep insertion order, which the
  host listing shows, so the table is a sequence of entries with distinct
  aliases rather than a map.
 */
module Hosts {
  import opened Wrappers

  /** One profile of the configuration file. A field is `None` when its key
      is absent. */
  datatype Profile = Profile(
    hostname: Option<string>,
    port: Option<int>,
    username: Option<string>,
    password: Option<string>,
    description: Option<string>)

  datatype HostEntry = HostEntry(alias: string, profile: Profile)

  predicate UniqueAliases(entries: seq<HostEntry>) {
    forall i, j | 0 <= i < j < |entries| :: entries[i].alias != entries[j].alias
  }

  type HostTable = t: seq<HostEntry> | UniqueAliases(t) witness []

  /** Python's `alias in hosts`. */
  predicate Has(hosts: HostTable, alias: string) {
    exists i | 0 <= i < |hosts| :: hosts[i].alias == alias
  }

  /** Python's `hosts.get(alias)`: the profile stored under `alias`. */
  function Find(hosts: HostTable, alias: string): (r: Option<Profile>)
    ensures r.Some? <==> Has(hosts, alias)
    ensures r.Some? ==> exists i | 0 <= i < |hosts| :: hosts[i] == HostEntry(alias, r.value)
  {
    if hosts == [] then None
    else if hosts[0].alias == alias then Some(hosts[0].profile)
    else
      var rest: HostTable := hosts[1..];
      var r := Find(rest, alias);
      assert Has(hosts, alias) ==> Has(rest, alias) by {
        if Has(hosts, alias) {
          var i :| 0 <= i < |hosts| && hosts[i].alias == alias;
          assert rest[i - 1] == hosts[i];
        }
      }
      assert r.Some? ==> exists i | 0 <= i < |hosts| :: hosts[i] == HostEntry(alias, r.value) by {
        if r.Some? {
          var i :| 0 <= i < |rest| && rest[i] == HostEntry(alias, r.value);
          assert hosts[i + 1] == rest[i];
        }
      }
      r
  }

  /** Aliases are keys: the entry found under an alias is the only one. */
  lemma FindEntry(hosts: HostTable, i: int)
    requires 0 <= i < |hosts|
    ensures Find(hosts, hosts[i].alias) == Some(hosts[i].profile)
  {
    var r := Find(hosts, hosts[i].alias);
    var j :| 0 <= j < |hosts| && hosts[j] == HostEntry(hosts[i].alias, r.value);
    assert i == j;
  }
}
