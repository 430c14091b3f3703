/** Zones as the reconciler sees them, and how an alias encodes ownership by a namespace:
    a zone belongs to namespace `ns` when its alias is `ns + "." + local`. */
module Zones {
  import opened Wrappers
  import opened Strings

  /** A zone record as listed by the service; `alias` is None when the record has no alias
      or an explicit null one (`zone.get('alias')`). */
  datatype Zone = Zone(id: int, name: string, alias: Option<string>)

  /** One entry of the desired mapping: local alias and desired name. */
  datatype Wanted = Wanted(alias: string, name: string)

  /** The desired mapping is a dict: no local alias appears twice. */
  predicate DistinctAliases(desired: seq<Wanted>) {
    forall i, j :: 0 <= i < j < |desired| ==> desired[i].alias != desired[j].alias
  }

  function Prefix(namespace: string): string {
    namespace + "."
  }

  /** `alias and alias.startswith(namespace + '.')`. */
  predicate InNamespace(namespace: string, alias: Option<string>) {
    alias.Some? && alias.value != "" && StartsWith(alias.value, Prefix(namespace))
  }

  /** The local alias of a zone in the namespace (its alias with the prefix stripped), or None
      for a zone the namespace does not own. */
  function LocalAlias(namespace: string, alias: Option<string>): (local: Option<string>)
    ensures local.Some? <==> InNamespace(namespace, alias)
    ensures local.Some? ==> alias == Some(Prefix(namespace) + local.value)
  {
    if InNamespace(namespace, alias) then
      var s, k := alias.value, |Prefix(namespace)|;
      assert s == s[..k] + s[k..];
      Some(s[k..])
    else None
  }

  /** Prefixing a local alias and stripping it again gives the local alias back. */
  lemma LocalAliasOfPrefixed(namespace: string, local: string)
    ensures LocalAlias(namespace, Some(Prefix(namespace) + local)) == Some(local)
  {
    var s := Prefix(namespace) + local;
    assert s[..|Prefix(namespace)|] == Prefix(namespace);
  }

  /** `zones.get(alias)['name']`: the desired name of a local alias, None when not desired. */
  function Lookup(desired: seq<Wanted>, alias: string): (name: Option<string>)
    ensures name.Some? <==> exists k :: 0 <= k < |desired| && desired[k].alias == alias
    ensures name.Some? ==> Wanted(alias, name.value) in desired
    decreases |desired|
  {
    if desired == [] then None
    else if desired[0].alias == alias then Some(desired[0].name)
    else
      var r := Lookup(desired[1..], alias);
      assert forall k :: 1 <= k < |desired| ==> desired[k] == desired[1..][k - 1];
      r
  }

  /** In a mapping without repeated aliases, every entry is what its alias looks up. */
  lemma {:induction false} LookupFindsEntry(desired: seq<Wanted>, k: int)
    requires DistinctAliases(desired) && 0 <= k < |desired|
    ensures Lookup(desired, desired[k].alias) == Some(desired[k].name)
  {
    if k > 0 {
      assert desired[0].alias != desired[k].alias;
      assert desired[1..][k - 1] == desired[k];
      LookupFindsEntry(desired[1..], k - 1);
    }
  }

  /** The local aliases of all zones of `zones` the namespace owns. */
  function LocalsOf(namespace: string, zones: seq<Zone>): (locals: set<string>)
    ensures forall a :: a in locals <==>
              exists i :: 0 <= i < |zones| && LocalAlias(namespace, zones[i].alias) == Some(a)
    decreases |zones|
  {
    if zones == [] then {}
    else
      var init := zones[..|zones| - 1];
      var rest := LocalsOf(namespace, init);
      assert forall i :: 0 <= i < |init| ==> init[i] == zones[i];
      match LocalAlias(namespace, zones[|zones| - 1].alias)
      case None => rest
      case Some(a) => rest + {a}
  }
}
