/** The reconciliation pass of `sync_zones` as a function of the listed zones: the report it
    returns and the requests it issues, in order. */
module SyncSpec {
  import opened Wrappers
  import opened Api
  import opened Zones
  import opened Remote

  /** The dict `sync_zones` returns (`unchangedIds` is its key `unchanged`, a Dafny keyword).
      `deleted` holds whole zone records, `created` namespaced aliases, the other three ids. */
  datatype Report = Report(
    created: seq<string>,
    unchangedIds: seq<int>,
    deleted: seq<Zone>,
    fixed: seq<int>,
    ignored: seq<int>)

  /** The bookkeeping of the scan over the listed zones. */
  datatype ScanState = ScanState(report: Report, seen: set<string>, have: map<string, Zone>, requests: seq<Request>)

  /** The report and the requests of a whole pass (the initial listing not included). */
  datatype Outcome = Outcome(report: Report, requests: seq<Request>)

  const Initial: ScanState := ScanState(Report([], [], [], [], []), {}, map[], [])

  function Deleting(st: ScanState, network: int, z: Zone): ScanState {
    st.(report := st.report.(deleted := st.report.deleted + [z]),
        requests := st.requests + [DeleteRequest(network, z.id)])
  }

  /** The scan's decision for one listed zone. */
  function Step(namespace: string, network: int, desired: seq<Wanted>, st: ScanState, z: Zone): ScanState {
    match LocalAlias(namespace, z.alias)
    case None => st.(report := st.report.(ignored := st.report.ignored + [z.id]))
    case Some(a) =>
      if a in st.seen then Deleting(st, network, z)
      else
        var held := st.(seen := st.seen + {a}, have := st.have[a := z]);
        match Lookup(desired, a)
        case None => Deleting(held, network, z)
        case Some(name) =>
          if name != z.name then
            held.(report := held.report.(fixed := held.report.fixed + [z.id]),
                  requests := held.requests + [UpdateRequest(network, z.id, [("name", Str(name))])])
          else
            held.(report := held.report.(unchangedIds := held.report.unchangedIds + [z.id]))
  }

  /** The state after scanning `zones` in order. */
  function Scan(namespace: string, network: int, desired: seq<Wanted>, zones: seq<Zone>): ScanState
    decreases |zones|
  {
    if zones == [] then Initial
    else Step(namespace, network, desired, Scan(namespace, network, desired, zones[..|zones| - 1]), zones[|zones| - 1])
  }

  lemma ScanSnoc(namespace: string, network: int, desired: seq<Wanted>, zones: seq<Zone>, z: Zone)
    ensures Scan(namespace, network, desired, zones + [z])
         == Step(namespace, network, desired, Scan(namespace, network, desired, zones), z)
  {
    assert (zones + [z])[..|zones|] == zones;
  }

  /** The second loop over `ds` (a prefix of the desired mapping): the namespaced aliases it
      records and the create requests it issues for aliases no listed zone holds. */
  function Creations(namespace: string, network: int, have: map<string, Zone>, ds: seq<Wanted>): (seq<string>, seq<Request>)
    decreases |ds|
  {
    if ds == [] then ([], [])
    else
      var (created, requests) := Creations(namespace, network, have, ds[..|ds| - 1]);
      var w := ds[|ds| - 1];
      if w.alias in have then (created, requests)
      else
        var nsAlias := Prefix(namespace) + w.alias;
        (created + [nsAlias], requests + [CreateRequest(network, CreateZonePayload(w.name, Some(nsAlias)))])
  }

  lemma CreationsSnoc(namespace: string, network: int, have: map<string, Zone>, ds: seq<Wanted>, w: Wanted)
    ensures Creations(namespace, network, have, ds + [w])
         == (var (created, requests) := Creations(namespace, network, have, ds);
             if w.alias in have then (created, requests)
             else (created + [Prefix(namespace) + w.alias],
                   requests + [CreateRequest(network, CreateZonePayload(w.name, Some(Prefix(namespace) + w.alias)))]))
  {
    assert (ds + [w])[..|ds|] == ds;
  }

  /** A whole pass over the listed zones. */
  function Plan(namespace: string, network: int, desired: seq<Wanted>, listed: seq<Zone>): Outcome {
    var st := Scan(namespace, network, desired, listed);
    var (created, creates) := Creations(namespace, network, st.have, desired);
    Outcome(st.report.(created := created), st.requests + creates)
  }

  /** A pass is the scan followed by the second loop. */
  lemma PlanSplit(namespace: string, network: int, desired: seq<Wanted>, listed: seq<Zone>)
    ensures var st := Scan(namespace, network, desired, listed);
            var cr := Creations(namespace, network, st.have, desired);
            Plan(namespace, network, desired, listed) == Outcome(st.report.(created := cr.0), st.requests + cr.1)
  {
  }
}
