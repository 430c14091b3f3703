/** `sync_zones`: one reconciliation pass against a connection, issuing its requests eagerly
    while it scans, and returning the report. */
module Sync {
  import opened Wrappers
  import opened Strings
  import opened Api
  import opened Zones
  import opened Remote
  import opened SyncSpec
  import opened SyncProofs

  /** Issuing one more request extends the log and the service state by it. */
  lemma Issue(start: Service, logged: seq<Request>, issued: seq<Request>, r: Request)
    ensures logged + (issued + [r]) == (logged + issued) + [r]
    ensures ApplyAll(start, issued + [r]) == Apply(ApplyAll(start, issued), r)
  {
    ApplyAllSnoc(start, issued, r);
  }

  /** The first loop of `sync_zones` over the listed zones: it sorts each zone into
      `ignored`, `deleted`, `fixed` or `unchanged`, issuing a delete or a rename as it goes, and
      returns the lists with `have_zones`. */
  method ScanListed(conn: FakeConnection, namespace: string, network: int, zones: seq<Wanted>, listed: seq<Zone>)
    returns (unchangedIds: seq<int>, deleted: seq<Zone>, fixed: seq<int>, ignored: seq<int>, haveZones: map<string, Zone>)
    requires conn.Valid()
    modifies conn
    ensures conn.Valid()
    ensures Report([], unchangedIds, deleted, fixed, ignored) == Scan(namespace, network, zones, listed).report
    ensures haveZones == Scan(namespace, network, zones, listed).have
    ensures conn.log == old(conn.log) + Scan(namespace, network, zones, listed).requests
    ensures conn.State() == ApplyAll(old(conn.State()), Scan(namespace, network, zones, listed).requests)
  {
    unchangedIds, deleted, fixed, ignored, haveZones := [], [], [], [], map[];
    var seen: set<string> := {};
    ghost var start := conn.State();
    ghost var logged := conn.log;
    ghost var issued: seq<Request> := [];
    for i := 0 to |listed|
      invariant ScanState(Report([], unchangedIds, deleted, fixed, ignored), seen, haveZones, issued)
                == Scan(namespace, network, zones, listed[..i])
      invariant conn.Valid()
      invariant conn.log == logged + issued
      invariant conn.State() == ApplyAll(start, issued)
    {
      assert listed[..i + 1] == listed[..i] + [listed[i]];
      ScanSnoc(namespace, network, zones, listed[..i], listed[i]);
      var zone := listed[i];
      var alias := zone.alias;
      if alias.None? || alias.value == "" || !StartsWith(alias.value, namespace + ".") {
        assert LocalAlias(namespace, alias).None?;
        ignored := ignored + [zone.id];
        continue;
      }
      var parts := SplitOnce(alias.value, namespace + ".");
      SplitAtPrefix(alias.value, namespace + ".");
      assert parts[0] == "";
      var local := parts[1];
      assert LocalAlias(namespace, alias) == Some(local);
      if local in seen {
        deleted := deleted + [zone];
        conn.DeleteZone(network, zone.id);
        Issue(start, logged, issued, DeleteRequest(network, zone.id));
        issued := issued + [DeleteRequest(network, zone.id)];
        continue;
      }
      seen := seen + {local};
      haveZones := haveZones[local := zone];
      var wanted := Lookup(zones, local);
      if wanted.None? {
        deleted := deleted + [zone];
        conn.DeleteZone(network, zone.id);
        Issue(start, logged, issued, DeleteRequest(network, zone.id));
        issued := issued + [DeleteRequest(network, zone.id)];
      } else if wanted.value != zone.name {
        var ok := conn.UpdateZone(network, zone.id, Some(Str(wanted.value)), None);
        RenameParams(wanted.value);
        Issue(start, logged, issued, UpdateRequest(network, zone.id, [("name", Str(wanted.value))]));
        fixed := fixed + [zone.id];
        issued := issued + [UpdateRequest(network, zone.id, [("name", Str(wanted.value))])];
      } else {
        unchangedIds := unchangedIds + [zone.id];
      }
    }
    assert listed[..|listed|] == listed;
  }

  /** The second loop of `sync_zones`: it creates a zone for every desired alias no
      listed zone held, in mapping order, and returns the namespaced aliases it created. */
  method CreateMissing(conn: FakeConnection, namespace: string, network: int, zones: seq<Wanted>, haveZones: map<string, Zone>)
    returns (created: seq<string>)
    requires conn.Valid()
    modifies conn
    ensures conn.Valid()
    ensures created == Creations(namespace, network, haveZones, zones).0
    ensures conn.log == old(conn.log) + Creations(namespace, network, haveZones, zones).1
    ensures conn.State() == ApplyAll(old(conn.State()), Creations(namespace, network, haveZones, zones).1)
  {
    created := [];
    ghost var start := conn.State();
    ghost var logged := conn.log;
    ghost var issued: seq<Request> := [];
    for i := 0 to |zones|
      invariant (created, issued) == Creations(namespace, network, haveZones, zones[..i])
      invariant conn.Valid()
      invariant conn.log == logged + issued
      invariant conn.State() == ApplyAll(start, issued)
    {
      assert zones[..i + 1] == zones[..i] + [zones[i]];
      CreationsSnoc(namespace, network, haveZones, zones[..i], zones[i]);
      var wanted := zones[i];
      if wanted.alias in haveZones {
        continue;
      }
      var nsAlias := namespace + "." + wanted.alias;
      created := created + [nsAlias];
      var made := conn.CreateZone(network, wanted.name, Some(nsAlias));
      var request := CreateRequest(network, CreateZonePayload(wanted.name, Some(nsAlias)));
      Issue(start, logged, issued, request);
      issued := issued + [request];
    }
    assert zones[..|zones|] == zones;
  }

  /** The two loops together make up a pass: their lists, log entries and effects are those of
      `Plan`, and the service ends reconciled. */
  lemma PassOutcome(namespace: string, network: int, zones: seq<Wanted>, start: Service, logged: seq<Request>,
                    scanReport: Report, created: seq<string>, log: seq<Request>, final: Service)
    requires UniqueIds(start.zones) && DistinctAliases(zones)
    requires var st := Scan(namespace, network, zones, start.zones);
             var cr := Creations(namespace, network, st.have, zones);
             && scanReport == st.report && created == cr.0
             && log == logged + st.requests + cr.1
             && final == ApplyAll(ApplyAll(start, st.requests), cr.1)
    ensures var plan := Plan(namespace, network, zones, start.zones);
            && scanReport.(created := created) == plan.report
            && log == logged + plan.requests
            && final == ApplyAll(start, plan.requests)
            && Reconciled(namespace, zones, start.zones, final.zones)
  {
    var st := Scan(namespace, network, zones, start.zones);
    var cr := Creations(namespace, network, st.have, zones);
    PlanSplit(namespace, network, zones, start.zones);
    Regroup(logged, st.requests, cr.1, log);
    ApplyAllRegroup(start, st.requests, cr.1, final);
    SyncConverges(namespace, network, zones, start);
  }

  /** The log of a listing followed by two batches of requests. */
  lemma Regroup(logged: seq<Request>, a: seq<Request>, b: seq<Request>, log: seq<Request>)
    requires log == logged + a + b
    ensures log == logged + (a + b)
  {
  }

  /** Two batches of requests issued one after the other. */
  lemma ApplyAllRegroup(start: Service, a: seq<Request>, b: seq<Request>, final: Service)
    requires final == ApplyAll(ApplyAll(start, a), b)
    ensures final == ApplyAll(start, a + b)
  {
    ApplyAllAppend(start, a, b);
  }

  /** `sync_zones`: lists the network's zones, runs the two loops and returns the report. */
  method SyncZones(conn: FakeConnection, namespace: string, network: int, zones: seq<Wanted>)
    returns (report: Report)
    requires conn.Valid()
    requires DistinctAliases(zones)
    modifies conn
    ensures conn.Valid()
    ensures report == Plan(namespace, network, zones, old(conn.zones)).report
    ensures conn.log == old(conn.log) + [ListRequest(network)] + Plan(namespace, network, zones, old(conn.zones)).requests
    ensures conn.State() == ApplyAll(old(conn.State()), Plan(namespace, network, zones, old(conn.zones)).requests)
    ensures Reconciled(namespace, zones, old(conn.zones), conn.zones)
  {
    var listed := conn.GetZones(network);
    ghost var start := conn.State();
    ghost var logged := conn.log;
    var unchangedIds, deleted, fixed, ignored, haveZones := ScanListed(conn, namespace, network, zones, listed);
    var created := CreateMissing(conn, namespace, network, zones, haveZones);
    PassOutcome(namespace, network, zones, start, logged, Report([], unchangedIds, deleted, fixed, ignored),
                created, conn.log, conn.State());
    report := Report(created, unchangedIds, deleted, fixed, ignored);
  }
}
