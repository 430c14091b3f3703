/** The zone service as the reconciler uses it: the four calls of `APIv0` it makes, recorded as
    requests, their effect on a service holding one network's zones, and an injectable fake
    connection that keeps that state and a log of every request issued. */
module Remote {
  import opened Wrappers
  import opened Api
  import opened Zones

  /** One request to the service, with the fields it carries. */
  datatype Request =
    | ListRequest(network: int)
    | CreateRequest(network: int, data: seq<(string, string)>)
    | DeleteRequest(network: int, zone: int)
    | UpdateRequest(network: int, zone: int, fields: seq<(string, Value)>)

  /** The remote state: the zones in listing order and the id the next created zone gets. */
  datatype Service = Service(zones: seq<Zone>, nextId: int)

  predicate UniqueIds(zones: seq<Zone>) {
    forall i, j :: 0 <= i < j < |zones| ==> zones[i].id != zones[j].id
  }

  /** No zone in `zones` carries `id`. */
  predicate IdFree(zones: seq<Zone>, id: int) {
    forall i :: 0 <= i < |zones| ==> zones[i].id != id
  }

  /** The zone a create request makes. */
  function ZoneFromPayload(id: int, data: seq<(string, string)>): Zone {
    Zone(id, Get(data, "name").GetOr(""), Get(data, "alias"))
  }

  /** A created zone has the name and alias `create_zone` was called with. */
  lemma CreatedZoneRoundTrip(id: int, name: string, alias: Option<string>)
    ensures ZoneFromPayload(id, CreateZonePayload(name, alias)) == Zone(id, name, alias)
  {
    CreatePayloadRoundTrip(name, alias);
  }

  /** A zone after a patch: supplied fields replace the stored ones, omitted fields stay; a
      null alias removes the alias, and a null name leaves the name as it was. */
  function Patched(z: Zone, fields: seq<(string, Value)>): (r: Zone)
    ensures r.id == z.id
    ensures Get(fields, "name").None? ==> r.name == z.name
    ensures Get(fields, "alias").None? ==> r.alias == z.alias
    ensures Get(fields, "name").Some? && Get(fields, "name").value.Str? ==> r.name == Get(fields, "name").value.chars
    ensures Get(fields, "alias").Some? && Get(fields, "alias").value.Str? ==> r.alias == Some(Get(fields, "alias").value.chars)
    ensures Get(fields, "alias") == Some(Null) ==> r.alias == None
  {
    var name, alias := Get(fields, "name"), Get(fields, "alias");
    Zone(z.id,
         if name.Some? && name.value.Str? then name.value.chars else z.name,
         if alias.None? then z.alias else if alias.value.Str? then Some(alias.value.chars) else None)
  }

  /** A rename touches the name only. */
  lemma PatchedRename(z: Zone, name: string)
    ensures Patched(z, [("name", Str(name))]) == z.(name := name)
  {
    var fields := [("name", Str(name))];
    assert Get(fields, "name") == Some(Str(name));
    assert Get(fields, "alias") == None;
  }

  /** The zones without the one(s) carrying `id`, in the same order. */
  function RemoveId(zones: seq<Zone>, id: int): seq<Zone>
    decreases |zones|
  {
    if zones == [] then []
    else (if zones[0].id == id then [] else [zones[0]]) + RemoveId(zones[1..], id)
  }

  lemma {:induction false} RemoveIdMembers(zones: seq<Zone>, id: int)
    ensures forall z :: z in RemoveId(zones, id) <==> z in zones && z.id != id
    decreases |zones|
  {
    if zones != [] {
      RemoveIdMembers(zones[1..], id);
      assert zones == [zones[0]] + zones[1..];
    }
  }

  /** The zones with the one(s) carrying `id` patched, everything else as it was. */
  function UpdateId(zones: seq<Zone>, id: int, fields: seq<(string, Value)>): seq<Zone> {
    seq(|zones|, i requires 0 <= i < |zones| =>
      if zones[i].id == id then Patched(zones[i], fields) else zones[i])
  }

  lemma UpdateIdPointwise(zones: seq<Zone>, id: int, fields: seq<(string, Value)>)
    ensures var r := UpdateId(zones, id, fields);
            && |r| == |zones|
            && (forall i :: 0 <= i < |r| ==> r[i].id == zones[i].id)
            && (forall i :: 0 <= i < |r| && zones[i].id != id ==> r[i] == zones[i])
            && (forall i :: 0 <= i < |r| && zones[i].id == id ==> r[i] == Patched(zones[i], fields))
  {
  }

  /** The effect of one request on the service. */
  function Apply(s: Service, r: Request): Service {
    match r
    case ListRequest(_) => s
    case CreateRequest(_, data) => Service(s.zones + [ZoneFromPayload(s.nextId, data)], s.nextId + 1)
    case DeleteRequest(_, id) => s.(zones := RemoveId(s.zones, id))
    case UpdateRequest(_, id, fields) => s.(zones := UpdateId(s.zones, id, fields))
  }

  /** The effect of a sequence of requests, issued in order. */
  function ApplyAll(s: Service, requests: seq<Request>): Service
    decreases |requests|
  {
    if requests == [] then s
    else Apply(ApplyAll(s, requests[..|requests| - 1]), requests[|requests| - 1])
  }

  lemma ApplyAllSnoc(s: Service, requests: seq<Request>, r: Request)
    ensures ApplyAll(s, requests + [r]) == Apply(ApplyAll(s, requests), r)
  {
    assert (requests + [r])[..|requests|] == requests;
  }

  lemma {:induction false} ApplyAllAppend(s: Service, a: seq<Request>, b: seq<Request>)
    ensures ApplyAll(s, a + b) == ApplyAll(ApplyAll(s, a), b)
    decreases |b|
  {
    if b == [] {
      assert a + b == a;
    } else {
      assert (a + b)[..|a + b| - 1] == a + b[..|b| - 1];
      ApplyAllAppend(s, a, b[..|b| - 1]);
    }
  }

  /** Removing an id keeps ids distinct. */
  lemma {:induction false} RemoveIdKeepsUnique(zones: seq<Zone>, id: int)
    requires UniqueIds(zones)
    ensures UniqueIds(RemoveId(zones, id))
    decreases |zones|
  {
    if zones != [] {
      var tail := zones[1..];
      assert UniqueIds(tail) by {
        forall i, j | 0 <= i < j < |tail| ensures tail[i].id != tail[j].id {
          assert tail[i] == zones[i + 1] && tail[j] == zones[j + 1];
        }
      }
      RemoveIdKeepsUnique(tail, id);
      RemoveIdMembers(tail, id);
      var rest := RemoveId(tail, id);
      if zones[0].id != id {
        var r := [zones[0]] + rest;
        forall i, j | 0 <= i < j < |r| ensures r[i].id != r[j].id {
          if i == 0 {
            assert r[j] in rest;
            var k :| 0 <= k < |tail| && tail[k] == r[j];
            assert zones[k + 1] == r[j];
          } else {
            assert r[i] == rest[i - 1] && r[j] == rest[j - 1];
          }
        }
      }
    }
  }

  lemma {:induction false} RemoveIdConcat(a: seq<Zone>, b: seq<Zone>, id: int)
    ensures RemoveId(a + b, id) == RemoveId(a, id) + RemoveId(b, id)
    decreases |a|
  {
    if a == [] {
      assert a + b == b;
    } else {
      assert (a + b)[1..] == a[1..] + b;
      RemoveIdConcat(a[1..], b, id);
    }
  }

  lemma {:induction false} RemoveIdAbsent(a: seq<Zone>, id: int)
    requires IdFree(a, id)
    ensures RemoveId(a, id) == a
    decreases |a|
  {
    if a != [] {
      assert IdFree(a[1..], id) by {
        forall i | 0 <= i < |a| - 1 ensures a[1..][i].id != id {
          assert a[1..][i] == a[i + 1];
        }
      }
      RemoveIdAbsent(a[1..], id);
      assert a == [a[0]] + a[1..];
    }
  }

  /** Deleting the one zone with a given id takes out exactly that zone. */
  lemma RemoveOne(a: seq<Zone>, z: Zone, b: seq<Zone>)
    requires IdFree(a, z.id)
    requires IdFree(b, z.id)
    ensures RemoveId(a + [z] + b, z.id) == a + b
  {
    var id := z.id;
    var az := a + [z];
    RemoveIdConcat(az, b, id);
    RemoveIdConcat(a, [z], id);
    RemoveIdAbsent(a, id);
    RemoveIdAbsent(b, id);
    assert [z][1..] == [];
    var none := RemoveId([z], id);
    assert none == [];
    assert RemoveId(az, id) == a + none == a;
  }

  /** Patching the one zone with a given id changes exactly that zone. */
  lemma UpdateOne(a: seq<Zone>, z: Zone, b: seq<Zone>, fields: seq<(string, Value)>)
    requires IdFree(a, z.id)
    requires IdFree(b, z.id)
    ensures UpdateId(a + [z] + b, z.id, fields) == a + [Patched(z, fields)] + b
  {
    var before, after := a + [z] + b, a + [Patched(z, fields)] + b;
    var r := UpdateId(before, z.id, fields);
    UpdateIdPointwise(before, z.id, fields);
    forall i | 0 <= i < |before| ensures r[i] == after[i] {
      if i < |a| {
        assert before[i] == a[i] && after[i] == a[i];
      } else if i == |a| {
        assert before[i] == z;
      } else {
        assert before[i] == b[i - |a| - 1] && after[i] == b[i - |a| - 1];
      }
    }
  }

  /** A fake connection: the service state and a log of every request issued, in order. The
      fake serves one network; the network argument is only recorded in the log. */
  class FakeConnection {
    var zones: seq<Zone>
    var nextId: int
    var log: seq<Request>

    /** Ids are distinct and every id is below the next one to be handed out. */
    ghost predicate Valid()
      reads this
    {
      UniqueIds(zones) && forall i :: 0 <= i < |zones| ==> zones[i].id < nextId
    }

    function State(): Service
      reads this
    {
      Service(zones, nextId)
    }

    constructor (initial: seq<Zone>, firstFreeId: int)
      requires UniqueIds(initial)
      requires forall i :: 0 <= i < |initial| ==> initial[i].id < firstFreeId
      ensures Valid()
      ensures zones == initial && nextId == firstFreeId && log == []
    {
      zones := initial;
      nextId := firstFreeId;
      log := [];
    }

    /** `get_zones`: the zones in listing order. */
    method GetZones(network: int) returns (listed: seq<Zone>)
      modifies this`log
      ensures listed == zones
      ensures log == old(log) + [ListRequest(network)]
    {
      listed := zones;
      log := log + [ListRequest(network)];
    }

    /** `create_zone`: posts its payload and returns the new zone. */
    method CreateZone(network: int, name: string, alias: Option<string>) returns (zone: Zone)
      requires Valid()
      modifies this
      ensures Valid()
      ensures State() == Apply(old(State()), CreateRequest(network, CreateZonePayload(name, alias)))
      ensures log == old(log) + [CreateRequest(network, CreateZonePayload(name, alias))]
      ensures zone == Zone(old(nextId), name, alias)
    {
      var data := CreateZonePayload(name, alias);
      CreatedZoneRoundTrip(nextId, name, alias);
      zone := ZoneFromPayload(nextId, data);
      zones := zones + [zone];
      nextId := nextId + 1;
      log := log + [CreateRequest(network, data)];
    }

    /** `delete_zone`. */
    method DeleteZone(network: int, zone: int)
      requires Valid()
      modifies this
      ensures Valid()
      ensures State() == Apply(old(State()), DeleteRequest(network, zone))
      ensures log == old(log) + [DeleteRequest(network, zone)]
    {
      RemoveIdKeepsUnique(zones, zone);
      RemoveIdMembers(zones, zone);
      zones := RemoveId(zones, zone);
      log := log + [DeleteRequest(network, zone)];
    }

    /** `update_zone`: `ok` is false when neither field was supplied, in which case the
        assertion fails before any request is sent. */
    method UpdateZone(network: int, zone: int, name: Option<Value>, alias: Option<Value>) returns (ok: bool)
      requires Valid()
      modifies this
      ensures Valid()
      ensures ok <==> name.Some? || alias.Some?
      ensures ok ==> State() == Apply(old(State()), UpdateRequest(network, zone, UpdateZoneParams(name, alias).value))
      ensures ok ==> log == old(log) + [UpdateRequest(network, zone, UpdateZoneParams(name, alias).value)]
      ensures !ok ==> State() == old(State()) && log == old(log)
    {
      var params := UpdateZoneParams(name, alias);
      if params.None? {
        return false;
      }
      UpdateIdPointwise(zones, zone, params.value);
      zones := UpdateId(zones, zone, params.value);
      log := log + [UpdateRequest(network, zone, params.value)];
      ok := true;
    }
  }
}
