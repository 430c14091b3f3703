/** What one pass of `sync_zones` guarantees: how each listed zone is classified, that the
    report lists follow the requests in the order they are issued, that zones outside the
    namespace are left alone, and that the pass converges the service to the desired zones so
    that a second pass issues nothing. */
module SyncProofs {
  import opened Wrappers
  import opened Api
  import opened Zones
  import opened Remote
  import opened SyncSpec

  // ----- vocabulary -----

  function Ids(zones: seq<Zone>): (ids: seq<int>)
    ensures |ids| == |zones|
    ensures forall i :: 0 <= i < |zones| ==> ids[i] == zones[i].id
    decreases |zones|
  {
    if zones == [] then [] else Ids(zones[..|zones| - 1]) + [zones[|zones| - 1].id]
  }

  /** The ids of the zones the namespace does not own, in listing order. */
  function OutsideIds(namespace: string, zones: seq<Zone>): seq<int>
    decreases |zones|
  {
    if zones == [] then []
    else
      var z := zones[|zones| - 1];
      OutsideIds(namespace, zones[..|zones| - 1]) + if LocalAlias(namespace, z.alias).None? then [z.id] else []
  }

  /** The zones targeted by the delete requests, in the order issued. */
  function DeleteTargets(requests: seq<Request>): seq<int>
    decreases |requests|
  {
    if requests == [] then []
    else
      var r := requests[|requests| - 1];
      DeleteTargets(requests[..|requests| - 1]) + if r.DeleteRequest? then [r.zone] else []
  }

  /** The zones targeted by the update requests, in the order issued. */
  function UpdateTargets(requests: seq<Request>): seq<int>
    decreases |requests|
  {
    if requests == [] then []
    else
      var r := requests[|requests| - 1];
      UpdateTargets(requests[..|requests| - 1]) + if r.UpdateRequest? then [r.zone] else []
  }

  /** The desired entries whose alias is not claimed, in mapping order. */
  function Unclaimed(ds: seq<Wanted>, claimed: set<string>): seq<Wanted>
    decreases |ds|
  {
    if ds == [] then []
    else
      var init, w := ds[..|ds| - 1], ds[|ds| - 1];
      if w.alias in claimed then Unclaimed(init, claimed) else Unclaimed(init, claimed) + [w]
  }

  lemma {:induction false} UnclaimedMembers(ds: seq<Wanted>, claimed: set<string>)
    ensures forall w :: w in Unclaimed(ds, claimed) <==> w in ds && w.alias !in claimed
    ensures DistinctAliases(ds) ==> DistinctAliases(Unclaimed(ds, claimed))
    decreases |ds|
  {
    if ds != [] {
      var init, w := ds[..|ds| - 1], ds[|ds| - 1];
      UnclaimedMembers(init, claimed);
      var rest := Unclaimed(init, claimed);
      assert forall v :: v in ds <==> v in init || v == w by {
        assert ds == init + [w];
      }
      assert DistinctAliases(ds) ==> DistinctAliases(init) by {
        if DistinctAliases(ds) {
          forall i, j | 0 <= i < j < |init| ensures init[i].alias != init[j].alias {
            assert init[i] == ds[i] && init[j] == ds[j];
          }
        }
      }
      assert DistinctAliases(ds) ==> forall v :: v in init ==> v.alias != w.alias by {
        if DistinctAliases(ds) {
          forall v | v in init ensures v.alias != w.alias {
            var i :| 0 <= i < |init| && init[i] == v;
            assert ds[i] == v;
          }
        }
      }
    }
  }

  /** The zone owned by the namespace under local alias `a` that a pass finds first. */
  ghost predicate FirstHolder(namespace: string, zones: seq<Zone>, a: string, z: Zone) {
    exists i :: 0 <= i < |zones| && zones[i] == z && LocalAlias(namespace, z.alias) == Some(a)
                && a !in LocalsOf(namespace, zones[..i])
  }

  // ----- the scan's bookkeeping -----

  /** The state after one more zone: `seen` and `have_zones` gain its local alias exactly when
      it is owned and not yet seen, and `created` is untouched. */
  lemma StepBookkeeping(namespace: string, network: int, desired: seq<Wanted>, st0: ScanState, z: Zone)
    ensures var st := Step(namespace, network, desired, st0, z);
            && st.report.created == st0.report.created
            && (LocalAlias(namespace, z.alias).None? ==> st.seen == st0.seen && st.have == st0.have)
            && (LocalAlias(namespace, z.alias).Some? && LocalAlias(namespace, z.alias).value in st0.seen ==>
                  st.seen == st0.seen && st.have == st0.have)
            && (LocalAlias(namespace, z.alias).Some? && LocalAlias(namespace, z.alias).value !in st0.seen ==>
                  st.seen == st0.seen + {LocalAlias(namespace, z.alias).value}
                  && st.have == st0.have[LocalAlias(namespace, z.alias).value := z])
  {
  }

  /** `seen` and the keys of `have_zones` are always the local aliases met so far, and
      `created` stays empty until the second loop. */
  lemma {:induction false} ScanSeen(namespace: string, network: int, desired: seq<Wanted>, zones: seq<Zone>)
    ensures var st := Scan(namespace, network, desired, zones);
            && st.seen == LocalsOf(namespace, zones)
            && st.have.Keys == st.seen
            && st.report.created == []
    decreases |zones|
  {
    if zones != [] {
      var init, z := zones[..|zones| - 1], zones[|zones| - 1];
      ScanSeen(namespace, network, desired, init);
      StepBookkeeping(namespace, network, desired, Scan(namespace, network, desired, init), z);
    }
  }

  /** The first holder in a prefix of the listing is the first holder in the whole listing. */
  lemma FirstHolderExtends(namespace: string, zones: seq<Zone>, n: int, a: string, z: Zone)
    requires 0 <= n <= |zones| && FirstHolder(namespace, zones[..n], a, z)
    ensures FirstHolder(namespace, zones, a, z)
  {
    var i :| 0 <= i < n && zones[..n][i] == z && LocalAlias(namespace, z.alias) == Some(a)
             && a !in LocalsOf(namespace, zones[..n][..i]);
    assert zones[..n][..i] == zones[..i];
    assert zones[i] == z;
  }

  /** One more zone keeps every holder the first zone met with its local alias. */
  lemma HolderStep(namespace: string, network: int, desired: seq<Wanted>, init: seq<Zone>, z: Zone, a: string)
    requires a in Step(namespace, network, desired, Scan(namespace, network, desired, init), z).have
    requires a in Scan(namespace, network, desired, init).have ==>
               FirstHolder(namespace, init, a, Scan(namespace, network, desired, init).have[a])
    ensures FirstHolder(namespace, init + [z], a, Step(namespace, network, desired, Scan(namespace, network, desired, init), z).have[a])
  {
    var st0 := Scan(namespace, network, desired, init);
    var st := Step(namespace, network, desired, st0, z);
    var zones := init + [z];
    ScanSeen(namespace, network, desired, init);
    StepBookkeeping(namespace, network, desired, st0, z);
    assert zones[..|init|] == init;
    if a in st0.have && st.have[a] == st0.have[a] {
      FirstHolderExtends(namespace, zones, |init|, a, st0.have[a]);
    } else {
      assert zones[|init|] == z;
    }
  }

  /** Each local alias in `have_zones` is held by the first listed zone that carried it. */
  lemma {:induction false} ScanHolders(namespace: string, network: int, desired: seq<Wanted>, zones: seq<Zone>)
    ensures var st := Scan(namespace, network, desired, zones);
            forall a :: a in st.have ==> FirstHolder(namespace, zones, a, st.have[a])
    decreases |zones|
  {
    if zones != [] {
      var init, z := zones[..|zones| - 1], zones[|zones| - 1];
      assert zones == init + [z];
      ScanHolders(namespace, network, desired, init);
      var st := Scan(namespace, network, desired, zones);
      forall a | a in st.have ensures FirstHolder(namespace, zones, a, st.have[a]) {
        HolderStep(namespace, network, desired, init, z, a);
      }
    }
  }

  /** One more zone only appends to the report lists and the requests. */
  lemma StepExtends(namespace: string, network: int, desired: seq<Wanted>, st0: ScanState, z: Zone)
    ensures var st := Step(namespace, network, desired, st0, z);
            && st0.report.ignored <= st.report.ignored
            && st0.report.deleted <= st.report.deleted
            && st0.report.fixed <= st.report.fixed
            && st0.report.unchangedIds <= st.report.unchangedIds
            && st0.requests <= st.requests
  {
  }

  /** Scanning more zones only appends to the report lists and the requests. */
  lemma {:induction false} ScanExtends(namespace: string, network: int, desired: seq<Wanted>, zones: seq<Zone>, j: nat)
    requires j <= |zones|
    ensures var st0, st := Scan(namespace, network, desired, zones[..j]), Scan(namespace, network, desired, zones);
            && st0.report.ignored <= st.report.ignored
            && st0.report.deleted <= st.report.deleted
            && st0.report.fixed <= st.report.fixed
            && st0.report.unchangedIds <= st.report.unchangedIds
            && st0.requests <= st.requests
    decreases |zones|
  {
    if j < |zones| {
      var init := zones[..|zones| - 1];
      assert init[..j] == zones[..j];
      ScanExtends(namespace, network, desired, init, j);
      StepExtends(namespace, network, desired, Scan(namespace, network, desired, init), zones[|zones| - 1]);
    } else {
      assert zones[..j] == zones;
    }
  }

  // ----- accounting -----

  /** A request the scan issues deletes or renames one zone the namespace owns. */
  ghost predicate TargetsOwned(namespace: string, network: int, zones: seq<Zone>, r: Request) {
    && r.network == network
    && (r.DeleteRequest? || (r.UpdateRequest? && |r.fields| == 1 && r.fields[0].0 == "name"))
    && exists i :: 0 <= i < |zones| && LocalAlias(namespace, zones[i].alias).Some? && zones[i].id == r.zone
  }

  /** One zone adds one entry to exactly one report list, together with at most one request. */
  lemma StepCases(namespace: string, network: int, desired: seq<Wanted>, st0: ScanState, z: Zone)
    ensures var st, r0 := Step(namespace, network, desired, st0, z), st0.report;
            var local := LocalAlias(namespace, z.alias);
            || (local.None? && st.report == r0.(ignored := r0.ignored + [z.id]) && st.requests == st0.requests)
            || (local.Some? && st.report == r0.(deleted := r0.deleted + [z])
                && st.requests == st0.requests + [DeleteRequest(network, z.id)])
            || (local.Some? && Lookup(desired, local.value).Some? && st.report == r0.(fixed := r0.fixed + [z.id])
                && st.requests == st0.requests + [UpdateRequest(network, z.id, [("name", Str(Lookup(desired, local.value).value))])])
            || (local.Some? && st.report == r0.(unchangedIds := r0.unchangedIds + [z.id]) && st.requests == st0.requests)
  {
  }

  /** Partition: every listed zone adds exactly one entry to one of `ignored`, `deleted`,
      `fixed` and `unchanged`, and only the deleted and the fixed ones issue a request, one
      each. */
  lemma {:induction false} ScanPartition(namespace: string, network: int, desired: seq<Wanted>, zones: seq<Zone>)
    ensures var st := Scan(namespace, network, desired, zones);
            && |st.report.ignored| + |st.report.deleted| + |st.report.fixed| + |st.report.unchangedIds| == |zones|
            && |st.requests| == |st.report.deleted| + |st.report.fixed|
    decreases |zones|
  {
    if zones != [] {
      var init, z := zones[..|zones| - 1], zones[|zones| - 1];
      ScanPartition(namespace, network, desired, init);
      StepCases(namespace, network, desired, Scan(namespace, network, desired, init), z);
    }
  }

  /** The report lists are filled in the order the requests are issued: the delete requests
      target the zones of `deleted` and the update requests those of `fixed`, in order. */
  lemma {:induction false} ScanOrder(namespace: string, network: int, desired: seq<Wanted>, zones: seq<Zone>)
    ensures var st := Scan(namespace, network, desired, zones);
            && DeleteTargets(st.requests) == Ids(st.report.deleted)
            && UpdateTargets(st.requests) == st.report.fixed
    decreases |zones|
  {
    if zones != [] {
      var init, z := zones[..|zones| - 1], zones[|zones| - 1];
      ScanOrder(namespace, network, desired, init);
      var st0, st := Scan(namespace, network, desired, init), Scan(namespace, network, desired, zones);
      StepCases(namespace, network, desired, st0, z);
      assert Ids(st0.report.deleted + [z]) == Ids(st0.report.deleted) + [z.id] by {
        assert (st0.report.deleted + [z])[..|st0.report.deleted|] == st0.report.deleted;
      }
      if |st.requests| > |st0.requests| {
        assert st.requests[..|st.requests| - 1] == st0.requests;
      }
    }
  }

  /** Namespace isolation: `ignored` is exactly the ids of the zones outside the namespace, in
      listing order, and every request the scan issues targets a zone inside it, deleting it or
      setting its name and nothing else. */
  lemma {:induction false} ScanIsolation(namespace: string, network: int, desired: seq<Wanted>, zones: seq<Zone>)
    ensures var st := Scan(namespace, network, desired, zones);
            && st.report.ignored == OutsideIds(namespace, zones)
            && forall r :: r in st.requests ==> TargetsOwned(namespace, network, zones, r)
    decreases |zones|
  {
    if zones != [] {
      var init, z := zones[..|zones| - 1], zones[|zones| - 1];
      ScanIsolation(namespace, network, desired, init);
      var st0, st := Scan(namespace, network, desired, init), Scan(namespace, network, desired, zones);
      StepCases(namespace, network, desired, st0, z);
      forall r | r in st.requests ensures TargetsOwned(namespace, network, zones, r) {
        if r in st0.requests {
          var i :| 0 <= i < |init| && LocalAlias(namespace, init[i].alias).Some? && init[i].id == r.zone;
          assert zones[i] == init[i];
        } else {
          assert zones[|zones| - 1] == z;
        }
      }
    }
  }

  // ----- the fate of each listed zone -----

  lemma PrefixMember<T>(x: T, a: seq<T>, b: seq<T>)
    requires x in a && a <= b
    ensures x in b
  {
    var k :| 0 <= k < |a| && a[k] == x;
    assert b[k] == x;
  }

  /** The local alias of a zone is among those of every longer prefix. */
  lemma LocalsOfPrefix(namespace: string, zones: seq<Zone>, k: int, j: int)
    requires 0 <= k < j <= |zones| && LocalAlias(namespace, zones[k].alias).Some?
    ensures LocalAlias(namespace, zones[k].alias).value in LocalsOf(namespace, zones[..j])
  {
    assert zones[..j][k] == zones[k];
  }

  /** A zone outside the namespace is only recorded in `ignored`; no request is issued for it. */
  lemma OutsideZoneIgnored(namespace: string, network: int, desired: seq<Wanted>, zones: seq<Zone>, i: int)
    requires 0 <= i < |zones| && LocalAlias(namespace, zones[i].alias).None?
    ensures var before, after := Scan(namespace, network, desired, zones[..i]), Scan(namespace, network, desired, zones[..i + 1]);
            && after.requests == before.requests
            && after.report == before.report.(ignored := before.report.ignored + [zones[i].id])
    ensures zones[i].id in Plan(namespace, network, desired, zones).report.ignored
  {
    assert zones[..i + 1] == zones[..i] + [zones[i]];
    ScanSnoc(namespace, network, desired, zones[..i], zones[i]);
    ScanExtends(namespace, network, desired, zones, i + 1);
    PrefixMember(zones[i].id, Scan(namespace, network, desired, zones[..i + 1]).report.ignored,
                 Scan(namespace, network, desired, zones).report.ignored);
  }

  /** A zone whose local alias an earlier listed zone already carried is deleted: it is
      appended to `deleted` and a delete request for it is issued, and nothing else. */
  lemma DuplicateDeleted(namespace: string, network: int, desired: seq<Wanted>, zones: seq<Zone>, i: int)
    requires 0 <= i < |zones| && LocalAlias(namespace, zones[i].alias).Some?
    requires LocalAlias(namespace, zones[i].alias).value in LocalsOf(namespace, zones[..i])
    ensures var before, after := Scan(namespace, network, desired, zones[..i]), Scan(namespace, network, desired, zones[..i + 1]);
            && after.requests == before.requests + [DeleteRequest(network, zones[i].id)]
            && after.report == before.report.(deleted := before.report.deleted + [zones[i]])
            && after.have == before.have
    ensures var out := Plan(namespace, network, desired, zones);
            zones[i] in out.report.deleted && DeleteRequest(network, zones[i].id) in out.requests
  {
    assert zones[..i + 1] == zones[..i] + [zones[i]];
    ScanSnoc(namespace, network, desired, zones[..i], zones[i]);
    ScanSeen(namespace, network, desired, zones[..i]);
    ScanExtends(namespace, network, desired, zones, i + 1);
    var after, st := Scan(namespace, network, desired, zones[..i + 1]), Scan(namespace, network, desired, zones);
    PrefixMember(zones[i], after.report.deleted, st.report.deleted);
    PrefixMember(DeleteRequest(network, zones[i].id), after.requests, st.requests);
  }

  /** The first zone met with a local alias becomes its holder in `have_zones` for the rest of
      the pass. */
  lemma FirstHolderKept(namespace: string, network: int, desired: seq<Wanted>, zones: seq<Zone>, i: int)
    requires 0 <= i < |zones| && LocalAlias(namespace, zones[i].alias).Some?
    requires LocalAlias(namespace, zones[i].alias).value !in LocalsOf(namespace, zones[..i])
    ensures var a := LocalAlias(namespace, zones[i].alias).value;
            var st := Scan(namespace, network, desired, zones);
            a in st.have && st.have[a] == zones[i]
  {
    var a := LocalAlias(namespace, zones[i].alias).value;
    ScanSeen(namespace, network, desired, zones);
    ScanHolders(namespace, network, desired, zones);
    var st := Scan(namespace, network, desired, zones);
    assert a in st.have;
    var k :| 0 <= k < |zones| && zones[k] == st.have[a] && LocalAlias(namespace, zones[k].alias) == Some(a)
             && a !in LocalsOf(namespace, zones[..k]);
    if k < i {
      LocalsOfPrefix(namespace, zones, k, i);
      assert false;
    } else if k > i {
      LocalsOfPrefix(namespace, zones, i, k);
      assert false;
    }
  }

  /** The step for the first zone met with a local alias: it is deleted when the alias is not
      desired, renamed (its name and nothing else) when the desired name differs, and left
      without any request when it matches. */
  lemma FirstHolderStep(namespace: string, network: int, desired: seq<Wanted>, zones: seq<Zone>, i: int)
    requires 0 <= i < |zones| && LocalAlias(namespace, zones[i].alias).Some?
    requires LocalAlias(namespace, zones[i].alias).value !in LocalsOf(namespace, zones[..i])
    ensures var a, z := LocalAlias(namespace, zones[i].alias).value, zones[i];
            var before, after := Scan(namespace, network, desired, zones[..i]), Scan(namespace, network, desired, zones[..i + 1]);
            && (Lookup(desired, a).None? ==>
                  after.requests == before.requests + [DeleteRequest(network, z.id)]
                  && after.report == before.report.(deleted := before.report.deleted + [z]))
            && (Lookup(desired, a).Some? && Lookup(desired, a).value != z.name ==>
                  after.requests == before.requests + [UpdateRequest(network, z.id, [("name", Str(Lookup(desired, a).value))])]
                  && after.report == before.report.(fixed := before.report.fixed + [z.id]))
            && (Lookup(desired, a) == Some(z.name) ==>
                  after.requests == before.requests
                  && after.report == before.report.(unchangedIds := before.report.unchangedIds + [z.id]))
  {
    assert zones[..i + 1] == zones[..i] + [zones[i]];
    ScanSnoc(namespace, network, desired, zones[..i], zones[i]);
    ScanSeen(namespace, network, desired, zones[..i]);
  }

  /** Over the whole pass, the first holder of a local alias ends up in `deleted` with a delete
      request when the alias is not desired, in `fixed` with a name-only update when the
      desired name differs, and in `unchanged` when it matches. */
  lemma FirstHolderFate(namespace: string, network: int, desired: seq<Wanted>, zones: seq<Zone>, i: int)
    requires 0 <= i < |zones| && LocalAlias(namespace, zones[i].alias).Some?
    requires LocalAlias(namespace, zones[i].alias).value !in LocalsOf(namespace, zones[..i])
    ensures var a, z := LocalAlias(namespace, zones[i].alias).value, zones[i];
            var out := Plan(namespace, network, desired, zones);
            && (Lookup(desired, a).None? ==> z in out.report.deleted && DeleteRequest(network, z.id) in out.requests)
            && (Lookup(desired, a).Some? && Lookup(desired, a).value != z.name ==>
                  z.id in out.report.fixed
                  && UpdateRequest(network, z.id, [("name", Str(Lookup(desired, a).value))]) in out.requests)
            && (Lookup(desired, a) == Some(z.name) ==> z.id in out.report.unchangedIds)
  {
    var a, z := LocalAlias(namespace, zones[i].alias).value, zones[i];
    FirstHolderStep(namespace, network, desired, zones, i);
    ScanExtends(namespace, network, desired, zones, i + 1);
    var after, st := Scan(namespace, network, desired, zones[..i + 1]), Scan(namespace, network, desired, zones);
    match Lookup(desired, a)
    case None =>
      PrefixMember(z, after.report.deleted, st.report.deleted);
      PrefixMember(DeleteRequest(network, z.id), after.requests, st.requests);
    case Some(n) =>
      if n != z.name {
        PrefixMember(z.id, after.report.fixed, st.report.fixed);
        PrefixMember(UpdateRequest(network, z.id, [("name", Str(n))]), after.requests, st.requests);
      } else {
        PrefixMember(z.id, after.report.unchangedIds, st.report.unchangedIds);
      }
  }

  // ----- the second loop: creations -----

  /** The second loop records `namespace + '.' + alias` for each desired entry whose alias no
      listed zone holds, in mapping order, and issues for each a create request with the desired
      name and that alias. */
  lemma {:induction false} CreationsShape(namespace: string, network: int, have: map<string, Zone>, ds: seq<Wanted>)
    ensures var (created, requests) := Creations(namespace, network, have, ds);
            var missing := Unclaimed(ds, have.Keys);
            && |created| == |missing| && |requests| == |missing|
            && (forall k :: 0 <= k < |missing| ==> created[k] == Prefix(namespace) + missing[k].alias)
            && (forall k :: 0 <= k < |missing| ==>
                  requests[k] == CreateRequest(network, CreateZonePayload(missing[k].name, Some(created[k]))))
    decreases |ds|
  {
    if ds != [] {
      var init, w := ds[..|ds| - 1], ds[|ds| - 1];
      CreationsShape(namespace, network, have, init);
    }
  }

  /** When every desired alias is already held, the second loop creates nothing. */
  lemma {:induction false} CreationsNone(namespace: string, network: int, have: map<string, Zone>, ds: seq<Wanted>)
    requires forall k :: 0 <= k < |ds| ==> ds[k].alias in have
    ensures Creations(namespace, network, have, ds) == ([], [])
    decreases |ds|
  {
    if ds != [] {
      var init := ds[..|ds| - 1];
      assert forall k :: 0 <= k < |init| ==> init[k] == ds[k];
      CreationsNone(namespace, network, have, init);
    }
  }

  /** `created` is exactly the namespaced aliases of the desired entries that no zone of the
      namespace held, in mapping order, and the pass ends with one create request for each, in
      the same order. */
  lemma CreatedExactly(namespace: string, network: int, desired: seq<Wanted>, zones: seq<Zone>)
    ensures var out, st := Plan(namespace, network, desired, zones), Scan(namespace, network, desired, zones);
            var missing := Unclaimed(desired, LocalsOf(namespace, zones));
            && out.requests[..|st.requests|] == st.requests
            && |out.report.created| == |missing| == |out.requests| - |st.requests|
            && (forall k :: 0 <= k < |missing| ==> out.report.created[k] == Prefix(namespace) + missing[k].alias)
            && (forall k :: 0 <= k < |missing| ==>
                  out.requests[|st.requests| + k]
                  == CreateRequest(network, CreateZonePayload(missing[k].name, Some(out.report.created[k]))))
  {
    var st := Scan(namespace, network, desired, zones);
    ScanSeen(namespace, network, desired, zones);
    CreationsShape(namespace, network, st.have, desired);
  }

  // ----- convergence -----

  /** Every zone the namespace owns carries a desired local alias that no other owned zone
      carries, and has the desired name. */
  ghost predicate Settled(namespace: string, desired: seq<Wanted>, zones: seq<Zone>) {
    && (forall i, j :: 0 <= i < j < |zones| && LocalAlias(namespace, zones[i].alias).Some? ==>
          LocalAlias(namespace, zones[i].alias) != LocalAlias(namespace, zones[j].alias))
    && (forall i :: 0 <= i < |zones| && LocalAlias(namespace, zones[i].alias).Some? ==>
          Lookup(desired, LocalAlias(namespace, zones[i].alias).value) == Some(zones[i].name))
  }

  /** The goal of a pass: the namespace's zones are settled, and each desired alias is held. */
  ghost predicate Converged(namespace: string, desired: seq<Wanted>, zones: seq<Zone>) {
    && Settled(namespace, desired, zones)
    && forall k :: 0 <= k < |desired| ==> desired[k].alias in LocalsOf(namespace, zones)
  }

  ghost predicate LocalsWithin(namespace: string, zones: seq<Zone>, claimed: set<string>) {
    forall i :: 0 <= i < |zones| && LocalAlias(namespace, zones[i].alias).Some? ==>
      LocalAlias(namespace, zones[i].alias).value in claimed
  }

  ghost predicate LocalsOutside(namespace: string, zones: seq<Zone>, claimed: set<string>) {
    forall i :: 0 <= i < |zones| && LocalAlias(namespace, zones[i].alias).Some? ==>
      LocalAlias(namespace, zones[i].alias).value !in claimed
  }

  /** Two settled lists whose local aliases are kept apart by `claimed` are settled together. */
  lemma SettledJoin(namespace: string, desired: seq<Wanted>, a: seq<Zone>, b: seq<Zone>, claimed: set<string>)
    requires Settled(namespace, desired, a) && Settled(namespace, desired, b)
    requires LocalsWithin(namespace, a, claimed) && LocalsOutside(namespace, b, claimed)
    ensures Settled(namespace, desired, a + b)
  {
    var c := a + b;
    forall i, j | 0 <= i < j < |c| && LocalAlias(namespace, c[i].alias).Some?
      ensures LocalAlias(namespace, c[i].alias) != LocalAlias(namespace, c[j].alias)
    {
      if j < |a| {
        assert c[i] == a[i] && c[j] == a[j];
      } else if i >= |a| {
        assert c[i] == b[i - |a|] && c[j] == b[j - |a|];
      } else {
        assert c[i] == a[i] && c[j] == b[j - |a|];
      }
    }
    forall i | 0 <= i < |c| && LocalAlias(namespace, c[i].alias).Some?
      ensures Lookup(desired, LocalAlias(namespace, c[i].alias).value) == Some(c[i].name)
    {
      if i < |a| {
        assert c[i] == a[i];
      } else {
        assert c[i] == b[i - |a|];
      }
    }
  }

  /** What the scan leaves of one listed zone in the service: zones outside the namespace
      stay, duplicates and undesired zones go, first holders stay with the desired name. */
  ghost function KeptOne(namespace: string, desired: seq<Wanted>, seen: set<string>, z: Zone): seq<Zone> {
    match LocalAlias(namespace, z.alias)
    case None => [z]
    case Some(a) =>
      if a in seen then []
      else match Lookup(desired, a)
        case None => []
        case Some(name) => [z.(name := name)]
  }

  /** What the scan leaves of the listed zones, in listing order. */
  ghost function Kept(namespace: string, desired: seq<Wanted>, zones: seq<Zone>): seq<Zone>
    decreases |zones|
  {
    if zones == [] then []
    else
      var init := zones[..|zones| - 1];
      Kept(namespace, desired, init) + KeptOne(namespace, desired, LocalsOf(namespace, init), zones[|zones| - 1])
  }

  lemma {:induction false} KeptSettled(namespace: string, desired: seq<Wanted>, zones: seq<Zone>)
    ensures Settled(namespace, desired, Kept(namespace, desired, zones))
    ensures LocalsWithin(namespace, Kept(namespace, desired, zones), LocalsOf(namespace, zones))
    decreases |zones|
  {
    if zones != [] {
      var init, z := zones[..|zones| - 1], zones[|zones| - 1];
      KeptSettled(namespace, desired, init);
      var k0 := Kept(namespace, desired, init);
      var e := KeptOne(namespace, desired, LocalsOf(namespace, init), z);
      assert LocalsOf(namespace, init) <= LocalsOf(namespace, zones) by {
        forall a | a in LocalsOf(namespace, init) ensures a in LocalsOf(namespace, zones) {
          var i :| 0 <= i < |init| && LocalAlias(namespace, init[i].alias) == Some(a);
          assert zones[i] == init[i];
        }
      }
      assert LocalAlias(namespace, z.alias).Some? ==> LocalAlias(namespace, z.alias).value in LocalsOf(namespace, zones);
      if e != [] {
        assert LocalAlias(namespace, e[0].alias) == LocalAlias(namespace, z.alias);
        SettledJoin(namespace, desired, k0, e, LocalsOf(namespace, init));
      } else {
        assert k0 + e == k0;
      }
    }
  }

  lemma {:induction false} KeptCovers(namespace: string, desired: seq<Wanted>, zones: seq<Zone>)
    ensures forall a :: a in LocalsOf(namespace, zones) && Lookup(desired, a).Some? ==>
              a in LocalsOf(namespace, Kept(namespace, desired, zones))
    decreases |zones|
  {
    if zones != [] {
      var init, z := zones[..|zones| - 1], zones[|zones| - 1];
      KeptCovers(namespace, desired, init);
      var k0 := Kept(namespace, desired, init);
      var kept := Kept(namespace, desired, zones);
      assert kept == k0 + KeptOne(namespace, desired, LocalsOf(namespace, init), z);
      forall a | a in LocalsOf(namespace, zones) && Lookup(desired, a).Some?
        ensures a in LocalsOf(namespace, kept)
      {
        if a in LocalsOf(namespace, init) {
          var m :| 0 <= m < |k0| && LocalAlias(namespace, k0[m].alias) == Some(a);
          assert kept[m] == k0[m];
        } else {
          assert LocalAlias(namespace, z.alias) == Some(a);
          assert kept[|k0|].alias == z.alias;
        }
      }
    }
  }

  /** Every listed zone outside the namespace is kept. */
  lemma {:induction false} KeptOutside(namespace: string, desired: seq<Wanted>, zones: seq<Zone>)
    ensures forall z :: z in zones && LocalAlias(namespace, z.alias).None? ==> z in Kept(namespace, desired, zones)
    decreases |zones|
  {
    if zones != [] {
      var init, z := zones[..|zones| - 1], zones[|zones| - 1];
      KeptOutside(namespace, desired, init);
      var k0 := Kept(namespace, desired, init);
      assert Kept(namespace, desired, zones) == k0 + KeptOne(namespace, desired, LocalsOf(namespace, init), z);
      assert zones == init + [z];
    }
  }

  /** Every kept zone carries the id of a listed zone. */
  lemma {:induction false} KeptIds(namespace: string, desired: seq<Wanted>, zones: seq<Zone>)
    ensures forall x :: x in Kept(namespace, desired, zones) ==> exists i :: 0 <= i < |zones| && zones[i].id == x.id
    decreases |zones|
  {
    if zones != [] {
      var init, z := zones[..|zones| - 1], zones[|zones| - 1];
      KeptIds(namespace, desired, init);
      var k0 := Kept(namespace, desired, init);
      var kept := k0 + KeptOne(namespace, desired, LocalsOf(namespace, init), z);
      assert Kept(namespace, desired, zones) == kept;
      forall x | x in kept ensures exists i :: 0 <= i < |zones| && zones[i].id == x.id {
        if x in k0 {
          var i :| 0 <= i < |init| && init[i].id == x.id;
          assert zones[i] == init[i];
        } else {
          assert zones[|zones| - 1].id == x.id;
        }
      }
    }
  }

  lemma DeleteEffect(s: Service, requests: seq<Request>, network: int, k0: seq<Zone>, z: Zone, rest: seq<Zone>)
    requires ApplyAll(s, requests) == Service(k0 + [z] + rest, s.nextId)
    requires IdFree(k0, z.id)
    requires IdFree(rest, z.id)
    ensures ApplyAll(s, requests + [DeleteRequest(network, z.id)]) == Service(k0 + rest, s.nextId)
  {
    ApplyAllSnoc(s, requests, DeleteRequest(network, z.id));
    var all := k0 + [z] + rest;
    assert ApplyAll(s, requests + [DeleteRequest(network, z.id)]) == Service(RemoveId(all, z.id), s.nextId);
    RemoveOne(k0, z, rest);
  }

  lemma RenameEffect(s: Service, requests: seq<Request>, network: int, k0: seq<Zone>, z: Zone, rest: seq<Zone>, name: string)
    requires ApplyAll(s, requests) == Service(k0 + [z] + rest, s.nextId)
    requires IdFree(k0, z.id)
    requires IdFree(rest, z.id)
    ensures ApplyAll(s, requests + [UpdateRequest(network, z.id, [("name", Str(name))])])
         == Service(k0 + [z.(name := name)] + rest, s.nextId)
  {
    ApplyAllSnoc(s, requests, UpdateRequest(network, z.id, [("name", Str(name))]));
    UpdateOne(k0, z, rest, [("name", Str(name))]);
    PatchedRename(z, name);
  }

  /** A scan step either issues nothing and keeps the zone (possibly renamed in the model only
      when the name already matches), deletes it, or renames it. */
  lemma StepShape(namespace: string, network: int, desired: seq<Wanted>, st: ScanState, z: Zone)
    returns (name: string)
    ensures var next, kept := Step(namespace, network, desired, st, z), KeptOne(namespace, desired, st.seen, z);
      || (next.requests == st.requests && kept == [z])
      || (next.requests == st.requests + [DeleteRequest(network, z.id)] && kept == [])
      || (next.requests == st.requests + [UpdateRequest(network, z.id, [("name", Str(name))])]
          && kept == [z.(name := name)])
  {
    name := "";
    match LocalAlias(namespace, z.alias)
    case None =>
    case Some(a) =>
      if a !in st.seen {
        match Lookup(desired, a)
        case None =>
        case Some(n) =>
          name := n;
          if n == z.name {
            assert z.(name := n) == z;
          }
      }
  }

  lemma ShapeEffect(s: Service, before: seq<Request>, after: seq<Request>, network: int,
                    k0: seq<Zone>, z: Zone, rest: seq<Zone>, kept: seq<Zone>, name: string)
    requires ApplyAll(s, before) == Service(k0 + [z] + rest, s.nextId)
    requires IdFree(k0, z.id) && IdFree(rest, z.id)
    requires || (after == before && kept == [z])
             || (after == before + [DeleteRequest(network, z.id)] && kept == [])
             || (after == before + [UpdateRequest(network, z.id, [("name", Str(name))])]
                 && kept == [z.(name := name)])
    ensures ApplyAll(s, after) == Service(k0 + kept + rest, s.nextId)
  {
    if after == before && kept == [z] {
    } else if after == before + [DeleteRequest(network, z.id)] && kept == [] {
      DeleteEffect(s, before, network, k0, z, rest);
      assert k0 + kept + rest == k0 + rest;
    } else {
      RenameEffect(s, before, network, k0, z, rest, name);
    }
  }

  /** One scan step changes the service only at the zone it looks at. */
  lemma StepEffect(namespace: string, network: int, desired: seq<Wanted>, st: ScanState, s: Service,
                   k0: seq<Zone>, z: Zone, rest: seq<Zone>)
    requires ApplyAll(s, st.requests) == Service(k0 + [z] + rest, s.nextId)
    requires IdFree(k0, z.id) && IdFree(rest, z.id)
    ensures ApplyAll(s, Step(namespace, network, desired, st, z).requests)
         == Service(k0 + KeptOne(namespace, desired, st.seen, z) + rest, s.nextId)
  {
    var name := StepShape(namespace, network, desired, st, z);
    ShapeEffect(s, st.requests, Step(namespace, network, desired, st, z).requests, network,
                k0, z, rest, KeptOne(namespace, desired, st.seen, z), name);
  }

  lemma KeptSnoc(namespace: string, desired: seq<Wanted>, zones: seq<Zone>, z: Zone)
    ensures Kept(namespace, desired, zones + [z])
         == Kept(namespace, desired, zones) + KeptOne(namespace, desired, LocalsOf(namespace, zones), z)
  {
    assert (zones + [z])[..|zones|] == zones;
  }

  /** With distinct ids, neither what the scan kept before a zone nor the zones after it
      carry that zone's id. */
  lemma KeptIdsFree(namespace: string, desired: seq<Wanted>, p: seq<Zone>, z: Zone, rest: seq<Zone>)
    requires UniqueIds(p + [z] + rest)
    ensures IdFree(Kept(namespace, desired, p), z.id)
    ensures IdFree(rest, z.id)
  {
    var zones := p + [z] + rest;
    var k0 := Kept(namespace, desired, p);
    KeptIds(namespace, desired, p);
    forall m | 0 <= m < |k0| ensures k0[m].id != z.id {
      assert k0[m] in k0;
      var i :| 0 <= i < |p| && p[i].id == k0[m].id;
      assert zones[i] == p[i] && zones[|p|] == z;
    }
    forall m | 0 <= m < |rest| ensures rest[m].id != z.id {
      assert zones[|p| + 1 + m] == rest[m] && zones[|p|] == z;
    }
  }

  /** While scanning, the service holds what the scan has left of the zones seen so far,
      followed by the zones not yet reached: each request touches only the zone it was issued
      for, since ids are distinct. */
  lemma {:induction false} ScanEffect(namespace: string, network: int, desired: seq<Wanted>, s: Service,
                                      done: seq<Zone>, rest: seq<Zone>)
    requires s.zones == done + rest && UniqueIds(s.zones)
    ensures ApplyAll(s, Scan(namespace, network, desired, done).requests)
         == Service(Kept(namespace, desired, done) + rest, s.nextId)
    decreases |done|
  {
    if done == [] {
      assert done + rest == rest;
    } else {
      var p, z := done[..|done| - 1], done[|done| - 1];
      assert done == p + [z];
      assert p + [z] + rest == p + ([z] + rest);
      ScanEffect(namespace, network, desired, s, p, [z] + rest);
      var k0 := Kept(namespace, desired, p);
      assert k0 + ([z] + rest) == k0 + [z] + rest;
      KeptIdsFree(namespace, desired, p, z, rest);
      ScanSeen(namespace, network, desired, p);
      StepEffect(namespace, network, desired, Scan(namespace, network, desired, p), s, k0, z, rest);
    }
  }

  /** The zones the create requests make, ids handed out from `n` on. */
  ghost function Made(namespace: string, n: int, us: seq<Wanted>): (made: seq<Zone>)
    ensures |made| == |us|
    decreases |us|
  {
    if us == [] then []
    else
      var init, w := us[..|us| - 1], us[|us| - 1];
      Made(namespace, n, init) + [Zone(n + |init|, w.name, Some(Prefix(namespace) + w.alias))]
  }

  /** The k-th created zone has id `n + k` and the k-th entry's name and namespaced alias. */
  lemma {:induction false} MadeZones(namespace: string, n: int, us: seq<Wanted>)
    ensures forall k :: 0 <= k < |us| ==>
              Made(namespace, n, us)[k] == Zone(n + k, us[k].name, Some(Prefix(namespace) + us[k].alias))
    decreases |us|
  {
    if us != [] {
      var init := us[..|us| - 1];
      MadeZones(namespace, n, init);
      forall k | 0 <= k < |us| - 1
        ensures Made(namespace, n, us)[k] == Zone(n + k, us[k].name, Some(Prefix(namespace) + us[k].alias))
      {
        assert us[k] == init[k];
      }
    }
  }

  /** A create request appends the zone its payload describes, with the next id. */
  lemma CreateEffect(network: int, zones: seq<Zone>, data: seq<(string, string)>, made: seq<Zone>, z: Zone)
    requires ZoneFromPayload(z.id, data) == z
    ensures Apply(Service(zones + made, z.id), CreateRequest(network, data)) == Service(zones + (made + [z]), z.id + 1)
  {
    assert zones + made + [z] == zones + (made + [z]);
  }

  lemma ApplyAllChain(s: Service, requests: seq<Request>, r: Request, mid: Service, next: Service)
    requires ApplyAll(s, requests) == mid && Apply(mid, r) == next
    ensures ApplyAll(s, requests + [r]) == next
  {
    ApplyAllSnoc(s, requests, r);
  }

  /** The create requests for the entries `us`, in order. */
  ghost function Creates(namespace: string, network: int, us: seq<Wanted>): seq<Request>
    decreases |us|
  {
    if us == [] then []
    else
      var init, w := us[..|us| - 1], us[|us| - 1];
      Creates(namespace, network, init)
        + [CreateRequest(network, CreateZonePayload(w.name, Some(Prefix(namespace) + w.alias)))]
  }

  /** The second loop issues exactly the create requests for the entries left unclaimed. */
  lemma {:induction false} CreationsRequests(namespace: string, network: int, have: map<string, Zone>, ds: seq<Wanted>)
    ensures Creations(namespace, network, have, ds).1 == Creates(namespace, network, Unclaimed(ds, have.Keys))
    decreases |ds|
  {
    if ds != [] {
      var init, w := ds[..|ds| - 1], ds[|ds| - 1];
      CreationsRequests(namespace, network, have, init);
      var us := Unclaimed(init, have.Keys);
      if w.alias !in have {
        assert (us + [w])[..|us|] == us;
      }
    }
  }

  /** Create requests append one zone per entry, in order, with consecutive new ids. */
  lemma {:induction false} CreatesEffect(namespace: string, network: int, us: seq<Wanted>, s: Service)
    ensures ApplyAll(s, Creates(namespace, network, us)) == Service(s.zones + Made(namespace, s.nextId, us), s.nextId + |us|)
    decreases |us|
  {
    if us == [] {
      assert Made(namespace, s.nextId, []) == [];
      assert s.zones + [] == s.zones;
    } else {
      var init, w := us[..|us| - 1], us[|us| - 1];
      var made := Made(namespace, s.nextId, init);
      var alias := Prefix(namespace) + w.alias;
      var data := CreateZonePayload(w.name, Some(alias));
      var z := Zone(s.nextId + |init|, w.name, Some(alias));
      assert Made(namespace, s.nextId, us) == made + [z];
      assert Creates(namespace, network, us) == Creates(namespace, network, init) + [CreateRequest(network, data)];
      CreatesEffect(namespace, network, init, s);
      CreatedZoneRoundTrip(z.id, w.name, Some(alias));
      CreateEffect(network, s.zones, data, made, z);
      ApplyAllChain(s, Creates(namespace, network, init), CreateRequest(network, data),
                    Service(s.zones + made, z.id), Service(s.zones + (made + [z]), z.id + 1));
    }
  }

  /** The second loop appends one zone per desired entry left unclaimed, in mapping order. */
  lemma CreationsEffect(namespace: string, network: int, have: map<string, Zone>, ds: seq<Wanted>, s: Service)
    ensures var us := Unclaimed(ds, have.Keys);
            ApplyAll(s, Creations(namespace, network, have, ds).1)
            == Service(s.zones + Made(namespace, s.nextId, us), s.nextId + |us|)
  {
    CreationsRequests(namespace, network, have, ds);
    CreatesEffect(namespace, network, Unclaimed(ds, have.Keys), s);
  }

  lemma MadeLocals(namespace: string, n: int, us: seq<Wanted>)
    ensures forall i :: 0 <= i < |us| ==> LocalAlias(namespace, Made(namespace, n, us)[i].alias) == Some(us[i].alias)
  {
    var made := Made(namespace, n, us);
    MadeZones(namespace, n, us);
    forall i | 0 <= i < |us| ensures LocalAlias(namespace, made[i].alias) == Some(us[i].alias) {
      LocalAliasOfPrefixed(namespace, us[i].alias);
    }
  }

  /** Zones created for distinct desired entries are settled. */
  lemma MadeSettledFor(namespace: string, desired: seq<Wanted>, n: int, us: seq<Wanted>)
    requires DistinctAliases(desired) && DistinctAliases(us)
    requires forall w :: w in us ==> w in desired
    ensures Settled(namespace, desired, Made(namespace, n, us))
  {
    var made := Made(namespace, n, us);
    MadeLocals(namespace, n, us);
    MadeZones(namespace, n, us);
    forall i, j | 0 <= i < j < |made| && LocalAlias(namespace, made[i].alias).Some?
      ensures LocalAlias(namespace, made[i].alias) != LocalAlias(namespace, made[j].alias)
    {
      assert us[i].alias != us[j].alias;
    }
    forall i | 0 <= i < |made| && LocalAlias(namespace, made[i].alias).Some?
      ensures Lookup(desired, LocalAlias(namespace, made[i].alias).value) == Some(made[i].name)
    {
      assert us[i] in desired;
      var k :| 0 <= k < |desired| && desired[k] == us[i];
      LookupFindsEntry(desired, k);
    }
  }

  /** The created zones are settled, and their local aliases are exactly the desired ones left
      unclaimed. */
  lemma MadeSettled(namespace: string, desired: seq<Wanted>, n: int, claimed: set<string>)
    requires DistinctAliases(desired)
    ensures var made := Made(namespace, n, Unclaimed(desired, claimed));
            && Settled(namespace, desired, made)
            && LocalsOutside(namespace, made, claimed)
            && forall k :: 0 <= k < |desired| && desired[k].alias !in claimed ==>
                 desired[k].alias in LocalsOf(namespace, made)
  {
    var us := Unclaimed(desired, claimed);
    UnclaimedMembers(desired, claimed);
    MadeSettledFor(namespace, desired, n, us);
    var made := Made(namespace, n, us);
    MadeLocals(namespace, n, us);
    forall i | 0 <= i < |made| && LocalAlias(namespace, made[i].alias).Some?
      ensures LocalAlias(namespace, made[i].alias).value !in claimed
    {
      assert us[i] in us;
    }
    forall k | 0 <= k < |desired| && desired[k].alias !in claimed
      ensures desired[k].alias in LocalsOf(namespace, made)
    {
      assert desired[k] in us;
      var i :| 0 <= i < |us| && us[i] == desired[k];
      assert LocalAlias(namespace, made[i].alias) == Some(desired[k].alias);
    }
  }

  lemma LocalsOfJoin(namespace: string, a: seq<Zone>, b: seq<Zone>)
    ensures LocalsOf(namespace, a + b) == LocalsOf(namespace, a) + LocalsOf(namespace, b)
  {
    var c := a + b;
    forall x | x in LocalsOf(namespace, c) ensures x in LocalsOf(namespace, a) + LocalsOf(namespace, b) {
      var i :| 0 <= i < |c| && LocalAlias(namespace, c[i].alias) == Some(x);
      if i < |a| {
        assert c[i] == a[i];
      } else {
        assert c[i] == b[i - |a|];
      }
    }
    forall x | x in LocalsOf(namespace, a) + LocalsOf(namespace, b) ensures x in LocalsOf(namespace, c) {
      if x in LocalsOf(namespace, a) {
        var i :| 0 <= i < |a| && LocalAlias(namespace, a[i].alias) == Some(x);
        assert c[i] == a[i];
      } else {
        var i :| 0 <= i < |b| && LocalAlias(namespace, b[i].alias) == Some(x);
        assert c[|a| + i] == b[i];
      }
    }
  }

  /** The service after a whole pass: what the scan kept, in listing order, then the created
      zones, in mapping order. */
  lemma PassEffect(namespace: string, network: int, desired: seq<Wanted>, s: Service)
    requires UniqueIds(s.zones)
    ensures var us := Unclaimed(desired, LocalsOf(namespace, s.zones));
            ApplyAll(s, Plan(namespace, network, desired, s.zones).requests)
            == Service(Kept(namespace, desired, s.zones) + Made(namespace, s.nextId, us), s.nextId + |us|)
  {
    var st := Scan(namespace, network, desired, s.zones);
    ScanSeen(namespace, network, desired, s.zones);
    assert s.zones + [] == s.zones;
    ScanEffect(namespace, network, desired, s, s.zones, []);
    var mid := ApplyAll(s, st.requests);
    assert mid == Service(Kept(namespace, desired, s.zones), s.nextId);
    var creates := Creations(namespace, network, st.have, desired).1;
    ApplyAllAppend(s, st.requests, creates);
    CreationsEffect(namespace, network, st.have, desired, mid);
  }

  /** What a pass promises about the zones `before` and `after` it: the namespace's zones are
      converged and hold exactly the desired local aliases, zones outside the namespace are all
      still there, and no zone outside the namespace appeared. */
  ghost predicate Reconciled(namespace: string, desired: seq<Wanted>, before: seq<Zone>, after: seq<Zone>) {
    && Converged(namespace, desired, after)
    && LocalsOf(namespace, after) == (set w | w in desired :: w.alias)
    && (forall z :: z in before && LocalAlias(namespace, z.alias).None? ==> z in after)
    && (forall z :: z in after && LocalAlias(namespace, z.alias).None? ==> z in before)
  }

  /** The kept zones followed by the created ones are converged. */
  lemma KeptMadeConverged(namespace: string, desired: seq<Wanted>, zones: seq<Zone>, n: int)
    requires DistinctAliases(desired)
    ensures var claimed := LocalsOf(namespace, zones);
            Converged(namespace, desired, Kept(namespace, desired, zones) + Made(namespace, n, Unclaimed(desired, claimed)))
  {
    var claimed := LocalsOf(namespace, zones);
    var kept, made := Kept(namespace, desired, zones), Made(namespace, n, Unclaimed(desired, claimed));
    var after := kept + made;
    KeptSettled(namespace, desired, zones);
    MadeSettled(namespace, desired, n, claimed);
    SettledJoin(namespace, desired, kept, made, claimed);
    KeptCovers(namespace, desired, zones);
    LocalsOfJoin(namespace, kept, made);
    forall k | 0 <= k < |desired| ensures desired[k].alias in LocalsOf(namespace, after) {
      if desired[k].alias in claimed {
        assert Lookup(desired, desired[k].alias).Some?;
      }
    }
  }

  /** The zones outside the namespace among the kept and created ones are exactly the listed
      zones outside it. */
  lemma KeptMadeOutside(namespace: string, desired: seq<Wanted>, zones: seq<Zone>, n: int)
    ensures var after := Kept(namespace, desired, zones) + Made(namespace, n, Unclaimed(desired, LocalsOf(namespace, zones)));
            && (forall z :: z in zones && LocalAlias(namespace, z.alias).None? ==> z in after)
            && (forall z :: z in after && LocalAlias(namespace, z.alias).None? ==> z in zones)
  {
    var us := Unclaimed(desired, LocalsOf(namespace, zones));
    var kept, made := Kept(namespace, desired, zones), Made(namespace, n, us);
    var after := kept + made;
    KeptOutside(namespace, desired, zones);
    KeptOutsideOnly(namespace, desired, zones);
    MadeLocals(namespace, n, us);
    assert forall z: Zone :: z in after && LocalAlias(namespace, z.alias).None? ==> z in kept;
  }

  /** A pass reconciles the service's zones with the desired mapping. */
  lemma SyncConverges(namespace: string, network: int, desired: seq<Wanted>, s: Service)
    requires UniqueIds(s.zones) && DistinctAliases(desired)
    ensures Reconciled(namespace, desired, s.zones, ApplyAll(s, Plan(namespace, network, desired, s.zones).requests).zones)
  {
    var us := Unclaimed(desired, LocalsOf(namespace, s.zones));
    var after := Kept(namespace, desired, s.zones) + Made(namespace, s.nextId, us);
    assert ApplyAll(s, Plan(namespace, network, desired, s.zones).requests).zones == after by {
      PassEffect(namespace, network, desired, s);
    }
    KeptMadeConverged(namespace, desired, s.zones, s.nextId);
    KeptMadeOutside(namespace, desired, s.zones, s.nextId);
    ConvergedLocals(namespace, desired, after);
  }

  /** A zone outside the namespace that the scan keeps is one of the listed zones. */
  lemma {:induction false} KeptOutsideOnly(namespace: string, desired: seq<Wanted>, zones: seq<Zone>)
    ensures forall z :: z in Kept(namespace, desired, zones) && LocalAlias(namespace, z.alias).None? ==> z in zones
    decreases |zones|
  {
    if zones != [] {
      var init, z := zones[..|zones| - 1], zones[|zones| - 1];
      KeptOutsideOnly(namespace, desired, init);
      var k0 := Kept(namespace, desired, init);
      var e := KeptOne(namespace, desired, LocalsOf(namespace, init), z);
      assert zones == init + [z];
      forall x: Zone | x in k0 + e && LocalAlias(namespace, x.alias).None? ensures x in zones {
        if x in k0 {
          assert x in init;
        } else {
          assert x.alias == z.alias;
        }
      }
    }
  }

  // ----- idempotence -----

  lemma SettledPrefix(namespace: string, desired: seq<Wanted>, zones: seq<Zone>, j: nat)
    requires Settled(namespace, desired, zones) && j <= |zones|
    ensures Settled(namespace, desired, zones[..j])
  {
    var p := zones[..j];
    forall i, k | 0 <= i < k < |p| && LocalAlias(namespace, p[i].alias).Some?
      ensures LocalAlias(namespace, p[i].alias) != LocalAlias(namespace, p[k].alias)
    {
      assert p[i] == zones[i] && p[k] == zones[k];
    }
    forall i | 0 <= i < |p| && LocalAlias(namespace, p[i].alias).Some?
      ensures Lookup(desired, LocalAlias(namespace, p[i].alias).value) == Some(p[i].name)
    {
      assert p[i] == zones[i];
    }
  }

  /** Over settled zones the scan meets every owned zone once, under a desired alias and with
      its desired name, so it deletes nothing, renames nothing and issues no request. */
  lemma {:induction false} SettledScan(namespace: string, network: int, desired: seq<Wanted>, zones: seq<Zone>)
    requires Settled(namespace, desired, zones)
    ensures var st := Scan(namespace, network, desired, zones);
            st.requests == [] && st.report.deleted == [] && st.report.fixed == []
    decreases |zones|
  {
    if zones != [] {
      var n := |zones| - 1;
      var init, z := zones[..n], zones[n];
      SettledPrefix(namespace, desired, zones, n);
      SettledScan(namespace, network, desired, init);
      ScanSeen(namespace, network, desired, init);
      match LocalAlias(namespace, z.alias)
      case None =>
      case Some(a) =>
        forall i | 0 <= i < |init| ensures LocalAlias(namespace, init[i].alias) != Some(a) {
          assert init[i] == zones[i];
        }
        assert a !in LocalsOf(namespace, init);
        assert Lookup(desired, a) == Some(z.name);
    }
  }

  /** A converged store is a fixed point: a pass over it creates, deletes and renames nothing,
      and issues no request beyond the listing. */
  lemma ConvergedIsFixpoint(namespace: string, network: int, desired: seq<Wanted>, zones: seq<Zone>)
    requires Converged(namespace, desired, zones)
    ensures var out := Plan(namespace, network, desired, zones);
            && out.requests == []
            && out.report.created == [] && out.report.deleted == [] && out.report.fixed == []
  {
    var st := Scan(namespace, network, desired, zones);
    SettledScan(namespace, network, desired, zones);
    ScanSeen(namespace, network, desired, zones);
    CreationsNone(namespace, network, st.have, desired);
  }

  /** The local aliases of the zones the namespace owns, in listing order. */
  function OwnedLocals(namespace: string, zones: seq<Zone>): seq<string>
    decreases |zones|
  {
    if zones == [] then []
    else
      var z := zones[|zones| - 1];
      OwnedLocals(namespace, zones[..|zones| - 1]) + match LocalAlias(namespace, z.alias)
        case None => []
        case Some(a) => [a]
  }

  /** The ids of the zones the namespace owns, in listing order. */
  function OwnedIds(namespace: string, zones: seq<Zone>): seq<int>
    decreases |zones|
  {
    if zones == [] then []
    else
      var z := zones[|zones| - 1];
      OwnedIds(namespace, zones[..|zones| - 1]) + if LocalAlias(namespace, z.alias).Some? then [z.id] else []
  }

  predicate Distinct<T(==)>(s: seq<T>) {
    forall i, j :: 0 <= i < j < |s| ==> s[i] != s[j]
  }

  /** A sequence without repetitions has as many elements as its set. */
  lemma {:induction false} DistinctCard<T>(s: seq<T>)
    requires Distinct(s)
    ensures |set x | x in s| == |s|
    decreases |s|
  {
    if s != [] {
      var init, last := s[..|s| - 1], s[|s| - 1];
      assert Distinct(init) by {
        forall i, j | 0 <= i < j < |init| ensures init[i] != init[j] {
          assert init[i] == s[i] && init[j] == s[j];
        }
      }
      DistinctCard(init);
      assert (set x | x in s) == (set x | x in init) + {last} by {
        assert s == init + [last];
      }
      assert last !in (set x | x in init) by {
        forall i | 0 <= i < |init| ensures init[i] != last {
          assert init[i] == s[i];
        }
      }
    }
  }

  /** One owned id per owned local alias, and the local aliases are those of `LocalsOf`. */
  lemma {:induction false} OwnedShape(namespace: string, zones: seq<Zone>)
    ensures |OwnedIds(namespace, zones)| == |OwnedLocals(namespace, zones)|
    ensures (set a | a in OwnedLocals(namespace, zones)) == LocalsOf(namespace, zones)
    decreases |zones|
  {
    if zones != [] {
      var init := zones[..|zones| - 1];
      OwnedShape(namespace, init);
    }
  }

  /** On settled zones no owned local alias repeats. */
  lemma {:induction false} SettledOwnedDistinct(namespace: string, desired: seq<Wanted>, zones: seq<Zone>)
    requires Settled(namespace, desired, zones)
    ensures Distinct(OwnedLocals(namespace, zones))
    decreases |zones|
  {
    if zones != [] {
      var n := |zones| - 1;
      var init, z := zones[..n], zones[n];
      SettledPrefix(namespace, desired, zones, n);
      SettledOwnedDistinct(namespace, desired, init);
      OwnedShape(namespace, init);
      var o := OwnedLocals(namespace, init);
      match LocalAlias(namespace, z.alias)
      case None =>
      case Some(a) =>
        assert a !in LocalsOf(namespace, init) by {
          forall i | 0 <= i < |init| ensures LocalAlias(namespace, init[i].alias) != Some(a) {
            assert init[i] == zones[i];
          }
        }
        assert a !in o by {
          assert a !in set b | b in o;
        }
        var r := o + [a];
        forall i, j | 0 <= i < j < |r| ensures r[i] != r[j] {
          if j == |o| {
            assert r[i] in o;
          } else {
            assert r[i] == o[i] && r[j] == o[j];
          }
        }
    }
  }

  /** Over settled zones the scan records every owned zone as unchanged, in listing order. */
  lemma {:induction false} SettledUnchanged(namespace: string, network: int, desired: seq<Wanted>, zones: seq<Zone>)
    requires Settled(namespace, desired, zones)
    ensures Scan(namespace, network, desired, zones).report.unchangedIds == OwnedIds(namespace, zones)
    decreases |zones|
  {
    if zones != [] {
      var n := |zones| - 1;
      var init, z := zones[..n], zones[n];
      SettledPrefix(namespace, desired, zones, n);
      SettledUnchanged(namespace, network, desired, init);
      ScanSeen(namespace, network, desired, init);
      match LocalAlias(namespace, z.alias)
      case None =>
      case Some(a) =>
        assert a !in LocalsOf(namespace, init) by {
          forall i | 0 <= i < |init| ensures LocalAlias(namespace, init[i].alias) != Some(a) {
            assert init[i] == zones[i];
          }
        }
        assert Lookup(desired, a) == Some(z.name);
    }
  }

  /** Settled zones own one zone per local alias they hold. */
  lemma OwnedCount(namespace: string, desired: seq<Wanted>, zones: seq<Zone>)
    requires Settled(namespace, desired, zones)
    ensures |OwnedIds(namespace, zones)| == |LocalsOf(namespace, zones)|
  {
    SettledOwnedDistinct(namespace, desired, zones);
    OwnedShape(namespace, zones);
    DistinctCard(OwnedLocals(namespace, zones));
  }

  /** A mapping with distinct aliases has as many keys as entries. */
  lemma KeysCount(desired: seq<Wanted>)
    requires DistinctAliases(desired)
    ensures |set w | w in desired :: w.alias| == |desired|
  {
    var keys := seq(|desired|, k requires 0 <= k < |desired| => desired[k].alias);
    DistinctCard(keys);
    forall x | x in keys ensures x in set w | w in desired :: w.alias {
      var k :| 0 <= k < |keys| && keys[k] == x;
      assert desired[k] in desired;
    }
    forall x | x in set w | w in desired :: w.alias ensures x in keys {
      var w :| w in desired && w.alias == x;
      var k :| 0 <= k < |desired| && desired[k] == w;
      assert keys[k] == x;
    }
    assert (set x | x in keys) == set w | w in desired :: w.alias;
  }

  /** On a converged store a pass records every zone the namespace owns as unchanged, in
      listing order: one id per desired alias. */
  lemma ConvergedUnchanged(namespace: string, network: int, desired: seq<Wanted>, zones: seq<Zone>)
    requires Converged(namespace, desired, zones) && DistinctAliases(desired)
    ensures var out := Plan(namespace, network, desired, zones);
            && out.report.unchangedIds == OwnedIds(namespace, zones)
            && |out.report.unchangedIds| == |desired|
  {
    SettledUnchanged(namespace, network, desired, zones);
    OwnedCount(namespace, desired, zones);
    ConvergedLocals(namespace, desired, zones);
    KeysCount(desired);
  }

  /** Running the pass a second time issues no request, reports nothing created, deleted or
      renamed, and reports as unchanged every zone the namespace owns: one per desired alias. */
  lemma SecondPassIsNoOp(namespace: string, network: int, desired: seq<Wanted>, s: Service)
    requires UniqueIds(s.zones) && DistinctAliases(desired)
    ensures var after := ApplyAll(s, Plan(namespace, network, desired, s.zones).requests);
            var again := Plan(namespace, network, desired, after.zones);
            && again.requests == []
            && again.report.created == [] && again.report.deleted == [] && again.report.fixed == []
            && again.report.unchangedIds == OwnedIds(namespace, after.zones)
            && |again.report.unchangedIds| == |desired|
  {
    SyncConverges(namespace, network, desired, s);
    var after := ApplyAll(s, Plan(namespace, network, desired, s.zones).requests);
    ConvergedIsFixpoint(namespace, network, desired, after.zones);
    ConvergedUnchanged(namespace, network, desired, after.zones);
  }

  /** Once converged, the namespace's local aliases are exactly the desired ones. */
  lemma ConvergedLocals(namespace: string, desired: seq<Wanted>, zones: seq<Zone>)
    requires Converged(namespace, desired, zones)
    ensures LocalsOf(namespace, zones) == set w | w in desired :: w.alias
  {
    forall a | a in LocalsOf(namespace, zones) ensures a in set w | w in desired :: w.alias {
      var i :| 0 <= i < |zones| && LocalAlias(namespace, zones[i].alias) == Some(a);
      assert Lookup(desired, a).Some?;
      var k :| 0 <= k < |desired| && desired[k].alias == a;
      assert desired[k] in desired;
    }
    forall a | a in set w | w in desired :: w.alias ensures a in LocalsOf(namespace, zones) {
      var w :| w in desired && w.alias == a;
      var k :| 0 <= k < |desired| && desired[k] == w;
    }
  }
}
