# Broadstreet Ads zone reconciler, modelled in Dafny

`broadstreetads.py` is a thin client for the Broadstreet Ads HTTP API plus `sync_zones`, a
reconciler that makes the zones of one network that carry a namespace prefix in their alias
(`namespace + "." + local`) match a desired mapping from local alias to zone name. One pass lists the
network's zones. It ignores zones outside the namespace and deletes a zone whose local alias an
earlier zone already carried. The first holder of each local alias is deleted, renamed or left
alone, depending on the mapping. Last, it creates a zone for every desired alias no zone held.
It returns a report with the lists `created`, `unchanged`, `deleted`, `fixed` and `ignored`.

The model has these modules:

- `Wrappers`: `Option` and `Result`.
- `Strings`: `str.startswith`, `str.split(sep, 1)` and `str(int)`.
- `Api`: the pure parts of `APIConnection` and `APIv0`:
  - `_url`;
  - `_get_result`, with the `APIError`/`APIServerError` taxonomy as a datatype;
  - the form fields that `create_zone` and `update_zone` send, and the credential every request adds to them.
- `Zones`: zone records, the desired mapping, and namespace ownership of an alias.
- `Remote`: the requests the reconciler issues and their effect on a service that holds one network's
  zones. `FakeConnection` is an injectable class with that state and a log of every request issued.
- `SyncSpec`: the pass as a pure function `Plan` of the listed zones. It gives the report and the
  requests in the order they are issued.
- `SyncProofs`: what a pass guarantees. This covers:
  - classification and partition;
  - order of the report lists;
  - namespace isolation;
  - duplicates;
  - exact creations;
  - convergence of the service, and that a second pass is a no-op.
- `Sync`: `SyncZones`, the imperative pass over a `FakeConnection`. Its two loops are the
  methods `ScanListed` and `CreateMissing`. It is proved to issue exactly `Plan`'s requests,
  to return `Plan`'s report and to leave the service converged.

The desired mapping is a sequence of `(alias, name)` entries with distinct aliases. This gives
`created` the order of the dict's iteration. `deleted` holds whole zone records (:167, :174), as in the
code. `fixed`, `unchanged` and `ignored` hold ids, and `created` holds namespaced aliases.
An alias that is exactly `namespace + "."` is not rejected. The split at :163 gives an empty head
and an empty local alias, the assertion at :164 passes, and the zone is handled under the
local alias `""`. The model follows the code here, not a fail-fast reading of that case.

## Model

| member | source | states |
|---|---|---|
| Api.APIConnection | broadstreetads.py:27-35 | the base client keeps the token and the host, `api.broadstreetads.com` when none is given, and has no API version |
| Api.APIv0 | broadstreetads.py:95-97 | the version-0 client: the same construction with `API_VERSION` 0 |
| Api.DefaultConnections | broadstreetads.py:29-44 | without a host argument both clients use `api.broadstreetads.com`. The URL base is `https://api.broadstreetads.com/api/None` for the base class and `…/api/0` for `APIv0` |
| Api.VersionText | broadstreetads.py:42-44 | `API_VERSION` as `str.format` renders it: `None`, or the number's decimal digits |
| Api.Url | broadstreetads.py:37-44 | Some exactly when the path starts with '/'. The URL is `https://` + host + `/api/` + version, followed by the path unchanged |
| Api.UrlInjective | broadstreetads.py:37-44 | two accepted paths on one connection never give the same URL |
| Api.UrlIgnoresToken | broadstreetads.py:39-44 | the access token never changes the URL |
| Api.ZonesPath | broadstreetads.py:106-111 | `/networks/{network}/zones`, the path of `get_zones` and `create_zone` |
| Api.ZonePath | broadstreetads.py:119-133 | `/networks/{network}/zones/{zone}`, the path of `delete_zone` and `update_zone` |
| Api.ApiPathsAccepted | broadstreetads.py:105-121 | the zone paths `APIv0` builds always pass the leading-'/' assertion |
| Api.GetResult | broadstreetads.py:46-55 | raw gives the response untouched. Otherwise: failure iff the status is not 2xx; the server-error kind iff 5xx; None iff 204; the decoded body iff 2xx other than 204. Every error carries its response and status |
| Api.GatewayTimeoutIsServerError | broadstreetads.py:49-50 | a 504 raises the server-error kind with status 504 |
| Api.ErrorKindsKeepStatus | broadstreetads.py:14-25 | 503 is a server error, 404 a generic error, each keeping its status code |
| Api.Get | broadstreetads.py:112-114 | a dict lookup on form fields: Some iff some field has the key, and the pair found is one of the fields |
| Api.Without | broadstreetads.py:68-69 | the fields with the key dropped. Every other key looks up as before, the key looks up as nothing, and nothing changes when the key is absent |
| Api.WithoutDistinct | broadstreetads.py:68-69 | dropping a key keeps distinct keys distinct |
| Api.SentFields | broadstreetads.py:57-93 | what each verb sends next to the URL, `{'access_token': token}` updated with the data: the token key first, under the data's value if the data has that key and the token otherwise. Every other key reads as in the data, and the keys stay distinct |
| Api.QueryCarriesToken | broadstreetads.py:57-84 | `get` and `delete` send the token and nothing else as query parameters |
| Api.CreateFieldsCarryToken | broadstreetads.py:110-116 | `create_zone` posts the token followed by its own fields, and the token, name and alias each read back |
| Api.CreateZonePayload | broadstreetads.py:110-114 | `name` always comes first. `alias` is present iff an alias is given, with that value, and there is no other field or duplicate key |
| Api.CreatePayloadRoundTrip | broadstreetads.py:112-114 | reading the payload back gives the name and exactly the optional alias |
| Api.UpdateZoneParams | broadstreetads.py:125-130 | None iff neither field is supplied (the failed `assert params`). Otherwise the fields are exactly the supplied ones, None or '' included, with distinct keys |
| Api.UpdateParamsRoundTrip | broadstreetads.py:126-129 | reading the params back gives each supplied value, and nothing for an omitted one |
| Api.UpdateFieldsCarryToken | broadstreetads.py:125-135 | `update_zone` patches with the token followed by the supplied fields, each reading back as supplied |
| Api.RenameParams | broadstreetads.py:178-181 | a rename sends only `name` |
| Strings.StartsWith | broadstreetads.py:159 | `str.startswith`: the prefix is no longer than the string and equals its leading part |
| Strings.Find | broadstreetads.py:163 | the leftmost occurrence of the separator at or after a position, or None when there is none |
| Strings.SplitOnce | broadstreetads.py:163 | 1 or 2 parts. 1 part iff the separator does not occur; otherwise head + sep + tail is the input and the head holds no occurrence |
| Strings.SplitAtPrefix | broadstreetads.py:163-164 | when the alias starts with `namespace + '.'` the split gives an empty head and the rest, so the assertion never fires |
| Strings.DecimalNat | broadstreetads.py:106 | `str(n)`: at least one character, all decimal digits, more than one exactly when n ≥ 10, and no leading zero unless n is 0 |
| Strings.DecimalInt | broadstreetads.py:119-121 | `str(i)`: non-empty, starting with '-' exactly when i is negative |
| Strings.DecimalRoundTrip | broadstreetads.py:106 | the digits `str(n)` writes for a natural number read back as n |
| Strings.DecimalIntRoundTrip | broadstreetads.py:119-121 | for an int id, `str(i)` is the digits of its magnitude, after a '-' exactly when i is negative. They read back as the magnitude, with no leading zero unless i is 0 |
| Zones.InNamespace | broadstreetads.py:159 | `alias and alias.startswith(namespace + '.')`: the alias is present, non-empty and has the namespace prefix |
| Zones.LocalAlias | broadstreetads.py:158-163 | Some iff the alias is present, non-empty and starts with `namespace + '.'`. The alias is the prefix followed by the local alias |
| Zones.Lookup | broadstreetads.py:172 | Some iff the alias is a key of the mapping, and the result is that entry's name |
| Zones.LookupFindsEntry | broadstreetads.py:172 | with distinct keys, every entry is found under its own alias |
| Zones.LocalsOf | broadstreetads.py:156-171 | exactly the local aliases of the namespace's zones among those given |
| Remote.CreatedZoneRoundTrip | broadstreetads.py:110-116 | the zone a create payload makes has the requested name and alias |
| Remote.Patched | broadstreetads.py:125-135 | the fake service's patch: the id stays, a supplied string replaces the stored name or alias, a null alias removes the alias, and an omitted field keeps its stored value |
| Remote.Apply | broadstreetads.py:105-135 | the fake service's effect of one call: listing changes nothing, a create appends a zone with the next id, a delete drops the id, an update patches it |
| Remote.RemoveOne | broadstreetads.py:118-123 | deleting an id removes exactly the zone that carries it and keeps the others in order |
| Remote.UpdateOne | broadstreetads.py:125-135 | patching an id changes exactly the zone that carries it |
| Remote.FakeConnection.GetZones | broadstreetads.py:105-108 | returns the stored zones in listing order and logs the list request |
| Remote.FakeConnection.CreateZone | broadstreetads.py:110-116 | appends a zone with the next id, the name and the alias. Logs the create with its payload and keeps ids distinct |
| Remote.FakeConnection.DeleteZone | broadstreetads.py:118-123 | removes the zone with that id and logs the delete |
| Remote.FakeConnection.UpdateZone | broadstreetads.py:125-135 | fails without a request iff no field is supplied. Otherwise patches the zone with the fields and logs them |
| SyncSpec.Step | broadstreetads.py:158-184 | the first loop's body for one zone: ignore it outside the namespace; delete a repeated local alias; otherwise record it in `seen` and `have_zones`, then delete it, rename it or record it unchanged, by the desired mapping |
| SyncSpec.Scan | broadstreetads.py:157-184 | the first loop: `Step` over the listed zones in order, from empty lists |
| SyncSpec.Creations | broadstreetads.py:185-190 | the second loop: in mapping order, record and create `namespace + '.' + alias` for each desired alias not in `have_zones` |
| SyncSpec.Plan | broadstreetads.py:137-196 | the whole pass: the scan's lists with the second loop's `created`, and the scan's requests followed by the creates |
| SyncProofs.StepCases | broadstreetads.py:157-184 | one zone adds exactly one entry to one report list, with no request (ignored, unchanged), a delete (deleted) or a name-only update (fixed) |
| SyncProofs.ScanPartition | broadstreetads.py:157-184 | the four lists together have one entry per listed zone. The requests number the deleted plus the fixed zones |
| SyncProofs.ScanOrder | broadstreetads.py:165-184 | deletes target the zones of `deleted` and updates those of `fixed`, in the same order |
| SyncProofs.ScanIsolation | broadstreetads.py:158-162 | `ignored` is exactly the ids of the zones outside the namespace, in listing order. Every request targets a zone in the namespace, deleting it or setting its name only |
| SyncProofs.ScanSeen | broadstreetads.py:156-171 | `seen` and the keys of `have_zones` are the local aliases met so far |
| SyncProofs.ScanHolders | broadstreetads.py:170-171 | each `have_zones` entry is the first zone met with that local alias |
| SyncProofs.OutsideZoneIgnored | broadstreetads.py:158-162 | a zone outside the namespace only adds its id to `ignored`, with no request |
| SyncProofs.DuplicateDeleted | broadstreetads.py:165-169 | a later zone with an already-seen local alias is appended to `deleted` and gets a delete, and `have_zones` is unchanged |
| SyncProofs.FirstHolderKept | broadstreetads.py:170-171 | the first zone met with a local alias is that alias's entry in `have_zones` at the end of the scan |
| SyncProofs.FirstHolderStep | broadstreetads.py:172-184 | the first holder's step deletes it if the alias is not desired, renames it (name only) if the name differs, and records it as unchanged with no request if the name matches |
| SyncProofs.FirstHolderFate | broadstreetads.py:172-184 | over the whole pass the first holder is in `deleted` with a delete request, in `fixed` with a name-only update, or in `unchanged`, by the same three cases |
| SyncProofs.CreationsShape | broadstreetads.py:185-190 | the second loop records `namespace + '.' + alias` for each unclaimed desired entry in mapping order, with one create with that name and alias for each |
| SyncProofs.CreatedExactly | broadstreetads.py:185-190 | over a whole pass, `created` and the trailing creates match exactly the desired entries no namespaced zone held, in mapping order |
| SyncProofs.CreationsNone | broadstreetads.py:185-187 | when every desired alias is held, nothing is created |
| SyncProofs.ScanEffect | broadstreetads.py:157-184 | part-way through the scan, the service holds what the scan kept of the zones seen so far, then the zones not yet reached |
| SyncProofs.CreationsRequests | broadstreetads.py:185-190 | the requests of the second loop are exactly the creates for the desired entries left unclaimed, in mapping order |
| SyncProofs.CreatesEffect | broadstreetads.py:110-116 | a run of create requests appends one zone per entry in order, with consecutive new ids, the entry's name and its namespaced alias |
| SyncProofs.CreationsEffect | broadstreetads.py:185-190 | the creates append one zone per unclaimed desired entry, in mapping order, with consecutive new ids |
| SyncProofs.PassEffect | broadstreetads.py:137-196 | after a pass the service holds the kept zones in listing order, then the created ones |
| SyncProofs.KeptMadeConverged | broadstreetads.py:157-190 | the kept zones followed by the created ones are converged: distinct desired local aliases, desired names, every desired alias held |
| SyncProofs.KeptMadeOutside | broadstreetads.py:158-162 | among the kept and created zones, those outside the namespace are exactly the listed ones outside it |
| SyncProofs.SyncConverges | broadstreetads.py:137-196 | after a pass the namespace's local aliases are exactly the desired keys, each held once with the desired name. Out-of-namespace zones are all kept, and none is added |
| SyncProofs.SettledScan | broadstreetads.py:157-184 | over settled zones the scan deletes nothing, renames nothing and issues nothing |
| SyncProofs.ConvergedIsFixpoint | broadstreetads.py:137-196 | on a converged store a pass creates, deletes and renames nothing, and issues no request |
| SyncProofs.SettledUnchanged | broadstreetads.py:172-184 | over settled zones the scan's `unchanged` is exactly the ids of the namespace's zones, in listing order |
| SyncProofs.ConvergedUnchanged | broadstreetads.py:157-184 | on a converged store, `unchanged` is exactly the namespace's zone ids in listing order, one per desired alias |
| SyncProofs.SecondPassIsNoOp | broadstreetads.py:137-196 | a second pass right after a first issues no request and reports nothing created, deleted or fixed. Its `unchanged` is exactly the ids of the namespace's zones, one per desired alias |
| SyncProofs.ConvergedLocals | broadstreetads.py:138-144 | on a converged store the namespace's local aliases equal the desired keys |
| Sync.ScanListed | broadstreetads.py:157-184 | the first loop returns the scan's four lists and `have_zones`. The log gains exactly the scan's requests, and the service their effect |
| Sync.CreateMissing | broadstreetads.py:185-190 | the second loop returns the namespaced aliases it created. The log gains exactly the creates for the unclaimed entries, and the service their effect |
| Sync.PassOutcome | broadstreetads.py:137-196 | the two loops in sequence give `Plan`'s report, log and effect, and leave the service reconciled |
| Sync.SyncZones | broadstreetads.py:137-196 | the imperative pass returns `Plan`'s report. The connection's log gains the listing followed by `Plan`'s requests, in order. The service ends in their effect, which is converged, with the local aliases equal to the desired keys and out-of-namespace zones kept exactly |

## Left out

- The HTTP verbs `get`, `post`, `delete` and `patch` (:57-93) are calls into the `requests` library over TLS, and the calls themselves are not modelled. What the verbs compute around the call is modelled: the URL (`Url`), the fields sent next to it with the credential added (`SentFields`), and the result classification (`GetResult`).
- `response.json()` (:54) is not modelled: `Decoded` carries the raw content. The formatting of an error's message (:21) is cosmetic and left out.
- `get_networks` and the unwrapping of `resp['zones']` and `resp['zone']` (:101-108, :116) are trivial wrappers and are not modelled. `GetZones` returns the zone records directly.
- The `__main__` block (:198-216) makes live network calls with a placeholder token. tests.py and setup.py are not part of this model.
- Error propagation mid-pass is not modelled. The fake connection never fails, so an exception that would abort a pass after some requests is out of scope.
- Remote.FakeConnection: the fake serves one network. The network argument is only recorded in the log, not used to select a store.
- The requests the fake connection records do not carry the access token. The fake does not authenticate; `SentFields` states what the real client sends.
- Remote.Patched: the fake server's reaction to a `name` field sent as None is not specified by the client code; the model keeps the old name. The reconciler only sends string names.
- Subclassing is not modelled. The two constructors `APIConnection` and `APIv0`, each with the default host, stand for the two classes and their `API_VERSION`.
