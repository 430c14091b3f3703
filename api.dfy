/** The client side of the Broadstreet API wrapper (`APIConnection` and `APIv0` in
    broadstreetads.py): URL construction, the classification of an HTTP response into a
    result or one of the two error kinds, and the form fields that `create_zone` and
    `update_zone` send. The HTTP transport itself is not part of this model. */
module Api {
  import opened Wrappers
  import opened Strings

  const DefaultHost: string := "api.broadstreetads.com"

  /** An API connection: the credential and host given at construction, and the API version
      of its class (`API_VERSION` is None on `APIConnection` and 0 on `APIv0`). */
  datatype Connection = Connection(accessToken: string, host: string, version: Option<int>)

  /** `APIConnection(access_token, host='api.broadstreetads.com')`. */
  function APIConnection(accessToken: string, host: string := DefaultHost): Connection {
    Connection(accessToken, host, None)
  }

  /** `APIv0(access_token, host='api.broadstreetads.com')`: the same, with `API_VERSION = 0`. */
  function APIv0(accessToken: string, host: string := DefaultHost): Connection {
    Connection(accessToken, host, Some(0))
  }

  /** How `str.format` renders `API_VERSION`. */
  function VersionText(version: Option<int>): string {
    match version
    case None => "None"
    case Some(n) => DecimalInt(n)
  }

  /** Everything of a request URL in front of the path. */
  function UrlBase(c: Connection): string {
    "https://" + c.host + "/api/" + VersionText(c.version)
  }

  /** `_url`: None stands for the failed `assert path.startswith('/')`; otherwise the URL
      is the connection's base followed by the path, and the credential is not part of it. */
  function Url(c: Connection, path: string): (r: Option<string>)
    ensures r.Some? <==> StartsWith(path, "/")
    ensures r.Some? ==> StartsWith(r.value, "https://" + c.host + "/api/")
    ensures r.Some? ==> StartsWith(r.value, UrlBase(c)) && r.value[|UrlBase(c)|..] == path
  {
    if StartsWith(path, "/") then Some(UrlBase(c) + path) else None
  }

  /** Without a host argument both classes talk to the public host; the base class renders
      its version as `None`, version 0 as `0`. */
  lemma DefaultConnections(token: string)
    ensures APIConnection(token).host == DefaultHost && APIv0(token).host == DefaultHost
    ensures UrlBase(APIConnection(token)) == "https://" + DefaultHost + "/api/None"
    ensures UrlBase(APIv0(token)) == "https://" + DefaultHost + "/api/0"
  {
    assert DecimalInt(0) == "0" by {
      assert DecimalNat(0) == [DigitChar(0)];
    }
    assert VersionText(None) == "None";
  }

  /** Two paths accepted on the same connection never give the same URL. */
  lemma UrlInjective(c: Connection, p1: string, p2: string)
    requires Url(c, p1).Some? && Url(c, p1) == Url(c, p2)
    ensures p1 == p2
  {
  }

  /** The access token is sent as a request field, never in the URL. */
  lemma UrlIgnoresToken(c: Connection, token: string, path: string)
    ensures Url(c.(accessToken := token), path) == Url(c, path)
  {
  }

  /** `'/networks/{network}/zones'`, the path of `get_zones` and `create_zone`. */
  function ZonesPath(network: int): string {
    "/networks/" + DecimalInt(network) + "/zones"
  }

  /** `'/networks/{network}/zones/{zone}'`, the path of `delete_zone` and `update_zone`. */
  function ZonePath(network: int, zone: int): string {
    ZonesPath(network) + "/" + DecimalInt(zone)
  }

  /** Every path `APIv0` builds passes the assertion in `_url`. */
  lemma ApiPathsAccepted(c: Connection, network: int, zone: int)
    ensures Url(c, ZonesPath(network)).Some?
    ensures Url(c, ZonePath(network, zone)).Some?
  {
    assert ZonesPath(network)[..1] == "/";
    assert ZonePath(network, zone)[..1] == "/";
  }

  // ----- responses and errors -----

  /** The parts of a `requests` response the client looks at; `content` is the raw body,
      which `response.json()` would decode. */
  datatype Response = Response(statusCode: int, content: string)

  /** What `_get_result` returns: the response itself when `raw`, None for 204, or the
      decoded body. */
  datatype Reply = RawResponse(response: Response) | NoContent | Decoded(content: string)

  /** `APIError` and its subclass `APIServerError`; both keep the response and its status. */
  datatype ApiError = APIError(response: Response) | APIServerError(response: Response) {

    function StatusCode(): int {
      response.statusCode
    }

    /** `isinstance(e, APIServerError)`; every value is an `APIError` by subclassing. */
    predicate IsServerError() {
      APIServerError?
    }
  }

  predicate IsSuccessStatus(status: int) {
    200 <= status < 300
  }

  predicate IsServerErrorStatus(status: int) {
    500 <= status < 600
  }

  /** `_get_result`: a raw request gets the response untouched; otherwise a 5xx status raises
      the server error, 204 gives None, another 2xx gives the decoded body, and every other
      status raises the generic error. Errors carry the response they came from. */
  function GetResult(response: Response, raw: bool): (r: Result<Reply, ApiError>)
    ensures raw ==> r == Success(RawResponse(response))
    ensures !raw ==> (r.Failure? <==> !IsSuccessStatus(response.statusCode))
    ensures !raw ==> (r.Failure? && r.error.IsServerError() <==> IsServerErrorStatus(response.statusCode))
    ensures r.Failure? ==> r.error.response == response && r.error.StatusCode() == response.statusCode
    ensures !raw ==> (r == Success(NoContent) <==> response.statusCode == 204)
    ensures !raw ==> (r == Success(Decoded(response.content)) <==>
                      IsSuccessStatus(response.statusCode) && response.statusCode != 204)
  {
    if raw then Success(RawResponse(response))
    else if response.statusCode >= 500 && response.statusCode < 600 then Failure(APIServerError(response))
    else if response.statusCode == 204 then Success(NoContent)
    else if response.statusCode >= 200 && response.statusCode < 300 then Success(Decoded(response.content))
    else Failure(APIError(response))
  }

  /** A gateway timeout (504) raises the server error kind, whichever verb was used. */
  lemma GatewayTimeoutIsServerError(content: string)
    ensures var r := GetResult(Response(504, content), false);
            r.Failure? && r.error.IsServerError() && r.error.StatusCode() == 504
  {
  }

  /** 503 raises the server error kind and 404 the generic kind, each with its status kept. */
  lemma ErrorKindsKeepStatus(content: string)
    ensures var r := GetResult(Response(503, content), false);
            r.Failure? && r.error.IsServerError() && r.error.StatusCode() == 503
    ensures var r := GetResult(Response(404, content), false);
            r.Failure? && !r.error.IsServerError() && r.error.StatusCode() == 404
  {
  }

  // ----- request payloads -----

  /** The value of `key` in a list of form fields, as a dict lookup would find it. */
  function Get<V>(fields: seq<(string, V)>, key: string): (r: Option<V>)
    ensures r.Some? <==> exists i :: 0 <= i < |fields| && fields[i].0 == key
    ensures r.Some? ==> (key, r.value) in fields
    decreases |fields|
  {
    if fields == [] then None
    else if fields[0].0 == key then Some(fields[0].1)
    else
      var r := Get(fields[1..], key);
      assert forall i :: 1 <= i < |fields| ==> fields[i] == fields[1..][i - 1];
      r
  }

  /** No key appears twice, as in a Python dict. */
  predicate DistinctKeys<V>(fields: seq<(string, V)>) {
    forall i, j :: 0 <= i < j < |fields| ==> fields[i].0 != fields[j].0
  }

  /** `create_zone`'s form fields: `name` always, first; `alias` exactly when one is given. */
  function CreateZonePayload(name: string, alias: Option<string>): (data: seq<(string, string)>)
    ensures DistinctKeys(data)
    ensures |data| >= 1 && data[0] == ("name", name)
    ensures forall k, v :: (k, v) in data <==> (k == "name" && v == name) || (k == "alias" && alias == Some(v))
  {
    var data := [("name", name)];
    if alias.Some? then data + [("alias", alias.value)] else data
  }

  /** Looking the fields up again gives back exactly what `create_zone` was called with. */
  lemma CreatePayloadRoundTrip(name: string, alias: Option<string>)
    ensures Get(CreateZonePayload(name, alias), "name") == Some(name)
    ensures Get(CreateZonePayload(name, alias), "alias") == alias
  {
    var data := CreateZonePayload(name, alias);
    if alias.Some? {
      assert data[1] == ("alias", alias.value);
    } else {
      assert |data| == 1;
    }
  }

  /** The fields without those under `key`, in the same order. */
  function Without<V>(fields: seq<(string, V)>, key: string): (r: seq<(string, V)>)
    ensures forall p :: p in r ==> p in fields && p.0 != key
    ensures forall k :: Get(r, k) == if k == key then None else Get(fields, k)
    ensures Get(fields, key).None? ==> r == fields
    decreases |fields|
  {
    if fields == [] then []
    else
      var rest := Without(fields[1..], key);
      assert forall i :: 1 <= i < |fields| ==> fields[i] == fields[1..][i - 1];
      if fields[0].0 == key then rest else [fields[0]] + rest
  }

  /** The fields after the first have distinct keys, none of them the first key. */
  lemma TailDistinct<V>(fields: seq<(string, V)>)
    requires fields != [] && DistinctKeys(fields)
    ensures DistinctKeys(fields[1..])
    ensures forall p :: p in fields[1..] ==> p.0 != fields[0].0
  {
    var tail := fields[1..];
    forall i, j | 0 <= i < j < |tail| ensures tail[i].0 != tail[j].0 {
      assert tail[i] == fields[i + 1] && tail[j] == fields[j + 1];
    }
    forall p | p in tail ensures p.0 != fields[0].0 {
      var m :| 0 <= m < |tail| && tail[m] == p;
      assert tail[m] == fields[m + 1];
    }
  }

  /** A field whose key the others do not use can go in front of them. */
  lemma ConsDistinct<V>(x: (string, V), rest: seq<(string, V)>)
    requires DistinctKeys(rest) && forall p :: p in rest ==> p.0 != x.0
    ensures DistinctKeys([x] + rest)
  {
    var r := [x] + rest;
    forall i, j | 0 <= i < j < |r| ensures r[i].0 != r[j].0 {
      if i == 0 {
        assert r[j] == rest[j - 1];
      } else {
        assert r[i] == rest[i - 1] && r[j] == rest[j - 1];
      }
    }
  }

  /** Dropping a key keeps the other keys distinct. */
  lemma {:induction false} WithoutDistinct<V>(fields: seq<(string, V)>, key: string)
    ensures DistinctKeys(fields) ==> DistinctKeys(Without(fields, key))
    decreases |fields|
  {
    if fields != [] && DistinctKeys(fields) {
      TailDistinct(fields);
      WithoutDistinct(fields[1..], key);
      if fields[0].0 != key {
        ConsDistinct(fields[0], Without(fields[1..], key));
      }
    }
  }

  /** What a request sends besides the URL: `{'access_token': token}` updated with `data`.
      `get` and `delete` send it with no data as query parameters; `post` and `patch` send it
      as the form. The token comes first, and a field of `data` under the same key wins. */
  function SentFields<V>(token: V, data: seq<(string, V)>): (d: seq<(string, V)>)
    ensures |d| >= 1 && d[0].0 == "access_token"
    ensures Get(d, "access_token") == Some(Get(data, "access_token").GetOr(token))
    ensures forall k :: k != "access_token" ==> Get(d, k) == Get(data, k)
    ensures Get(data, "access_token").None? ==> d == [("access_token", token)] + data
    ensures DistinctKeys(data) ==> DistinctKeys(d)
  {
    WithoutDistinct(data, "access_token");
    [("access_token", Get(data, "access_token").GetOr(token))] + Without(data, "access_token")
  }

  /** `get` and `delete` send the connection's token and nothing else. */
  lemma QueryCarriesToken(c: Connection)
    ensures SentFields(c.accessToken, []) == [("access_token", c.accessToken)]
  {
  }

  /** `create_zone` posts the token followed by its own fields, and each reads back. */
  lemma CreateFieldsCarryToken(c: Connection, name: string, alias: Option<string>)
    ensures var d := SentFields(c.accessToken, CreateZonePayload(name, alias));
            && d == [("access_token", c.accessToken)] + CreateZonePayload(name, alias)
            && Get(d, "access_token") == Some(c.accessToken)
            && Get(d, "name") == Some(name) && Get(d, "alias") == alias
  {
    var data := CreateZonePayload(name, alias);
    CreatePayloadRoundTrip(name, alias);
    assert Get(data, "access_token").None?;
  }

  /** A form value `update_zone` may send: Python's None or a string. */
  datatype Value = Null | Str(chars: string)

  /** The fields of `update_zone`: `name` and `alias` are `Some` when the caller supplied
      them (possibly as None or ''), `None` when left at the `_missing` sentinel. */
  function UpdateZoneParams(name: Option<Value>, alias: Option<Value>): (params: Option<seq<(string, Value)>>)
    ensures params.None? <==> name.None? && alias.None?
    ensures params.Some? ==> DistinctKeys(params.value)
    ensures params.Some? ==> forall k, v :: (k, v) in params.value <==>
                                (k == "name" && name == Some(v)) || (k == "alias" && alias == Some(v))
    ensures params.Some? && name.Some? ==> params.value[0] == ("name", name.value)
  {
    var supplied := (if name.Some? then [("name", name.value)] else [])
                  + (if alias.Some? then [("alias", alias.value)] else []);
    if supplied == [] then None else Some(supplied)
  }

  /** Reading the sent fields back gives exactly the supplied arguments, `None` for the
      omitted ones: a supplied None or '' is sent, an omitted field is not. */
  lemma UpdateParamsRoundTrip(name: Option<Value>, alias: Option<Value>)
    requires name.Some? || alias.Some?
    ensures Get(UpdateZoneParams(name, alias).value, "name") == name
    ensures Get(UpdateZoneParams(name, alias).value, "alias") == alias
  {
    var p := UpdateZoneParams(name, alias).value;
    if name.Some? && alias.Some? {
      assert p == [("name", name.value), ("alias", alias.value)];
    } else if name.Some? {
      assert p == [("name", name.value)];
    } else {
      assert p == [("alias", alias.value)];
    }
  }

  /** `update_zone` patches with the token followed by the supplied fields, and each reads
      back as supplied. */
  lemma UpdateFieldsCarryToken(c: Connection, name: Option<Value>, alias: Option<Value>)
    requires name.Some? || alias.Some?
    ensures var p := UpdateZoneParams(name, alias).value;
            var d := SentFields(Str(c.accessToken), p);
            && d == [("access_token", Str(c.accessToken))] + p
            && Get(d, "name") == name && Get(d, "alias") == alias
  {
    var p := UpdateZoneParams(name, alias).value;
    UpdateParamsRoundTrip(name, alias);
    assert Get(p, "access_token").None?;
  }

  /** The one update the reconciler issues: a new name and nothing else. */
  lemma RenameParams(name: string)
    ensures UpdateZoneParams(Some(Str(name)), None) == Some([("name", Str(name))])
  {
    var only: seq<(string, Value)> := [("name", Str(name))];
    assert only + [] == only;
  }
}
