/** `NetworkLibrary.swift`: how `apiRequest` assembles a request, how its
    completion handler classifies a response, `encodeJSON`'s removal of
    `nil` values and `Dictionary.getQueryString`.

    The platform's parts are parameters: `parseUrl` stands for
    `URLComponents(string:)`, `buildsUrl` for whether `components.url`
    yields a URL, `serialize` for `JSONSerialization.data`, `percentEncode`
    for `addingPercentEncoding(withAllowedCharacters:)`, and a resource's
    `parse` closure is a function. The transport itself is left out: a
    dispatched task is the request it would send, and its completion is
    described by `Complete` over the data, response and error it receives. */
module Network {
  import opened Wrappers
  import StringHelpers

  type Byte = b: int | 0 <= b < 256

  type Data = seq<Byte>

  // ------------------------------------------------------------------ types

  datatype RestMethod = GET | POST | DELETE

  /** `RESTMethod.rawValue`. */
  function RawValue(m: RestMethod): string
  {
    match m
    case GET => "GET"
    case POST => "POST"
    case DELETE => "DELETE"
  }

  /** The method can be read back from the request's `httpMethod`. */
  lemma RawValueInjective(m: RestMethod, n: RestMethod)
    ensures RawValue(m) == RawValue(n) ==> m == n
  {
    if m != n {
      assert RawValue(m)[0] != RawValue(n)[0];
    }
  }

  /** `URLQueryItem`. */
  datatype QueryItem = QueryItem(name: string, value: Option<string>)

  /** The parts of `URLComponents` the request helper touches; the rest of
      the URL (port, user, fragment) rides along unchanged in `other`. */
  datatype UrlComponents = UrlComponents(scheme: Option<string>, host: Option<string>, other: string,
                                         path: string, queryItems: Option<seq<QueryItem>>)

  /** `URLRequest`: the URL it was created for, its method, body and header fields. */
  datatype Request = Request(url: UrlComponents, httpMethod: string, httpBody: Option<Data>, headers: map<string, string>)

  /** `APIResource`; a parameter's value is given in its `"\(value)"` spelling. */
  datatype ApiResource<P> = ApiResource(path: string, restMethod: RestMethod, headers: map<string, string>,
                                        requestParameters: Option<map<string, Option<string>>>,
                                        requestBody: Option<Data>, parse: Option<Data> -> Option<P>)

  /** An `Error` delivered by the transport. */
  datatype Error = Error(domain: string, code: int)

  /** `Reason`. */
  datatype Reason = ParsingFailed | BadRequest | NoSuccessStatusCode | Other(error: Option<Error>)

  /** The `Any?` handed to `failure`: raw data or a parsed value. */
  datatype Payload<P> = RawData(data: Data) | Parsed(value: P)

  /** The one call the helper makes: `success(result)` or `failure(reason, payload)`. */
  datatype Callback<P> = Success(result: P) | Failure(reason: Reason, payload: Option<Payload<P>>)

  /** What `URLSession` hands the completion handler as its response. */
  datatype Response = HttpResponse(statusCode: int) | OtherResponse

  // ------------------------------------------------------- request assembly

  /** The names of a list of query items. */
  function Names(items: seq<QueryItem>): set<string>
  {
    if items == [] then {} else Names(items[..|items| - 1]) + {items[|items| - 1].name}
  }

  lemma NamesAppend(items: seq<QueryItem>, x: QueryItem)
    ensures Names(items + [x]) == Names(items) + {x.name}
  {
    assert (items + [x])[..|items|] == items;
  }

  /** The keys whose values are not `nil`. */
  function NonNilKeys<V>(params: map<string, Option<V>>): set<string>
  {
    set k | k in params && params[k].Some?
  }

  /** `items` holds one item per non-nil parameter among the keys `done`,
      named by its key and holding its value, with no name twice. */
  predicate ItemsOf(params: map<string, Option<string>>, items: seq<QueryItem>, done: set<string>)
  {
    && (forall i :: 0 <= i < |items| ==>
          items[i].name in done && items[i].name in params
          && items[i].value.Some? && items[i].value == params[items[i].name])
    && (forall i, j :: 0 <= i < j < |items| ==> items[i].name != items[j].name)
    && Names(items) == NonNilKeys(params) * done
  }

  /** One step of the loop: visiting a new key appends its item when its value is not `nil`. */
  lemma QueryItemsStep(params: map<string, Option<string>>, items: seq<QueryItem>, done: set<string>, key: string)
    requires ItemsOf(params, items, done) && key in params && key !in done
    ensures ItemsOf(params, if params[key].Some? then items + [QueryItem(key, params[key])] else items, done + {key})
  {
    if params[key].Some? {
      var item := QueryItem(key, params[key]);
      NamesAppend(items, item);
      assert forall i :: 0 <= i < |items| ==> items[i].name != key;
      var next := items + [item];
      assert forall i :: 0 <= i < |items| ==> next[i] == items[i];
    }
  }

  /** Lines 41-47 of `apiRequest`: one item per parameter whose value is
      not `nil`, named by its key, in the dictionary's own order. */
  method QueryItems(params: map<string, Option<string>>) returns (items: seq<QueryItem>)
    ensures forall i :: 0 <= i < |items| ==>
      items[i].name in params && items[i].value.Some? && items[i].value == params[items[i].name]
    ensures forall i, j :: 0 <= i < j < |items| ==> items[i].name != items[j].name
    ensures Names(items) == NonNilKeys(params)
  {
    items := [];
    var pending := params.Keys;
    while pending != {}
      invariant pending <= params.Keys
      invariant ItemsOf(params, items, params.Keys - pending)
      decreases pending
    {
      var key :| key in pending;
      QueryItemsStep(params, items, params.Keys - pending, key);
      if params[key].Some? {
        items := items + [QueryItem(key, params[key])];
      }
      assert params.Keys - (pending - {key}) == (params.Keys - pending) + {key};
      pending := pending - {key};
    }
    assert NonNilKeys(params) * params.Keys == NonNilKeys(params);
  }

  /** Lines 60-62: `setValue` for every header of the resource, each
      replacing what was there. */
  method SetHeaders(request: Request, headers: map<string, string>) returns (r: Request)
    ensures r == request.(headers := request.headers + headers)
    ensures forall k :: k in headers ==> k in r.headers && r.headers[k] == headers[k]
  {
    r := request;
    var pending := headers.Keys;
    while pending != {}
      invariant pending <= headers.Keys
      invariant r == request.(headers := request.headers + (headers - pending))
      decreases pending
    {
      var key :| key in pending;
      r := r.(headers := r.headers[key := headers[key]]);
      pending := pending - {key};
      assert r.headers == request.headers + (headers - pending);
    }
  }

  /** The request before the caller's hook runs (lines 52-55). */
  function InitialRequest<P>(url: UrlComponents, resource: ApiResource<P>): Request
  {
    Request(url, RawValue(resource.restMethod), resource.requestBody, map["Content-Type" := "application/json"])
  }

  /** `modifyRequest?(&request)`. */
  function Hook(modifyRequest: Option<Request -> Request>, request: Request): Request
  {
    match modifyRequest
    case Some(f) => f(request)
    case None => request
  }

  /** `apiRequest` up to dispatch. It returns the task (the request it
      sends) or the synchronous `failure(badRequest, nil)`, never both;
      `components` is the assembled `URLComponents` (ghost: for the
      contract only). */
  method ApiRequest<P>(modifyRequest: Option<Request -> Request>, baseURLString: string, resource: ApiResource<P>,
                       parseUrl: string -> Option<UrlComponents>, buildsUrl: UrlComponents -> bool)
    returns (task: Option<Request>, immediate: Option<Callback<P>>, ghost components: Option<UrlComponents>)
    ensures task.None? <==> immediate.Some?
    ensures immediate.Some? ==> immediate.value.Failure? && immediate.value.reason == BadRequest && immediate.value.payload.None?
    ensures components.None? <==> parseUrl(baseURLString).None?
    ensures components.Some? ==>
      var base, c := parseUrl(baseURLString).value, components.value;
      && c.scheme == base.scheme && c.host == base.host && c.other == base.other
      && c.path == resource.path
      && (resource.requestParameters.None? ==> c.queryItems == base.queryItems)
      && (resource.requestParameters.Some? ==>
            var params := resource.requestParameters.value;
            && c.queryItems.Some?
            && Names(c.queryItems.value) == NonNilKeys(params)
            && (forall i, j :: 0 <= i < j < |c.queryItems.value| ==> c.queryItems.value[i].name != c.queryItems.value[j].name)
            && (forall i :: 0 <= i < |c.queryItems.value| ==>
                  var item := c.queryItems.value[i];
                  item.name in params && item.value.Some? && item.value == params[item.name]))
    ensures task.Some? <==> components.Some? && buildsUrl(components.value)
    ensures task.Some? ==>
      var hooked := Hook(modifyRequest, InitialRequest(components.value, resource));
      task.value == hooked.(headers := hooked.headers + resource.headers)
    ensures task.Some? ==> forall k :: k in resource.headers ==> k in task.value.headers && task.value.headers[k] == resource.headers[k]
    ensures task.Some? && modifyRequest.None? ==>
      && task.value.url.path == resource.path
      && task.value.httpMethod == RawValue(resource.restMethod)
      && task.value.httpBody == resource.requestBody
      && ("Content-Type" !in resource.headers ==> task.value.headers["Content-Type"] == "application/json")
  {
    var component := parseUrl(baseURLString);
    components := None;
    if component.Some? {
      var c := component.value.(path := resource.path);
      if resource.requestParameters.Some? {
        var items := QueryItems(resource.requestParameters.value);
        c := c.(queryItems := Some(items));
      }
      components := Some(c);
      if buildsUrl(c) {
        var request := InitialRequest(c, resource);
        request := Hook(modifyRequest, request);
        request := SetHeaders(request, resource.headers);
        return Some(request), None, components;
      }
    }
    return None, Some(Failure(BadRequest, None)), components;
  }

  // ---------------------------------------------------- completion handler

  /** The data as `Any?`: `nil` stays `nil`. */
  function RawPayload<P>(data: Option<Data>): Option<Payload<P>>
  {
    match data
    case Some(d) => Some(RawData(d))
    case None => None
  }

  function ParsedPayload<P>(value: Option<P>): Option<Payload<P>>
  {
    match value
    case Some(v) => Some(Parsed(v))
    case None => None
  }

  /** Lines 82-97: the callback a completed task makes. Status 200 with a
      parsable body succeeds; status 200 without one fails with
      `parsingFailed` and the raw data; any other status fails with
      `noSuccessStatusCode` and the parse of the data; a response that is
      not an HTTP response, or none at all, fails with `other(error)` and
      the raw data. `badRequest` never comes from a completion. */
  function Complete<P>(parse: Option<Data> -> Option<P>, data: Option<Data>, response: Option<Response>, error: Option<Error>)
    : (cb: Callback<P>)
    ensures cb.Success? <==> response == Some(HttpResponse(200)) && parse(data).Some?
    ensures cb.Success? ==> cb.result == parse(data).value
    ensures cb.Failure? ==> cb.reason != BadRequest
    ensures cb.Failure? && cb.reason == ParsingFailed <==> response == Some(HttpResponse(200)) && parse(data).None?
    ensures cb.Failure? && cb.reason == NoSuccessStatusCode <==>
      response.Some? && response.value.HttpResponse? && response.value.statusCode != 200
    ensures cb.Failure? && cb.reason.Other? <==> response.None? || response.value.OtherResponse?
    ensures cb.Failure? && cb.reason.Other? ==> cb.reason.error == error
    ensures cb.Failure? && cb.reason != NoSuccessStatusCode ==> cb.payload == RawPayload(data)
    ensures cb.Failure? && cb.reason == NoSuccessStatusCode ==> cb.payload == ParsedPayload(parse(data))
  {
    match response
    case Some(HttpResponse(status)) =>
      if status == 200 then
        match parse(data)
        case Some(result) => Success(result)
        case None => Failure(ParsingFailed, RawPayload(data))
      else
        Failure(NoSuccessStatusCode, ParsedPayload(parse(data)))
    case _ => Failure(Other(error), RawPayload(data))
  }

  /** The transport's error matters only when there is no HTTP response. */
  lemma ErrorOnlyMattersWithoutHttpResponse<P>(parse: Option<Data> -> Option<P>, data: Option<Data>, status: int,
                                               e1: Option<Error>, e2: Option<Error>)
    ensures Complete(parse, data, Some(HttpResponse(status)), e1) == Complete(parse, data, Some(HttpResponse(status)), e2)
  {
  }

  // ------------------------------------------------------------- encodeJSON

  /** The dictionary without its `nil` entries, values unwrapped. */
  function WithoutNils<V>(dict: map<string, Option<V>>): (r: map<string, V>)
    ensures r.Keys == NonNilKeys(dict)
    ensures forall k :: k in r ==> dict[k] == Some(r[k])
  {
    map k | k in dict && dict[k].Some? :: dict[k].value
  }

  /** Lines 114-119: copy every non-`nil` entry, in the dictionary's order. */
  method StripNils<V>(dict: map<string, Option<V>>) returns (r: map<string, V>)
    ensures r == WithoutNils(dict)
  {
    r := map[];
    var pending := dict.Keys;
    while pending != {}
      invariant pending <= dict.Keys
      invariant r.Keys == NonNilKeys(dict) - pending
      invariant forall k :: k in r ==> dict[k] == Some(r[k])
      decreases pending
    {
      var key :| key in pending;
      if dict[key].Some? {
        r := r[key := dict[key].value];
      }
      pending := pending - {key};
    }
  }

  /** `encodeJSON`: `nil` when no entry has a value, otherwise the
      serialisation of the entries that have one. */
  method EncodeJson<V>(dict: map<string, Option<V>>, serialize: map<string, V> -> Option<Data>) returns (data: Option<Data>)
    ensures NonNilKeys(dict) == {} ==> data.None?
    ensures NonNilKeys(dict) != {} ==> data == serialize(WithoutNils(dict))
  {
    var dictWithoutOptionals := StripNils(dict);
    if |dictWithoutOptionals| > 0 {
      data := serialize(dictWithoutOptionals);
    } else {
      data := None;
    }
    assert |dictWithoutOptionals| > 0 <==> dictWithoutOptionals.Keys != {} by {
      if dictWithoutOptionals.Keys != {} {
        var k :| k in dictWithoutOptionals.Keys;
        assert k in dictWithoutOptionals.Keys;
      }
    }
  }

  // --------------------------------------------------------- getQueryString

  /** `order` lists every key exactly once. */
  ghost predicate IsEnumeration(order: seq<string>, keys: set<string>)
  {
    && (forall i :: 0 <= i < |order| ==> order[i] in keys)
    && (forall i, j :: 0 <= i < j < |order| ==> order[i] != order[j])
    && (forall k :: k in keys ==> k in order)
  }

  /** "key=value" for each key of `order`, one after the other. */
  function Pairs(order: seq<string>, dict: map<string, string>): string
    requires forall i :: 0 <= i < |order| ==> order[i] in dict
    decreases |order|
  {
    if order == [] then ""
    else
      var k := order[|order| - 1];
      Pairs(order[..|order| - 1], dict) + k + "=" + dict[k]
  }

  /** Lines 127-131: "?" and then each "key=value", in the dictionary's order. */
  method RawQueryString(dict: map<string, string>) returns (s: string, ghost order: seq<string>)
    ensures IsEnumeration(order, dict.Keys)
    ensures s == "?" + Pairs(order, dict)
  {
    s := "?";
    order := [];
    var pending := dict.Keys;
    while pending != {}
      invariant pending <= dict.Keys
      invariant forall i :: 0 <= i < |order| ==> order[i] in dict.Keys - pending
      invariant forall i, j :: 0 <= i < j < |order| ==> order[i] != order[j]
      invariant forall k :: k in dict.Keys - pending ==> k in order
      invariant s == "?" + Pairs(order, dict)
      decreases pending
    {
      var key :| key in pending;
      assert (order + [key])[..|order|] == order;
      s := s + key + "=" + dict[key];
      order := order + [key];
      pending := pending - {key};
    }
  }

  /** `getQueryString`: the raw query, percent-encoded, or "" when encoding fails. */
  method GetQueryString(dict: map<string, string>, percentEncode: string -> Option<string>)
    returns (s: string, ghost order: seq<string>)
    ensures IsEnumeration(order, dict.Keys)
    ensures s == percentEncode("?" + Pairs(order, dict)).GetOr("")
    ensures dict == map[] ==> s == percentEncode("?").GetOr("")
  {
    var outputString;
    outputString, order := RawQueryString(dict);
    s := percentEncode(outputString).GetOr("");
    if dict == map[] {
      assert order == [];
      assert outputString == "?" + "" == "?";
    }
  }

  /** Nothing separates the pairs: when no key or value holds '&', the
      query holds none, so "a=1" and "b=2" come out as "?a=1b=2". */
  lemma {:induction false} PairsHaveNoSeparator(order: seq<string>, dict: map<string, string>)
    requires forall i :: 0 <= i < |order| ==> order[i] in dict
    requires forall k :: k in dict ==> '&' !in k && '&' !in dict[k]
    ensures '&' !in Pairs(order, dict)
    decreases |order|
  {
    if order != [] {
      var k := order[|order| - 1];
      PairsHaveNoSeparator(order[..|order| - 1], dict);
    }
  }

  lemma TwoPairsRunTogether()
    ensures "?" + Pairs(["a", "b"], map["a" := "1", "b" := "2"]) == "?a=1b=2"
  {
    assert ["a", "b"][..1] == ["a"];
    assert ["a"][..0] == [];
  }

  /** The entries "key=value" in the order given. */
  function Entries(order: seq<string>, dict: map<string, string>): (es: seq<string>)
    requires forall i :: 0 <= i < |order| ==> order[i] in dict
    ensures |es| == |order|
    ensures forall i :: 0 <= i < |order| ==> es[i] == order[i] + "=" + dict[order[i]]
  {
    seq(|order|, i requires 0 <= i < |order| => order[i] + "=" + dict[order[i]])
  }

  /** The query string with '&' between pairs, as a URL query is written. */
  function SeparatedQueryString(order: seq<string>, dict: map<string, string>): (s: string)
    requires forall i :: 0 <= i < |order| ==> order[i] in dict
    ensures |s| >= 1 && s[0] == '?'
  {
    if order == [] then "?" else "?" + StringHelpers.Join(Entries(order, dict), '&')
  }

  /** No entry holds a separator that no key or value holds. */
  lemma EntriesAvoid(order: seq<string>, dict: map<string, string>, c: char)
    requires forall i :: 0 <= i < |order| ==> order[i] in dict
    requires c != '=' && forall k :: k in dict ==> c !in k && c !in dict[k]
    ensures forall i :: 0 <= i < |order| ==> c !in Entries(order, dict)[i]
  {
    forall i | 0 <= i < |order| ensures c !in Entries(order, dict)[i] {
      var k := order[i];
      assert Entries(order, dict)[i] == k + "=" + dict[k];
    }
  }

  /** An entry "key=value" splits on '=' into its key and value. */
  lemma EntryReadsBack(k: string, v: string)
    requires '=' !in k && '=' !in v
    ensures StringHelpers.Split(k + "=" + v, '=') == [k, v]
  {
    assert StringHelpers.Join([k, v], '=') == k + "=" + v by {
      assert [k, v][1..] == [v];
    }
    StringHelpers.SplitJoin([k, v], '=');
  }

  /** With separators the query reads back: splitting after the '?' on '&'
      gives the entries, and splitting an entry on '=' gives its key and value,
      as long as keys and values hold neither character. */
  lemma SeparatedQueryReadsBack(order: seq<string>, dict: map<string, string>)
    requires |order| >= 1 && forall i :: 0 <= i < |order| ==> order[i] in dict
    requires forall k :: k in dict ==> '&' !in k && '&' !in dict[k] && '=' !in k && '=' !in dict[k]
    ensures var s := SeparatedQueryString(order, dict);
      && StringHelpers.Split(s[1..], '&') == Entries(order, dict)
      && forall i :: 0 <= i < |order| ==>
           StringHelpers.Split(Entries(order, dict)[i], '=') == [order[i], dict[order[i]]]
  {
    var es := Entries(order, dict);
    EntriesAvoid(order, dict, '&');
    StringHelpers.SplitJoin(es, '&');
    forall i | 0 <= i < |order|
      ensures StringHelpers.Split(es[i], '=') == [order[i], dict[order[i]]]
    {
      EntryReadsBack(order[i], dict[order[i]]);
    }
  }
}
