/**
 * Client/ApiClient.cs: a request executor with its own `HttpClient`. The header keys
 * "OAuth" and "Bearer" go to the Authorization property with the key as scheme; every other
 * entry goes through `Add`. The body is taken from `content` only when it is a `StringContent`
 * or a `FormUrlEncodedContent`.
 */
module Api {
  import opened Wrappers
  import opened Headers
  import opened Models
  import opened Http

  /** `ListAuthHeaders`: the keys routed to the Authorization property. */
  const AuthHeaders: seq<string> := ["OAuth", "Bearer"]

  /** The runtime type of the `object content` argument, as far as `PerformRequest` looks at it. */
  datatype Content =
    | NullContent
    | StringArgument(s: StringContent)
    | FormArgument(f: FormUrlEncodedContent)
    | OtherObject

  /** One step of the `foreach` in `SetHeaders`: a reserved key uses the property, any other `Add`. */
  function Route(h: Header): (r: Route)
    ensures r.ToAuthorization? <==> h.name in AuthHeaders
    ensures r.ToAuthorization? ==> r.auth == AuthenticationHeaderValue(h.name, h.value)
    ensures r.ToAdd? ==> r.header == h
  {
    if h.name in AuthHeaders then ToAuthorization(AuthenticationHeaderValue(h.name, h.value))
    else ToAdd(h)
  }

  function Routes(hs: seq<Header>): seq<Route>
  {
    seq(|hs|, i requires 0 <= i < |hs| => Route(hs[i]))
  }

  /**
   * What `SetHeaders(headers)` does to the default headers: Accept first, then each entry.
   * Every call, even one that throws, only appends: Accept gets "application/json" right after
   * the values it held, and the headers added by name keep the ones before.
   */
  function SetHeadersSpec(v: HeaderView, headers: Option<seq<Header>>): (a: Applied)
    ensures |v.accept| < |a.view.accept| && a.view.accept[..|v.accept| + 1] == v.accept + [Json]
    ensures |v.literal| <= |a.view.literal| && a.view.literal[..|v.literal|] == v.literal
  {
    var accepted := v.(accept := v.accept + [Json]);
    match headers
    case None => Completed(accepted)
    case Some(hs) => ApplyAll(accepted, Routes(hs))
  }

  /** An entry that writes the Authorization slot: a reserved key, or the name Authorization in any case. */
  predicate WritesSlot(h: Header)
  {
    h.name in AuthHeaders || SameName(h.name, AuthorizationName)
  }

  /** The value such an entry leaves in the slot. */
  function SlotValueOf(h: Header): AuthenticationHeaderValue
    requires WritesSlot(h)
  {
    if h.name in AuthHeaders then AuthenticationHeaderValue(h.name, h.value) else ParseAuthorization(h.value)
  }

  /** The entries neither reserved nor named Accept or Authorization in any case, in order. */
  function AddedByName(hs: seq<Header>): seq<Header>
  {
    if hs == [] then []
    else
      var h := hs[|hs| - 1];
      AddedByName(hs[..|hs| - 1])
      + (if h.name !in AuthHeaders && !SameName(h.name, AcceptName) && !SameName(h.name, AuthorizationName)
         then [h] else [])
  }

  /** A reserved key is neither Accept nor Authorization, in any case. */
  lemma ReservedKeysAreOrdinaryNames(h: Header)
    requires h.name in AuthHeaders
    ensures !SameName(h.name, AcceptName) && !SameName(h.name, AuthorizationName)
  {
    if h.name == "Bearer" {
      assert LowerAscii(h.name[0]) != LowerAscii(AcceptName[0]);
    }
  }

  lemma RoutesPrefix(hs: seq<Header>, n: nat)
    requires n <= |hs|
    ensures Routes(hs)[..n] == Routes(hs[..n])
  {
  }

  lemma RouteWritesSlot(h: Header)
    ensures SetsAuthorization(Route(h)) <==> WritesSlot(h)
    ensures AddsAuthorization(Route(h)) <==> SameName(h.name, AuthorizationName)
    ensures WritesSlot(h) ==> SlotValue(Route(h)) == SlotValueOf(h)
  {
  }

  lemma {:induction false} AcceptOfRoutes(hs: seq<Header>)
    ensures AcceptValues(Routes(hs)) == AcceptEntries(hs)
  {
    if hs != [] {
      RoutesPrefix(hs, |hs| - 1);
      AcceptOfRoutes(hs[..|hs| - 1]);
      if hs[|hs| - 1].name in AuthHeaders {
        ReservedKeysAreOrdinaryNames(hs[|hs| - 1]);
      }
    }
  }

  lemma {:induction false} LiteralsOfRoutes(hs: seq<Header>)
    ensures Literals(Routes(hs)) == AddedByName(hs)
  {
    if hs != [] {
      RoutesPrefix(hs, |hs| - 1);
      LiteralsOfRoutes(hs[..|hs| - 1]);
    }
  }

  /**
   * Every call appends one "application/json" to Accept, and a null `headers` changes nothing
   * else. A call that carries out every entry also appends the values of the entries named
   * Accept, in any case.
   */
  lemma AcceptGrowth(v: HeaderView, headers: Option<seq<Header>>)
    ensures headers.None? ==> SetHeadersSpec(v, headers) == Completed(v.(accept := v.accept + [Json]))
    ensures headers.Some? && SetHeadersSpec(v, headers).Completed? ==>
              SetHeadersSpec(v, headers).view.accept == v.accept + [Json] + AcceptEntries(headers.value)
  {
    if headers.Some? {
      ApplyAllAccept(v.(accept := v.accept + [Json]), Routes(headers.value));
      AcceptOfRoutes(headers.value);
    }
  }

  /** A call that carries out every entry adds exactly the entries with an ordinary name, in order. */
  lemma NamedEntriesAdded(v: HeaderView, hs: seq<Header>)
    ensures SetHeadersSpec(v, Some(hs)).Completed? ==>
              SetHeadersSpec(v, Some(hs)).view.literal == v.literal + AddedByName(hs)
  {
    ApplyAllLiterals(v.(accept := v.accept + [Json]), Routes(hs));
    LiteralsOfRoutes(hs);
  }

  /**
   * In a call that carries out every entry, the last entry that writes the slot decides it:
   * a reserved key gives (key, value), the name Authorization gives its value read as
   * "scheme parameter".
   */
  lemma LastSlotEntryWins(v: HeaderView, hs: seq<Header>, k: nat)
    requires k < |hs| && WritesSlot(hs[k])
    requires forall j :: k < j < |hs| ==> !WritesSlot(hs[j])
    ensures SetHeadersSpec(v, Some(hs)).Completed? ==>
              SetHeadersSpec(v, Some(hs)).view.authorization == Some(SlotValueOf(hs[k]))
  {
    RouteWritesSlot(hs[k]);
    forall j | k < j < |hs|
      ensures !SetsAuthorization(Routes(hs)[j])
    {
      RouteWritesSlot(hs[j]);
    }
    ApplyAllLastAuthorizationWins(v.(accept := v.accept + [Json]), Routes(hs), k);
  }

  /** Without an entry that writes the slot, the call cannot throw and the slot keeps its value. */
  lemma NoSlotEntryKeepsAuthorization(v: HeaderView, hs: seq<Header>)
    requires forall i :: 0 <= i < |hs| ==> !WritesSlot(hs[i])
    ensures SetHeadersSpec(v, Some(hs)).Completed?
    ensures SetHeadersSpec(v, Some(hs)).view.authorization == v.authorization
  {
    forall i | 0 <= i < |hs|
      ensures !SetsAuthorization(Routes(hs)[i])
    {
      RouteWritesSlot(hs[i]);
    }
    ApplyAllKeepsAuthorization(v.(accept := v.accept + [Json]), Routes(hs));
  }

  /**
   * The call carries out every entry exactly when each entry named Authorization finds the
   * slot empty: empty before the call, and written by no earlier entry.
   */
  lemma SetHeadersCompletes(v: HeaderView, hs: seq<Header>)
    ensures SetHeadersSpec(v, Some(hs)).Completed? <==>
              forall k :: 0 <= k < |hs| && SameName(hs[k].name, AuthorizationName) ==>
                v.authorization.None? && forall j :: 0 <= j < k ==> !WritesSlot(hs[j])
  {
    forall i | 0 <= i < |hs|
      ensures (SetsAuthorization(Routes(hs)[i]) <==> WritesSlot(hs[i]))
      ensures (AddsAuthorization(Routes(hs)[i]) <==> SameName(hs[i].name, AuthorizationName))
    {
      RouteWritesSlot(hs[i]);
    }
    ApplyAllCompletes(v.(accept := v.accept + [Json]), Routes(hs));
  }

  /**
   * A call that throws does so at an entry named Authorization, and leaves the headers as the
   * call with only the entries before it would.
   */
  lemma SetHeadersStops(v: HeaderView, hs: seq<Header>)
    requires SetHeadersSpec(v, Some(hs)).Stopped?
    ensures SetHeadersSpec(v, Some(hs)).at < |hs|
    ensures SameName(hs[SetHeadersSpec(v, Some(hs)).at].name, AuthorizationName)
    ensures SetHeadersSpec(v, Some(hs[..SetHeadersSpec(v, Some(hs)).at]))
            == Completed(SetHeadersSpec(v, Some(hs)).view)
  {
    var a := SetHeadersSpec(v, Some(hs));
    RoutesPrefix(hs, a.at);
    RouteWritesSlot(hs[a.at]);
  }

  /** Once the slot is set, an entry named Authorization makes the call throw. */
  lemma AuthorizationEntryFailsOnceSet(v: HeaderView, hs: seq<Header>, i: nat)
    requires v.authorization.Some?
    requires i < |hs| && SameName(hs[i].name, AuthorizationName)
    ensures SetHeadersSpec(v, Some(hs)).Stopped?
  {
    SetHeadersCompletes(v, hs);
  }

  /**
   * Headers persist on the client: after a call with an entry named Authorization carried out
   * every entry, the same dictionary makes every later call throw.
   */
  lemma RepeatedAuthorizationEntryFails(v: HeaderView, hs: seq<Header>, i: nat)
    requires i < |hs| && SameName(hs[i].name, AuthorizationName)
    requires SetHeadersSpec(v, Some(hs)).Completed?
    ensures SetHeadersSpec(SetHeadersSpec(v, Some(hs)).view, Some(hs)).Stopped?
  {
    var accepted := v.(accept := v.accept + [Json]);
    ApplyAllSlotEmpty(accepted, Routes(hs));
    RouteWritesSlot(hs[i]);
    assert SetsAuthorization(Routes(hs)[i]);
    AuthorizationEntryFailsOnceSet(SetHeadersSpec(v, Some(hs)).view, hs, i);
  }

  /** `Execute(uri, method, response, FormUrlEncodedContent formUrlEncodedContent)`. */
  function ExecuteForm(uri: string, verb: HttpMethod, formUrlEncodedContent: FormUrlEncodedContent,
                       defaults: HeaderView): (sent: Option<Request>)
    ensures sent.Some? <==> !verb.Other?
    ensures sent.Some? ==> sent.value.verb == verb && sent.value.uri == uri && sent.value.headers == defaults
    ensures verb == Get || verb == Delete ==> sent.Some? && sent.value.body.None?
    ensures verb == Post || verb == Put ==> sent.Some? && sent.value.body == Some(FormBody(formUrlEncodedContent))
  {
    match verb
    case Get => Some(Request(Get, uri, None, defaults))
    case Post => Some(Request(Post, uri, Some(FormBody(formUrlEncodedContent)), defaults))
    case Put => Some(Request(Put, uri, Some(FormBody(formUrlEncodedContent)), defaults))
    case Delete => Some(Request(Delete, uri, None, defaults))
    case Other(_) => None
  }

  /**
   * The content-type branch of `PerformRequest`: a `StringContent` takes the string path, a
   * `FormUrlEncodedContent` the form path, anything else the string path with a null body.
   * A body goes out exactly when the verb is POST or PUT and the content is one of those two.
   */
  function Send(uri: string, verb: HttpMethod, content: Content, defaults: HeaderView): (sent: Option<Request>)
    ensures sent.Some? <==> !verb.Other?
    ensures sent.Some? ==> sent.value.verb == verb && sent.value.uri == uri && sent.value.headers == defaults
    ensures sent.Some? && sent.value.body.Some? <==>
              (verb == Post || verb == Put) && (content.StringArgument? || content.FormArgument?)
    ensures sent.Some? && content.StringArgument? && (verb == Post || verb == Put) ==>
              sent.value.body == Some(StringBody(content.s))
    ensures sent.Some? && content.FormArgument? && (verb == Post || verb == Put) ==>
              sent.value.body == Some(FormBody(content.f))
  {
    match content
    case StringArgument(s) => ExecuteString(uri, verb, Some(s), defaults)
    case FormArgument(f) => ExecuteForm(uri, verb, f, defaults)
    case _ => ExecuteString(uri, verb, None, defaults)
  }

  /**
   * The result of `PerformRequest` once the headers `defaults` are in place. An unrecognised
   * verb sends nothing and goes on with the empty response: a successful envelope whose model
   * is the decoding of the empty body.
   */
  function Perform<T>(uri: string, verb: HttpMethod, content: Content, defaults: HeaderView,
                      send: Request -> Reply, decode: string -> Decoded<T>): (o: Outcome<Envelope<T>>)
    ensures verb.Other? && decode("").Parsed? ==> o == Returned(Envelope(true, None, None, decode("").value))
    ensures verb.Other? && decode("").Malformed? ==> o == Threw(JsonException(decode("").message))
    ensures !verb.Other? ==> o == Conclude(send(Send(uri, verb, content, defaults).value), decode)
  {
    var sent := Send(uri, verb, content, defaults);
    var reply := if sent.Some? then send(sent.value) else Responded(EmptyResponse);
    Conclude(reply, decode)
  }

  class ApiClient {
    const client: HttpClient

    /** Each executor owns a new `HttpClient`. */
    constructor ()
      ensures fresh(client) && client.View() == HeaderView([], None, [])
    {
      client := new HttpClient();
    }

    /** `completed` is false when an `Add` throws; the entries before it stay applied. */
    method SetHeaders(headers: Option<seq<Header>>) returns (completed: bool)
      modifies client
      ensures completed <==> SetHeadersSpec(old(client.View()), headers).Completed?
      ensures client.View() == SetHeadersSpec(old(client.View()), headers).view
    {
      client.AddAccept(Json);
      if headers.None? {
        return true;
      }
      var hs := headers.value;
      ghost var start := client.View();
      for i := 0 to |hs|
        invariant ApplyAll(start, Routes(hs)[..i]) == Completed(client.View())
      {
        var kvp := hs[i];
        assert Routes(hs)[..i + 1][..i] == Routes(hs)[..i];
        if kvp.name in AuthHeaders {
          client.SetAuthorization(AuthenticationHeaderValue(kvp.name, kvp.value));
        } else {
          var added := client.Add(kvp.name, kvp.value);
          if !added {
            ApplyAllAfterStop(start, Routes(hs), i + 1);
            return false;
          }
        }
      }
      assert Routes(hs)[..|hs|] == Routes(hs);
      return true;
    }

    /**
     * Headers are applied to the default headers before anything is sent, so they persist
     * whatever the request ends in, and the request goes out with them. An `Add` that throws
     * ends the call with its `FormatException`; otherwise the outcome is `Perform`'s, in a
     * fresh envelope.
     */
    method PerformRequest<T>(uri: string, verb: HttpMethod, content: Content, headers: Option<seq<Header>>,
                             send: Request -> Reply, decode: string -> Decoded<T>)
      returns (outcome: Outcome<HttpResultModel<T>>)
      modifies client
      ensures client.View() == SetHeadersSpec(old(client.View()), headers).view
      ensures SetHeadersSpec(old(client.View()), headers).Stopped? ==>
                outcome == Threw(FormatException(SingleValueMessage))
      ensures SetHeadersSpec(old(client.View()), headers).Completed? ==>
                && (outcome.Returned? ==> fresh(outcome.value))
                && Observed(outcome) == Perform(uri, verb, content, client.View(), send, decode)
    {
      var completed := SetHeaders(headers);
      if !completed {
        return Threw(FormatException(SingleValueMessage));
      }
      var response := EmptyResponse;
      var sent: Option<Request>;
      if content.StringArgument? {
        sent := ExecuteString(uri, verb, Some(content.s), client.View());
      } else if content.FormArgument? {
        sent := ExecuteForm(uri, verb, content.f, client.View());
      } else {
        sent := ExecuteString(uri, verb, None, client.View());
      }
      var reply := if sent.Some? then send(sent.value) else Responded(response);
      outcome := Complete(reply, decode);
    }
  }
}
