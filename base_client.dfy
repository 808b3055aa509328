/**
 * Client/BaseClient.cs: the request executor `ClientBase`. Its `HttpClient` is a static field,
 * so every instance works on the same default headers; here that one object is handed to
 * every instance on construction. Only the exact key "Authorization" uses the Authorization
 * property, always with scheme "OAuth"; every other entry goes through `Add`. A non-null
 * `content` is serialized to a JSON body.
 */
module Base {
  import opened Wrappers
  import opened Headers
  import opened Models
  import opened Http

  const AuthorizationKey: string := "Authorization"
  const OAuthScheme: string := "OAuth"

  /** One step of the `foreach` in `SetHeaders`: only the exact key "Authorization" uses the property. */
  function Route(h: Header): (r: Route)
    ensures r.ToAuthorization? <==> h.name == AuthorizationKey
    ensures r.ToAuthorization? ==> r.auth == AuthenticationHeaderValue(OAuthScheme, h.value)
    ensures r.ToAdd? ==> r.header == h
  {
    if h.name == AuthorizationKey then ToAuthorization(AuthenticationHeaderValue(OAuthScheme, h.value))
    else ToAdd(h)
  }

  function Routes(hs: seq<Header>): seq<Route>
  {
    seq(|hs|, i requires 0 <= i < |hs| => Route(hs[i]))
  }

  /**
   * What `SetHeaders(headers)` does to the shared default headers. Every call, even one that
   * throws, only appends: Accept gets "application/json" right after the values it held, and
   * the headers added by name keep the ones before.
   */
  function SetHeadersSpec(v: HeaderView, headers: Option<seq<Header>>): (a: Applied)
    ensures |v.accept| < |a.view.accept| && a.view.accept[..|v.accept| + 1] == v.accept + [Json]
    ensures |v.literal| <= |a.view.literal| && a.view.literal[..|v.literal|] == v.literal
  {
    var accepted := v.(accept := v.accept + [Json]);
    match headers
    case None => Completed(accepted)
    case Some(hs) => ApplyAll(accepted, Routes(hs))
  }

  /**
   * The value an entry named Authorization, in any case, leaves in the slot: the exact key
   * gives scheme "OAuth" with its value, any other spelling goes through `Add`, which reads
   * its value as "scheme parameter".
   */
  function SlotValueOf(h: Header): AuthenticationHeaderValue
  {
    if h.name == AuthorizationKey then AuthenticationHeaderValue(OAuthScheme, h.value) else ParseAuthorization(h.value)
  }

  /** The entries named neither Accept nor Authorization in any case, in order. */
  function AddedByName(hs: seq<Header>): seq<Header>
  {
    if hs == [] then []
    else
      var h := hs[|hs| - 1];
      AddedByName(hs[..|hs| - 1])
      + (if !SameName(h.name, AcceptName) && !SameName(h.name, AuthorizationName) then [h] else [])
  }

  lemma RoutesPrefix(hs: seq<Header>, n: nat)
    requires n <= |hs|
    ensures Routes(hs)[..n] == Routes(hs[..n])
  {
  }

  lemma RouteWritesSlot(h: Header)
    ensures SetsAuthorization(Route(h)) <==> SameName(h.name, AuthorizationName)
    ensures AddsAuthorization(Route(h)) <==> h.name != AuthorizationKey && SameName(h.name, AuthorizationName)
    ensures SetsAuthorization(Route(h)) ==> SlotValue(Route(h)) == SlotValueOf(h)
    ensures Route(h).ToAdd? && SameName(h.name, AcceptName) <==> SameName(h.name, AcceptName)
  {
  }

  lemma {:induction false} AcceptOfRoutes(hs: seq<Header>)
    ensures AcceptValues(Routes(hs)) == AcceptEntries(hs)
  {
    if hs != [] {
      RoutesPrefix(hs, |hs| - 1);
      AcceptOfRoutes(hs[..|hs| - 1]);
      RouteWritesSlot(hs[|hs| - 1]);
    }
  }

  lemma {:induction false} LiteralsOfRoutes(hs: seq<Header>)
    ensures Literals(Routes(hs)) == AddedByName(hs)
  {
    if hs != [] {
      RoutesPrefix(hs, |hs| - 1);
      LiteralsOfRoutes(hs[..|hs| - 1]);
      RouteWritesSlot(hs[|hs| - 1]);
    }
  }

  lemma {:induction false} AddedByNameKeeps(hs: seq<Header>, i: nat)
    requires i < |hs| && !SameName(hs[i].name, AcceptName) && !SameName(hs[i].name, AuthorizationName)
    ensures hs[i] in AddedByName(hs)
  {
    if i < |hs| - 1 {
      AddedByNameKeeps(hs[..|hs| - 1], i);
    }
  }

  /**
   * Every call appends one "application/json" to the shared Accept list, and a null `headers`
   * changes nothing else. A call that carries out every entry also appends the values of the
   * entries named Accept, in any case.
   */
  lemma AcceptGrowth(v: HeaderView, headers: Option<seq<Header>>)
    ensures headers.None? ==> SetHeadersSpec(v, headers) == Completed(v.(accept := v.accept + [Json]))
    ensures headers.Some? && SetHeadersSpec(v, headers).Completed? ==>
              SetHeadersSpec(v, headers).view.accept == v.accept + [Json] + AcceptEntries(headers.value)
  {
    if headers.Some? {
      ApplyAllAccept(v.(accept := v.accept + [Json]), Routes(headers.value));
      AcceptOfRoutes(headers.value);
    }
  }

  /** A call that carries out every entry adds exactly the entries with an ordinary name, in order. */
  lemma NamedEntriesAdded(v: HeaderView, hs: seq<Header>)
    ensures SetHeadersSpec(v, Some(hs)).Completed? ==>
              SetHeadersSpec(v, Some(hs)).view.literal == v.literal + AddedByName(hs)
  {
    ApplyAllLiterals(v.(accept := v.accept + [Json]), Routes(hs));
    LiteralsOfRoutes(hs);
  }

  /** "OAuth" and "Bearer" are ordinary names here: such an entry is added by name. */
  lemma ReservedNamesOfApiClientAreLiteral(v: HeaderView, hs: seq<Header>, i: nat)
    requires i < |hs| && (hs[i].name == "OAuth" || hs[i].name == "Bearer")
    ensures SetHeadersSpec(v, Some(hs)).Completed? ==> hs[i] in SetHeadersSpec(v, Some(hs)).view.literal
  {
    if hs[i].name == "Bearer" {
      assert LowerAscii(hs[i].name[0]) != LowerAscii(AcceptName[0]);
    }
    NamedEntriesAdded(v, hs);
    AddedByNameKeeps(hs, i);
  }

  /** In a call that carries out every entry, the last entry named Authorization decides the slot. */
  lemma LastAuthorizationKeyWins(v: HeaderView, hs: seq<Header>, k: nat)
    requires k < |hs| && SameName(hs[k].name, AuthorizationName)
    requires forall j :: k < j < |hs| ==> !SameName(hs[j].name, AuthorizationName)
    ensures SetHeadersSpec(v, Some(hs)).Completed? ==>
              SetHeadersSpec(v, Some(hs)).view.authorization == Some(SlotValueOf(hs[k]))
  {
    RouteWritesSlot(hs[k]);
    forall j | k < j < |hs|
      ensures !SetsAuthorization(Routes(hs)[j])
    {
      RouteWritesSlot(hs[j]);
    }
    ApplyAllLastAuthorizationWins(v.(accept := v.accept + [Json]), Routes(hs), k);
  }

  /** Without an entry named Authorization, the call cannot throw and the slot keeps its value. */
  lemma NoAuthorizationKeyKeepsAuthorization(v: HeaderView, hs: seq<Header>)
    requires forall i :: 0 <= i < |hs| ==> !SameName(hs[i].name, AuthorizationName)
    ensures SetHeadersSpec(v, Some(hs)).Completed?
    ensures SetHeadersSpec(v, Some(hs)).view.authorization == v.authorization
  {
    forall i | 0 <= i < |hs|
      ensures !SetsAuthorization(Routes(hs)[i])
    {
      RouteWritesSlot(hs[i]);
    }
    ApplyAllKeepsAuthorization(v.(accept := v.accept + [Json]), Routes(hs));
  }

  /**
   * The call carries out every entry exactly when each entry spelled Authorization other than
   * exactly "Authorization" finds the slot empty: empty before the call, and written by no
   * earlier entry.
   */
  lemma SetHeadersCompletes(v: HeaderView, hs: seq<Header>)
    ensures SetHeadersSpec(v, Some(hs)).Completed? <==>
              forall k :: 0 <= k < |hs| && hs[k].name != AuthorizationKey && SameName(hs[k].name, AuthorizationName) ==>
                v.authorization.None? && forall j :: 0 <= j < k ==> !SameName(hs[j].name, AuthorizationName)
  {
    forall i | 0 <= i < |hs|
      ensures (SetsAuthorization(Routes(hs)[i]) <==> SameName(hs[i].name, AuthorizationName))
      ensures (AddsAuthorization(Routes(hs)[i]) <==> hs[i].name != AuthorizationKey && SameName(hs[i].name, AuthorizationName))
    {
      RouteWritesSlot(hs[i]);
    }
    ApplyAllCompletes(v.(accept := v.accept + [Json]), Routes(hs));
  }

  /**
   * A call that throws does so at an entry spelled Authorization other than exactly, and
   * leaves the headers as the call with only the entries before it would.
   */
  lemma SetHeadersStops(v: HeaderView, hs: seq<Header>)
    requires SetHeadersSpec(v, Some(hs)).Stopped?
    ensures SetHeadersSpec(v, Some(hs)).at < |hs|
    ensures hs[SetHeadersSpec(v, Some(hs)).at].name != AuthorizationKey
    ensures SameName(hs[SetHeadersSpec(v, Some(hs)).at].name, AuthorizationName)
    ensures SetHeadersSpec(v, Some(hs[..SetHeadersSpec(v, Some(hs)).at]))
            == Completed(SetHeadersSpec(v, Some(hs)).view)
  {
    var a := SetHeadersSpec(v, Some(hs));
    RoutesPrefix(hs, a.at);
    RouteWritesSlot(hs[a.at]);
  }

  /**
   * The shared headers persist: after a call with an entry such as "authorization" carried
   * out every entry, the same dictionary makes every later call, from any instance, throw.
   */
  lemma RepeatedAuthorizationEntryFails(v: HeaderView, hs: seq<Header>, i: nat)
    requires i < |hs| && hs[i].name != AuthorizationKey && SameName(hs[i].name, AuthorizationName)
    requires SetHeadersSpec(v, Some(hs)).Completed?
    ensures SetHeadersSpec(SetHeadersSpec(v, Some(hs)).view, Some(hs)).Stopped?
  {
    var accepted := v.(accept := v.accept + [Json]);
    ApplyAllSlotEmpty(accepted, Routes(hs));
    RouteWritesSlot(hs[i]);
    assert SetsAuthorization(Routes(hs)[i]);
    SetHeadersCompletes(SetHeadersSpec(v, Some(hs)).view, hs);
  }

  /**
   * The body decision: no body for a null `content`, otherwise a UTF-8 `application/json`
   * string body holding the JSON encoding of the content.
   */
  function Serialize<TIn>(content: Option<TIn>, encode: TIn -> string): (serialized: Option<StringContent>)
    ensures serialized.None? <==> content.None?
    ensures content.Some? ==>
              serialized == Some(StringContent(encode(content.value), "utf-8", Json))
  {
    match content
    case None => None
    case Some(c) => Some(StringContent(encode(c), "utf-8", Json))
  }

  /**
   * What goes out for a typed `content`: GET and DELETE never carry a body, POST and PUT carry
   * the JSON encoding of a non-null content with media type "application/json", nothing is
   * sent for any other verb.
   */
  function Send<TIn>(uri: string, verb: HttpMethod, content: Option<TIn>, encode: TIn -> string,
                     defaults: HeaderView): (sent: Option<Request>)
    ensures sent.Some? <==> !verb.Other?
    ensures sent.Some? ==> sent.value.verb == verb && sent.value.uri == uri && sent.value.headers == defaults
    ensures sent.Some? && sent.value.body.Some? <==> (verb == Post || verb == Put) && content.Some?
    ensures sent.Some? && sent.value.body.Some? ==>
              sent.value.body.value == StringBody(StringContent(encode(content.value), "utf-8", Json))
  {
    ExecuteString(uri, verb, Serialize(content, encode), defaults)
  }

  /** The result of `PerformRequest` once the headers `defaults` are in place. */
  function Perform<TIn, TOut>(uri: string, verb: HttpMethod, content: Option<TIn>, encode: TIn -> string,
                              defaults: HeaderView, send: Request -> Reply,
                              decode: string -> Decoded<TOut>): (o: Outcome<Envelope<TOut>>)
    ensures verb.Other? && decode("").Parsed? ==> o == Returned(Envelope(true, None, None, decode("").value))
    ensures verb.Other? && decode("").Malformed? ==> o == Threw(JsonException(decode("").message))
    ensures !verb.Other? ==> o == Conclude(send(Send(uri, verb, content, encode, defaults).value), decode)
  {
    var sent := Send(uri, verb, content, encode, defaults);
    var reply := if sent.Some? then send(sent.value) else Responded(EmptyResponse);
    Conclude(reply, decode)
  }

  class ClientBase {
    /** The static `_client`: the same object for every instance. */
    const client: HttpClient

    constructor (shared: HttpClient)
      ensures client == shared
    {
      client := shared;
    }

    /** `completed` is false when an `Add` throws; the entries before it stay applied. */
    method SetHeaders(headers: Option<seq<Header>>) returns (completed: bool)
      modifies client
      ensures completed <==> SetHeadersSpec(old(client.View()), headers).Completed?
      ensures client.View() == SetHeadersSpec(old(client.View()), headers).view
    {
      client.AddAccept(Json);
      if headers.None? {
        return true;
      }
      var hs := headers.value;
      ghost var start := client.View();
      for i := 0 to |hs|
        invariant ApplyAll(start, Routes(hs)[..i]) == Completed(client.View())
      {
        var kvp := hs[i];
        assert Routes(hs)[..i + 1][..i] == Routes(hs)[..i];
        if kvp.name == AuthorizationKey {
          client.SetAuthorization(AuthenticationHeaderValue(OAuthScheme, kvp.value));
        } else {
          var added := client.Add(kvp.name, kvp.value);
          if !added {
            ApplyAllAfterStop(start, Routes(hs), i + 1);
            return false;
          }
        }
      }
      assert Routes(hs)[..|hs|] == Routes(hs);
      return true;
    }

    /**
     * Headers are applied to the shared default headers before anything is sent, so they
     * persist whatever the request ends in, and the request goes out with them. An `Add` that
     * throws ends the call with its `FormatException`; otherwise the outcome is `Perform`'s, in
     * a fresh envelope.
     */
    method PerformRequest<TIn, TOut>(uri: string, verb: HttpMethod, content: Option<TIn>, headers: Option<seq<Header>>,
                                     encode: TIn -> string, send: Request -> Reply, decode: string -> Decoded<TOut>)
      returns (outcome: Outcome<HttpResultModel<TOut>>)
      modifies client
      ensures client.View() == SetHeadersSpec(old(client.View()), headers).view
      ensures SetHeadersSpec(old(client.View()), headers).Stopped? ==>
                outcome == Threw(FormatException(SingleValueMessage))
      ensures SetHeadersSpec(old(client.View()), headers).Completed? ==>
                && (outcome.Returned? ==> fresh(outcome.value))
                && Observed(outcome) == Perform(uri, verb, content, encode, client.View(), send, decode)
    {
      var completed := SetHeaders(headers);
      if !completed {
        return Threw(FormatException(SingleValueMessage));
      }
      var response := EmptyResponse;
      var serialized := Serialize(content, encode);
      var sent := ExecuteString(uri, verb, serialized, client.View());
      var reply := if sent.Some? then send(sent.value) else Responded(response);
      outcome := Complete(reply, decode);
    }
  }

  /**
   * Two instances over the one static client: the header changes of the first call are still
   * there when the second instance applies its own, even when the first call threw.
   */
  method SharedAcrossInstances(shared: HttpClient, first: Option<seq<Header>>, second: Option<seq<Header>>)
    modifies shared
    ensures shared.View() == SetHeadersSpec(SetHeadersSpec(old(shared.View()), first).view, second).view
  {
    var a := new ClientBase(shared);
    var b := new ClientBase(shared);
    var firstCompleted := a.SetHeaders(first);
    var secondCompleted := b.SetHeaders(second);
  }
}
