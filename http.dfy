/**
 * What both request executors share: verbs, request bodies, the request actually sent,
 * the transport's answer, the exceptions that can arise, and how an answer becomes a
 * result envelope (the `try`/`catch` around `EnsureSuccessStatusCode` and JSON decoding).
 * The network and the JSON library are parameters: `send` stands for the transport's
 * `GetAsync`/`PostAsync`/`PutAsync`/`DeleteAsync`, `decode` for `JsonConvert.DeserializeObject`.
 */
module Http {
  import opened Wrappers
  import opened Headers
  import opened Models

  /** `HttpMethod`; `Other` is any verb but the four the executors dispatch on. */
  datatype HttpMethod = Get | Post | Put | Delete | Other(name: string)

  /** `new StringContent(text, encoding, mediaType)`. */
  datatype StringContent = StringContent(text: string, charset: string, mediaType: string)

  /** `new FormUrlEncodedContent(fields)`. */
  datatype FormUrlEncodedContent = FormUrlEncodedContent(fields: seq<Header>)

  datatype HttpContent = StringBody(s: StringContent) | FormBody(f: FormUrlEncodedContent)

  /**
   * One call of a verb-specific send operation: which verb, to where, with which body, and the
   * client's default headers at the moment it goes out.
   */
  datatype Request = Request(verb: HttpMethod, uri: string, body: Option<HttpContent>, headers: HeaderView)

  datatype HttpResponse = HttpResponse(status: nat, reasonPhrase: string, body: string)

  /** The exceptions the model distinguishes: only the first is caught by `PerformRequest`. */
  datatype Exception =
    | HttpRequestException(message: string)
    | JsonException(message: string)
    | FormatException(message: string)
    | OtherException(message: string)

  /** What the transport gives back for one request: a response, or an exception it threw. */
  datatype Reply = Responded(response: HttpResponse) | Raised(exception: Exception)

  /** What the JSON decoder gives back: a (possibly null) model, or a parse error. */
  datatype Decoded<T> = Parsed(value: Option<T>) | Malformed(message: string)

  /** What a call of `PerformRequest` ends in: an envelope, or an exception that escapes it. */
  datatype Outcome<R> = Returned(value: R) | Threw(exception: Exception)

  /**
   * What `new HttpResponseMessage()` holds: status 200, reason "OK", empty content. It is what
   * `PerformRequest` goes on with when `Execute` sends nothing.
   */
  const EmptyResponse: HttpResponse := HttpResponse(200, "OK", "")

  /** The localizer key used when a caught exception is not an `HttpRequestException`. */
  const UnexpectedErrorKey: string := "Une erreur innatendue s'est produite."

  /** The message of the `FormatException` that `Add` throws for a second Authorization value. */
  const SingleValueMessage: string :=
    "Cannot add value because header 'Authorization' does not support multiple input values."

  /**
   * `Execute(uri, method, response, StringContent content)`, written identically in both
   * executors, sent with the headers `defaults`.
   */
  function ExecuteString(uri: string, verb: HttpMethod, stringContent: Option<StringContent>,
                         defaults: HeaderView): (sent: Option<Request>)
    ensures sent.Some? <==> !verb.Other?
    ensures sent.Some? ==> sent.value.verb == verb && sent.value.uri == uri && sent.value.headers == defaults
    ensures verb == Get || verb == Delete ==> sent.Some? && sent.value.body.None?
    ensures verb == Post || verb == Put ==>
              sent.Some? && sent.value.body == if stringContent.Some? then Some(StringBody(stringContent.value)) else None
  {
    match verb
    case Get => Some(Request(Get, uri, None, defaults))
    case Post => Some(Request(Post, uri, if stringContent.Some? then Some(StringBody(stringContent.value)) else None, defaults))
    case Put => Some(Request(Put, uri, if stringContent.Some? then Some(StringBody(stringContent.value)) else None, defaults))
    case Delete => Some(Request(Delete, uri, None, defaults))
    case Other(_) => None
  }

  /** `HttpResponseMessage.IsSuccessStatusCode`. */
  predicate IsSuccessStatusCode(status: nat)
  {
    200 <= status <= 299
  }

  function DigitChar(d: nat): char
    requires d < 10
  {
    "0123456789"[d]
  }

  function NatToString(n: nat): (s: string)
    ensures |s| > 0
  {
    if n < 10 then [DigitChar(n)] else NatToString(n / 10) + [DigitChar(n % 10)]
  }

  /** The message of the `HttpRequestException` that `EnsureSuccessStatusCode` throws. */
  function StatusFailureMessage(r: HttpResponse): (m: string)
    ensures |m| > 0
  {
    "Response status code does not indicate success: " + NatToString(r.status) + " (" + r.reasonPhrase + ")."
  }

  /** Whether the `catch (HttpRequestException e)` clause takes the exception. */
  predicate Caught(e: Exception)
  {
    e.HttpRequestException?
  }

  /**
   * `e is HttpRequestException ? e.Message : _localizer[...]`, with the lookup returning its key.
   * Every exception the `catch` clause takes gives its own message; the localized fallback is
   * only for exceptions the clause never takes.
   */
  function CatchMessage(e: Exception): (m: string)
    ensures Caught(e) ==> m == e.message
    ensures !Caught(e) ==> m == UnexpectedErrorKey
  {
    if e.HttpRequestException? then e.message else UnexpectedErrorKey
  }

  /** The envelope of a caught exception: `Result = false` and its `ErrorMessage`. */
  function FailedEnvelope<T>(e: Exception): Envelope<T>
  {
    Envelope(false, Some(CatchMessage(e)), None, None)
  }

  /**
   * Everything after the send: `EnsureSuccessStatusCode`, reading the body, decoding it, and
   * the `catch` clause. A transport `HttpRequestException` or a non-success status gives a
   * failed envelope with the exception's message; any other exception, and a body the
   * decoder rejects, escapes. Only a success status with a decodable body gives `Result = true`.
   */
  function Conclude<T>(reply: Reply, decode: string -> Decoded<T>): (o: Outcome<Envelope<T>>)
    ensures o.Returned? ==> WellFormed(o.value) && o.value.businessMessage.None?
    ensures o.Returned? && o.value.result <==>
              reply.Responded? && IsSuccessStatusCode(reply.response.status)
              && decode(reply.response.body).Parsed?
    ensures o.Returned? && o.value.result ==> o.value.model == decode(reply.response.body).value
    ensures reply.Raised? && Caught(reply.exception) ==>
              o == Returned(Envelope(false, Some(reply.exception.message), None, None))
    ensures reply.Responded? && !IsSuccessStatusCode(reply.response.status) ==>
              o == Returned(Envelope(false, Some(StatusFailureMessage(reply.response)), None, None))
    ensures o.Threw? <==>
              (reply.Raised? && !Caught(reply.exception))
              || (reply.Responded? && IsSuccessStatusCode(reply.response.status)
                  && decode(reply.response.body).Malformed?)
    ensures o.Threw? && reply.Responded? ==>
              o.exception == JsonException(decode(reply.response.body).message)
    ensures reply.Raised? && !Caught(reply.exception) ==> o == Threw(reply.exception)
  {
    match reply
    case Raised(e) =>
      if Caught(e) then Returned(FailedEnvelope(e)) else Threw(e)
    case Responded(response) =>
      if !IsSuccessStatusCode(response.status) then
        Returned(FailedEnvelope(HttpRequestException(StatusFailureMessage(response))))
      else
        match decode(response.body)
        case Malformed(m) => Threw(JsonException(m))
        case Parsed(model) => Returned(Envelope(true, None, None, model))
  }

  /** The envelope values an outcome of `PerformRequest` holds. */
  function Observed<T>(o: Outcome<HttpResultModel<T>>): Outcome<Envelope<T>>
    reads if o.Returned? then {o.value} else {}
  {
    match o
    case Returned(env) => Returned(env.View())
    case Threw(e) => Threw(e)
  }

  /**
   * The tail of `PerformRequest` in both executors: check the status, read and decode the
   * body, and build a fresh envelope with an object initializer, or let an exception escape.
   */
  method Complete<T>(reply: Reply, decode: string -> Decoded<T>) returns (outcome: Outcome<HttpResultModel<T>>)
    ensures outcome.Returned? ==> fresh(outcome.value)
    ensures Observed(outcome) == Conclude(reply, decode)
  {
    match reply
    case Raised(e) =>
      if Caught(e) {
        var env := new HttpResultModel<T>();
        env.result := false;
        env.errorMessage := Some(CatchMessage(e));
        outcome := Returned(env);
      } else {
        outcome := Threw(e);
      }
    case Responded(response) =>
      if !IsSuccessStatusCode(response.status) {
        var e := HttpRequestException(StatusFailureMessage(response));
        var env := new HttpResultModel<T>();
        env.result := false;
        env.errorMessage := Some(CatchMessage(e));
        outcome := Returned(env);
      } else {
        match decode(response.body)
        case Malformed(m) =>
          outcome := Threw(JsonException(m));
        case Parsed(model) =>
          var env := new HttpResultModel<T>();
          env.model := model;
          env.result := true;
          outcome := Returned(env);
      }
  }
}
