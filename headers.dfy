/**
 * The default-request-header state of an `HttpClient` (its `DefaultRequestHeaders`) as both
 * clients use it: the list of Accept values, the single Authorization slot, and the other
 * headers added by name. It is one store whose names compare ignoring case, so `Add` with the
 * name "Accept" or "Authorization", in any case, writes the Accept list or the Authorization
 * slot, and `Add` of a second Authorization value throws. A caller's header dictionary is the
 * sequence of pairs its enumeration yields.
 */
module Headers {
  import opened Wrappers

  const Json: string := "application/json"
  const AcceptName: string := "Accept"
  const AuthorizationName: string := "Authorization"

  /** One `KeyValuePair<string, string>` of a header dictionary, or one header added by name. */
  datatype Header = Header(name: string, value: string)

  /** An `AuthenticationHeaderValue(scheme, parameter)`. */
  datatype AuthenticationHeaderValue = AuthenticationHeaderValue(scheme: string, parameter: string)

  datatype HeaderView = HeaderView(
    accept: seq<string>,
    authorization: Option<AuthenticationHeaderValue>,
    literal: seq<Header>)

  function LowerAscii(c: char): char
  {
    if 'A' <= c <= 'Z' then (c as int + 32) as char else c
  }

  /** Header names are compared ordinally, ignoring case. */
  predicate SameName(a: string, b: string)
  {
    |a| == |b| && forall i :: 0 <= i < |a| ==> LowerAscii(a[i]) == LowerAscii(b[i])
  }

  function IndexOfSpace(s: string): (i: nat)
    ensures i <= |s|
    ensures forall j :: 0 <= j < i ==> s[j] != ' '
    ensures i < |s| ==> s[i] == ' '
  {
    if s == [] || s[0] == ' ' then 0 else 1 + IndexOfSpace(s[1..])
  }

  function SkipSpaces(s: string): (r: string)
    ensures r == [] || r[0] != ' '
  {
    if s != [] && s[0] == ' ' then SkipSpaces(s[1..]) else s
  }

  /**
   * How `Add` reads an Authorization value: the scheme runs up to the first space, and the
   * parameter is what follows the spaces after it.
   */
  function ParseAuthorization(value: string): (a: AuthenticationHeaderValue)
    ensures ' ' !in a.scheme
    ensures |a.scheme| <= |value| && value[..|a.scheme|] == a.scheme
  {
    var i := IndexOfSpace(value);
    AuthenticationHeaderValue(value[..i], SkipSpaces(value[i..]))
  }

  /** A value written as "scheme parameter" is read back as that scheme and parameter. */
  lemma ParseAuthorizationOfFormatted(scheme: string, parameter: string)
    requires ' ' !in scheme
    requires parameter == [] || parameter[0] != ' '
    ensures ParseAuthorization(scheme + " " + parameter) == AuthenticationHeaderValue(scheme, parameter)
  {
    var value := scheme + " " + parameter;
    IndexOfSpaceOfWord(scheme, " " + parameter);
    assert value[|scheme|..] == " " + parameter;
    assert (" " + parameter)[1..] == parameter;
    assert SkipSpaces(" " + parameter) == SkipSpaces(parameter) == parameter;
  }

  lemma {:induction false} IndexOfSpaceOfWord(word: string, rest: string)
    requires ' ' !in word
    requires rest != [] && rest[0] == ' '
    ensures IndexOfSpace(word + rest) == |word|
    ensures (word + rest)[..|word|] == word
  {
    if word != [] {
      assert (word + rest)[1..] == word[1..] + rest;
      IndexOfSpaceOfWord(word[1..], rest);
    }
  }

  /** Where one dictionary entry goes: into the Authorization property, or through `Add`. */
  datatype Route = ToAuthorization(auth: AuthenticationHeaderValue) | ToAdd(header: Header)

  /** What `DefaultRequestHeaders.Add(h.name, h.value)` does; `None` when it throws. */
  function Added(v: HeaderView, h: Header): (w: Option<HeaderView>)
    ensures w.None? <==> SameName(h.name, AuthorizationName) && v.authorization.Some?
  {
    if SameName(h.name, AcceptName) then Some(v.(accept := v.accept + [h.value]))
    else if SameName(h.name, AuthorizationName) then
      if v.authorization.Some? then None
      else Some(v.(authorization := Some(ParseAuthorization(h.value))))
    else Some(v.(literal := v.literal + [h]))
  }

  /** The effect of one loop step on the default headers; `None` when it throws. */
  function Apply(v: HeaderView, r: Route): Option<HeaderView>
  {
    match r
    case ToAuthorization(a) => Some(v.(authorization := Some(a)))
    case ToAdd(h) => Added(v, h)
  }

  /**
   * A loop over entries either carries out every step, or stops at step `at`, which throws,
   * and leaves the headers as the steps before it made them.
   */
  datatype Applied = Completed(view: HeaderView) | Stopped(view: HeaderView, at: nat)

  /** The effect of the steps `rs`, taken in enumeration order, up to the first that throws. */
  function ApplyAll(v: HeaderView, rs: seq<Route>): (a: Applied)
    ensures |v.accept| <= |a.view.accept| && a.view.accept[..|v.accept|] == v.accept
    ensures |v.literal| <= |a.view.literal| && a.view.literal[..|v.literal|] == v.literal
    ensures a.Stopped? ==>
              && a.at < |rs|
              && ApplyAll(v, rs[..a.at]) == Completed(a.view)
              && Apply(a.view, rs[a.at]).None?
  {
    if rs == [] then Completed(v)
    else
      var init := rs[..|rs| - 1];
      var prev := ApplyAll(v, init);
      if prev.Stopped? then
        assert rs[..prev.at] == init[..prev.at];
        prev
      else
        match Apply(prev.view, rs[|rs| - 1])
        case None => Stopped(prev.view, |rs| - 1)
        case Some(w) => Completed(w)
  }

  /** Once a prefix of the steps stops, the whole loop stops there too. */
  lemma {:induction false} ApplyAllAfterStop(v: HeaderView, rs: seq<Route>, n: nat)
    requires n <= |rs| && ApplyAll(v, rs[..n]).Stopped?
    ensures ApplyAll(v, rs) == ApplyAll(v, rs[..n])
    decreases |rs| - n
  {
    if n < |rs| {
      assert rs[..n + 1][..n] == rs[..n];
      assert ApplyAll(v, rs[..n + 1]) == ApplyAll(v, rs[..n]);
      ApplyAllAfterStop(v, rs, n + 1);
    } else {
      assert rs[..n] == rs;
    }
  }

  /** An entry that goes through `Add` under the name Authorization, in any case. */
  predicate AddsAuthorization(r: Route)
  {
    r.ToAdd? && SameName(r.header.name, AuthorizationName)
  }

  /** An entry that writes the Authorization slot: by the property, or through `Add`. */
  predicate SetsAuthorization(r: Route)
  {
    r.ToAuthorization? || AddsAuthorization(r)
  }

  /** The value a slot-writing entry leaves in the slot. */
  function SlotValue(r: Route): AuthenticationHeaderValue
    requires SetsAuthorization(r)
  {
    if r.ToAuthorization? then r.auth else ParseAuthorization(r.header.value)
  }

  /** The values among `rs` added to the Accept list, in order. */
  function AcceptValues(rs: seq<Route>): seq<string>
  {
    if rs == [] then []
    else
      var r := rs[|rs| - 1];
      AcceptValues(rs[..|rs| - 1]) + (if r.ToAdd? && SameName(r.header.name, AcceptName) then [r.header.value] else [])
  }

  /** The headers among `rs` that are added by a name other than Accept and Authorization, in order. */
  function Literals(rs: seq<Route>): seq<Header>
  {
    if rs == [] then []
    else
      var r := rs[|rs| - 1];
      Literals(rs[..|rs| - 1])
      + (if r.ToAdd? && !SameName(r.header.name, AcceptName) && !SameName(r.header.name, AuthorizationName)
         then [r.header] else [])
  }

  /** The values of the entries of a header dictionary whose key is Accept, in any case, in order. */
  function AcceptEntries(hs: seq<Header>): seq<string>
  {
    if hs == [] then []
    else
      var h := hs[|hs| - 1];
      AcceptEntries(hs[..|hs| - 1]) + (if SameName(h.name, AcceptName) then [h.value] else [])
  }

  /** A loop that carries out every step appends exactly the Accept entries' values to Accept. */
  lemma {:induction false} ApplyAllAccept(v: HeaderView, rs: seq<Route>)
    ensures ApplyAll(v, rs).Completed? ==> ApplyAll(v, rs).view.accept == v.accept + AcceptValues(rs)
  {
    if rs != [] {
      ApplyAllAccept(v, rs[..|rs| - 1]);
    }
  }

  /** A loop that carries out every step adds exactly the other named entries, in order. */
  lemma {:induction false} ApplyAllLiterals(v: HeaderView, rs: seq<Route>)
    ensures ApplyAll(v, rs).Completed? ==> ApplyAll(v, rs).view.literal == v.literal + Literals(rs)
  {
    if rs != [] {
      ApplyAllLiterals(v, rs[..|rs| - 1]);
    }
  }

  /**
   * Without a slot-writing entry the loop cannot throw, and the Authorization slot keeps its
   * value.
   */
  lemma {:induction false} ApplyAllKeepsAuthorization(v: HeaderView, rs: seq<Route>)
    requires forall i :: 0 <= i < |rs| ==> !SetsAuthorization(rs[i])
    ensures ApplyAll(v, rs).Completed? && ApplyAll(v, rs).view.authorization == v.authorization
  {
    if rs != [] {
      ApplyAllKeepsAuthorization(v, rs[..|rs| - 1]);
    }
  }

  /** In a loop that carries out every step, the last slot-writing entry decides the slot. */
  lemma {:induction false} ApplyAllLastAuthorizationWins(v: HeaderView, rs: seq<Route>, k: nat)
    requires k < |rs| && SetsAuthorization(rs[k])
    requires forall j :: k < j < |rs| ==> !SetsAuthorization(rs[j])
    ensures ApplyAll(v, rs).Completed? ==> ApplyAll(v, rs).view.authorization == Some(SlotValue(rs[k]))
  {
    if k < |rs| - 1 {
      ApplyAllLastAuthorizationWins(v, rs[..|rs| - 1], k);
    }
  }

  /** After the steps carried out, the slot is empty exactly when it was and nothing wrote it. */
  lemma {:induction false} ApplyAllSlotEmpty(v: HeaderView, rs: seq<Route>)
    ensures ApplyAll(v, rs).Completed? ==>
              (ApplyAll(v, rs).view.authorization.None? <==>
                 v.authorization.None? && forall j :: 0 <= j < |rs| ==> !SetsAuthorization(rs[j]))
  {
    if rs != [] {
      var init := rs[..|rs| - 1];
      ApplyAllSlotEmpty(v, init);
      assert forall j :: 0 <= j < |init| ==> init[j] == rs[j];
    }
  }

  /**
   * The loop carries out every step exactly when each `Add` of an Authorization value finds
   * the slot empty: the slot was empty to begin with and no earlier entry wrote it.
   */
  lemma {:induction false} ApplyAllCompletes(v: HeaderView, rs: seq<Route>)
    ensures ApplyAll(v, rs).Completed? <==>
              forall k :: 0 <= k < |rs| && AddsAuthorization(rs[k]) ==>
                v.authorization.None? && forall j :: 0 <= j < k ==> !SetsAuthorization(rs[j])
  {
    if rs != [] {
      var init := rs[..|rs| - 1];
      ApplyAllCompletes(v, init);
      ApplyAllSlotEmpty(v, init);
      assert forall j :: 0 <= j < |init| ==> init[j] == rs[j];
    }
  }

  /** The `DefaultRequestHeaders` of one `HttpClient` instance. */
  class HttpClient {
    var accept: seq<string>
    var authorization: Option<AuthenticationHeaderValue>
    var literal: seq<Header>

    function View(): HeaderView
      reads this
    {
      HeaderView(accept, authorization, literal)
    }

    /** A new `HttpClient` has no default headers. */
    constructor ()
      ensures View() == HeaderView([], None, [])
    {
      accept := [];
      authorization := None;
      literal := [];
    }

    /** `DefaultRequestHeaders.Accept.Add(new MediaTypeWithQualityHeaderValue(media))`. */
    method AddAccept(media: string)
      modifies this
      ensures View() == old(View()).(accept := old(accept) + [media])
    {
      accept := accept + [media];
    }

    /** `DefaultRequestHeaders.Authorization = auth`: replaces whatever the slot held. */
    method SetAuthorization(auth: AuthenticationHeaderValue)
      modifies this
      ensures View() == old(View()).(authorization := Some(auth))
    {
      authorization := Some(auth);
    }

    /**
     * `DefaultRequestHeaders.Add(name, value)`. `added` is false when the call throws, which it
     * does for a second Authorization value; the headers are then as they were.
     */
    method Add(name: string, value: string) returns (added: bool)
      modifies this
      ensures added <==> Added(old(View()), Header(name, value)).Some?
      ensures View() == if added then Added(old(View()), Header(name, value)).value else old(View())
    {
      if SameName(name, AcceptName) {
        accept := accept + [value];
        added := true;
      } else if SameName(name, AuthorizationName) {
        if authorization.Some? {
          added := false;
        } else {
          authorization := Some(ParseAuthorization(value));
          added := true;
        }
      } else {
        literal := literal + [Header(name, value)];
        added := true;
      }
    }
  }
}
