/**
 * The restful filter: building the route table, looking a path up, extracting and merging
 * path variables, dispatching a request, and the include/forward dispatcher.
 */
module Controller {
  import opened Text
  import opened Template
  import opened Pattern
  import opened Params
  import opened Routes

  /** The exceptions that leave the filter. */
  datatype Exception =
    | IOException(tag: nat)
    | ServletException(message: string, cause: Option<Exception>)
    | IndexOutOfBounds          // ArrayList.get past the end of the capture list
    | StringIndexOutOfBounds    // String.substring with a context path longer than the URI
    | NoMatchFound              // Matcher.group after a find that found nothing
    | RuntimeFailure(tag: nat)  // anything else an action may throw

  /** How a call ends: normally, or by throwing. */
  datatype Exit = Normal | Threw(error: Exception)

  datatype Result<T> = Ok(value: T) | Err(error: Exception)

  /** The request attribute that marks a request as being inside include or forward. */
  const REQUEST_DISPATCHER_REQUEST: string := "javax.servlet.forward.servlet_path"

  const COMMITTED_MESSAGE: string :=
    "Response has been committed--you can only call forward before committing the response (hint: don't flush buffers)"

  /** A request attribute value: the Boolean.TRUE the dispatcher stores, or any other object. */
  datatype AttributeValue = BooleanTrue | OtherValue(tag: nat)

  /** The parts of an HTTP request the filter reads or changes. */
  class Request {
    var uri: string
    var contextPath: string
    var params: ParamMap
    var attributes: map<string, AttributeValue>

    constructor (uri: string, contextPath: string, params: ParamMap)
      ensures this.uri == uri && this.contextPath == contextPath && this.params == params
      ensures attributes == map[]
    {
      this.uri := uri;
      this.contextPath := contextPath;
      this.params := params;
      attributes := map[];
    }

    method SetAttribute(name: string, value: AttributeValue)
      modifies this`attributes
      ensures attributes == old(attributes)[name := value]
    {
      attributes := attributes[name := value];
    }

    method RemoveAttribute(name: string)
      modifies this`attributes
      ensures attributes == old(attributes) - {name}
    {
      attributes := attributes - {name};
    }
  }

  /** The parts of an HTTP response the dispatcher reads or changes. */
  class Response {
    var committed: bool
    var buffer: seq<char>

    constructor (committed: bool, buffer: seq<char>)
      ensures this.committed == committed && this.buffer == buffer
    {
      this.committed := committed;
      this.buffer := buffer;
    }

    /** Discards the uncommitted buffered output; the servlet API allows it only before commit. */
    method ResetBuffer()
      requires !committed
      modifies this`buffer
      ensures buffer == []
    {
      buffer := [];
    }
  }

  /** The request object an action is created with: the physical one, or the forwarding wrapper. */
  datatype RequestView = Physical(request: Request) | ForwardWrapper(request: Request, newRequestUri: string) {
    /** getRequestURI as the action sees it: the wrapper reports the forward target. */
    function RequestUri(): (uri: string)
      reads request
      ensures this.Physical? ==> uri == request.uri
      ensures this.ForwardWrapper? ==> uri == newRequestUri
    {
      match this
      case Physical(r) => r.uri
      case ForwardWrapper(_, u) => u
    }
  }

  /** A call the filter makes into code outside this model. */
  datatype Invocation =
    | ChainDoFilter(request: Request)
    | RunAction(handler: HandlerId, view: RequestView, params: ParamMap, attributes: map<string, AttributeValue>)

  /** A ServletException whose cause is an IOException. */
  predicate CausedByIOException(x: Exit) {
    x.Threw? && x.error.ServletException? && x.error.cause.Some? && x.error.cause.value.IOException?
  }

  // ---------------------------------------------------------------------------
  // What getParams computes
  // ---------------------------------------------------------------------------

  /** Groups 1..groupCount after `varM.find()`; a failed find leaves group(1) without a match. */
  function Captures(p: seq<Segment>, path: string): (r: Result<seq<string>>)
    ensures r.Err? <==> !Matches(p, path) && GroupCount(p) > 0
    ensures r.Err? ==> r.error == NoMatchFound
    ensures r.Ok? ==> |r.value| == GroupCount(p)
  {
    match Match(p, path)
    case Some(c) => Ok(c)
    case None => if GroupCount(p) == 0 then Ok([]) else Err(NoMatchFound)
  }

  /** The merged parameters getParams returns for a route and path, or what it throws. */
  function ExtractParams(request: ParamMap, path: string, route: Route): (r: Result<ParamMap>)
    ensures r.Err? ==> r.error == NoMatchFound || r.error == IndexOutOfBounds
    ensures r.Ok? ==> forall k :: k in request ==> k in r.value
  {
    var keys := Keys(route.template);
    match Captures(route.matches, path)
    case Err(e) => Err(e)
    case Ok(vals) =>
      if |keys| > |vals| then Err(IndexOutOfBounds)
      else Ok(Merge(request, Group(Bindings(keys, vals))))
  }

  // ---------------------------------------------------------------------------
  // The loops of getParams
  // ---------------------------------------------------------------------------

  /**
   * The key list: one group(1) per successful find, left to right. `rest` is the part of
   * the template from the matcher's current position on.
   */
  method ScanKeys(template: string) returns (keyArray: seq<string>)
    ensures keyArray == Keys(template)
  {
    keyArray := [];
    var rest := template;
    while |rest| > 0
      invariant keyArray + Keys(rest) == Keys(template)
      decreases |rest|
    {
      if PlaceholderLen(rest) > 0 {
        keyArray := keyArray + [RunLastName(rest)];
        rest := rest[RunLen(rest)..];
      } else {
        rest := rest[1..];
      }
    }
  }

  /** The capture list: group(i) for every i from 1 to groupCount. */
  method CollectCaptures(p: seq<Segment>, path: string) returns (r: Result<seq<string>>)
    ensures r == Captures(p, path)
  {
    var found := Match(p, path);
    if found.Some? {
      MatchCaptures(p, path);
    }
    var count := GroupCount(p);
    var varArray: seq<string> := [];
    for i := 1 to count + 1
      invariant found.Some? ==> varArray == found.value[..i - 1]
      invariant found.None? ==> varArray == [] && i == 1
    {
      if found.None? {
        return Err(NoMatchFound);
      }
      varArray := varArray + [found.value[i - 1]];
    }
    if found.Some? {
      assert varArray == found.value;
      assert Captures(p, path) == Ok(found.value);
    }
    r := Ok(varArray);
  }

  /** Key i with capture i, folded into the per-name value lists; too few captures is an index error. */
  method GroupByName(keyArray: seq<string>, varArray: seq<string>) returns (r: Result<ParamMap>)
    ensures |keyArray| > |varArray| ==> r == Err(IndexOutOfBounds)
    ensures |keyArray| <= |varArray| ==> r == Ok(Group(Bindings(keyArray, varArray)))
  {
    var uriParams: ParamMap := map[];
    assert Bindings(keyArray[..0], varArray) == [];
    assert NamesOf([]) == {};
    for i := 0 to |keyArray|
      invariant i <= |varArray|
      invariant uriParams == Group(Bindings(keyArray[..i], varArray))
    {
      if i >= |varArray| {
        return Err(IndexOutOfBounds);
      }
      var k, v := keyArray[i], varArray[i];
      var pArray := if k in uriParams then uriParams[k] else [];
      if v !in pArray {
        pArray := pArray + [v];
      }
      GroupByNameStep(keyArray, varArray, i, uriParams, pArray);
      uriParams := uriParams[k := pArray];
    }
    assert keyArray[..|keyArray|] == keyArray;
    r := Ok(uriParams);
  }

  lemma GroupByNameStep(keys: seq<string>, vals: seq<string>, i: nat, g: ParamMap, list: seq<string>)
    requires i < |keys| && i < |vals|
    requires g == Group(Bindings(keys[..i], vals))
    requires list == AddIfAbsent(if keys[i] in g then g[keys[i]] else [], vals[i])
    ensures g[keys[i] := list] == Group(Bindings(keys[..i + 1], vals))
  {
    var b := Bindings(keys[..i], vals);
    assert Bindings(keys[..i + 1], vals) == b + [(keys[i], vals[i])];
    GroupStep(b, keys[i], vals[i]);
  }

  /** putAll of the request's parameters, then put of every path variable's list. */
  method MergeParams(request: ParamMap, uriParams: ParamMap) returns (overwriteHttpParams: ParamMap)
    ensures overwriteHttpParams == Merge(request, uriParams)
  {
    overwriteHttpParams := request;
    var remaining := uriParams.Keys;
    while remaining != {}
      invariant remaining <= uriParams.Keys
      invariant overwriteHttpParams.Keys == request.Keys + (uriParams.Keys - remaining)
      invariant forall k :: k in uriParams && k !in remaining ==> overwriteHttpParams[k] == uriParams[k]
      invariant forall k :: k in request && (k !in uriParams || k in remaining) ==> overwriteHttpParams[k] == request[k]
      decreases remaining
    {
      var k :| k in remaining;
      overwriteHttpParams := overwriteHttpParams[k := uriParams[k]];
      remaining := remaining - {k};
    }
  }

  /** getParams: path variables of `actionPath` under `route`, merged over the request's parameters. */
  method GetParams(request: Request, actionPath: string, route: Route) returns (r: Result<ParamMap>)
    ensures r == ExtractParams(request.params, actionPath, route)
  {
    var keyArray := ScanKeys(route.template);
    var captures := CollectCaptures(route.matches, actionPath);
    if captures.Err? {
      return Err(captures.error);
    }
    var uriParams := GroupByName(keyArray, captures.value);
    if uriParams.Err? {
      return Err(uriParams.error);
    }
    var merged := MergeParams(request.params, uriParams.value);
    r := Ok(merged);
  }

  // ---------------------------------------------------------------------------
  // Properties of the extracted parameters
  // ---------------------------------------------------------------------------

  /**
   * After a successful match, extraction fails exactly when the template has more keys than
   * the pattern has groups. Otherwise the result keeps every request key, leaves keys that are
   * not path variables alone, and maps each path variable to exactly the values captured for
   * it, without duplicates, in first-seen order; its request values are dropped.
   */
  lemma ExtractParamsSpec(request: ParamMap, path: string, route: Route)
    requires Matches(route.matches, path)
    ensures var keys, vals := Keys(route.template), Match(route.matches, path).value;
      var r := ExtractParams(request, path, route);
      && |vals| == GroupCount(route.matches)
      && (r.Ok? <==> |keys| <= |vals|)
      && (r.Err? ==> r.error == IndexOutOfBounds)
      && (r.Ok? ==> r.value.Keys == request.Keys + (set i | 0 <= i < |keys| :: keys[i]))
      && (r.Ok? ==> forall k :: k in request && k !in keys ==> r.value[k] == request[k])
      && (r.Ok? ==> forall k :: k in keys ==> NoDup(r.value[k]))
      && (r.Ok? ==> forall k, v :: k in keys ==>
            (v in r.value[k] <==> exists i :: 0 <= i < |keys| && keys[i] == k && vals[i] == v))
      && (r.Ok? ==> forall k, v :: k in keys && v in r.value[k] ==> v in ValuesOf(k, Bindings(keys, vals)))
      && (r.Ok? ==> forall k :: k in keys ==> FirstSeenOrder(ValuesOf(k, Bindings(keys, vals)), r.value[k]))
  {
    var keys, vals := Keys(route.template), Match(route.matches, path).value;
    MatchCaptures(route.matches, path);
    if |keys| <= |vals| {
      var g := Group(Bindings(keys, vals));
      var r := Merge(request, g);
      assert ExtractParams(request, path, route) == Ok(r);
      forall k ensures k in g <==> k in keys {
        GroupBindingsSpec(keys, vals, k);
      }
      assert g.Keys == (set i | 0 <= i < |keys| :: keys[i]);
      forall k | k in keys
        ensures r[k] == g[k] && NoDup(r[k])
        ensures forall v :: v in r[k] <==> exists i :: 0 <= i < |keys| && keys[i] == k && vals[i] == v
        ensures forall v :: v in r[k] ==> v in ValuesOf(k, Bindings(keys, vals))
        ensures FirstSeenOrder(ValuesOf(k, Bindings(keys, vals)), r[k])
      {
        GroupBindingsSpec(keys, vals, k);
        GroupSpec(Bindings(keys, vals), k);
      }
    }
  }

  lemma {:induction false} VarNamesCount(segs: seq<Segment>)
    ensures |VarNames(segs)| == GroupCount(segs)
  {
    if |segs| > 0 {
      VarNamesCount(segs[1..]);
    }
  }

  lemma SlashSeparatedIsSeparated(segs: seq<Segment>)
    requires SlashSeparated(segs)
    ensures Separated(segs)
  {
  }

  /**
   * Round trip: for a well-formed template whose placeholders are each followed by the end
   * or by `/`, filling it with concrete values gives a path from which extraction recovers
   * exactly those values, bound to the placeholder names in order.
   */
  lemma ExtractFromFilledPath(request: ParamMap, segs: seq<Segment>, vals: seq<string>, handler: HandlerId)
    requires WellFormed(segs) && SlashSeparated(segs)
    requires |vals| == GroupCount(segs)
    requires forall i :: 0 <= i < |vals| ==> IsCapture(vals[i])
    ensures |VarNames(segs)| == |vals|
    ensures ExtractParams(request, Fill(segs, vals), Route(Render(segs), segs, handler))
      == Ok(Merge(request, Group(Bindings(VarNames(segs), vals))))
  {
    SlashSeparatedIsSeparated(segs);
    KeysAreVarNames(segs);
    VarNamesCount(segs);
    MatchFill(segs, vals);
  }

  /** A placeholder name the key scan accepts. */
  predicate IsName(n: string) {
    |n| > 0 && forall c :: c in n ==> IsWordChar(c)
  }

  /** Extraction, given the key list and the captures of a successful match. */
  lemma ExtractWith(request: ParamMap, path: string, route: Route, keys: seq<string>, vals: seq<string>)
    requires Keys(route.template) == keys && Match(route.matches, path) == Some(vals)
    requires |keys| <= |vals|
    ensures ExtractParams(request, path, route) == Ok(Merge(request, Group(Bindings(keys, vals))))
  {
  }

  /** The segments of the route `/{n}/{n}`: the same placeholder twice, separated by `/`. */
  function RepeatedRoute(n: string): seq<Segment> {
    [Lit("/"), Var(n), Lit("/"), Var(n)]
  }

  /** `/{n}/{n}` is a well-formed template whose placeholders are each followed by `/` or the end. */
  lemma RepeatedRouteWellFormed(n: string)
    requires IsName(n)
    ensures WellFormed(RepeatedRoute(n)) && SlashSeparated(RepeatedRoute(n))
  {
  }

  lemma RepeatedRouteText(n: string)
    ensures Render(RepeatedRoute(n)) == "/{" + n + "}/{" + n + "}"
    ensures VarNames(RepeatedRoute(n)) == [n, n]
  {
    var segs := RepeatedRoute(n);
    var s1, s2, s3 := segs[1..], segs[2..], segs[3..];
    assert s1[1..] == s2 && s2[1..] == s3 && s3[1..] == [];
    var p := "{" + n + "}";
    assert Render(s3) == p;
    assert Render(s2) == "/" + p;
    assert Render(s1) == p + ("/" + p);
    assert Render(segs) == "/" + (p + ("/" + p));
    RepeatedText(n);
    assert VarNames(s3) == [n];
    assert VarNames(s2) == [n];
  }

  /** The text of `/{n}/{n}`, regrouped from the shape `Render` builds it in. */
  lemma RepeatedText(n: string)
    ensures "/" + (("{" + n + "}") + ("/" + ("{" + n + "}"))) == "/{" + n + "}/{" + n + "}"
  {
    var p := "{" + n + "}";
    assert "/" + (p + ("/" + p)) == ("/" + p) + ("/" + p);
    assert "/" + p == "/{" + n + "}";
    assert ("/{" + n + "}") + ("/" + p) == "/{" + n + "}/{" + n + "}";
  }

  lemma RepeatedRouteFill(n: string, x: string, y: string)
    ensures GroupCount(RepeatedRoute(n)) == 2
    ensures Fill(RepeatedRoute(n), [x, y]) == "/" + x + "/" + y
  {
    var segs := RepeatedRoute(n);
    var s1, s2, s3 := segs[1..], segs[2..], segs[3..];
    assert s1[1..] == s2 && s2[1..] == s3 && s3[1..] == [];
    assert GroupCount(s3) == 1 && GroupCount(s2) == 1 && GroupCount(s1) == 2;
    assert Fill(s3, [y]) == y;
    assert Fill(s2, [y]) == "/" + y;
    assert Fill(s1, [x, y]) == x + ("/" + y);
    assert Fill(segs, [x, y]) == "/" + (x + ("/" + y));
  }

  /** The route `/{n}/{n}`: its key list and its match on `/x/y`. */
  lemma RepeatedRouteShape(n: string, x: string, y: string)
    requires IsName(n) && IsCapture(x) && IsCapture(y)
    ensures Keys("/{" + n + "}/{" + n + "}") == [n, n]
    ensures Match(RepeatedRoute(n), "/" + x + "/" + y) == Some([x, y])
  {
    RepeatedRouteWellFormed(n);
    RepeatedRouteText(n);
    RepeatedRouteFill(n, x, y);
    KeysAreVarNames(RepeatedRoute(n));
    MatchFill(RepeatedRoute(n), [x, y]);
  }

  /** The route `/{n}`: its key list and its match on `/x`. */
  lemma SingleRouteShape(n: string, x: string)
    requires IsName(n) && IsCapture(x)
    ensures Keys("/{" + n + "}") == [n]
    ensures Match([Lit("/"), Var(n)], "/" + x) == Some([x])
  {
    var segs := [Lit("/"), Var(n)];
    var s1 := [Var(n)];
    assert segs[1..] == s1 && s1[1..] == [];
    assert Render(s1) == "{" + n + "}";
    assert Render(segs) == "/{" + n + "}";
    assert Fill(s1, [x]) == x;
    assert VarNames(s1) == [n] && GroupCount(s1) == 1;
    assert WellFormed(segs) && SlashSeparated(segs);
    KeysAreVarNames(segs);
    MatchFill(segs, [x]);
  }

  /** `/{n}/{n}` on `/x/x` binds `n` to `[x]`, overriding any request value of `n`. */
  lemma RepeatedValueExample(request: ParamMap, n: string, x: string, handler: HandlerId)
    requires IsName(n) && IsCapture(x)
    ensures ExtractParams(request, "/" + x + "/" + x,
        Route("/{" + n + "}/{" + n + "}", RepeatedRoute(n), handler))
      == Ok(request[n := [x]])
  {
    RepeatedRouteShape(n, x, x);
    ExtractWith(request, "/" + x + "/" + x,
      Route("/{" + n + "}/{" + n + "}", RepeatedRoute(n), handler), [n, n], [x, x]);
    RepeatedValueFolded(n, x);
    MergeOverrides(request, n, [x]);
  }

  /** `/{n}/{n}` on `/x/y` with `x != y` binds `n` to `[x, y]`. */
  lemma DistinctValuesExample(request: ParamMap, n: string, x: string, y: string, handler: HandlerId)
    requires IsName(n) && IsCapture(x) && IsCapture(y) && x != y
    ensures ExtractParams(request, "/" + x + "/" + y,
        Route("/{" + n + "}/{" + n + "}", RepeatedRoute(n), handler))
      == Ok(request[n := [x, y]])
  {
    RepeatedRouteShape(n, x, y);
    ExtractWith(request, "/" + x + "/" + y,
      Route("/{" + n + "}/{" + n + "}", RepeatedRoute(n), handler), [n, n], [x, y]);
    DistinctValuesKept(n, x, y);
    MergeOverrides(request, n, [x, y]);
  }

  /** `/{n}` on `/x` binds `n` to `[x]`, whatever the request held for `n`. */
  lemma PathVariableOverridesRequest(request: ParamMap, n: string, x: string, handler: HandlerId)
    requires IsName(n) && IsCapture(x)
    ensures ExtractParams(request, "/" + x, Route("/{" + n + "}", [Lit("/"), Var(n)], handler))
      == Ok(request[n := [x]])
  {
    SingleRouteShape(n, x);
    ExtractWith(request, "/" + x, Route("/{" + n + "}", [Lit("/"), Var(n)], handler), [n], [x]);
    assert Bindings([n], [x]) == [(n, x)];
    GroupOfOne(n, x);
    MergeOverrides(request, n, [x]);
  }

  // ---------------------------------------------------------------------------
  // The filter
  // ---------------------------------------------------------------------------

  class RestfulController {
    /** The route table, ascending by template ignoring case. */
    var defineArray: seq<Route>

    ghost predicate Valid()
      reads this
    {
      Sorted(defineArray)
    }

    constructor ()
      ensures Valid() && defineArray == []
    {
      defineArray := [];
    }

    /** init: collect every action with a restful mapping from every namespace, then sort stably. */
    method Init(namespaces: seq<seq<Action>>)
      modifies this
      ensures defineArray == SortByTemplate(RestfulAll(namespaces))
      ensures Valid()
    {
      var restfulList: seq<Route> := [];
      for i := 0 to |namespaces|
        invariant restfulList == RestfulAll(namespaces[..i])
      {
        var actions := namespaces[i];
        for j := 0 to |actions|
          invariant restfulList == RestfulAll(namespaces[..i]) + RestfulIn(actions[..j])
        {
          assert actions[..j + 1][..j] == actions[..j];
          if actions[j].mapping.Some? {
            restfulList := restfulList + [AsRoute(actions[j])];
          }
        }
        assert actions[..|actions|] == actions;
        assert namespaces[..i + 1][..i] == namespaces[..i];
      }
      assert namespaces[..|namespaces|] == namespaces;
      SortSorted(restfulList);
      defineArray := SortByTemplate(restfulList);
    }

    /** getActionDefine: the first route in table order whose pattern matches the whole path. */
    method GetActionDefine(requestPath: string) returns (define: Option<Route>)
      ensures define == Lookup(defineArray, requestPath)
      ensures define.None? <==> forall j :: 0 <= j < |defineArray| ==> !Matches(defineArray[j].matches, requestPath)
      ensures define.Some? ==>
        exists i ::
          && 0 <= i < |defineArray| && define.value == defineArray[i]
          && Matches(defineArray[i].matches, requestPath)
          && forall j :: 0 <= j < i ==> !Matches(defineArray[j].matches, requestPath)
      ensures Valid() && define.Some? ==>
        forall j :: 0 <= j < |defineArray| && Matches(defineArray[j].matches, requestPath) ==>
          CompareIgnoreCase(define.value.template, defineArray[j].template) <= 0
    {
      for i := 0 to |defineArray|
        invariant forall j :: 0 <= j < i ==> !Matches(defineArray[j].matches, requestPath)
      {
        if Matches(defineArray[i].matches, requestPath) {
          define := Some(defineArray[i]);
          assert define == Lookup(defineArray, requestPath);
          if Valid() {
            forall j | 0 <= j < |defineArray| && Matches(defineArray[j].matches, requestPath)
              ensures CompareIgnoreCase(define.value.template, defineArray[j].template) <= 0
            {
              LookupEarliestTemplate(defineArray, requestPath, j);
            }
          }
          return;
        }
      }
      return None;
    }

    /**
     * doFilter: route on the URI without its context-path prefix; hand the request down the
     * chain when nothing matches; otherwise run the action with the merged parameters,
     * rethrowing a ServletException caused by an IOException as that IOException.
     */
    method DoFilter(req: Request, resp: Response, chainExit: Exit, handlerExit: Exit)
      returns (calls: seq<Invocation>, exit: Exit)
      ensures |req.contextPath| > |req.uri| ==> calls == [] && exit == Threw(StringIndexOutOfBounds)
      ensures |req.contextPath| <= |req.uri| ==>
        var path := req.uri[|req.contextPath|..];
        var found := Lookup(defineArray, path);
        && (found.None? ==> calls == [ChainDoFilter(req)] && exit == chainExit)
        && (found.Some? ==>
              var ps := ExtractParams(req.params, path, found.value);
              && (ps.Err? ==> calls == [] && exit == Threw(ps.error))
              && (ps.Ok? ==> calls == [RunAction(found.value.handler, Physical(req), ps.value, req.attributes)])
              && (ps.Ok? && CausedByIOException(handlerExit) ==> exit == Threw(handlerExit.error.cause.value))
              && (ps.Ok? && !CausedByIOException(handlerExit) ==> exit == handlerExit))
    {
      if |req.contextPath| > |req.uri| {
        return [], Threw(StringIndexOutOfBounds);
      }
      var actionPath := req.uri[|req.contextPath|..];
      var define := GetActionDefine(actionPath);
      if define.None? {
        return [ChainDoFilter(req)], chainExit;
      }
      var overwriteHttpParams := GetParams(req, actionPath, define.value);
      if overwriteHttpParams.Err? {
        return [], Threw(overwriteHttpParams.error);
      }
      calls := [RunAction(define.value.handler, Physical(req), overwriteHttpParams.value, req.attributes)];
      if CausedByIOException(handlerExit) {
        exit := Threw(handlerExit.error.cause.value);
      } else {
        exit := handlerExit;
      }
    }

    /** getRequestDispatcher: a dispatcher for the route of `newRequestUri`, or null when none matches. */
    method GetRequestDispatcher(newRequestUri: string, request: Request) returns (d: Dispatcher?)
      ensures Lookup(defineArray, newRequestUri).None? ==> d == null
      ensures Lookup(defineArray, newRequestUri).Some? ==>
        d != null && fresh(d) && d.define == Lookup(defineArray, newRequestUri).value
        && d.newRequestUri == newRequestUri && d.request == request
    {
      var define := GetActionDefine(newRequestUri);
      if define.None? {
        return null;
      }
      d := new Dispatcher(define.value, newRequestUri, request);
    }
  }

  /** The dispatcher getRequestDispatcher returns: its route, target URI and captured request. */
  class Dispatcher {
    const define: Route
    const newRequestUri: string
    const request: Request

    constructor (define: Route, newRequestUri: string, request: Request)
      ensures this.define == define && this.newRequestUri == newRequestUri && this.request == request
    {
      this.define := define;
      this.newRequestUri := newRequestUri;
      this.request := request;
    }

    /**
     * include: mark the request, run the action on the physical request with the parameters
     * of the captured request merged with the target's path variables, and always unmark.
     */
    method Include(servletRequest: Request, servletResponse: Response, handlerExit: Exit)
      returns (calls: seq<Invocation>, exit: Exit)
      modifies servletRequest`attributes
      ensures servletRequest.attributes == old(servletRequest.attributes) - {REQUEST_DISPATCHER_REQUEST}
      ensures var ps := ExtractParams(request.params, newRequestUri, define);
        && (ps.Err? ==> calls == [] && exit == Threw(ps.error))
        && (ps.Ok? ==> exit == handlerExit && calls == [RunAction(define.handler, Physical(servletRequest), ps.value,
              old(servletRequest.attributes)[REQUEST_DISPATCHER_REQUEST := BooleanTrue])])
    {
      servletRequest.SetAttribute(REQUEST_DISPATCHER_REQUEST, BooleanTrue);
      var overwriteHttpParams := GetParams(request, newRequestUri, define);
      if overwriteHttpParams.Ok? {
        calls := [RunAction(define.handler, Physical(servletRequest), overwriteHttpParams.value, servletRequest.attributes)];
        exit := handlerExit;
      } else {
        calls, exit := [], Threw(overwriteHttpParams.error);
      }
      servletRequest.RemoveAttribute(REQUEST_DISPATCHER_REQUEST);
    }

    /**
     * forward: refuse a committed response before anything else; otherwise discard the
     * buffer, mark the request, run the action on a wrapper that reports the target URI,
     * and always unmark.
     */
    method Forward(servletRequest: Request, servletResponse: Response, handlerExit: Exit)
      returns (calls: seq<Invocation>, exit: Exit)
      modifies servletRequest`attributes, servletResponse`buffer
      ensures old(servletResponse.committed) ==>
        && calls == [] && exit == Threw(ServletException(COMMITTED_MESSAGE, None))
        && servletRequest.attributes == old(servletRequest.attributes)
        && servletResponse.buffer == old(servletResponse.buffer)
      ensures !old(servletResponse.committed) ==>
        && servletResponse.buffer == []
        && servletRequest.attributes == old(servletRequest.attributes) - {REQUEST_DISPATCHER_REQUEST}
        && var ps := ExtractParams(request.params, newRequestUri, define);
        && (ps.Err? ==> calls == [] && exit == Threw(ps.error))
        && (ps.Ok? ==> exit == handlerExit && calls == [RunAction(define.handler, ForwardWrapper(servletRequest, newRequestUri),
              ps.value, old(servletRequest.attributes)[REQUEST_DISPATCHER_REQUEST := BooleanTrue])])
        && (ps.Ok? ==> calls[0].view.RequestUri() == newRequestUri)
    {
      if servletResponse.committed {
        return [], Threw(ServletException(COMMITTED_MESSAGE, None));
      }
      servletResponse.ResetBuffer();
      var requestToProcess := ForwardWrapper(servletRequest, newRequestUri);
      servletRequest.SetAttribute(REQUEST_DISPATCHER_REQUEST, BooleanTrue);
      var overwriteHttpParams := GetParams(request, newRequestUri, define);
      if overwriteHttpParams.Ok? {
        calls := [RunAction(define.handler, requestToProcess, overwriteHttpParams.value, servletRequest.attributes)];
        exit := handlerExit;
      } else {
        calls, exit := [], Threw(overwriteHttpParams.error);
      }
      servletRequest.RemoveAttribute(REQUEST_DISPATCHER_REQUEST);
    }
  }
}
