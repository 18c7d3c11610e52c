/** Choosing the route of a mock request (mock_runtime_dispatcher.py, mock_runtime_loader.py). */
module MockRouting {
  import opened PyText
  import opened PyList
  import opened Json
  import opened RoutePaths

  predicate OccursAt(a: string, b: string, i: nat) { i + |a| <= |b| && b[i..i + |a|] == a }

  /** `a in b` on strings. */
  predicate Within(a: string, b: string) { exists i | 0 <= i <= |b| :: OccursAt(a, b, i) }

  /** `_contains`. */
  predicate Contains(expected: Json, actual: Json)
    decreases expected, 0
  {
    match expected
    case Obj(fields) =>
      actual.Obj? && forall k | k in fields :: k in actual.fields && Contains(fields[k], actual.fields[k])
    case Arr(items) =>
      actual.Arr? && forall i | 0 <= i < |items| :: InSome(items[i], actual.items)
    case Str(s) => actual.Str? && Within(s, actual.s)
    case _ => PyEq(expected, actual)
  }

  /** `any(_contains(expected, item) for item in actual)`. */
  predicate InSome(expected: Json, actual: seq<Json>)
    decreases expected, 1
  {
    exists j | 0 <= j < |actual| :: Contains(expected, actual[j])
  }

  lemma WithinReflexive(a: string)
    ensures Within(a, a)
  {
    assert OccursAt(a, a, 0);
  }

  lemma OccursTransitive(a: string, b: string, c: string, i: nat, j: nat)
    requires OccursAt(a, b, i) && OccursAt(b, c, j)
    ensures OccursAt(a, c, j + i)
  {
    forall k | 0 <= k < |a|
      ensures c[j + i + k] == a[k]
    {
      assert b[i..i + |a|][k] == b[i + k] && c[j..j + |b|][i + k] == c[j + i + k];
    }
    assert c[j + i..j + i + |a|] == a;
  }

  lemma WithinTransitive(a: string, b: string, c: string)
    requires Within(a, b) && Within(b, c)
    ensures Within(a, c)
  {
    hide OccursAt;
    var i: nat :| i <= |b| && OccursAt(a, b, i);
    var j: nat :| j <= |c| && OccursAt(b, c, j);
    OccursTransitive(a, b, c, i, j);
    OccursFits(a, c, j + i);
  }

  lemma OccursFits(a: string, b: string, i: nat)
    requires OccursAt(a, b, i)
    ensures i <= |b|
  {
  }

  /** Equality implies containment. */
  lemma {:induction false} EqualContains(a: Json, b: Json)
    requires PyEq(a, b)
    ensures Contains(a, b)
    decreases a
  {
    match a
    case Obj(fields) =>
      forall k | k in fields { EqualContains(fields[k], b.fields[k]); }
    case Arr(items) =>
      forall i | 0 <= i < |items|
        ensures InSome(items[i], b.items)
      {
        EqualContains(items[i], b.items[i]);
      }
    case Str(s) => WithinReflexive(s);
    case _ =>
  }

  lemma ContainsReflexive(a: Json)
    ensures Contains(a, a)
  {
    PyEqReflexive(a);
    EqualContains(a, a);
  }

  lemma {:induction false} ContainsTransitive(a: Json, b: Json, c: Json)
    requires Contains(a, b) && Contains(b, c)
    ensures Contains(a, c)
    decreases a
  {
    hide Within;
    match a
    case Obj(fields) =>
      forall k | k in fields { ContainsTransitive(fields[k], b.fields[k], c.fields[k]); }
    case Arr(items) =>
      forall i | 0 <= i < |items|
        ensures InSome(items[i], c.items)
      {
        assert InSome(items[i], b.items);
        var j :| 0 <= j < |b.items| && Contains(items[i], b.items[j]);
        assert InSome(b.items[j], c.items);
        var k :| 0 <= k < |c.items| && Contains(b.items[j], c.items[k]);
        ContainsTransitive(items[i], b.items[j], c.items[k]);
      }
    case Str(s) => WithinTransitive(s, b.s, c.s);
    case _ => PyEqTransitive(a, b, c);
  }

  // ---- matching ---------------------------------------------------------------------------------

  type Pairs = seq<(string, string)>

  function LowerKey(k: string): string { Lower(Strip(k)) }

  /** `{str(key).strip().lower(): value ...}` */
  function Lowered(pairs: Pairs): map<string, string> {
    if pairs == [] then map[]
    else
      var last := pairs[|pairs| - 1];
      Lowered(pairs[..|pairs| - 1])[LowerKey(last.0) := last.1]
  }

  /** A request; `text` on JSON values is `str`. */
  datatype Request = Request(httpMethod: string, path: string, query: map<string, string>, headers: Pairs,
                             bodyJson: Json, bodyRaw: string)

  datatype Route = Route(id: string, order: int, priority: int, httpMethod: string, path: string,
                         params: map<string, Json>, headers: map<string, Json>, body: Json, exact: bool)

  predicate ParamsMatch(expected: map<string, Json>, actual: map<string, string>, text: Json -> string) {
    forall k | k in expected :: k in actual && actual[k] == text(expected[k])
  }

  predicate HeadersMatch(expected: map<string, Json>, actual: map<string, string>, text: Json -> string) {
    forall k | k in expected :: LowerKey(k) in actual && actual[LowerKey(k)] == text(expected[k])
  }

  /** `_body_matches`. */
  predicate BodyMatches(r: Route, bodyJson: Json, bodyRaw: string) {
    if r.body.Null? || (r.body.Str? && Upper(Strip(r.body.s)) == "ANY") then true
    else
      var actual := if bodyJson.Null? then Str(bodyRaw) else bodyJson;
      if r.exact then PyEq(r.body, actual) else Contains(r.body, actual)
  }

  /** Header names are lowered by the dispatcher and again by `_map_matches`, which finds them in normal form. */
  lemma {:induction false} LoweredKeys(pairs: Pairs)
    ensures forall k | k in Lowered(pairs) :: LowerKey(k) == k
  {
    hide Lower, Strip;
    if pairs == [] {
    } else {
      LoweredKeys(pairs[..|pairs| - 1]);
      StripLowerIdempotent(pairs[|pairs| - 1].0);
    }
  }

  predicate Accepts(r: Route, q: Request, text: Json -> string) {
    && r.httpMethod == Upper(Strip(q.httpMethod)) && r.path == NormalizePath(q.path)
    && ParamsMatch(r.params, q.query, text) && HeadersMatch(r.headers, Lowered(q.headers), text)
    && BodyMatches(r, q.bodyJson, q.bodyRaw)
  }

  /** `_find_matching_api_route`. */
  method FindMatchingApiRoute(apis: seq<Route>, q: Request, text: Json -> string) returns (r: Option<Route>)
    ensures r == FirstMatch(apis, q, text)
  {
    hide Accepts;
    for i := 0 to |apis|
      invariant FirstMatch(apis, q, text) == FirstMatch(apis[i..], q, text)
    {
      assert apis[i..][0] == apis[i] && apis[i..][1..] == apis[i + 1..];
      if Accepts(apis[i], q, text) {
        return Some(apis[i]);
      }
    }
    r := None;
  }

  function FirstMatch(apis: seq<Route>, q: Request, text: Json -> string): Option<Route> {
    if apis == [] then None
    else if Accepts(apis[0], q, text) then Some(apis[0])
    else FirstMatch(apis[1..], q, text)
  }

  /** The sort key `(priority, order, id)`. */
  predicate RouteLeq(a: Route, b: Route) {
    a.priority < b.priority || (a.priority == b.priority &&
      (a.order < b.order || (a.order == b.order && LexLeq(a.id, b.id))))
  }

  function Loaded(routes: seq<Route>): seq<Route> { SortBy(routes, RouteLeq) }

  lemma RoutesAreOrdered()
    ensures TotalPreorder(RouteLeq)
  {
    forall a: Route, b: Route
      ensures RouteLeq(a, b) || RouteLeq(b, a)
    {
      LexTotal(a.id, b.id);
    }
    forall a: Route, b: Route, c: Route | RouteLeq(a, b) && RouteLeq(b, c)
      ensures RouteLeq(a, c)
    {
      if a.priority == c.priority && a.order == c.order {
        LexTransitive(a.id, b.id, c.id);
      }
    }
  }

  lemma {:induction false} FirstMatchIsFirst(apis: seq<Route>, q: Request, text: Json -> string)
    ensures match FirstMatch(apis, q, text)
            case None => forall i | 0 <= i < |apis| :: !Accepts(apis[i], q, text)
            case Some(r) => exists k :: 0 <= k < |apis| && apis[k] == r && Accepts(r, q, text) &&
                                        forall i | 0 <= i < k :: !Accepts(apis[i], q, text)
  {
    hide Accepts;
    if apis == [] || Accepts(apis[0], q, text) {
    } else {
      var rest := apis[1..];
      FirstMatchIsFirst(rest, q, text);
      assert forall i | 0 <= i < |rest| :: rest[i] == apis[i + 1];
      var found := FirstMatch(rest, q, text);
      if found.Some? {
        var k :| 0 <= k < |rest| && rest[k] == found.value && Accepts(found.value, q, text) &&
                 forall i | 0 <= i < k :: !Accepts(rest[i], q, text);
        assert apis[k + 1] == found.value;
        forall i | 0 <= i < k + 1
          ensures !Accepts(apis[i], q, text)
        {
          assert i > 0 ==> apis[i] == rest[i - 1];
        }
      }
    }
  }

  ghost predicate DistinctIds(routes: seq<Route>) {
    forall i, j | 0 <= i < |routes| && 0 <= j < |routes| && routes[i].id == routes[j].id :: routes[i] == routes[j]
  }

  /** The chosen route is the matching one with the least (priority, order, id), and there is one
      whenever any loaded route matches. */
  lemma ChosenIsLeast(routes: seq<Route>, q: Request, text: Json -> string)
    ensures match FirstMatch(Loaded(routes), q, text)
            case None => forall r | r in routes :: !Accepts(r, q, text)
            case Some(r) => r in routes && Accepts(r, q, text) &&
                            forall s | s in routes && Accepts(s, q, text) :: RouteLeq(r, s)
  {
    hide Accepts, RouteLeq;
    var apis := Loaded(routes);
    RoutesAreOrdered();
    SortByIsSorted(routes, RouteLeq);
    MultisetMembers(apis, routes);
    FirstMatchIsFirst(apis, q, text);
    var found := FirstMatch(apis, q, text);
    if found.Some? {
      LeastAccepting(apis, q, text, found.value);
    } else {
      forall r | r in routes
        ensures !Accepts(r, q, text)
      {
        assert r in apis;
      }
    }
  }

  lemma LeastAccepting(apis: seq<Route>, q: Request, text: Json -> string, r: Route)
    requires SortedBy(apis, RouteLeq)
    requires exists k :: 0 <= k < |apis| && apis[k] == r && Accepts(r, q, text) &&
                         forall i | 0 <= i < k :: !Accepts(apis[i], q, text)
    ensures r in apis && Accepts(r, q, text) && forall s | s in apis && Accepts(s, q, text) :: RouteLeq(r, s)
  {
    hide Accepts, RouteLeq;
    var k :| 0 <= k < |apis| && apis[k] == r && Accepts(r, q, text) && forall i | 0 <= i < k :: !Accepts(apis[i], q, text);
    forall s | s in apis && Accepts(s, q, text)
      ensures RouteLeq(r, s)
    {
      var i :| 0 <= i < |apis| && apis[i] == s;
      RouteSelf(s);
    }
  }

  lemma RouteSelf(r: Route)
    ensures RouteLeq(r, r)
  {
    LexTotal(r.id, r.id);
  }

  /** The same routes in another load order give the same choice. */
  lemma LoadOrderIsIrrelevant(routes: seq<Route>, others: seq<Route>, q: Request, text: Json -> string)
    requires multiset(routes) == multiset(others) && DistinctIds(routes)
    ensures FirstMatch(Loaded(routes), q, text) == FirstMatch(Loaded(others), q, text)
  {
    hide Accepts;
    MultisetMembers(routes, others);
    ChosenIsLeast(routes, q, text);
    ChosenIsLeast(others, q, text);
    var a, b := FirstMatch(Loaded(routes), q, text), FirstMatch(Loaded(others), q, text);
    if a.Some? && b.Some? {
      LeqBothWays(a.value, b.value);
      var i :| 0 <= i < |routes| && routes[i] == a.value;
      var j :| 0 <= j < |routes| && routes[j] == b.value;
    }
  }

  lemma LeqBothWays(a: Route, b: Route)
    requires RouteLeq(a, b) && RouteLeq(b, a)
    ensures a.id == b.id
  {
    LexTotal(a.id, b.id);
  }

  // ---- from equals to contains ------------------------------------------------------------------

  function Relaxed(r: Route): Route { r.(exact := false) }

  lemma RelaxedAcceptsMore(r: Route, q: Request, text: Json -> string)
    requires Accepts(r, q, text)
    ensures Accepts(Relaxed(r), q, text)
  {
    hide Contains, PyEq, ParamsMatch, HeadersMatch, NormalizePath, Lowered, Upper, Strip;
    var actual := if q.bodyJson.Null? then Str(q.bodyRaw) else q.bodyJson;
    if r.exact && PyEq(r.body, actual) {
      EqualContains(r.body, actual);
    }
  }

  /** Switching routes from `equals` to `contains` never loses a request: whatever was answered is still
      answered, by a route that is not later in the order. */
  lemma RelaxingLosesNothing(routes: seq<Route>, relaxed: seq<Route>, q: Request, text: Json -> string)
    requires |relaxed| == |routes| && forall i | 0 <= i < |routes| :: relaxed[i] == routes[i] || relaxed[i] == Relaxed(routes[i])
    requires FirstMatch(Loaded(routes), q, text).Some?
    ensures FirstMatch(Loaded(relaxed), q, text).Some?
    ensures RouteLeq(FirstMatch(Loaded(relaxed), q, text).value, FirstMatch(Loaded(routes), q, text).value)
  {
    hide Accepts;
    ChosenIsLeast(routes, q, text);
    ChosenIsLeast(relaxed, q, text);
    var r := FirstMatch(Loaded(routes), q, text).value;
    RelaxedAcceptsMore(r, q, text);
    var i :| 0 <= i < |routes| && routes[i] == r;
    assert relaxed[i] in relaxed && Accepts(relaxed[i], q, text);
  }
}
