/** What a mock route asks of a request, part by part: which bodies contain the expected one, and which
    methods, paths, parameters and headers fit. */
module MockMatching {
  import opened PyText
  import opened PyList
  import opened Json
  import opened RoutePaths
  import opened MockRouting

  // ---- bodies -----------------------------------------------------------------------------------

  /** An expected text is contained in exactly the texts that have it somewhere. */
  lemma TextIsContained(s: string, v: Json)
    ensures Contains(Str(s), v) <==> v.Str? && exists pre, post :: v.s == pre + s + post
  {
    if v.Str? {
      if Within(s, v.s) {
        var i: nat :| i <= |v.s| && OccursAt(s, v.s, i);
        assert v.s == v.s[..i] + s + v.s[i + |s|..];
      }
      if pre, post :| v.s == pre + s + post {
        assert v.s[|pre|..|pre| + |s|] == s;
        assert OccursAt(s, v.s, |pre|);
      }
    }
  }

  /** An expected object is contained in exactly the objects that have its keys, with values that contain
      the expected ones; further keys do not matter. */
  lemma ObjectIsContained(fields: map<string, Json>, v: Json)
    ensures Contains(Obj(fields), v) <==>
            v.Obj? && fields.Keys <= v.fields.Keys && forall k | k in fields && k in v.fields :: Contains(fields[k], v.fields[k])
  {
  }

  /** An expected list is contained in exactly the lists in which each of its items is contained in some
      item; neither order nor number matter. */
  lemma ListIsContained(items: seq<Json>, v: Json)
    ensures Contains(Arr(items), v) <==>
            v.Arr? && forall x | x in items :: exists y :: y in v.items && Contains(x, y)
  {
    if v.Arr? {
      if Contains(Arr(items), v) {
        forall x | x in items
          ensures exists y :: y in v.items && Contains(x, y)
        {
          var i :| 0 <= i < |items| && items[i] == x;
          assert InSome(items[i], v.items);
        }
      }
      if forall x | x in items :: exists y :: y in v.items && Contains(x, y) {
        forall i | 0 <= i < |items|
          ensures InSome(items[i], v.items)
        {
          assert items[i] in items;
          var y :| y in v.items && Contains(items[i], y);
        }
      }
    }
  }

  /** Null is contained in null alone, and numbers and booleans in those with the same number. */
  lemma ScalarIsContained(n: int, x: real, b: bool, v: Json)
    ensures Contains(Null, v) <==> v.Null?
    ensures Contains(Int(n), v) <==> Number(v) == Some(n as real)
    ensures Contains(Float(x), v) <==> Number(v) == Some(x)
    ensures Contains(Bool(b), v) <==> Number(v) == Some(if b then 1.0 else 0.0)
  {
  }

  /** Equality of bodies: the same text, the same number whatever its kind, lists of equal items, and
      objects with the same keys and equal values. */
  lemma EqualityIsRead(a: Json, b: Json, n: int, x: real, c: bool)
    ensures PyEq(Null, b) <==> b.Null?
    ensures a.Str? ==> (PyEq(a, b) <==> b == a)
    ensures PyEq(Int(n), Int(n)) && (PyEq(Int(n), Float(x)) <==> n as real == x) && (PyEq(Bool(c), Int(n)) <==> n == if c then 1 else 0)
    ensures a.Int? || a.Float? || a.Bool? ==> !(b.Null? || b.Str? || b.Arr? || b.Obj?) || !PyEq(a, b)
    ensures a.Arr? ==> (PyEq(a, b) <==> b.Arr? && |b.items| == |a.items| && forall i | 0 <= i < |a.items| && i < |b.items| :: PyEq(a.items[i], b.items[i]))
    ensures a.Obj? ==> (PyEq(a, b) <==> b.Obj? && a.fields.Keys == b.fields.Keys && forall k | k in a.fields && k in b.fields :: PyEq(a.fields[k], b.fields[k]))
  {
  }

  // ---- requests ---------------------------------------------------------------------------------

  /** The header of that name, in any case and spacing, has the text; a later header of the name replaces
      an earlier one. */
  ghost predicate HasHeader(headers: Pairs, name: string, value: string) {
    exists i :: 0 <= i < |headers| && SameName(headers[i].0, name) && headers[i].1 == value &&
                forall j | i < j < |headers| :: !SameName(headers[j].0, name)
  }

  predicate SameName(a: string, b: string) {
    var s, t := Strip(a), Strip(b);
    |s| == |t| && forall i | 0 <= i < |s| :: SameLetter(s[i], t[i])
  }

  lemma SameNameIsKey(a: string, b: string)
    ensures SameName(a, b) <==> LowerKey(a) == LowerKey(b)
  {
    hide Strip;
    var s, t := Strip(a), Strip(b);
    if |s| == |t| {
      forall i | 0 <= i < |s|
        ensures SameLetter(s[i], t[i]) <==> LowerChar(s[i]) == LowerChar(t[i])
      {
      }
      if LowerKey(a) == LowerKey(b) {
        forall i | 0 <= i < |s|
          ensures SameLetter(s[i], t[i])
        {
          assert Lower(s)[i] == Lower(t)[i];
        }
      }
    }
  }

  lemma {:induction false} LoweredHas(headers: Pairs, name: string, value: string)
    ensures LowerKey(name) in Lowered(headers) && Lowered(headers)[LowerKey(name)] == value <==> HasHeader(headers, name, value)
    decreases |headers|
  {
    hide LowerKey, SameName;
    if headers == [] {
    } else {
      var last, init := headers[|headers| - 1], headers[..|headers| - 1];
      LoweredHas(init, name, value);
      SameNameIsKey(last.0, name);
      if HasHeader(init, name, value) && !SameName(last.0, name) {
        var i :| 0 <= i < |init| && SameName(init[i].0, name) && init[i].1 == value &&
                 forall j | i < j < |init| :: !SameName(init[j].0, name);
        assert headers[i] == init[i] && forall j | i < j < |init| :: headers[j] == init[j];
      }
      if HasHeader(headers, name, value) && !SameName(last.0, name) {
        var i :| 0 <= i < |headers| && SameName(headers[i].0, name) && headers[i].1 == value &&
                 forall j | i < j < |headers| :: !SameName(headers[j].0, name);
        assert init[i] == headers[i] && forall j | i < j < |init| :: init[j] == headers[j];
      }
    }
  }

  /** The body of a request as the route sees it: the JSON body, or the raw text when there is none. */
  predicate BodyFits(r: Route, q: Request) {
    var actual := if q.bodyJson == Null then Str(q.bodyRaw) else q.bodyJson;
    || r.body == Null || (r.body.Str? && Spells(r.body.s, "ANY"))
    || (r.exact && PyEq(r.body, actual)) || (!r.exact && Contains(r.body, actual))
  }

  /** A route accepts exactly the requests with its method, in any case, its path once normalised, each of
      its parameters and headers with the expected text, and a fitting body. */
  lemma AcceptsExactly(r: Route, q: Request, text: Json -> string)
    requires forall i | 0 <= i < |r.httpMethod| :: !('a' <= r.httpMethod[i] <= 'z')
    ensures Accepts(r, q, text) <==>
            && Spells(q.httpMethod, r.httpMethod) && NormalizePath(q.path) == r.path
            && (forall k | k in r.params :: k in q.query && q.query[k] == text(r.params[k]))
            && (forall k | k in r.headers :: HasHeader(q.headers, k, text(r.headers[k])))
            && BodyFits(r, q)
  {
    hide Strip, Upper, Spells, NormalizePath, Lowered, Contains, PyEq, LowerKey, HasHeader;
    UpperSpells(q.httpMethod, r.httpMethod);
    if r.body.Str? {
      UpperSpells(r.body.s, "ANY");
    }
    forall k | k in r.headers
      ensures LowerKey(k) in Lowered(q.headers) && Lowered(q.headers)[LowerKey(k)] == text(r.headers[k])
              <==> HasHeader(q.headers, k, text(r.headers[k]))
    {
      LoweredHas(q.headers, k, text(r.headers[k]));
    }
  }

  /** The chosen route has the least priority number among those that accept the request, of these the least
      order, and of these the least id. */
  lemma LowestPriorityAnswers(routes: seq<Route>, q: Request, text: Json -> string, r: Route, s: Route)
    requires FirstMatch(Loaded(routes), q, text) == Some(r) && s in routes && Accepts(s, q, text)
    ensures r.priority <= s.priority
    ensures r.priority == s.priority ==> r.order <= s.order
    ensures r.priority == s.priority && r.order == s.order ==> LexLeq(r.id, s.id)
  {
    hide Accepts;
    ChosenIsLeast(routes, q, text);
  }
}
