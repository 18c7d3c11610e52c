/** Importing the operations of an OpenAPI document as mock routes (openapi_import_service.py). */
module OpenApiImport {
  import opened PyText
  import opened Json
  import opened RoutePaths

  const METHODS := ["GET", "POST", "PUT", "DELETE", "PATCH", "HEAD", "OPTIONS"]

  /** An operation of the document under its method and normalised path. */
  datatype Operation = Operation(httpMethod: string, path: string, content: Json)

  /** A route to append; `content` stands for the response built from the operation. */
  datatype Api = Api(order: nat, httpMethod: string, path: string, content: Json)

  type Route = (string, string)

  datatype Outcome = Outcome(apis: seq<Api>, skipped: seq<string>, discovered: set<Route>)

  function KeyOf(op: Operation): Route { (op.httpMethod, op.path) }

  /** `_route_label` normalises the path once more. */
  function Label(op: Operation): string { op.httpMethod + " " + NormalizePath(op.path) }

  /** `_build_mock_api` normalises the path once more. */
  function Build(op: Operation, order: nat): Api { Api(order, op.httpMethod, NormalizePath(op.path), op.content) }

  /** The valid operations of one path, in the fixed order of the methods. */
  function OperationsOf(item: Json, path: string, methods: seq<string>): seq<Operation> {
    if methods == [] then []
    else
      var init, m := methods[..|methods| - 1], methods[|methods| - 1];
      OperationsOf(item, path, init)
      + if item.Obj? && Lower(m) in item.fields && item.fields[Lower(m)].Obj?
        then [Operation(m, path, item.fields[Lower(m)])] else []
  }

  /** The valid operations of a document, in its order. */
  function Operations(paths: seq<(string, Json)>): seq<Operation> {
    if paths == [] then []
    else
      var last := paths[|paths| - 1];
      Operations(paths[..|paths| - 1]) + OperationsOf(last.1, NormalizePath(last.0), METHODS)
  }

  /** `_normalize_existing_routes`. */
  function KnownRoutes(existing: set<Route>): set<Route> {
    set r | r in existing :: (Upper(Strip(r.0)), NormalizePath(r.1))
  }

  function Take(o: Outcome, known: set<Route>, op: Operation): Outcome {
    if KeyOf(op) in known || KeyOf(op) in o.discovered then o.(skipped := o.skipped + [Label(op)])
    else Outcome(o.apis + [Build(op, |o.apis| + 1)], o.skipped, o.discovered + {KeyOf(op)})
  }

  function TakeAll(known: set<Route>, ops: seq<Operation>): Outcome {
    if ops == [] then Outcome([], [], {})
    else Take(TakeAll(known, ops[..|ops| - 1]), known, ops[|ops| - 1])
  }

  /** `import_openapi_json` on the paths of a valid document. */
  method ImportOpenapiJson(paths: seq<(string, Json)>, existing: set<Route>)
    returns (apis: seq<Api>, skipped: seq<string>)
    ensures (apis, skipped) == (TakeAll(KnownRoutes(existing), Operations(paths)).apis,
                                TakeAll(KnownRoutes(existing), Operations(paths)).skipped)
  {
    hide KnownRoutes, NormalizePath, Take, OperationsOf;
    var known := KnownRoutes(existing);
    var discovered: set<Route> := {};
    apis, skipped := [], [];
    for i := 0 to |paths|
      invariant Outcome(apis, skipped, discovered) == TakeAll(known, Operations(paths[..i]))
    {
      ghost var before := Operations(paths[..i]);
      assert paths[..i + 1][..i] == paths[..i];
      if paths[i].1.Obj? {
        apis, skipped, discovered :=
          ImportPath(paths[i].1, NormalizePath(paths[i].0), known, Outcome(apis, skipped, discovered), before);
      } else {
        NoOperations(paths[i].1, NormalizePath(paths[i].0), METHODS);
        assert before + [] == before;
      }
    }
    assert paths[..|paths|] == paths;
  }

  /** The loop over the methods of one path. */
  method ImportPath(item: Json, path: string, known: set<Route>, o: Outcome, ghost before: seq<Operation>)
    returns (apis: seq<Api>, skipped: seq<string>, discovered: set<Route>)
    requires item.Obj? && o == TakeAll(known, before)
    ensures Outcome(apis, skipped, discovered) == TakeAll(known, before + OperationsOf(item, path, METHODS))
  {
    hide TakeAll, OperationsOf, Lower;
    apis, skipped, discovered := o.apis, o.skipped, o.discovered;
    NoMethods(item, path, before);
    for k := 0 to |METHODS|
      invariant Outcome(apis, skipped, discovered) == TakeAll(known, before + OperationsOf(item, path, METHODS[..k]))
    {
      var m := METHODS[k];
      NextMethod(item, path, METHODS[..k], m, before, known);
      assert METHODS[..k + 1] == METHODS[..k] + [m];
      if Lower(m) in item.fields && item.fields[Lower(m)].Obj? {
        var op := Operation(m, path, item.fields[Lower(m)]);
        if KeyOf(op) in known || KeyOf(op) in discovered {
          skipped := skipped + [Label(op)];
        } else {
          discovered := discovered + {KeyOf(op)};
          apis := apis + [Build(op, |apis| + 1)];
        }
      }
    }
    assert METHODS[..|METHODS|] == METHODS;
  }

  lemma NoMethods(item: Json, path: string, before: seq<Operation>)
    ensures before + OperationsOf(item, path, METHODS[..0]) == before
  {
  }

  lemma NextMethod(item: Json, path: string, methods: seq<string>, m: string, before: seq<Operation>, known: set<Route>)
    requires item.Obj?
    ensures var done := before + OperationsOf(item, path, methods);
            TakeAll(known, before + OperationsOf(item, path, methods + [m])) ==
            if Lower(m) in item.fields && item.fields[Lower(m)].Obj?
            then Take(TakeAll(known, done), known, Operation(m, path, item.fields[Lower(m)]))
            else TakeAll(known, done)
  {
    hide Take, Lower;
    assert (methods + [m])[..|methods|] == methods;
    var done := before + OperationsOf(item, path, methods);
    if Lower(m) in item.fields && item.fields[Lower(m)].Obj? {
      var op := Operation(m, path, item.fields[Lower(m)]);
      assert before + (OperationsOf(item, path, methods) + [op]) == done + [op];
      assert (done + [op])[..|done|] == done;
    } else {
      assert before + (OperationsOf(item, path, methods) + []) == done;
    }
  }

  lemma {:induction false} NoOperations(item: Json, path: string, methods: seq<string>)
    requires !item.Obj?
    ensures OperationsOf(item, path, methods) == []
  {
    if methods == [] {
    } else {
      NoOperations(item, path, methods[..|methods| - 1]);
    }
  }

  // ---- every operation is accounted for ---------------------------------------------------------

  /** The first operation of the document with its route, and the route is not known. */
  ghost predicate Fresh(known: set<Route>, ops: seq<Operation>, i: nat)
    requires i < |ops|
  {
    KeyOf(ops[i]) !in known && forall j | 0 <= j < i :: KeyOf(ops[j]) != KeyOf(ops[i])
  }

  /** The positions of the fresh operations among the first `n`, and of the others. */
  ghost function Chosen(known: set<Route>, ops: seq<Operation>, n: nat, isNew: bool): (r: seq<nat>)
    requires n <= |ops|
    ensures forall k | 0 <= k < |r| :: r[k] < n && (Fresh(known, ops, r[k]) <==> isNew)
    ensures forall j, k | 0 <= j < k < |r| :: r[j] < r[k]
  {
    if n == 0 then []
    else Chosen(known, ops, n - 1, isNew) + if Fresh(known, ops, n - 1) <==> isNew then [n - 1] else []
  }

  lemma {:induction false} ChosenHasAll(known: set<Route>, ops: seq<Operation>, n: nat, isNew: bool, i: nat)
    requires i < n <= |ops| && (Fresh(known, ops, i) <==> isNew)
    ensures i in Chosen(known, ops, n, isNew)
  {
    hide Fresh;
    if i >= n - 1 {
    } else {
      ChosenHasAll(known, ops, n - 1, isNew, i);
    }
  }

  ghost predicate Accounts(known: set<Route>, ops: seq<Operation>, n: nat, o: Outcome)
    requires n <= |ops|
  {
    var chosen, rest := Chosen(known, ops, n, true), Chosen(known, ops, n, false);
    && |o.apis| == |chosen| && |o.skipped| == |rest|
    && (forall k | 0 <= k < |chosen| :: o.apis[k] == Build(ops[chosen[k]], k + 1))
    && (forall k | 0 <= k < |rest| :: o.skipped[k] == Label(ops[rest[k]]))
    && Discovers(known, ops, n, o)
  }

  ghost predicate Discovers(known: set<Route>, ops: seq<Operation>, n: nat, o: Outcome)
    requires n <= |ops|
  {
    forall x :: x in o.discovered <==> exists k :: 0 <= k < n && KeyOf(ops[k]) == x && x !in known
  }

  lemma {:induction false} TakeAllAccounts(known: set<Route>, ops: seq<Operation>, n: nat)
    requires n <= |ops|
    ensures Accounts(known, ops, n, TakeAll(known, ops[..n]))
    ensures |Chosen(known, ops, n, true)| + |Chosen(known, ops, n, false)| == n
  {
    hide Accounts, Take, Chosen;
    if n == 0 {
      NoneChosen(known, ops);
    } else {
      TakeAllAccounts(known, ops, n - 1);
      assert ops[..n][..n - 1] == ops[..n - 1];
      ChosenNext(known, ops, n - 1, true);
      ChosenNext(known, ops, n - 1, false);
      TakeAccounts(known, ops, n - 1, TakeAll(known, ops[..n - 1]));
    }
  }

  lemma NoneChosen(known: set<Route>, ops: seq<Operation>)
    ensures Chosen(known, ops, 0, true) == Chosen(known, ops, 0, false) == []
    ensures Accounts(known, ops, 0, TakeAll(known, ops[..0]))
  {
  }

  lemma ChosenNext(known: set<Route>, ops: seq<Operation>, n: nat, isNew: bool)
    requires n < |ops|
    ensures Chosen(known, ops, n + 1, isNew) ==
            if Fresh(known, ops, n) <==> isNew then Chosen(known, ops, n, isNew) + [n] else Chosen(known, ops, n, isNew)
  {
    hide Fresh;
  }

  lemma TakeAccounts(known: set<Route>, ops: seq<Operation>, n: nat, o: Outcome)
    requires n < |ops| && Accounts(known, ops, n, o)
    ensures Accounts(known, ops, n + 1, Take(o, known, ops[n]))
  {
    hide Build, Label, Chosen, Fresh, Discovers;
    ChosenNext(known, ops, n, true);
    ChosenNext(known, ops, n, false);
    FreshIsNew(known, ops, n, o);
    DiscoveredNext(known, ops, n, o);
  }

  lemma DiscoveredNext(known: set<Route>, ops: seq<Operation>, n: nat, o: Outcome)
    requires n < |ops| && Discovers(known, ops, n, o)
    ensures Discovers(known, ops, n + 1, Take(o, known, ops[n]))
  {
    hide Build, Label;
    var r := Take(o, known, ops[n]);
    forall x
      ensures x in r.discovered <==> exists k :: 0 <= k < n + 1 && KeyOf(ops[k]) == x && x !in known
    {
      assert (exists k :: 0 <= k < n + 1 && KeyOf(ops[k]) == x && x !in known) <==>
               ((exists k :: 0 <= k < n && KeyOf(ops[k]) == x && x !in known) || (KeyOf(ops[n]) == x && x !in known));
    }
  }

  lemma FreshIsNew(known: set<Route>, ops: seq<Operation>, n: nat, o: Outcome)
    requires n < |ops| && Discovers(known, ops, n, o)
    ensures Fresh(known, ops, n) <==> KeyOf(ops[n]) !in known && KeyOf(ops[n]) !in o.discovered
  {
  }

  /** Each valid operation is imported or reported as skipped, exactly once: the imported ones are the
      first of their route, in document order and numbered 1, 2, ...; all others are skipped. */
  lemma EveryOperationOnce(paths: seq<(string, Json)>, existing: set<Route>)
    ensures var known, ops := KnownRoutes(existing), Operations(paths);
            var o := TakeAll(known, ops);
            var chosen, rest := Chosen(known, ops, |ops|, true), Chosen(known, ops, |ops|, false);
            && |o.apis| + |o.skipped| == |ops| && |o.apis| == |chosen| && |o.skipped| == |rest|
            && (forall k | 0 <= k < |chosen| :: o.apis[k] == Build(ops[chosen[k]], k + 1))
            && (forall k | 0 <= k < |rest| :: o.skipped[k] == Label(ops[rest[k]]))
  {
    hide KnownRoutes, Operations, Chosen, Build, Label;
    var known, ops := KnownRoutes(existing), Operations(paths);
    TakeAllAccounts(known, ops, |ops|);
    assert ops[..|ops|] == ops;
  }

  // ---- distinct routes --------------------------------------------------------------------------

  /** Every path of the document has a normal form that normalising keeps. */
  ghost predicate NormalPaths(ops: seq<Operation>) {
    forall i | 0 <= i < |ops| :: NormalizePath(ops[i].path) == ops[i].path
  }

  /** With such paths, the imported routes are pairwise distinct and none was known. */
  lemma ImportedAreDistinct(known: set<Route>, ops: seq<Operation>, j: nat, k: nat)
    requires NormalPaths(ops) && j < |TakeAll(known, ops).apis| && k < |TakeAll(known, ops).apis|
    ensures var apis := TakeAll(known, ops).apis;
            && (apis[j].httpMethod, apis[j].path) !in known
            && (j != k ==> (apis[j].httpMethod, apis[j].path) != (apis[k].httpMethod, apis[k].path))
            && apis[j].order == j + 1
  {
    hide NormalizePath, TakeAll;
    TakeAllAccounts(known, ops, |ops|);
    assert ops[..|ops|] == ops;
    var chosen := Chosen(known, ops, |ops|, true);
    assert Fresh(known, ops, chosen[j]) && Fresh(known, ops, chosen[k]);
  }

  /** The routes of imported apis, as the next import is told of them. */
  function RoutesOf(apis: seq<Api>): set<Route> { set a | a in apis :: (a.httpMethod, a.path) }

  lemma UpperMethods(ops: seq<Operation>)
    requires forall i | 0 <= i < |ops| :: ops[i].httpMethod in METHODS
    ensures forall i | 0 <= i < |ops| :: Upper(Strip(ops[i].httpMethod)) == ops[i].httpMethod
  {
    forall i | 0 <= i < |ops|
      ensures Upper(Strip(ops[i].httpMethod)) == ops[i].httpMethod
    {
      MethodIsNormal(ops[i].httpMethod);
    }
  }

  lemma MethodIsNormal(m: string)
    requires m in METHODS
    ensures Upper(Strip(m)) == m
  {
    hide Strip;
    StripKeeps(m);
  }

  lemma {:induction false} OneOfMethods(item: Json, path: string, methods: seq<string>)
    requires forall m | m in methods :: m in METHODS
    ensures forall i | 0 <= i < |OperationsOf(item, path, methods)| ::
              OperationsOf(item, path, methods)[i].httpMethod in METHODS && OperationsOf(item, path, methods)[i].path == path
  {
    if methods == [] {
    } else {
      OneOfMethods(item, path, methods[..|methods| - 1]);
      assert methods[|methods| - 1] in methods;
    }
  }

  lemma {:induction false} OperationMethods(paths: seq<(string, Json)>)
    ensures forall i | 0 <= i < |Operations(paths)| :: Operations(paths)[i].httpMethod in METHODS
  {
    hide NormalizePath;
    if paths == [] {
    } else {
      var last := paths[|paths| - 1];
      OperationMethods(paths[..|paths| - 1]);
      OneOfMethods(last.1, NormalizePath(last.0), METHODS);
    }
  }

  lemma {:induction false} NothingFresh(known: set<Route>, ops: seq<Operation>)
    requires forall i | 0 <= i < |ops| :: KeyOf(ops[i]) in known
    ensures TakeAll(known, ops).apis == []
  {
    if ops == [] {
    } else {
      NothingFresh(known, ops[..|ops| - 1]);
    }
  }

  ghost function FirstWithKey(ops: seq<Operation>, i: nat): (k: nat)
    requires i < |ops|
    ensures k <= i && KeyOf(ops[k]) == KeyOf(ops[i]) && forall j | 0 <= j < k :: KeyOf(ops[j]) != KeyOf(ops[i])
  {
    if exists j :: 0 <= j < i && KeyOf(ops[j]) == KeyOf(ops[i]) then
      var j :| 0 <= j < i && KeyOf(ops[j]) == KeyOf(ops[i]);
      FirstWithKey(ops, j)
    else i
  }

  /** The route of an imported operation, as the next import reads it. */
  function ReadBack(op: Operation): Route { (op.httpMethod, NormalizePath(NormalizePath(op.path))) }

  ghost predicate IsReadBack(known: set<Route>, ops: seq<Operation>, x: Route) {
    exists j :: 0 <= j < |ops| && KeyOf(ops[j]) !in known && ReadBack(ops[j]) == x
  }

  /** The facts about the imported routes that the next lemmas share. */
  lemma Imported(paths: seq<(string, Json)>, existing: set<Route>)
    ensures var known, ops := KnownRoutes(existing), Operations(paths);
            && Accounts(known, ops, |ops|, TakeAll(known, ops))
            && forall i | 0 <= i < |ops| :: Upper(Strip(ops[i].httpMethod)) == ops[i].httpMethod
  {
    hide NormalizePath, Operations, TakeAll, Upper, Strip, Accounts;
    var known, ops := KnownRoutes(existing), Operations(paths);
    OperationMethods(paths);
    UpperMethods(ops);
    TakeAllAccounts(known, ops, |ops|);
    assert ops[..|ops|] == ops;
  }

  lemma KnownIsReadBack(known: set<Route>, ops: seq<Operation>, o: Outcome, existing: set<Route>, x: Route)
    requires known == KnownRoutes(existing) && Accounts(known, ops, |ops|, o)
    requires forall i | 0 <= i < |ops| :: Upper(Strip(ops[i].httpMethod)) == ops[i].httpMethod
    requires x in KnownRoutes(existing + RoutesOf(o.apis)) && x !in known
    ensures IsReadBack(known, ops, x)
  {
    hide NormalizePath, Upper, Strip, Fresh, Label, Discovers;
    var chosen := Chosen(known, ops, |ops|, true);
    var r :| r in existing + RoutesOf(o.apis) && x == (Upper(Strip(r.0)), NormalizePath(r.1));
    assert r !in existing;
    var a :| a in o.apis && r == (a.httpMethod, a.path);
    var c :| 0 <= c < |chosen| && o.apis[c] == a;
    FreshIsUnknown(known, ops, chosen[c]);
    assert ReadBack(ops[chosen[c]]) == x;
  }

  lemma ReadBackIsKnown(known: set<Route>, ops: seq<Operation>, o: Outcome, existing: set<Route>, x: Route)
    requires known == KnownRoutes(existing) && Accounts(known, ops, |ops|, o)
    requires forall i | 0 <= i < |ops| :: Upper(Strip(ops[i].httpMethod)) == ops[i].httpMethod
    requires IsReadBack(known, ops, x)
    ensures x in KnownRoutes(existing + RoutesOf(o.apis))
  {
    hide NormalizePath, Upper, Strip, Fresh, Label, Discovers;
    var chosen := Chosen(known, ops, |ops|, true);
    var j :| 0 <= j < |ops| && KeyOf(ops[j]) !in known && ReadBack(ops[j]) == x;
    var k := FirstIsFresh(known, ops, j);
    ChosenHasAll(known, ops, |ops|, true, k);
    var c :| 0 <= c < |chosen| && chosen[c] == k;
    var a := o.apis[c];
    assert a == Build(ops[k], c + 1) && (a.httpMethod, a.path) in RoutesOf(o.apis);
    assert (a.httpMethod, a.path) in existing + RoutesOf(o.apis);
  }

  /** What the next import knows: what this one knew, and the imported routes. */
  lemma KnownAgain(paths: seq<(string, Json)>, existing: set<Route>, x: Route)
    ensures var known, ops := KnownRoutes(existing), Operations(paths);
            x in KnownRoutes(existing + RoutesOf(TakeAll(known, ops).apis)) <==> x in known || IsReadBack(known, ops, x)
  {
    hide NormalizePath, Operations, TakeAll, Upper, Strip, Accounts, IsReadBack, RoutesOf;
    var known, ops := KnownRoutes(existing), Operations(paths);
    var first := TakeAll(known, ops);
    Imported(paths, existing);
    if x in known {
      var r :| r in existing && x == (Upper(Strip(r.0)), NormalizePath(r.1));
      assert r in existing + RoutesOf(first.apis);
    } else if IsReadBack(known, ops, x) {
      ReadBackIsKnown(known, ops, first, existing, x);
    } else if x in KnownRoutes(existing + RoutesOf(first.apis)) {
      KnownIsReadBack(known, ops, first, existing, x);
    }
  }

  lemma FreshIsUnknown(known: set<Route>, ops: seq<Operation>, i: nat)
    requires i < |ops| && Fresh(known, ops, i)
    ensures KeyOf(ops[i]) !in known
  {
  }

  lemma FirstIsFresh(known: set<Route>, ops: seq<Operation>, i: nat) returns (k: nat)
    requires i < |ops| && KeyOf(ops[i]) !in known
    ensures k < |ops| && Fresh(known, ops, k) && KeyOf(ops[k]) == KeyOf(ops[i])
  {
    k := FirstWithKey(ops, i);
  }

  /** Nothing is imported exactly when every operation's route is known. */
  lemma NothingNew(known: set<Route>, ops: seq<Operation>)
    ensures TakeAll(known, ops).apis == [] <==> forall i | 0 <= i < |ops| :: KeyOf(ops[i]) in known
  {
    hide Fresh, TakeAll;
    if forall i | 0 <= i < |ops| :: KeyOf(ops[i]) in known {
      NothingFresh(known, ops);
    } else {
      var i :| 0 <= i < |ops| && KeyOf(ops[i]) !in known;
      var k := FirstIsFresh(known, ops, i);
      TakeAllAccounts(known, ops, |ops|);
      assert ops[..|ops|] == ops;
      ChosenHasAll(known, ops, |ops|, true, k);
    }
  }

  /** Importing again, now that the imported routes exist, adds nothing if and only if the route of every
      imported operation is among the imported routes as they are read back. */
  lemma ReimportExactly(paths: seq<(string, Json)>, existing: set<Route>)
    ensures var known, ops := KnownRoutes(existing), Operations(paths);
            TakeAll(KnownRoutes(existing + RoutesOf(TakeAll(known, ops).apis)), ops).apis == []
            <==> forall i | 0 <= i < |ops| && KeyOf(ops[i]) !in known :: IsReadBack(known, ops, KeyOf(ops[i]))
  {
    hide KnownRoutes, Operations, TakeAll, IsReadBack;
    var known, ops := KnownRoutes(existing), Operations(paths);
    var again := KnownRoutes(existing + RoutesOf(TakeAll(known, ops).apis));
    NothingNew(again, ops);
    forall i | 0 <= i < |ops|
      ensures KeyOf(ops[i]) in again <==> KeyOf(ops[i]) in known || IsReadBack(known, ops, KeyOf(ops[i]))
    {
      KnownAgain(paths, existing, KeyOf(ops[i]));
    }
  }

  /** So it adds nothing when the paths are in normal form. */
  lemma ReimportAddsNothing(paths: seq<(string, Json)>, existing: set<Route>)
    requires NormalPaths(Operations(paths))
    ensures var first := TakeAll(KnownRoutes(existing), Operations(paths));
            TakeAll(KnownRoutes(existing + RoutesOf(first.apis)), Operations(paths)).apis == []
  {
    hide KnownRoutes, Operations, TakeAll, NormalizePath;
    ReimportExactly(paths, existing);
    var known, ops := KnownRoutes(existing), Operations(paths);
    forall i | 0 <= i < |ops| && KeyOf(ops[i]) !in known
      ensures IsReadBack(known, ops, KeyOf(ops[i]))
    {
      assert ReadBack(ops[i]) == KeyOf(ops[i]);
    }
  }

  // ---- paths that are not in normal form --------------------------------------------------------

  /** A document with the paths "/a /" and "/a": both are imported, as the same route, and importing the
      document again imports the first once more. */
  lemma SpacedPathIsImportedTwice(content: Json)
    ensures var ops := [Operation("GET", NormalizePath("/a /"), content), Operation("GET", NormalizePath("/a"), content)];
            var first := TakeAll({}, ops);
            && |first.apis| == 2 && first.apis[0].path == first.apis[1].path == "/a"
            && |TakeAll(KnownRoutes(RoutesOf(first.apis)), ops).apis| == 1
  {
    hide NormalizePath, Upper, Strip;
    SpacedPaths();
    var one, two := Operation("GET", "/a ", content), Operation("GET", "/a", content);
    var ops := [one, two];
    assert ops[..1] == [one] && [one][..0] == [];
    MethodIsNormal("GET");
    var first := TakeAll({}, ops);
    assert TakeAll({}, [one]) == Outcome([Build(one, 1)], [], {("GET", "/a ")});
    assert first == Outcome([Build(one, 1), Build(two, 2)], [], {("GET", "/a "), ("GET", "/a")});
    assert RoutesOf(first.apis) == {("GET", "/a")} by {
      assert Build(one, 1) in first.apis;
    }
    var known := KnownRoutes(RoutesOf(first.apis));
    assert known == {("GET", "/a")};
    assert TakeAll(known, [one]) == Outcome([Build(one, 1)], [], {("GET", "/a ")});
  }

  lemma SpacedPaths()
    ensures NormalizePath("/a /") == "/a " && NormalizePath("/a ") == "/a" && NormalizePath("/a") == "/a"
  {
    hide Strip, TrimRight;
    NotNormalForms();
    TrimOne("/a", ' ', IsSpace);
    assert "/a" + [' '] == "/a ";
    StripRight("/a ");
    StripKeeps("/a");
    SlashKeeps("/a");
  }

  lemma StripRight(s: string)
    requires s != [] && !IsSpace(s[0])
    ensures Strip(s) == TrimRight(s, IsSpace)
  {
  }
}
