/** Which operations an OpenAPI document has, as it writes them, and which of them count as known. */
module OpenApiDocuments {
  import opened PyText
  import opened Json
  import opened RoutePaths
  import opened OpenApiImport

  /** The operation that a path item gives under a key, if it is an object. */
  function Given(item: Json, path: string, httpMethod: string, key: string): seq<Operation> {
    if item.Obj? && key in item.fields && item.fields[key].Obj? then [Operation(httpMethod, path, item.fields[key])] else []
  }

  lemma LowerMethods()
    ensures Lower("GET") == "get" && Lower("POST") == "post" && Lower("PUT") == "put" && Lower("DELETE") == "delete"
    ensures Lower("PATCH") == "patch" && Lower("HEAD") == "head" && Lower("OPTIONS") == "options"
  {
  }

  lemma NextGiven(item: Json, path: string, methods: seq<string>, m: string)
    ensures OperationsOf(item, path, methods + [m]) == OperationsOf(item, path, methods) + Given(item, path, m, Lower(m))
  {
    hide Lower;
    assert (methods + [m])[..|methods + [m]| - 1] == methods;
  }

  lemma NoneGiven(item: Json, path: string)
    ensures OperationsOf(item, path, []) == []
  {
  }

  /** The operations of one path come in the order get, post, put, delete, patch, head, options. */
  lemma MethodsInOrder(item: Json, path: string)
    ensures OperationsOf(item, path, METHODS) ==
            Given(item, path, "GET", "get") + Given(item, path, "POST", "post") + Given(item, path, "PUT", "put")
            + Given(item, path, "DELETE", "delete") + Given(item, path, "PATCH", "patch") + Given(item, path, "HEAD", "head")
            + Given(item, path, "OPTIONS", "options")
  {
    hide Lower, OperationsOf, Given;
    LowerMethods();
    NoneGiven(item, path);
    NextGiven(item, path, [], "GET");
    NextGiven(item, path, ["GET"], "POST");
    NextGiven(item, path, ["GET", "POST"], "PUT");
    NextGiven(item, path, ["GET", "POST", "PUT"], "DELETE");
    NextGiven(item, path, ["GET", "POST", "PUT", "DELETE"], "PATCH");
    NextGiven(item, path, ["GET", "POST", "PUT", "DELETE", "PATCH"], "HEAD");
    NextGiven(item, path, ["GET", "POST", "PUT", "DELETE", "PATCH", "HEAD"], "OPTIONS");
    assert [] + ["GET"] == ["GET"] && ["GET"] + ["POST"] == ["GET", "POST"];
    assert ["GET", "POST"] + ["PUT"] == ["GET", "POST", "PUT"] && ["GET", "POST", "PUT"] + ["DELETE"] == ["GET", "POST", "PUT", "DELETE"];
    assert ["GET", "POST", "PUT", "DELETE"] + ["PATCH"] == ["GET", "POST", "PUT", "DELETE", "PATCH"];
    assert ["GET", "POST", "PUT", "DELETE", "PATCH"] + ["HEAD"] == ["GET", "POST", "PUT", "DELETE", "PATCH", "HEAD"];
    assert ["GET", "POST", "PUT", "DELETE", "PATCH", "HEAD"] + ["OPTIONS"] == METHODS;
  }

  /** The paths come in the order of the document. */
  lemma {:induction false} PathsInOrder(before: seq<(string, Json)>, after: seq<(string, Json)>)
    ensures Operations(before + after) == Operations(before) + Operations(after)
    decreases |after|
  {
    hide OperationsOf, NormalizePath;
    if after == [] {
      assert before + after == before;
    } else {
      var init := after[..|after| - 1];
      assert (before + after)[..|before + after| - 1] == before + init;
      PathsInOrder(before, init);
    }
  }

  lemma OnePath(path: string, item: Json)
    ensures Operations([(path, item)]) == OperationsOf(item, NormalizePath(path), METHODS)
  {
    hide OperationsOf, NormalizePath;
    assert [(path, item)][..0] == [];
  }

  /** The key under which a path item writes a method. */
  ghost predicate IsKeyOf(key: string, httpMethod: string) {
    || (key == "get" && httpMethod == "GET") || (key == "post" && httpMethod == "POST") || (key == "put" && httpMethod == "PUT")
    || (key == "delete" && httpMethod == "DELETE") || (key == "patch" && httpMethod == "PATCH")
    || (key == "head" && httpMethod == "HEAD") || (key == "options" && httpMethod == "OPTIONS")
  }

  ghost predicate Writes(entry: (string, Json), op: Operation) {
    && NormalizePath(entry.0) == op.path && entry.1.Obj? && op.content.Obj?
    && exists key :: key in entry.1.fields && IsKeyOf(key, op.httpMethod) && entry.1.fields[key] == op.content
  }

  lemma OperationOfPath(path: string, item: Json, op: Operation)
    ensures op in OperationsOf(item, NormalizePath(path), METHODS) <==> Writes((path, item), op)
  {
    hide NormalizePath, OperationsOf;
    MethodsInOrder(item, NormalizePath(path));
  }

  /** An operation is imported or skipped exactly when some path of the document writes it, as an object
      under one of the seven methods. */
  lemma {:induction false} EveryOperationIsListed(paths: seq<(string, Json)>, op: Operation)
    ensures op in Operations(paths) <==> exists i :: 0 <= i < |paths| && Writes(paths[i], op)
    decreases |paths|
  {
    hide OperationsOf, NormalizePath, Writes;
    if paths == [] {
    } else {
      var last, init := paths[|paths| - 1], paths[..|paths| - 1];
      EveryOperationIsListed(init, op);
      OperationOfPath(last.0, last.1, op);
      assert forall i | 0 <= i < |init| :: init[i] == paths[i];
    }
  }

  /** A route counts as known when one that is there has its method, in any case and spacing, and a path
      with the same normal form. */
  lemma KnownExactly(existing: set<Route>, op: Operation)
    requires forall i | 0 <= i < |op.httpMethod| :: !('a' <= op.httpMethod[i] <= 'z')
    ensures KeyOf(op) in KnownRoutes(existing) <==>
            exists r :: r in existing && Spells(r.0, op.httpMethod) && NormalizePath(r.1) == op.path
  {
    hide NormalizePath, Strip, Upper, Spells;
    forall r: Route
      ensures Upper(Strip(r.0)) == op.httpMethod <==> Spells(r.0, op.httpMethod)
    {
      UpperSpells(r.0, op.httpMethod);
    }
    if r :| r in existing && Spells(r.0, op.httpMethod) && NormalizePath(r.1) == op.path {
      assert (Upper(Strip(r.0)), NormalizePath(r.1)) in KnownRoutes(existing);
    }
  }

  ghost predicate Increasing(at: seq<nat>) { forall j, k | 0 <= j < k < |at| :: at[j] < at[k] }

  /** The routes are the operations at these places, numbered from 1. */
  ghost predicate AreRoutesAt(apis: seq<Api>, ops: seq<Operation>, at: seq<nat>) {
    && |apis| == |at| && Increasing(at)
    && forall k | 0 <= k < |at| ::
         at[k] < |ops| && apis[k] == Api(k + 1, ops[at[k]].httpMethod, NormalizePath(ops[at[k]].path), ops[at[k]].content)
  }

  /** The labels are the methods and paths of the operations at these places. */
  ghost predicate AreLabelsAt(labels: seq<string>, ops: seq<Operation>, at: seq<nat>) {
    && |labels| == |at| && Increasing(at)
    && forall k | 0 <= k < |at| :: at[k] < |ops| && labels[k] == ops[at[k]].httpMethod + " " + NormalizePath(ops[at[k]].path)
  }

  /** No earlier operation has the same method and path. */
  ghost predicate IsFirst(ops: seq<Operation>, i: nat)
    requires i < |ops|
  {
    forall j | 0 <= j < i :: ops[j].httpMethod != ops[i].httpMethod || ops[j].path != ops[i].path
  }

  lemma FreshIsFirst(known: set<Route>, ops: seq<Operation>, i: nat)
    requires i < |ops|
    ensures Fresh(known, ops, i) <==> KeyOf(ops[i]) !in known && IsFirst(ops, i)
  {
  }

  /** The imported routes are the unknown operations, each at its first place in the document, in that order
      and numbered from 1, with their method, path and content; the other operations are reported as
      skipped, by method and path. */
  lemma ImportedExactly(paths: seq<(string, Json)>, existing: set<Route>) returns (chosen: seq<nat>, rest: seq<nat>)
    ensures var ops, o := Operations(paths), TakeAll(KnownRoutes(existing), Operations(paths));
            && AreRoutesAt(o.apis, ops, chosen) && AreLabelsAt(o.skipped, ops, rest)
            && forall i: nat | i < |ops| ::
                 && (i in chosen <==> KeyOf(ops[i]) !in KnownRoutes(existing) && IsFirst(ops, i))
                 && (i in rest <==> i !in chosen)
  {
    hide NormalizePath, KnownRoutes, Operations, TakeAll, Chosen, Fresh, IsFirst, KeyOf, Discovers;
    var known, ops := KnownRoutes(existing), Operations(paths);
    TakeAllAccounts(known, ops, |ops|);
    assert ops[..|ops|] == ops;
    chosen, rest := Chosen(known, ops, |ops|, true), Chosen(known, ops, |ops|, false);
    forall i: nat | i < |ops|
      ensures (i in chosen <==> KeyOf(ops[i]) !in known && IsFirst(ops, i)) && (i in rest <==> i !in chosen)
    {
      FreshIsFirst(known, ops, i);
      ChosenMembers(known, ops, i);
    }
  }

  lemma ChosenMembers(known: set<Route>, ops: seq<Operation>, i: nat)
    requires i < |ops|
    ensures i in Chosen(known, ops, |ops|, true) <==> Fresh(known, ops, i)
    ensures i in Chosen(known, ops, |ops|, false) <==> !Fresh(known, ops, i)
  {
    hide Fresh;
    ChosenHasAll(known, ops, |ops|, Fresh(known, ops, i), i);
  }
}
