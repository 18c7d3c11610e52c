/** The run context: four scope dictionaries, partly held by one another, that commands write,
    remove and read by path (run_context.py). */
module RunContexts {
  import opened PyText
  import opened ObjectHeap
  import opened PathText

  datatype ItemKind = HookItem | TestItem

  datatype ContextError =
    | EmptyPath | UnsupportedRoot | GlobalImmutable | EnvelopeImmutable | RootNeedsObject | BadSegment

  datatype Outcome = Done | Raised(error: ContextError)

  /** The value of a run context: the object heap and the addresses of the scope objects. */
  datatype Context = Context(heap: Heap, runEnvelope: nat, globalScope: nat, localScope: nat, resultScope: nat, kind: ItemKind)

  predicate IsScopeRoot(root: string) {
    root == "runEnvelope" || root == "global" || root == "local" || root == "result"
  }

  /** `extract_context_root` on the tokens of a path. */
  function ContextRoot(keys: seq<Key>): (r: Option<string>)
    ensures r.Some? ==> keys != [] && (r.value == "response" || IsScopeRoot(r.value))
  {
    if keys == [] || keys[0].Index? then None
    else
      var root := Strip(keys[0].name);
      if root == "vars" then Some("global")
      else if root == "response" || IsScopeRoot(root) then Some(root)
      else None
  }

  predicate ReservedName(name: string) {
    name == "constants" || name == "event" || name == "run_id" || name == "runEnvelope" || name == "global"
  }

  /** The steps below the scope object: an unreserved first step goes under `constants`. */
  function TargetKeys(root: string, keys: seq<Key>): seq<Key>
    requires keys != []
  {
    var tail := keys[1..];
    if root != "result" && root != "response" && tail != [] && !(tail[0].Prop? && ReservedName(tail[0].name))
    then [Prop("constants")] + tail
    else tail
  }

  /** Scopes that do not change while a test item runs. */
  function Guard(kind: ItemKind, root: string): Option<ContextError> {
    if kind.TestItem? && root == "global" then Some(GlobalImmutable)
    else if kind.TestItem? && root == "runEnvelope" then Some(EnvelopeImmutable)
    else None
  }

  function ScopeAddr(c: Context, root: string): nat {
    if root == "runEnvelope" then c.runEnvelope
    else if root == "global" then c.globalScope
    else if root == "local" then c.localScope
    else c.resultScope
  }

  /** `_target_from_root`: `response` is `result.commands`, made when it is not an object. */
  function TargetFromRoot(c: Context, root: string): (Heap, Val)
    requires IsDict(c.heap, Ref(c.resultScope))
  {
    if root == "response" then
      var commands := Get(c.heap, Ref(c.resultScope), Prop("commands"));
      if commands.Some? && IsDict(c.heap, commands.value) then (c.heap, commands.value)
      else (SetKey(c.heap, Ref(c.resultScope), Prop("commands"), Ref(|c.heap|)) + [Dict(map[])], Ref(|c.heap|))
    else (c.heap, Ref(ScopeAddr(c, root)))
  }

  /** `target.clear(); target.update(value)`, where `value` may be `target` itself. */
  function ReplaceAll(h: Heap, a: nat, value: Val): Heap
    requires a < |h| && IsDict(h, value)
  {
    h[a := if value == Ref(a) then Dict(map[]) else h[value.addr]]
  }

  predicate ScopesAreDicts(c: Context) {
    && IsDict(c.heap, Ref(c.runEnvelope)) && IsDict(c.heap, Ref(c.globalScope))
    && IsDict(c.heap, Ref(c.localScope)) && IsDict(c.heap, Ref(c.resultScope))
  }

  function WriteKeys(c: Context, root: string, keys: seq<Key>, value: Val): (Context, Outcome)
    requires ScopesAreDicts(c)
  {
    var (h, target) := TargetFromRoot(c, root);
    if keys == [] then
      if IsDict(h, value) && IsDict(h, target) then (c.(heap := ReplaceAll(h, target.addr, value)), Done)
      else (c.(heap := h), Raised(RootNeedsObject))
    else
      var w := Assign(h, target, keys, value);
      (c.(heap := w.heap), if w.ok then Done else Raised(BadSegment))
  }

  function WritePath(c: Context, path: string, value: Val): (Context, Outcome)
    requires ScopesAreDicts(c)
  {
    match PathKeys(path)
    case None => (c, Raised(EmptyPath))
    case Some(keys) =>
      match ContextRoot(keys)
      case None => (c, Raised(UnsupportedRoot))
      case Some(root) =>
        if Guard(c.kind, root).Some? then (c, Raised(Guard(c.kind, root).value))
        else WriteKeys(c, root, TargetKeys(root, keys), value)
  }

  function RemoveKeys(c: Context, root: string, keys: seq<Key>): Context
    requires ScopesAreDicts(c)
  {
    var (h, target) := TargetFromRoot(c, root);
    c.(heap := Remove(h, target, keys))
  }

  function RemovePath(c: Context, path: string): (Context, Outcome)
    requires ScopesAreDicts(c)
  {
    match PathKeys(path)
    case None => (c, Raised(EmptyPath))
    case Some(keys) =>
      match ContextRoot(keys)
      case None => (c, Done)
      case Some(root) =>
        if Guard(c.kind, root).Some? then (c, Raised(Guard(c.kind, root).value))
        else (RemoveKeys(c, root, TargetKeys(root, keys)), Done)
  }

  /** `x if isinstance(x, dict) else {}`. */
  function DictOrFresh(h: Heap, v: Option<Val>): (Heap, Val) {
    if v.Some? && IsDict(h, v.value) then (h, v.value) else (h + [Dict(map[])], Ref(|h|))
  }

  /** `build_run_context_scope`: a new dictionary over the scope objects. */
  function BuildScope(c: Context): (Heap, Val) {
    var (h1, vars) := DictOrFresh(c.heap, Get(c.heap, Ref(c.globalScope), Prop("constants")));
    var (h2, response) := DictOrFresh(h1, Get(h1, Ref(c.resultScope), Prop("commands")));
    var scope := map["runEnvelope" := Ref(c.runEnvelope), "global" := Ref(c.globalScope), "local" := Ref(c.localScope),
                     "result" := Ref(c.resultScope), "vars" := vars, "response" := response];
    (h2 + [Dict(scope)], Ref(|h2|))
  }

  /** Resolving an expression against the current context. */
  function ReadPath(c: Context, expression: string): Lookup {
    var (h, scope) := BuildScope(c);
    ResolveRef(h, scope, expression)
  }

  /** The `RunContext` object. */
  class RunContext {
    var heap: Heap
    var runEnvelope: nat
    var globalScope: nat
    var localScope: nat
    var resultScope: nat
    var currentItemKind: ItemKind

    function State(): Context
      reads this
    {
      Context(heap, runEnvelope, globalScope, localScope, resultScope, currentItemKind)
    }

    method WriteContextPath(path: string, value: Val) returns (r: Outcome)
      requires ScopesAreDicts(State())
      modifies this`heap
      ensures (State(), r) == WritePath(old(State()), path, value)
    {
      var keys := PathKeys(path);
      if keys == None {
        return Raised(EmptyPath);
      }
      var root := ContextRoot(keys.value);
      if root == None {
        return Raised(UnsupportedRoot);
      }
      var blocked := Guard(currentItemKind, root.value);
      if blocked.Some? {
        return Raised(blocked.value);
      }
      r := WriteBelow(root.value, TargetKeys(root.value, keys.value), value);
    }

    /** The part of `write_context_path` after the guards. */
    method WriteBelow(root: string, targetKeys: seq<Key>, value: Val) returns (r: Outcome)
      requires ScopesAreDicts(State())
      modifies this`heap
      ensures (State(), r) == WriteKeys(old(State()), root, targetKeys, value)
    {
      var (h, target) := TargetFromRoot(State(), root);
      heap := h;
      if targetKeys == [] {
        if !IsDict(h, value) || !IsDict(h, target) {
          return Raised(RootNeedsObject);
        }
        heap := ReplaceAll(h, target.addr, value);
        return Done;
      }
      var w := AssignNestedValue(heap, target, targetKeys, value);
      heap := w.heap;
      r := if w.ok then Done else Raised(BadSegment);
    }

    method RemoveContextPath(path: string) returns (r: Outcome)
      requires ScopesAreDicts(State())
      modifies this`heap
      ensures (State(), r) == RemovePath(old(State()), path)
    {
      var keys := PathKeys(path);
      if keys == None {
        return Raised(EmptyPath);
      }
      var root := ContextRoot(keys.value);
      if root == None {
        return Done;
      }
      var blocked := Guard(currentItemKind, root.value);
      if blocked.Some? {
        return Raised(blocked.value);
      }
      RemoveBelow(root.value, TargetKeys(root.value, keys.value));
      r := Done;
    }

    /** The part of `remove_context_path` after the guards. */
    method RemoveBelow(root: string, targetKeys: seq<Key>)
      requires ScopesAreDicts(State())
      modifies this`heap
      ensures State() == RemoveKeys(old(State()), root, targetKeys)
    {
      var (h, target) := TargetFromRoot(State(), root);
      heap := RemoveNestedValue(h, target, targetKeys);
    }

    method Read(expression: string) returns (r: Lookup)
      ensures r == ReadPath(State(), expression)
    {
      var (h, scope) := BuildScope(State());
      r := ResolveReference(h, scope, expression);
    }
  }
}
