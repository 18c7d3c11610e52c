/** New run contexts, and handing one over: serialising it and rebuilding a context from the payload. */
module ContextHandover {
  import opened PyText
  import opened ObjectHeap
  import opened PathText
  import opened RunContexts
  import opened ContextPaths
  import opened ConstantStore

  function EnvelopeCell(runId: string, event: Val, constants: Val): (r: Cell)
    ensures r.Dict?
  {
    Dict(map["run_id" := Str(runId), "event" := event, "constants" := constants])
  }

  function GlobalCell(envelope: nat, constants: Val): (r: Cell)
    ensures r.Dict?
  {
    Dict(map["runEnvelope" := Ref(envelope), "constants" := constants])
  }

  function LocalCell(globalScope: nat, constants: Val): (r: Cell)
    ensures r.Dict?
  {
    Dict(map["global" := Ref(globalScope), "constants" := constants])
  }

  /** The scope objects that a new context allocates, from address `n` on. */
  function NewScopes(n: nat, runId: string, event: Val, vars: Val): (made: seq<Cell>)
    ensures |made| == 9 && made[0].Dict? && made[2].Dict? && made[4].Dict? && made[8].Dict?
  {
    [EnvelopeCell(runId, event, vars), Dict(map[]),
     GlobalCell(n, Ref(n + 1)), Dict(map[]),
     LocalCell(n + 2, Ref(n + 3)),
     Dict(map[]), Dict(map[]), Dict(map[]),
     Dict(map["artifacts" := Ref(n + 5), "commands" := Ref(n + 6), "constants" := Ref(n + 7)])]
  }

  /** `create_run_context` with the run id already stripped. */
  function CreateFrom(h: Heap, runId: string, event: Val, vars: Val): (c: Context)
    ensures ScopesAreDicts(c) && h <= c.heap
  {
    var (h1, eventDict) := DictOrFresh(h, Some(event));
    var (h2, varsDict) := DictOrFresh(h1, Some(vars));
    var n := |h2|;
    Context(h2 + NewScopes(n, runId, eventDict, varsDict), n, n + 2, n + 4, n + 8, HookItem)
  }

  /** `create_run_context`. */
  function CreateContext(h: Heap, runId: string, event: Val, vars: Val): (c: Context)
    ensures ScopesAreDicts(c) && h <= c.heap
  {
    CreateFrom(h, Strip(runId), event, vars)
  }

  /** The constants dictionary of a scope, as a value. */
  function ConstantsVal(c: Context, s: Scope): Val {
    match ConstantsOf(c, s)
    case Some(a) => Ref(a)
    case None => Null
  }

  /** The scope objects of a context that only commands on `constants` have touched. */
  ghost predicate Standard(c: Context, runId: string, event: Val) {
    && Shaped(c) && IsDict(c.heap, event)
    && c.heap[c.runEnvelope] == EnvelopeCell(runId, event, ConstantsVal(c, RunEnvelopeScope))
    && c.heap[c.globalScope] == GlobalCell(c.runEnvelope, ConstantsVal(c, GlobalScope))
    && c.heap[c.localScope] == LocalCell(c.globalScope, ConstantsVal(c, LocalScope))
  }

  /** A run context and its run id, which is always stripped. */
  datatype Handle = Handle(c: Context, runId: string)

  /** `serialize_run_context`: the payload holds the scope objects themselves. */
  datatype Payload = Payload(runId: string, runEnvelope: Val, globalScope: Val, localScope: Val, resultScope: Val)

  function Serialize(r: Handle): Payload {
    Payload(Strip(r.runId), Ref(r.c.runEnvelope), Ref(r.c.globalScope), Ref(r.c.localScope), Ref(r.c.resultScope))
  }

  /** `d.get(name)` where `d` may not be a dictionary. */
  function Entry(h: Heap, d: Val, name: string): Val {
    match Get(h, d, Prop(name))
    case Some(v) => v
    case None => Null
  }

  function TextOf(v: Val): string { if v.Str? then v.s else [] }

  /** `scope["constants"] = x if isinstance(x, dict) else {}`. */
  function SetConstants(h: Heap, scope: nat, value: Val): (r: Heap)
    requires IsDict(h, Ref(scope))
    ensures SameKinds(h, r)
  {
    var (h1, d) := DictOrFresh(h, Some(value));
    SetKey(h1, Ref(scope), Prop("constants"), d)
  }

  /** `deserialize_run_context`; an empty or missing result payload gives a new result scope. */
  function Deserialize(h: Heap, p: Payload): Handle {
    var id := if p.runId != [] then p.runId else TextOf(Entry(h, p.runEnvelope, "run_id"));
    var c := CreateContext(h, id, Entry(h, p.runEnvelope, "event"), Entry(h, p.runEnvelope, "constants"));
    var h1 := SetConstants(c.heap, c.globalScope, Entry(h, p.globalScope, "constants"));
    var h2 := SetConstants(h1, c.localScope, Entry(h, p.localScope, "constants"));
    var useResult := IsDict(h, p.resultScope) && h[p.resultScope.addr].entries != map[];
    Handle(Context(h2, c.runEnvelope, c.globalScope, c.localScope, if useResult then p.resultScope.addr else c.resultScope, HookItem),
           Strip(id))
  }

  /** A run context with its invocation id (empty for none), the sources it shows and its last result. */
  datatype RunHandle = RunHandle(base: Handle, invocationId: string, visibleSources: Val, last: Val)

  datatype RunPayload = RunPayload(base: Payload, invocationId: string, visibleSources: Val, last: Val)

  function SerializeRun(r: RunHandle): RunPayload {
    RunPayload(Serialize(r.base), Strip(r.invocationId), r.visibleSources, r.last)
  }

  function DeserializeRun(h: Heap, p: RunPayload): RunHandle {
    var base := Deserialize(h, p.base);
    var (h1, sources) := DictOrFresh(base.c.heap, Some(p.visibleSources));
    var (h2, last) := if IsDict(h1, p.last) then (h1, p.last)
                      else (h1 + [Dict(map["item_id" := Str(""), "data" := Null])], Ref(|h1|));
    RunHandle(base.(c := base.c.(heap := h2)), Strip(p.invocationId), sources, last)
  }

  /** `v` in the old context stands for `v'` in the new one: the same value, or the same scope object. */
  ghost predicate Stands(c: Context, c': Context, v: Val, v': Val) {
    || v' == v
    || (v == Ref(c.runEnvelope) && v' == Ref(c'.runEnvelope))
    || (v == Ref(c.globalScope) && v' == Ref(c'.globalScope))
    || (v == Ref(c.localScope) && v' == Ref(c'.localScope))
  }

  ghost predicate StandsFor(c: Context, c': Context, v: Option<Val>, v': Option<Val>) {
    match (v, v')
    case (None, None) => true
    case (Some(x), Some(y)) => Stands(c, c', x, y)
    case _ => false
  }

  lemma CreatedCells(h: Heap, runId: string, event: Val, vars: Val)
    requires IsDict(h, event) && IsDict(h, vars)
    ensures var c, n := CreateContext(h, runId, event, vars), |h|;
            && h <= c.heap && |c.heap| == n + 9
            && c.runEnvelope == n && c.globalScope == n + 2 && c.localScope == n + 4 && c.resultScope == n + 8
            && c.heap[n] == EnvelopeCell(Strip(runId), event, vars)
            && c.heap[n + 2] == GlobalCell(n, Ref(n + 1)) && c.heap[n + 4] == LocalCell(n + 2, Ref(n + 3))
  {
    hide Strip;
  }

  lemma ConstantsReplaced(h: Heap, scope: nat, value: Val)
    requires IsDict(h, Ref(scope)) && IsDict(h, value)
    ensures SetConstants(h, scope, value) == h[scope := Dict(h[scope].entries["constants" := value])]
  {
  }

  lemma SetInCell(envelope: nat, before: Val, value: Val)
    ensures GlobalCell(envelope, before).entries["constants" := value] == GlobalCell(envelope, value).entries
    ensures LocalCell(envelope, before).entries["constants" := value] == LocalCell(envelope, value).entries
  {
  }

  /** The entries that `deserialize_run_context` looks up. */
  lemma StandardEntries(c: Context, runId: string, event: Val)
    requires Standard(c, runId, event)
    ensures Entry(c.heap, Ref(c.runEnvelope), "run_id") == Str(runId)
    ensures Entry(c.heap, Ref(c.runEnvelope), "event") == event
    ensures Entry(c.heap, Ref(c.runEnvelope), "constants") == ConstantsVal(c, RunEnvelopeScope)
    ensures Entry(c.heap, Ref(c.globalScope), "constants") == ConstantsVal(c, GlobalScope)
    ensures Entry(c.heap, Ref(c.localScope), "constants") == ConstantsVal(c, LocalScope)
    ensures IsDict(c.heap, Ref(c.resultScope)) && c.heap[c.resultScope].entries != map[]
    ensures forall s :: IsDict(c.heap, ConstantsVal(c, s))
    ensures c.runEnvelope < |c.heap| && c.globalScope < |c.heap| && c.localScope < |c.heap|
  {
    ShapedScopes(c);
    assert AddrOf(c, ResultScope) == c.resultScope;
    assert ConstantsOf(c, ResultScope).Some?;
    assert "constants" in c.heap[c.resultScope].entries;
  }

  lemma ShapedScopes(c: Context)
    requires Shaped(c)
    ensures ScopesAreDicts(c) && forall s :: ConstantsOf(c, s).Some?
  {
    assert forall s :: ConstantsOf(c, s).Some?;
  }

  /** The rebuilt context, cell by cell: new scope objects over the same constants, event and result. */
  lemma Rebuilt(c: Context, runId: string, event: Val)
    requires Standard(c, runId, event) && Strip(runId) == runId
    ensures var r := Deserialize(c.heap, Serialize(Handle(c, runId)));
            var c' := r.c;
            && r.runId == runId && c.heap <= c'.heap && c'.resultScope == c.resultScope
            && IsDict(c'.heap, Ref(c'.runEnvelope)) && IsDict(c'.heap, Ref(c'.globalScope)) && IsDict(c'.heap, Ref(c'.localScope))
            && c'.heap[c'.runEnvelope] == EnvelopeCell(runId, event, ConstantsVal(c, RunEnvelopeScope))
            && c'.heap[c'.globalScope] == GlobalCell(c'.runEnvelope, ConstantsVal(c, GlobalScope))
            && c'.heap[c'.localScope] == LocalCell(c'.globalScope, ConstantsVal(c, LocalScope))
  {
    hide Strip, CreateContext, SetConstants, Shaped, ConstantsVal, Entry, EnvelopeCell, GlobalCell, LocalCell;
    StandardEntries(c, runId, event);
    var vars, g, l := ConstantsVal(c, RunEnvelopeScope), ConstantsVal(c, GlobalScope), ConstantsVal(c, LocalScope);
    var n := |c.heap|;
    CreatedCells(c.heap, runId, event, vars);
    var made := CreateContext(c.heap, runId, event, vars);
    ConstantsReplaced(made.heap, n + 2, g);
    SetInCell(n, Ref(n + 1), g);
    var h1 := SetConstants(made.heap, n + 2, g);
    ConstantsReplaced(h1, n + 4, l);
    SetInCell(n + 2, Ref(n + 3), l);
  }

  /** A standing pair of values steps to a standing pair. */
  lemma StandingStep(c: Context, c': Context, runId: string, event: Val, v: Val, v': Val, k: Key)
    requires Standard(c, runId, event) && Strip(runId) == runId
    requires c' == Deserialize(c.heap, Serialize(Handle(c, runId))).c && Stands(c, c', v, v')
    requires v.Ref? ==> v.addr < |c.heap|
    ensures StandsFor(c, c', Get(c.heap, v, k), Get(c'.heap, v', k))
    ensures var w := Get(c.heap, v, k); w.Some? && w.value.Ref? ==> w.value.addr < |c.heap|
  {
    hide Strip, Deserialize, Serialize, ConstantsVal;
    Rebuilt(c, runId, event);
  }

  lemma {:induction false} StandingPaths(c: Context, c': Context, runId: string, event: Val, v: Val, v': Val, keys: seq<Key>)
    requires Standard(c, runId, event) && Strip(runId) == runId
    requires c' == Deserialize(c.heap, Serialize(Handle(c, runId))).c && Stands(c, c', v, v')
    requires v.Ref? ==> v.addr < |c.heap|
    ensures StandsFor(c, c', Resolve(c.heap, v, keys), Resolve(c'.heap, v', keys))
    decreases |keys|
  {
    hide Standard, Strip, Deserialize, Serialize, Stands;
    if keys == [] {
    } else {
      StandingStep(c, c', runId, event, v, v', keys[0]);
      if Get(c.heap, v, keys[0]).Some? {
        var w, w' := Get(c.heap, v, keys[0]).value, Get(c'.heap, v', keys[0]).value;
        StandingPaths(c, c', runId, event, w, w', keys[1..]);
      }
    }
  }

  /** Rebuilding a context from its payload keeps the run id, gives the same view below every scope, path
      by path, and puts the new scope objects inside one another as before. */
  lemma ScopesRoundTrip(c: Context, runId: string, event: Val, s: Scope, keys: seq<Key>)
    requires Standard(c, runId, event) && Strip(runId) == runId
    ensures var r := Deserialize(c.heap, Serialize(Handle(c, runId)));
            && r.runId == runId
            && StandsFor(c, r.c, Resolve(c.heap, Ref(AddrOf(c, s)), keys), Resolve(r.c.heap, Ref(AddrOf(r.c, s)), keys))
            && Get(r.c.heap, Ref(r.c.localScope), Prop("global")) == Some(Ref(r.c.globalScope))
            && Get(r.c.heap, Ref(r.c.globalScope), Prop("runEnvelope")) == Some(Ref(r.c.runEnvelope))
  {
    hide Strip, Deserialize, Serialize, ConstantsVal;
    Rebuilt(c, runId, event);
    ShapedScopes(c);
    var r := Deserialize(c.heap, Serialize(Handle(c, runId)));
    assert Stands(c, r.c, Ref(AddrOf(c, s)), Ref(AddrOf(r.c, s)));
    StandingPaths(c, r.c, runId, event, Ref(AddrOf(c, s)), Ref(AddrOf(r.c, s)), keys);
  }

  const VIEW_NAMES := {"runEnvelope", "global", "local", "result", "vars", "response"}

  ghost predicate IsEmpty(h: Heap, v: Option<Val>) { v.Some? && IsDict(h, v.value) && h[v.value.addr] == Dict(map[]) }

  /** What `build_run_context_scope` puts under its six names. */
  lemma ViewEntry(c: Context, name: string)
    requires ScopesAreDicts(c) && ConstantsOf(c, GlobalScope).Some? && name in VIEW_NAMES
    ensures var (h, scope) := BuildScope(c);
            var v := Get(h, scope, Prop(name));
            && c.heap <= h && v.Some?
            && (name == "runEnvelope" ==> v == Some(Ref(c.runEnvelope))) && (name == "global" ==> v == Some(Ref(c.globalScope)))
            && (name == "local" ==> v == Some(Ref(c.localScope))) && (name == "result" ==> v == Some(Ref(c.resultScope)))
            && (name == "vars" ==> v == Some(ConstantsVal(c, GlobalScope)))
            && (name == "response" ==>
                  var commands := Get(c.heap, Ref(c.resultScope), Prop("commands"));
                  if commands.Some? && IsDict(c.heap, commands.value) then v == commands else IsEmpty(h, v))
  {
  }

  /** Nothing is below a new empty dictionary. */
  lemma BelowEmpty(h: Heap, v: Option<Val>, keys: seq<Key>)
    requires IsEmpty(h, v) && keys != []
    ensures Resolve(h, v.value, keys) == None
  {
  }

  /** The rebuilt scopes are objects, and the rebuilt result scope is the old one. */
  lemma RebuiltScopes(c: Context, runId: string, event: Val)
    requires Standard(c, runId, event) && Strip(runId) == runId
    ensures var c' := Deserialize(c.heap, Serialize(Handle(c, runId))).c;
            && ScopesAreDicts(c) && ScopesAreDicts(c') && Closed(c.heap) && c.heap <= c'.heap
            && ConstantsOf(c, GlobalScope).Some? && ConstantsOf(c', GlobalScope) == ConstantsOf(c, GlobalScope)
            && Get(c'.heap, Ref(c'.resultScope), Prop("commands")) == Get(c.heap, Ref(c.resultScope), Prop("commands"))
  {
    hide Strip, Deserialize, Serialize;
    Rebuilt(c, runId, event);
    ShapedScopes(c);
    StandardEntries(c, runId, event);
  }

  lemma CommandsInHeap(c: Context, v: Option<Val>)
    requires Closed(c.heap) && ScopesAreDicts(c) && v == Get(c.heap, Ref(c.resultScope), Prop("commands"))
    ensures v.Some? && v.value.Ref? ==> v.value.addr < |c.heap|
  {
  }

  lemma NoCommands(c: Context, c': Context, commands: Option<Val>)
    requires ScopesAreDicts(c) && ScopesAreDicts(c') && c.heap <= c'.heap && Closed(c.heap)
    requires commands == Get(c.heap, Ref(c.resultScope), Prop("commands")) == Get(c'.heap, Ref(c'.resultScope), Prop("commands"))
    ensures commands.Some? ==> (IsDict(c'.heap, commands.value) <==> IsDict(c.heap, commands.value))
  {
    CommandsInHeap(c, commands);
  }

  /** The entries of the two views stand for one another. */
  lemma EntriesStand(c: Context, runId: string, event: Val, name: string, v: Val, v': Val)
    requires Standard(c, runId, event) && Strip(runId) == runId && name in VIEW_NAMES && ScopesAreDicts(c)
    requires var c' := Deserialize(c.heap, Serialize(Handle(c, runId))).c;
             var (h, scope) := BuildScope(c); var (h', scope') := BuildScope(c');
             Get(h, scope, Prop(name)) == Some(v) && Get(h', scope', Prop(name)) == Some(v')
    requires name == "response" ==>
               var commands := Get(c.heap, Ref(c.resultScope), Prop("commands"));
               commands.Some? && IsDict(c.heap, commands.value)
    ensures Stands(c, Deserialize(c.heap, Serialize(Handle(c, runId))).c, v, v') && (v.Ref? ==> v.addr < |c.heap|)
    ensures v'.Ref? ==> v'.addr < |Deserialize(c.heap, Serialize(Handle(c, runId))).c.heap|
  {
    hide Strip, Deserialize, Serialize, BuildScope, Standard, Closed, IsEmpty;
    RebuiltScopes(c, runId, event);
    Rebuilt(c, runId, event);
    var c' := Deserialize(c.heap, Serialize(Handle(c, runId))).c;
    ViewEntry(c, name);
    ViewEntry(c', name);
    if name == "response" {
      NoCommands(c, c', Get(c.heap, Ref(c.resultScope), Prop("commands")));
    }
  }

  lemma RebuiltIsClosed(c: Context, runId: string, event: Val)
    requires Standard(c, runId, event) && Strip(runId) == runId
    ensures Closed(Deserialize(c.heap, Serialize(Handle(c, runId))).c.heap)
  {
    hide Strip, CreateContext, Shaped, ConstantsVal, Entry, EnvelopeCell, GlobalCell, LocalCell, Closed;
    StandardEntries(c, runId, event);
    assert Closed(c.heap) by {
      StandardIsShaped(c, runId, event);
      ShapedIsClosed(c);
    }
    var vars, g, l := ConstantsVal(c, RunEnvelopeScope), ConstantsVal(c, GlobalScope), ConstantsVal(c, LocalScope);
    var n := |c.heap|;
    CreatedCells(c.heap, runId, event, vars);
    CreatedIsClosed(c.heap, runId, event, vars);
    var made := CreateContext(c.heap, runId, event, vars);
    SetKeepsShape(made.heap, Ref(n + 2), Prop("constants"), g);
    var h1 := SetConstants(made.heap, n + 2, g);
    assert h1 == SetKey(made.heap, Ref(n + 2), Prop("constants"), g);
    SetKeepsShape(h1, Ref(n + 4), Prop("constants"), l);
  }

  lemma ShapedIsClosed(c: Context)
    requires Shaped(c)
    ensures Closed(c.heap)
  {
  }

  /** The whole view: every path of `build_run_context_scope` leads to the same value, to the same scope
      object, or to the new empty dictionary that stands for missing commands. */
  lemma ViewRoundTrip(c: Context, runId: string, event: Val, name: string, keys: seq<Key>)
    requires Standard(c, runId, event) && Strip(runId) == runId && name in VIEW_NAMES
    ensures ScopesAreDicts(c)
    ensures var c' := Deserialize(c.heap, Serialize(Handle(c, runId))).c;
            var (h, scope) := BuildScope(c); var (h', scope') := BuildScope(c');
            var v, v' := Resolve(h, scope, [Prop(name)] + keys), Resolve(h', scope', [Prop(name)] + keys);
            StandsFor(c, c', v, v') || (IsEmpty(h, v) && IsEmpty(h', v'))
  {
    hide Strip, Deserialize, Serialize, ConstantsVal, BuildScope, Standard, Closed, IsEmpty, Stands;
    RebuiltScopes(c, runId, event);
    var c' := Deserialize(c.heap, Serialize(Handle(c, runId))).c;
    var (h, scope) := BuildScope(c); var (h', scope') := BuildScope(c');
    ViewEntry(c, name);
    ViewEntry(c', name);
    var v, v' := Get(h, scope, Prop(name)), Get(h', scope', Prop(name));
    assert ([Prop(name)] + keys)[1..] == keys;
    var commands := Get(c.heap, Ref(c.resultScope), Prop("commands"));
    if name == "response" && !(commands.Some? && IsDict(c.heap, commands.value)) {
      NoCommands(c, c', commands);
      if keys != [] {
        BelowEmpty(h, v, keys);
        BelowEmpty(h', v', keys);
      }
    } else {
      EntriesStand(c, runId, event, name, v.value, v'.value);
      StandingPaths(c, c', runId, event, v.value, v'.value, keys);
      ResolveInExtension(c.heap, h, v.value, keys);
      RebuiltIsClosed(c, runId, event);
      ResolveInExtension(c'.heap, h', v'.value, keys);
    }
  }

  /** Hand-over round trip: rebuilding a run from its payload keeps the run id, the invocation id, the
      visible sources and the last result, shows the same view of the context, and puts the new scope
      objects inside one another as before. */
  lemma HandoverRoundTrip(r: RunHandle, event: Val, name: string, keys: seq<Key>)
    requires Standard(r.base.c, r.base.runId, event) && Strip(r.base.runId) == r.base.runId && name in VIEW_NAMES
    requires Strip(r.invocationId) == r.invocationId
    requires IsDict(r.base.c.heap, r.visibleSources) && IsDict(r.base.c.heap, r.last)
    ensures ScopesAreDicts(r.base.c)
    ensures var r' := DeserializeRun(r.base.c.heap, SerializeRun(r));
            var c, c' := r.base.c, r'.base.c;
            && r' == RunHandle(r'.base, r.invocationId, r.visibleSources, r.last) && r'.base.runId == r.base.runId
            && c.heap <= c'.heap
            && Get(c'.heap, Ref(c'.localScope), Prop("global")) == Some(Ref(c'.globalScope))
            && Get(c'.heap, Ref(c'.globalScope), Prop("runEnvelope")) == Some(Ref(c'.runEnvelope))
            && var (h, scope) := BuildScope(c); var (h', scope') := BuildScope(c');
               var v, v' := Resolve(h, scope, [Prop(name)] + keys), Resolve(h', scope', [Prop(name)] + keys);
               StandsFor(c, c', v, v') || (IsEmpty(h, v) && IsEmpty(h', v'))
  {
    hide Strip, Deserialize, Serialize, BuildScope, Standard, StandsFor, IsEmpty;
    Rebuilt(r.base.c, r.base.runId, event);
    ViewRoundTrip(r.base.c, r.base.runId, event, name, keys);
    ScopesRoundTrip(r.base.c, r.base.runId, event, LocalScope, []);
    assert r.base == Handle(r.base.c, r.base.runId);
  }

  // ---- which contexts are standard --------------------------------------------------------------

  /** An event or variables that are no objects are replaced by new ones. */
  lemma CreatedOverDicts(h: Heap, runId: string, event: Val, vars: Val) returns (h': Heap, event': Val, vars': Val)
    requires Closed(h)
    ensures h <= h' && Closed(h') && IsDict(h', event') && IsDict(h', vars')
    ensures IsDict(h, event) ==> event' == event
    ensures IsDict(h, vars) ==> vars' == vars
    ensures CreateContext(h, runId, event, vars) == CreateContext(h', runId, event', vars')
  {
    hide Strip, NewScopes, Closed;
    var (h1, e) := DictOrFresh(h, Some(event));
    var (h2, v) := DictOrFresh(h1, Some(vars));
    ExtendKeepsShape(h, Dict(map[]));
    ExtendKeepsShape(h1, Dict(map[]));
    h', event', vars' := h2, e, v;
  }

  /** A new context is standard, whatever event and variables it is given. */
  lemma CreatedIsStandard(h: Heap, runId: string, event: Val, vars: Val) returns (event': Val)
    requires Closed(h)
    ensures Standard(CreateContext(h, runId, event, vars), Strip(runId), event')
    ensures IsDict(h, event) ==> event' == event
  {
    hide CreateContext, Standard, Strip, Closed;
    var h', e, v := CreatedOverDicts(h, runId, event, vars);
    event' := e;
    CreatedOver(h', runId, e, v);
  }

  lemma CreatedOver(h: Heap, runId: string, event: Val, vars: Val)
    requires Closed(h) && IsDict(h, event) && IsDict(h, vars)
    ensures Standard(CreateContext(h, runId, event, vars), Strip(runId), event)
  {
    hide Strip, CreateContext, EnvelopeCell, GlobalCell, LocalCell, Closed;
    var c, n := CreateContext(h, runId, event, vars), |h|;
    CreatedCells(h, runId, event, vars);
    CreatedConstants(h, runId, event, vars);
    CreatedIsClosed(h, runId, event, vars);
    forall s, t
      ensures ConstantsOf(c, s).Some? && ConstantsOf(c, s) != Some(AddrOf(c, t))
      ensures s != t ==> ConstantsOf(c, s) != ConstantsOf(c, t)
    {
    }
  }

  lemma CreatedConstants(h: Heap, runId: string, event: Val, vars: Val)
    requires IsDict(h, event) && IsDict(h, vars)
    ensures var c, n := CreateContext(h, runId, event, vars), |h|;
            && ConstantsOf(c, RunEnvelopeScope) == Some(vars.addr) && ConstantsOf(c, GlobalScope) == Some(n + 1)
            && ConstantsOf(c, LocalScope) == Some(n + 3) && ConstantsOf(c, ResultScope) == Some(n + 7)
  {
    hide Strip;
    var c, n := CreateContext(h, runId, event, vars), |h|;
    assert c.heap[vars.addr] == h[vars.addr] && IsDict(c.heap, vars);
    assert c.heap[n + 1] == Dict(map[]) && c.heap[n + 3] == Dict(map[]) && c.heap[n + 7] == Dict(map[]);
  }

  lemma NewScopesRefs(n: nat, runId: string, event: Val, vars: Val, i: nat, k: Key)
    requires i < 9 && GetCell(NewScopes(n, runId, event, vars)[i], k).Some?
    ensures var v := GetCell(NewScopes(n, runId, event, vars)[i], k).value;
            v.Ref? ==> v == event || v == vars || n <= v.addr < n + 9
  {
  }

  lemma CreatedIsClosed(h: Heap, runId: string, event: Val, vars: Val)
    requires Closed(h) && IsDict(h, event) && IsDict(h, vars)
    ensures Closed(CreateContext(h, runId, event, vars).heap)
  {
    hide NewScopes;
    hide Strip;
    var made, n := NewScopes(|h|, Strip(runId), event, vars), |h|;
    var r := h + made;
    forall a: nat, k, v | a < |r| && Get(r, Ref(a), k) == Some(v) && v.Ref?
      ensures v.addr < |r|
    {
      if a < n {
        assert Get(h, Ref(a), k) == Some(v);
      } else {
        NewScopesRefs(n, Strip(runId), event, vars, a - n, k);
      }
    }
  }

  /** Writing or removing a constant keeps a context standard, whatever the item kind. */
  lemma RebindingKeepsStandard(c: Context, runId: string, event: Val, s: Scope, entries: map<string, Val>)
    requires Standard(c, runId, event)
    requires forall n | n in entries :: entries[n].Ref? ==> entries[n].addr < |c.heap|
    ensures ConstantsOf(c, s).Some? && Standard(Rebound(c, s, entries), runId, event)
  {
    hide ConstantsOf, EnvelopeCell, GlobalCell, LocalCell, Bindings, Closed;
    ShapedScopes(c);
    ReboundShape(c, s, entries);
    var r := Rebound(c, s, entries);
    forall t
      ensures ConstantsVal(r, t) == ConstantsVal(c, t) && ConstantsOf(r, t) == ConstantsOf(c, t)
    {
    }
    forall t
      ensures ConstantsOf(c, s) != Some(AddrOf(c, t)) && r.heap[AddrOf(c, t)] == c.heap[AddrOf(c, t)]
    {
    }
    assert AddrOf(c, RunEnvelopeScope) == c.runEnvelope && AddrOf(c, GlobalScope) == c.globalScope && AddrOf(c, LocalScope) == c.localScope;
  }

  /** Any write to, or removal of, a constant that the item kind allows keeps a context standard. */
  lemma ConstantCommandsKeepStandard(c: Context, runId: string, event: Val, s: Scope, name: string, value: Val)
    requires Standard(c, runId, event) && SimpleName(name) && MayWrite(c.kind, s)
    requires value.Ref? ==> value.addr < |c.heap|
    ensures ScopesAreDicts(c)
    ensures WritePath(c, ConstantPath(s, name), value).1 == Done && RemovePath(c, ConstantPath(s, name)).1 == Done
    ensures Standard(WritePath(c, ConstantPath(s, name), value).0, runId, event)
    ensures Standard(RemovePath(c, ConstantPath(s, name)).0, runId, event)
  {
    hide WritePath, RemovePath, ConstantPath, Standard, Rebound, Bindings, Shaped;
    StandardIsShaped(c, runId, event);
    ShapedScopes(c);
    WriteConstant(c, s, name, value);
    RemoveConstant(c, s, name);
    BindingsInHeap(c, s);
    RebindingKeepsStandard(c, runId, event, s, Bindings(c, s)[name := value]);
    RebindingKeepsStandard(c, runId, event, s, Bindings(c, s) - {name});
  }

  lemma StandardIsShaped(c: Context, runId: string, event: Val)
    requires Standard(c, runId, event)
    ensures Shaped(c)
  {
  }

  ghost predicate IsEmptyDict(h: Heap, v: Val) { IsDict(h, v) && h[v.addr] == Dict(map[]) }

  ghost predicate NewEnvelope(h: Heap, c: Context, runId: string, event: Val, vars: Val) {
    && IsDict(c.heap, Ref(c.runEnvelope))
    && var entries := c.heap[c.runEnvelope].entries;
       && entries.Keys == {"run_id", "event", "constants"} && entries["run_id"] == Str(Strip(runId))
       && (if IsDict(h, event) then entries["event"] == event else IsEmptyDict(c.heap, entries["event"]))
       && (if IsDict(h, vars) then entries["constants"] == vars else IsEmptyDict(c.heap, entries["constants"]))
  }

  ghost predicate NewInnerScopes(c: Context) {
    && IsDict(c.heap, Ref(c.globalScope)) && IsDict(c.heap, Ref(c.localScope))
    && var global, local := c.heap[c.globalScope].entries, c.heap[c.localScope].entries;
       && global.Keys == {"runEnvelope", "constants"} && global["runEnvelope"] == Ref(c.runEnvelope)
       && IsEmptyDict(c.heap, global["constants"])
       && local.Keys == {"global", "constants"} && local["global"] == Ref(c.globalScope) && IsEmptyDict(c.heap, local["constants"])
  }

  ghost predicate NewResults(c: Context) {
    && IsDict(c.heap, Ref(c.resultScope))
    && var entries := c.heap[c.resultScope].entries;
       && entries.Keys == {"artifacts", "commands", "constants"} && IsEmptyDict(c.heap, entries["artifacts"])
       && IsEmptyDict(c.heap, entries["commands"]) && IsEmptyDict(c.heap, entries["constants"])
  }

  /** The entries of a new context, one by one. */
  lemma NewContextIs(h: Heap, runId: string, event: Val, vars: Val)
    requires Closed(h) && (vars.Ref? ==> vars.addr < |h|)
    ensures var c := CreateContext(h, runId, event, vars);
            && (forall a: nat | a < |h| :: a < |c.heap| && c.heap[a] == h[a]) && c.kind == HookItem
            && NewEnvelope(h, c, runId, event, vars) && NewInnerScopes(c) && NewResults(c)
  {
    hide NewEnvelope, NewInnerScopes, NewResults;
    NewEnvelopeIs(h, runId, event, vars);
    NewInnerScopesAre(h, runId, event, vars);
    NewResultsAre(h, runId, event, vars);
  }

  lemma NewEnvelopeIs(h: Heap, runId: string, event: Val, vars: Val)
    requires Closed(h) && (vars.Ref? ==> vars.addr < |h|)
    ensures NewEnvelope(h, CreateContext(h, runId, event, vars), runId, event, vars)
  {
    hide Strip;
  }

  lemma NewInnerScopesAre(h: Heap, runId: string, event: Val, vars: Val)
    requires Closed(h) && (vars.Ref? ==> vars.addr < |h|)
    ensures NewInnerScopes(CreateContext(h, runId, event, vars))
  {
    hide Strip;
  }

  lemma NewResultsAre(h: Heap, runId: string, event: Val, vars: Val)
    requires Closed(h) && (vars.Ref? ==> vars.addr < |h|)
    ensures NewResults(CreateContext(h, runId, event, vars))
  {
    hide Strip;
  }

  lemma MissingConstants(h: Heap, scope: nat, value: Val)
    requires IsDict(h, Ref(scope)) && !IsDict(h, value)
    ensures SetConstants(h, scope, value) == SetKey(h + [Dict(map[])], Ref(scope), Prop("constants"), Ref(|h|))
  {
  }

  lemma MissingScopes(h: Heap, p: Payload)
    requires Closed(h)
    requires !p.runEnvelope.Ref? && !p.globalScope.Ref? && !p.localScope.Ref? && !p.resultScope.Ref?
    ensures var r := Deserialize(h, p);
            && r.runId == Strip(p.runId) && ScopesAreDicts(r.c)
            && Get(r.c.heap, Ref(r.c.runEnvelope), Prop("run_id")) == Some(Str(Strip(p.runId)))
            && forall s :: Bindings(r.c, s) == map[]
  {
    hide Strip;
    StripNothing();
    NewContextIs(h, p.runId, Null, Null);
    var c := CreateContext(h, p.runId, Null, Null);
    MissingConstants(c.heap, c.globalScope, Null);
    MissingConstants(SetConstants(c.heap, c.globalScope, Null), c.localScope, Null);
  }

  /** Whatever a payload lacks is made anew: a payload of no scopes gives a context without constants under
      its run id, with a last result of no item and no data. */
  lemma MissingPartsAreMade(h: Heap, p: RunPayload)
    requires Closed(h)
    requires !p.base.runEnvelope.Ref? && !p.base.globalScope.Ref? && !p.base.localScope.Ref? && !p.base.resultScope.Ref?
    requires !p.last.Ref? && !p.visibleSources.Ref?
    ensures var r := DeserializeRun(h, p); var c := Deserialize(h, p.base).c;
            && r.base.runId == Strip(p.base.runId) && r.invocationId == Strip(p.invocationId)
            && IsDict(r.base.c.heap, r.last) && IsEmptyDict(r.base.c.heap, r.visibleSources)
            && r.base.c.heap[r.last.addr].entries == map["item_id" := Str(""), "data" := Null]
            && c.heap <= r.base.c.heap && r.base.c == c.(heap := r.base.c.heap)
            && Get(c.heap, Ref(c.runEnvelope), Prop("run_id")) == Some(Str(Strip(p.base.runId)))
            && forall s :: Bindings(c, s) == map[]
  {
    hide Strip, Deserialize;
    MissingScopes(h, p.base);
  }

  /** A payload without a run id of its own takes the one of its envelope. */
  lemma RunIdIsRecovered(h: Heap, p: Payload)
    requires p.runId == [] && IsDict(h, p.runEnvelope) && "run_id" in h[p.runEnvelope.addr].entries
    ensures h[p.runEnvelope.addr].entries["run_id"].Str? ==>
              Deserialize(h, p).runId == Strip(h[p.runEnvelope.addr].entries["run_id"].s)
  {
  }
}
