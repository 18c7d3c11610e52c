/** Where the planner's promise stops for targets: it does not look at them, and a target may be a planned
    constant. When exactly a write to a target leaves the variables of the interpreter in place. */
module TargetLimits {
  import opened PyText
  import opened PyList
  import opened ObjectHeap
  import opened PathText
  import opened RunContexts
  import opened ConstantStore
  import opened ConstantPlanner
  import opened CommandListings
  import opened TargetWrites
  import opened CommandPolicy
  import opened PlannerSoundness
  import opened PlannerTies
  import opened SuiteSoundness
  import opened PlannerLimits

  // ---- which writes rebind a constant -----------------------------------------------------------

  /** The scope objects are reached by their names, as in a new context. */
  ghost predicate HasAliases(c: Context) {
    && Get(c.heap, Ref(c.localScope), Prop("global")) == Some(Ref(c.globalScope))
    && Get(c.heap, Ref(c.globalScope), Prop("runEnvelope")) == Some(Ref(c.runEnvelope))
  }

  /** The aim is a constant itself, not a place in its value. */
  predicate AimsAtWhole(s: Scope, keys: seq<Key>)
    decreases |keys|
  {
    if keys == [] then false
    else if keys[0] == Prop("constants") then |keys| == 2
    else if |keys| > 1 && s.LocalScope? && keys[0] == Prop("global") then AimsAtWhole(GlobalScope, keys[1..])
    else if |keys| > 1 && s.GlobalScope? && keys[0] == Prop("runEnvelope") then AimsAtWhole(RunEnvelopeScope, keys[1..])
    else false
  }

  /** Whether a write gives a constant another value than the one it holds. A write into the value of the
      constant changes the object that is held, but puts another in its place only when that is null. */
  predicate Rebinds(whole: bool, held: Val, value: Val) { if whole then held != value else held == Null }

  /** What the constant aimed at holds after the write. */
  ghost predicate IsBound(c: Context, c': Context, slot: Slot, whole: bool, value: Val) {
    && slot.name in Bindings(c', slot.scope)
    && var after := Bindings(c', slot.scope)[slot.name];
       if whole then after == value
       else after != Null &&
            (slot.name in Bindings(c, slot.scope) && Bindings(c, slot.scope)[slot.name] != Null ==>
               after == Bindings(c, slot.scope)[slot.name])
  }

  lemma BindingAtReach(c: Context, c': Context, own: set<nat>, slot: Slot, whole: bool, value: Val, c'': Context)
    requires IsBound(c, c', slot, whole, value) && Spared(c', c'', own, Clear)
    ensures IsBound(c, c'', slot, whole, value)
  {
    hide Bindings, Shaped, KeptApart, SameShape;
  }

  lemma ConstantsAssignBinds(c: Context, own: set<nat>, s: Scope, keys: seq<Key>, value: Val)
    requires Shaped(c) && KeptApart(c, own) && IsFree(c.heap, own, value)
    requires |keys| > 1 && keys[0] == Prop("constants") && keys[1].Prop?
    ensures var c' := c.(heap := Assign(c.heap, Ref(AddrOf(c, s)), keys, value).heap);
            IsBound(c, c', Slot(s, keys[1].name), |keys| == 2, value)
  {
    hide SetKey, Shaped, KeptApart, Spared, Rebound, Bindings, IsBound;
    ShapedScopes(c);
    var a, d, name := Ref(AddrOf(c, s)), Ref(ConstantsOf(c, s).value), keys[1].name;
    assert Assign(c.heap, a, keys, value) == Assign(c.heap, d, keys[1..], value) by {
      assert Descend(c.heap, a, keys[0], keys[1]) == c.heap;
    }
    var rest := keys[1..];
    if |rest| == 1 {
      ConstantsCell(c, s, name, value);
      ReboundBinds(c, own, s, name, value);
    } else {
      ConstantDescend(c, own, s, name, rest[1]);
      var c1 := c.(heap := Descend(c.heap, d, rest[0], rest[1]));
      SparedParts(c, c1, own, OfConstant(Slot(s, name)));
      DescendBinds(c, own, s, name, rest[1], value);
      var x := Get(c1.heap, d, rest[0]).value;
      AssignSpares(c1, own, x, rest[1..], value);
      BindingAtReach(c, c1, own, Slot(s, name), false, value, c1.(heap := Assign(c1.heap, x, rest[1..], value).heap));
    }
  }

  lemma ReboundBinds(c: Context, own: set<nat>, s: Scope, name: string, value: Val)
    requires Shaped(c) && KeptApart(c, own) && IsFree(c.heap, own, value)
    ensures ConstantsOf(c, s).Some?
    ensures IsBound(c, Rebound(c, s, Bindings(c, s)[name := value]), Slot(s, name), true, value)
  {
    hide Shaped, KeptApart, Rebound, Bindings;
    BindingsInHeap(c, s);
    ReboundShape(c, s, Bindings(c, s)[name := value]);
  }

  lemma DescendBinds(c: Context, own: set<nat>, s: Scope, name: string, next: Key, value: Val)
    requires Shaped(c) && KeptApart(c, own)
    ensures ConstantsOf(c, s).Some?
    ensures var c' := c.(heap := Descend(c.heap, Ref(ConstantsOf(c, s).value), Prop(name), next));
            IsBound(c, c', Slot(s, name), false, value)
  {
    hide SetKey, Shaped, KeptApart, Spared, Rebound, Bindings;
    ShapedScopes(c);
    var d := Ref(ConstantsOf(c, s).value);
    ConstantDescend(c, own, s, name, next);
    var c' := c.(heap := Descend(c.heap, d, Prop(name), next));
    SparedConstants(c, c', own, OfConstant(Slot(s, name)), s);
    SparedParts(c, c', own, OfConstant(Slot(s, name)));
    ConstantsCell(c, s, name, Null);
    ConstantsCell(c', s, name, Null);
    assert Get(c'.heap, d, Prop(name)).value != Null by {
      DescendIsFilled(c.heap, d, Prop(name), next);
    }
  }

  lemma DescendIsFilled(h: Heap, v: Val, k: Key, next: Key)
    requires Accepts(h, v, k) && k.Prop?
    ensures Get(Descend(h, v, k, next), v, k) !in {None, Some(Null)}
    ensures Get(h, v, k) !in {None, Some(Null)} ==> Descend(h, v, k, next) == h
  {
  }

  lemma {:induction false} AimedBinds(c: Context, own: set<nat>, s: Scope, keys: seq<Key>, value: Val)
    requires Shaped(c) && KeptApart(c, own) && IsFree(c.heap, own, value) && HasAliases(c) && Aim(s, keys).OfConstant?
    ensures var c' := c.(heap := Assign(c.heap, Ref(AddrOf(c, s)), keys, value).heap);
            IsBound(c, c', Aim(s, keys).slot, AimsAtWhole(s, keys), value)
    decreases |keys|
  {
    hide SetKey, Shaped, KeptApart, IsBound;
    ShapedScopes(c);
    if keys[0] == Prop("constants") {
      ConstantsAssignBinds(c, own, s, keys, value);
    } else {
      var t := if s.LocalScope? then GlobalScope else RunEnvelopeScope;
      DescendIsFilled(c.heap, Ref(AddrOf(c, s)), keys[0], keys[1]);
      AimedBinds(c, own, t, keys[1..], value);
    }
  }

  // ---- a target, decided ------------------------------------------------------------------------

  predicate TargetsWhole(path: string) {
    match PathKeys(path)
    case None => false
    case Some(keys) =>
      match ContextRoot(keys)
      case None => false
      case Some(root) => AimsAtWhole(ScopeNamed(root), TargetKeys(root, keys))
  }

  lemma TargetBinds(c: Context, own: set<nat>, inTest: bool, path: string, value: Val)
    requires Shaped(c) && KeptApart(c, own) && IsFree(c.heap, own, value) && HasAliases(c)
    requires (c.kind.TestItem? ==> inTest) && AimOf(inTest, path).Some? && AimOf(inTest, path).value.OfConstant?
    ensures ScopesAreDicts(c)
    ensures IsBound(c, WritePath(c, path, value).0, AimOf(inTest, path).value.slot, TargetsWhole(path), value)
  {
    hide Shaped, KeptApart, IsBound, PathKeys, ContextRoot, TargetKeys, Aim, AimsAtWhole, Assign;
    ShapedScopes(c);
    var keys := PathKeys(path).value;
    var root := ContextRoot(keys).value;
    ScopeNamedAddr(c, root);
    AimedBinds(c, own, ScopeNamed(root), TargetKeys(root, keys), value);
    EmptyIsUnsafe(ScopeNamed(root));
  }

  lemma EmptyIsUnsafe(s: Scope)
    ensures Aim(s, []).Unsafe?
  {
  }

  lemma SparedMirrors(c: Context, c': Context, own: set<nat>, env: Env, table: Table, reach: Reach)
    requires Mirrors(c, env, table) && Spared(c, c', own, reach) && !reach.Unsafe?
    ensures Mirrors(c', env, table) <==>
            (reach.OfConstant? ==>
               forall id | id in env && table.rows[id] == reach.slot ::
                 reach.slot.name in Bindings(c', reach.slot.scope) &&
                 Bindings(c', reach.slot.scope)[reach.slot.name] == env[id])
  {
    hide Bindings, Shaped, KeptApart, SameShape;
  }

  /** A target that aims at the constants of the scopes at most one at a time: after the write the context
      still holds every variable of the interpreter if and only if no variable of the constant aimed at had
      another value, or was null and written into. */
  lemma TargetDecides(c: Context, env: Env, table: Table, own: set<nat>, inTest: bool, path: string, value: Val)
    requires Mirrors(c, env, table) && KeptApart(c, own) && IsFree(c.heap, own, value) && HasAliases(c)
    requires (c.kind.TestItem? ==> inTest) && AimOf(inTest, path).Some? && !AimOf(inTest, path).value.Unsafe?
    ensures ScopesAreDicts(c)
    ensures var reach := AimOf(inTest, path).value;
            Mirrors(WritePath(c, path, value).0, env, table) <==>
            (reach.OfConstant? ==>
               forall id | id in env && table.rows[id] == reach.slot :: !Rebinds(TargetsWhole(path), env[id], value))
  {
    hide Mirrors, Bindings, Shaped, KeptApart, AimOf, WritePath, TargetsWhole, HasAliases, Spared;
    var reach := AimOf(inTest, path).value;
    MirrorsShaped(c, env, table);
    TargetWriteSpares(c, own, inTest, path, value);
    var c' := WritePath(c, path, value).0;
    SparedMirrors(c, c', own, env, table, reach);
    if reach.OfConstant? {
      TargetBinds(c, own, inTest, path, value);
      MirrorsHeld(c, env, table);
    }
  }

  lemma MirrorsHeld(c: Context, env: Env, table: Table)
    requires Mirrors(c, env, table)
    ensures forall id | id in env ::
              && id in table.rows && table.rows[id].name in Bindings(c, table.rows[id].scope)
              && Bindings(c, table.rows[id].scope)[table.rows[id].name] == env[id]
  {
  }

  // ---- a target that is a planned constant ------------------------------------------------------

  const RECEIVE_X := Command("b", 2, Action(ReceiveQueue, [], [], None, Some(ConstantPath(LocalScope, "x"))))
  const COMPARE_X := Command("c", 3, Action(JsonEquals, ["d"], [], None, None))

  /** setVariable declares `x`, receiveQueue has it as its target, and an assertion reads it. */
  const OVERWRITING := [SET_X, RECEIVE_X, COMPARE_X]

  lemma OverwritingIsAccepted()
    ensures PlanSection(TestSection, map[], OVERWRITING).Accepted?
  {
    hide SortBy;
    assert SortedCommands(OVERWRITING) == OVERWRITING by {
      assert SortedBy(OVERWRITING, CommandLeq);
      SortBySorted(OVERWRITING, CommandLeq);
    }
    var none: Definitions := Carried(map[]);
    assert none == map[];
    assert Active(none, ALL_SCOPES, 2) == map[];
    var defs: Definitions := map["d" := Declared(TestSection, SET_X).value];
    assert PlanStep(TestSection, none, SET_X) == Accepted(defs);
    assert CheckRefs(Active(defs, Readable(TestSection), 2), ReceiveQueue, []).None?;
    assert PlanStep(TestSection, defs, RECEIVE_X) == Accepted(defs);
    var active := Active(defs, Readable(TestSection), 3);
    assert "d" in active && CheckRefs(active, JsonEquals, ["d"][1..]).None?;
    assert PlanStep(TestSection, defs, COMPARE_X) == Accepted(defs);
    PlanThree(none, defs, defs);
  }

  lemma PlanThree(defs: Definitions, defs1: Definitions, defs2: Definitions)
    requires PlanStep(TestSection, defs, SET_X) == Accepted(defs1)
    requires PlanStep(TestSection, defs1, RECEIVE_X) == Accepted(defs2)
    requires PlanStep(TestSection, defs2, COMPARE_X) == Accepted(defs2)
    ensures PlanFrom(TestSection, defs, OVERWRITING) == Accepted(defs2)
  {
    hide PlanStep;
    assert OVERWRITING[1..] == [RECEIVE_X, COMPARE_X] && [RECEIVE_X, COMPARE_X][1..] == [COMPARE_X] && [COMPARE_X][1..] == [];
    assert PlanFrom(TestSection, defs2, [COMPARE_X]) == Accepted(defs2);
    assert PlanFrom(TestSection, defs1, [RECEIVE_X, COMPARE_X]) == Accepted(defs2);
  }

  /** `x` is bound to a value, and the command has nothing else to do. */
  lemma BindX(c: Context, value: Val)
    requires Shaped(c) && (value.Ref? ==> value.addr < |c.heap|)
    ensures ScopesAreDicts(c)
    ensures var (c', o) := WritePath(c, ConstantPath(LocalScope, "x"), value);
            o == Done && Shaped(c') && |c'.heap| == |c.heap| && "x" in Bindings(c', LocalScope) && Bindings(c', LocalScope)["x"] == value
  {
    hide WritePath, ConstantPath, Bindings, SimpleName, Shaped;
    ShapedIsReady(c);
    XIsSimple();
    WriteConstant(c, LocalScope, "x", value);
    BindingsInHeap(c, LocalScope);
    ReboundShape(c, LocalScope, Bindings(c, LocalScope)["x" := value]);
  }

  lemma ReadX(c: Context, table: Table, value: Val)
    requires Shaped(c) && "x" in Bindings(c, LocalScope) && Bindings(c, LocalScope)["x"] == value
    requires "d" in table.rows && table.rows["d"] == X_SLOT
    ensures ReadAll(c, table, ["d"]) == Some([Seen(X_SLOT, value)])
  {
    hide ReadPath, ConstantPath, Bindings, SimpleName, Shaped;
    XIsSimple();
    ReadConstant(c, LocalScope, "x");
    assert ReadDefinition(c, table, "d") == Some(Seen(X_SLOT, value));
    assert ["d"][1..] == [] && ReadAll(c, table, []) == Some([]);
    assert [Seen(X_SLOT, value)] + [] == [Seen(X_SLOT, value)];
  }

  lemma OverwritingRuns(c: Context, c1: Context, c2: Context, table: Table, effects: Effects, v: Val, w: Val, seen: Val)
    requires ScopesAreDicts(c) && ScopesAreDicts(c1) && ScopesAreDicts(c2)
    requires effects("a", []) == Effect(Some(v), false) && effects("b", []) == Effect(Some(w), false)
    requires WritePath(c, ConstantPath(LocalScope, "x"), v) == (c1, Done)
    requires WritePath(c1, ConstantPath(LocalScope, "x"), w) == (c2, Done)
    requires ReadAll(c2, table, ["d"]) == Some([seen])
    ensures RunCommands(c, table, effects, OVERWRITING).trace == [Entry("a", []), Entry("b", []), Entry("c", [seen])]
  {
    hide WritePath, ConstantPath, ReadAll, RunCommands;
    assert RunCommand(c, table, effects, SET_X) == Ran(c1, [Entry("a", [])], Finished);
    ReadNothing(c1, table);
    assert RunCommand(c1, table, effects, RECEIVE_X) == Ran(c2, [Entry("b", [])], Finished);
    assert RunCommand(c2, table, effects, COMPARE_X).trace == [Entry("c", [seen])];
    assert OVERWRITING[1..] == [RECEIVE_X, COMPARE_X] && [RECEIVE_X, COMPARE_X][1..] == [COMPARE_X];
    RunOne(c2, table, effects, COMPARE_X);
    RunRest(c, table, effects, OVERWRITING);
    RunRest(c1, table, effects, [RECEIVE_X, COMPARE_X]);
  }

  /** The planner accepts the commands and the policy passes the target, but the assertion reads what
      receiveQueue wrote, where the interpreter reads what setVariable wrote. */
  lemma OverwrittenConstantIsRead(c: Context, table: Table, effects: Effects, v: Val, w: Val)
    requires Shaped(c) && "d" in table.rows && table.rows["d"] == X_SLOT
    requires effects("a", []) == Effect(Some(v), false) && effects("b", []) == Effect(Some(w), false)
    requires (v.Ref? ==> v.addr < |c.heap|) && (w.Ref? ==> w.addr < |c.heap|)
    ensures PlanSection(TestSection, map[], OVERWRITING).Accepted?
    ensures CheckTarget(TestItem, ConstantPath(LocalScope, "x")).None?
    ensures ScopesAreDicts(c)
    ensures RunCommands(c, table, effects, OVERWRITING).trace ==
            [Entry("a", []), Entry("b", []), Entry("c", [Seen(X_SLOT, w)])]
    ensures Interpret(map[], table, effects, OVERWRITING).trace ==
            [Entry("a", []), Entry("b", []), Entry("c", [Seen(X_SLOT, v)])]
  {
    hide Shaped, Bindings, RunCommands, PlanSection, SimpleName, WritePath, ConstantPath, ReadAll, Seen, CheckTarget, Interpret;
    OverwritingIsAccepted();
    XIsSimple();
    ConstantPathRoot(LocalScope, "x");
    LocalTargetPasses(ConstantPath(LocalScope, "x"));
    BindX(c, v);
    var c1 := WritePath(c, ConstantPath(LocalScope, "x"), v).0;
    ShapedIsReady(c1);
    BindX(c1, w);
    var c2 := WritePath(c1, ConstantPath(LocalScope, "x"), w).0;
    ShapedIsReady(c2);
    ReadX(c2, table, w);
    OverwritingRuns(c, c1, c2, table, effects, v, w, Seen(X_SLOT, w));
    OverwritingMeans(table, effects, v, w);
  }

  lemma ReadNothing(c: Context, table: Table)
    ensures ReadAll(c, table, []) == Some([])
  {
  }

  lemma LocalTargetPasses(path: string)
    requires RootOf(path) == Some("local")
    ensures CheckTarget(TestItem, path).None?
  {
    hide RootOf;
  }

  lemma OverwritingMeans(table: Table, effects: Effects, v: Val, w: Val)
    requires "d" in table.rows && table.rows["d"] == X_SLOT
    requires effects("a", []) == Effect(Some(v), false) && effects("b", []) == Effect(Some(w), false)
    ensures Interpret(map[], table, effects, OVERWRITING).trace ==
            [Entry("a", []), Entry("b", []), Entry("c", [Seen(X_SLOT, v)])]
  {
    hide Seen, ConstantPath;
    var env: Env := map["d" := v];
    assert OVERWRITING[1..] == [RECEIVE_X, COMPARE_X] && [RECEIVE_X, COMPARE_X][1..] == [COMPARE_X] && [COMPARE_X][1..] == [];
    assert InterpretCommand(map[], table, effects, SET_X) == Meant(env, [Entry("a", [])], Finished);
    assert InterpretCommand(env, table, effects, RECEIVE_X) == Meant(env, [Entry("b", [])], Finished);
    assert Inputs(env, table, ["d"][1..]) == Some([]) && [Seen(X_SLOT, v)] + [] == [Seen(X_SLOT, v)];
    assert Inputs(env, table, ["d"]) == Some([Seen(X_SLOT, v)]);
    var last := InterpretCommand(env, table, effects, COMPARE_X);
    assert last.trace == [Entry("c", [Seen(X_SLOT, v)])];
    assert Interpret(env, table, effects, [COMPARE_X]).trace == last.trace;
    assert Interpret(env, table, effects, [RECEIVE_X, COMPARE_X]).trace == [Entry("b", [])] + last.trace;
  }
}
