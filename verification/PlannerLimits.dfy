/** Where the planner's promise stops: inputs it accepts that the run cannot honour, and when exactly a
    section runs well although definitions were deleted since it was checked, or are never written. */
module PlannerLimits {
  import opened PyText
  import opened PyList
  import opened PathText
  import opened RunContexts
  import opened ConstantStore
  import opened ConstantPlanner
  import opened CommandListings
  import opened TargetWrites
  import opened PlannerSoundness
  import opened PlannerTies
  import opened SuiteSoundness

  lemma PlanOne(section: Section, initial: Definitions, cmd: Command)
    ensures SortedCommands([cmd]) == [cmd]
    ensures PlanSection(section, initial, [cmd]) == PlanStep(section, Carried(initial), cmd)
  {
    assert [cmd][1..] == [];
    assert SortBy([cmd][1..], CommandLeq) == [];
    var step := PlanStep(section, Carried(initial), cmd);
    if step.Accepted? {
      assert PlanFrom(section, step.value, [cmd][1..]) == step;
    }
  }

  lemma PlanNone(section: Section, initial: Definitions)
    ensures PlanSection(section, initial, []) == Accepted(Carried(initial))
  {
    assert SortedCommands([]) == [];
  }

  // ---- definitions deleted since the check ------------------------------------------------------

  /** The live definitions of `planned` that are still live in `actual`. */
  function Kept(planned: Definitions, actual: Definitions): Definitions {
    map id | id in planned && Live(planned, id) && Live(actual, id) :: planned[id]
  }

  /** No command reads or deletes a definition that has been deleted since. */
  ghost predicate RefsAreKept(planned: Definitions, actual: Definitions, cmds: seq<Command>) {
    forall cmd, id | cmd in cmds && id in Refs(cmd) && Live(planned, id) :: Live(actual, id)
  }

  /** `fewer` lacks live definitions that no command refers to. */
  ghost predicate Lacks(fewer: Definitions, defs: Definitions, cmds: seq<Command>) {
    && (forall id | id in fewer :: id in defs && fewer[id] == defs[id])
    && (forall id | id in defs && id !in fewer :: Live(defs, id))
    && (forall cmd, id | cmd in cmds && id in Refs(cmd) && id in defs :: id in fewer)
  }

  lemma LawfulWithout(section: Section, defs: Definitions, fewer: Definitions, table: Table, last: int, cmd: Command)
    requires Planned(defs, table, last) && last <= cmd.order && Lawful(section, defs, cmd)
    requires TableDeclares(table, section, [cmd]) && Lacks(fewer, defs, [cmd])
    ensures Lawful(section, fewer, cmd)
  {
    hide Active, CheckDeclaration;
    assert cmd in [cmd];
    forall id | id in Refs(cmd)
      ensures id in fewer && id in Active(fewer, Readable(section), cmd.order)
    {
      Activity(defs, Readable(section), cmd.order, id);
      Activity(fewer, Readable(section), cmd.order, id);
    }
    if cmd.cfg.DeleteVariable? {
      assert cmd.cfg.target in Refs(cmd);
    }
    if Declared(section, cmd).Some? {
      FewerIsFree(section, defs, fewer, cmd);
    }
  }

  lemma AfterWithout(section: Section, defs: Definitions, fewer: Definitions, table: Table, last: int, cmd: Command)
    requires Planned(defs, table, last) && last <= cmd.order && Lawful(section, defs, cmd)
    requires TableDeclares(table, section, [cmd]) && Lacks(fewer, defs, [cmd])
    ensures forall id | id in fewer :: id in After(section, fewer, cmd)
    ensures forall id | id in After(section, fewer, cmd) ::
              id in After(section, defs, cmd) && After(section, fewer, cmd)[id] == After(section, defs, cmd)[id]
    ensures forall id | id in After(section, defs, cmd) && id !in After(section, fewer, cmd) ::
              id in defs && id !in fewer && Live(After(section, defs, cmd), id)
  {
    hide Active, CheckDeclaration;
    assert cmd in [cmd];
    if cmd.cfg.DeleteVariable? {
      assert cmd.cfg.target in Refs(cmd);
    }
    if Declared(section, cmd).Some? {
      DeclarationIsNew(section, defs, last, cmd.order, Declared(section, cmd).value);
    }
  }

  lemma FewerIsFree(section: Section, defs: Definitions, fewer: Definitions, cmd: Command)
    requires Declared(section, cmd).Some?
    requires CheckDeclaration(section, defs, cmd.order, Declared(section, cmd).value).None?
    requires forall id | id in fewer :: id in defs && fewer[id] == defs[id]
    ensures CheckDeclaration(section, fewer, cmd.order, Declared(section, cmd).value).None?
  {
    var active := Active(defs, ALL_SCOPES, cmd.order + 1);
    assert forall id | id in Active(fewer, ALL_SCOPES, cmd.order + 1) :: id in active && active[id] == fewer[id];
  }

  lemma {:induction false} LawfulRunWithout(section: Section, defs: Definitions, fewer: Definitions, table: Table, last: int,
                                            cmds: seq<Command>)
    requires Planned(defs, table, last) && InOrder(cmds, last) && LawfulRun(section, defs, cmds)
    requires TableDeclares(table, section, cmds) && Lacks(fewer, defs, cmds)
    ensures LawfulRun(section, fewer, cmds)
    decreases |cmds|
  {
    hide Lawful, After, Planned, TableDeclares, InOrder, Refs;
    if cmds == [] {
    } else {
      var cmd := cmds[0];
      DeclaringTail(table, section, cmds, last);
      AfterIsPlanned(section, defs, table, last, cmd);
      assert cmd in cmds && forall other | other in cmds[1..] :: other in cmds;
      LawfulWithout(section, defs, fewer, table, last, cmd);
      AfterWithout(section, defs, fewer, table, last, cmd);
      LawfulRunWithout(section, After(section, defs, cmd), After(section, fewer, cmd), table, cmd.order, cmds[1..]);
    }
  }

  /** A command that refers to a definition without a variable breaks the run. */
  lemma {:induction false} MissingBreaks(section: Section, defs: Definitions, table: Table, last: int, env: Env,
                                         effects: Effects, cmds: seq<Command>, cmd: Command, id: string)
    requires Planned(defs, table, last) && InOrder(cmds, last) && LawfulRun(section, defs, cmds)
    requires TableDeclares(table, section, cmds) && NoneRaises(effects)
    requires cmd in cmds && id in Refs(cmd) && Live(defs, id) && id !in env
    ensures Interpret(env, table, effects, cmds).status.Broken?
    decreases |cmds|
  {
    hide Lawful, After, Planned, TableDeclares, InOrder, Refs, InterpretCommand, NoneRaises;
    var first, m := cmds[0], InterpretCommand(env, table, effects, cmds[0]);
    DeclaringTail(table, section, cmds, last);
    AfterIsPlanned(section, defs, table, last, first);
    InterpretDoesNotRaise(env, table, effects, first);
    if id in Refs(first) {
      ReferenceBreaks(env, table, effects, first, id);
    } else if m.status == Finished {
      StaysMissing(section, defs, table, last, env, effects, first, id);
      MissingBreaks(section, After(section, defs, first), table, first.order, m.env, effects, cmds[1..], cmd, id);
    }
  }

  lemma ReferenceBreaks(env: Env, table: Table, effects: Effects, cmd: Command, id: string)
    requires id in Refs(cmd) && id !in env
    ensures InterpretCommand(env, table, effects, cmd).status.Broken?
  {
    if cmd.cfg.Action? {
      InputsNeedAll(env, table, cmd.cfg.refs, id);
    }
  }

  lemma StaysMissing(section: Section, defs: Definitions, table: Table, last: int, env: Env, effects: Effects,
                     cmd: Command, id: string)
    requires Planned(defs, table, last) && last <= cmd.order && Lawful(section, defs, cmd)
    requires TableDeclares(table, section, [cmd])
    requires id !in Refs(cmd) && Live(defs, id) && id !in env
    ensures id !in InterpretCommand(env, table, effects, cmd).env && Live(After(section, defs, cmd), id)
  {
    hide Active, CheckDeclaration, Inputs;
    assert cmd in [cmd];
    if Declared(section, cmd).Some? {
      DeclarationIsNew(section, defs, last, cmd.order, Declared(section, cmd).value);
    }
  }

  /** A definition that is declared without being written has no variable. */
  lemma StaysUnwritten(section: Section, defs: Definitions, table: Table, last: int, env: Env, effects: Effects,
                       cmd: Command, id: string)
    requires Planned(defs, table, last) && last <= cmd.order && Lawful(section, defs, cmd) && NoneRaises(effects)
    requires TableDeclares(table, section, [cmd]) && LooseIsUnwritten(section, table, effects, [cmd])
    requires id in table.loose && id !in Refs(cmd) && (Live(defs, id) ==> id !in env)
    requires InterpretCommand(env, table, effects, cmd).status == Finished
    ensures Live(After(section, defs, cmd), id) ==> id !in InterpretCommand(env, table, effects, cmd).env
  {
    hide Active, CheckDeclaration, Inputs, Given;
    assert cmd in [cmd];
  }

  /** A command that refers to a definition that is never written breaks the run. */
  lemma {:induction false} UnwrittenBreaks(section: Section, defs: Definitions, table: Table, last: int, env: Env,
                                           effects: Effects, cmds: seq<Command>, cmd: Command, id: string)
    requires Planned(defs, table, last) && InOrder(cmds, last) && LawfulRun(section, defs, cmds)
    requires TableDeclares(table, section, cmds) && LooseIsUnwritten(section, table, effects, cmds) && NoneRaises(effects)
    requires cmd in cmds && id in Refs(cmd) && id in table.loose && (Live(defs, id) ==> id !in env)
    ensures Interpret(env, table, effects, cmds).status.Broken?
    decreases |cmds|
  {
    hide Lawful, After, Planned, TableDeclares, InOrder, Refs, InterpretCommand, NoneRaises, Declared, Given;
    if Live(defs, id) {
      MissingBreaks(section, defs, table, last, env, effects, cmds, cmd, id);
    } else {
      var first, m := cmds[0], InterpretCommand(env, table, effects, cmds[0]);
      DeclaringTail(table, section, cmds, last);
      AfterIsPlanned(section, defs, table, last, first);
      InterpretDoesNotRaise(env, table, effects, first);
      PlannedUpTo(defs, table, last);
      RefsAreLive(section, defs, last, first);
      assert first in cmds && forall other | other in cmds[1..] :: other in cmds;
      if m.status == Finished {
        StaysUnwritten(section, defs, table, last, env, effects, first, id);
        UnwrittenBreaks(section, After(section, defs, first), table, first.order, m.env, effects, cmds[1..], cmd, id);
      }
    }
  }

  lemma PlannedUpTo(defs: Definitions, table: Table, last: int)
    requires Planned(defs, table, last)
    ensures UpTo(defs, last)
  {
  }

  /** A section that was accepted after `planned` but starts from a context that holds `actual`, with
      harmless targets: when no command raises, and each writes its constant always or never, the run agrees
      with the interpreter if and only if no command refers to a definition that has been deleted since, or
      that its command does not write. */
  lemma SectionRunsExactly(c: Context, env: Env, planned: Definitions, actual: Definitions, table: Table,
                           effects: Effects, section: Section, cmds: seq<Command>, listing: seq<Command>, own: set<nat>)
    requires Starts(c, env, actual, table) && Exact(env, actual, table) && NoneRaises(effects)
    requires Setting(table, effects, section, c, own) && NoClash(planned) && TableHolds(table, planned)
    requires NonNegative(cmds) && TableDeclares(table, section, cmds) && TieFree(section, table, cmds)
    requires LooseIsUnwritten(section, table, effects, cmds) && TargetsAreHarmless(table, section, cmds)
    requires PlanSection(section, planned, cmds).Accepted? && IsListing(cmds, listing)
    ensures ScopesAreDicts(c)
    ensures SameRun(RunCommands(c, table, effects, listing), Interpret(env, table, effects, listing))
            <==> RefsAreKept(planned, actual, cmds) && RefsAreSolid(table, cmds)
  {
    hide RunCommands, Interpret, PlanFrom, Carried, SortedCommands, Simulates, Starts, Planned, TieFree, TableDeclares, NoClash,
         TableHolds, Refs, Lacks, NoneRaises, Declared, Given, LawfulRun, InOrder, Harmless, TargetOf, Setting;
    assert ScopesAreDicts(c) by {
      StartsParts(c, env, actual, table);
      ShapedIsReady(c);
    }
    CarriedIsPlanned(planned, table);
    AcceptedListing(section, Carried(planned), table, cmds, listing);
    MultisetMembers(listing, cmds);
    if !RefsAreKept(planned, actual, cmds) {
      var cmd, id :| cmd in cmds && id in Refs(cmd) && Live(planned, id) && !Live(actual, id);
      MissingBreaks(section, Carried(planned), table, 0, env, effects, listing, cmd, id);
    } else if !RefsAreSolid(table, cmds) {
      var cmd, id :| cmd in cmds && id in Refs(cmd) && id in table.loose;
      UnwrittenBreaks(section, Carried(planned), table, 0, env, effects, listing, cmd, id);
    } else {
      UnwrittenAreDependable(section, table, effects, listing);
      RunsOnKept(c, env, planned, actual, table, effects, section, listing, own);
    }
  }

  lemma UnwrittenAreDependable(section: Section, table: Table, effects: Effects, cmds: seq<Command>)
    requires TableDeclares(table, section, cmds) && RefsAreSolid(table, cmds) && TargetsAreHarmless(table, section, cmds)
    requires LooseIsUnwritten(section, table, effects, cmds)
    ensures Dependable(table, section, effects, cmds)
  {
    hide TableDeclares, RefsAreSolid, TargetsAreHarmless, Given, Declared;
  }

  lemma RunsOnKept(c: Context, env: Env, planned: Definitions, actual: Definitions, table: Table, effects: Effects,
                   section: Section, listing: seq<Command>, own: set<nat>)
    requires Starts(c, env, actual, table) && Setting(table, effects, section, c, own)
    requires NoClash(planned) && TableHolds(table, planned) && InOrder(listing, 0) && Dependable(table, section, effects, listing)
    requires LawfulRun(section, Carried(planned), listing) && RefsAreKept(planned, actual, listing)
    ensures ScopesAreDicts(c) && SameRun(RunCommands(c, table, effects, listing), Interpret(env, table, effects, listing))
  {
    hide RunCommands, Interpret, Carried, Simulates, Starts, Planned, Dependable, NoClash, TableHolds, Lacks, LawfulRun,
         RefsAreKept, InOrder, Setting;
    StartsParts(c, env, actual, table);
    ShapedIsReady(c);
    CarriedIsPlanned(planned, table);
    var kept := Kept(planned, actual);
    KeptStarts(c, env, planned, actual, table);
    CarriedSimulates(c, env, kept, table);
    CarriedKept(planned, actual, listing);
    FewerAreDependable(table, section, effects, listing, listing);
    LawfulRunWithout(section, Carried(planned), Carried(kept), table, 0, listing);
    var end := RunAgrees(c, env, Carried(kept), table, 0, effects, section, listing, own);
  }

  lemma KeptStarts(c: Context, env: Env, planned: Definitions, actual: Definitions, table: Table)
    requires Starts(c, env, actual, table) && NoClash(planned) && TableHolds(table, planned)
    ensures Starts(c, env, Kept(planned, actual), table)
  {
    hide Shaped, Bindings;
    var kept := Kept(planned, actual);
    forall id | Live(kept, id)
      ensures Live(actual, id) && SlotOf(kept[id]) == SlotOf(actual[id])
    {
    }
  }

  lemma CarriedKept(planned: Definitions, actual: Definitions, cmds: seq<Command>)
    requires RefsAreKept(planned, actual, cmds)
    ensures Lacks(Carried(Kept(planned, actual)), Carried(planned), cmds)
  {
  }

  const SET_X := Command("a", 1, SetVariable("d", "x", LocalScope, JsonValue))
  const DELETE_X := Command("b", 1, DeleteVariable("d"))
  const READ_X := Command("c", 1, Action(JsonEquals, ["d"], [], None, None))

  /** before-each defines `x`, the test deletes it, after-each reads it. */
  const UNSOUND := Suite([], [SET_X], [[DELETE_X]], [READ_X], [])

  const UNSOUND_TEST := TestListing([SET_X], [DELETE_X], [READ_X], true)

  const DEFINED_X := Definition("d", "a", 1, BeforeEach, "x", LocalScope, JsonValue, None)

  lemma UnsoundIsAccepted()
    ensures SuiteError(UNSOUND).None?
  {
    var all: Definitions := Carried(map[]);
    assert all == map[];
    PlanNone(BeforeAll, map[]);
    PlanOne(BeforeEach, all, SET_X);
    assert Active(Carried(all), ALL_SCOPES, 2) == map[];
    var each: Definitions := map["d" := DEFINED_X];
    assert PlanSection(BeforeEach, all, [SET_X]) == Accepted(each);
    var carried := Carried(each);
    assert carried == map["d" := DEFINED_X.(order := 0)];
    PlanOne(TestSection, each, DELETE_X);
    assert "d" in Active(carried, Readable(TestSection), 1);
    assert PlanSection(TestSection, each, [DELETE_X]).Accepted?;
    assert PlanTests(each, [[DELETE_X]]).None? by {
      assert [[DELETE_X]][1..] == [];
    }
    PlanOne(AfterEach, each, READ_X);
    assert "d" in Active(carried, Readable(AfterEach), 1);
    assert CheckRefs(Active(carried, Readable(AfterEach), 1), JsonEquals, ["d"]).None? by {
      assert ["d"][1..] == [];
    }
    assert PlanSection(AfterEach, each, [READ_X]).Accepted?;
    PlanNone(AfterAll, all);
  }

  lemma RunOne(c: Context, table: Table, effects: Effects, cmd: Command)
    requires ScopesAreDicts(c)
    ensures RunCommands(c, table, effects, [cmd]) == RunCommand(c, table, effects, cmd)
  {
    hide RunCommand;
    var first := RunCommand(c, table, effects, cmd);
    assert [cmd][1..] == [];
    if first.status == Finished && ScopesAreDicts(first.c) {
      assert RunCommands(first.c, table, effects, []) == Ran(first.c, [], Finished);
      assert first.trace + [] == first.trace;
    }
  }

  lemma RunRest(c: Context, table: Table, effects: Effects, cmds: seq<Command>)
    requires ScopesAreDicts(c) && cmds != []
    ensures var first := RunCommand(c, table, effects, cmds[0]);
            first.status == Finished && ScopesAreDicts(first.c) ==>
              var rest := RunCommands(first.c, table, effects, cmds[1..]);
              RunCommands(c, table, effects, cmds) == Ran(rest.c, first.trace + rest.trace, rest.status)
  {
    hide RunCommand;
  }

  /** The slot of a missing constant cannot be read. */
  lemma ReadMissing(c: Context, table: Table, effects: Effects, cmd: Command, id: string)
    requires Shaped(c) && cmd.cfg.Action? && cmd.cfg.refs == [id]
    requires id in table.rows && SimpleName(table.rows[id].name) && table.rows[id].name !in Bindings(c, table.rows[id].scope)
    ensures ScopesAreDicts(c) && RunCommand(c, table, effects, cmd).status == Broken(cmd.id)
  {
    hide ReadPath, ConstantPath, Bindings;
    ShapedIsReady(c);
    ReadConstant(c, table.rows[id].scope, table.rows[id].name);
    assert ReadAll(c, table, [id]).None?;
  }

  const X_SLOT := Slot(LocalScope, "x")

  /** Removing `x` leaves it unbound. */
  lemma RemoveX(c: Context, table: Table, effects: Effects, cmd: Command)
    requires Shaped(c) && "d" in table.rows && table.rows["d"] == X_SLOT && cmd.cfg == DeleteVariable("d")
    ensures ScopesAreDicts(c)
    ensures var r := RunCommand(c, table, effects, cmd);
            r.status == Finished && Shaped(r.c) && SameShape(c, r.c) && "x" !in Bindings(r.c, LocalScope)
  {
    hide RemovePath, ConstantPath, Bindings, SimpleName, Shaped;
    ShapedIsReady(c);
    XIsSimple();
    RemoveConstant(c, LocalScope, "x");
    BindingsInHeap(c, LocalScope);
    ReboundShape(c, LocalScope, Bindings(c, LocalScope) - {"x"});
  }

  lemma WriteX(c: Context, table: Table, effects: Effects, cmd: Command)
    requires Shaped(c) && cmd.cfg.SetVariable? && cmd.cfg.name == "x" && cmd.cfg.scope == LocalScope
    requires EffectsFree(effects, |c.heap|, {}) && !effects(cmd.id, []).raised
    ensures ScopesAreDicts(c)
    ensures var r := RunCommand(c, table, effects, cmd); r.status == Finished && Shaped(r.c) && SameShape(c, r.c)
  {
    hide WritePath, ConstantPath, Bindings, SimpleName, Shaped;
    ShapedIsReady(c);
    XIsSimple();
    var v := Given(cmd, effects(cmd.id, [])).given.value;
    WriteConstant(c, LocalScope, "x", v);
    BindingsInHeap(c, LocalScope);
    ReboundShape(c, LocalScope, Bindings(c, LocalScope)["x" := v]);
  }

  /** One command as an item, entered again over the same local constants. */
  lemma ItemOfOne(c: Context, kind: ItemKind, locals: nat, table: Table, effects: Effects, cmd: Command, kind': ItemKind)
    requires Shaped(c) && OwnLocals(c, locals)
    requires var e := Enter(c, kind, locals);
             ScopesAreDicts(e) && var r := RunCommand(e, table, effects, cmd); Shaped(r.c) && SameShape(e, r.c)
    ensures var r, i := RunCommand(Enter(c, kind, locals), table, effects, cmd), Item(c, kind, locals, table, effects, [cmd]);
            && i.status == r.status && Shaped(i.c) && OwnLocals(i.c, locals)
            && Shaped(Enter(i.c, kind', locals)) && SameBindings(r.c, Enter(i.c, kind', locals))
  {
    hide Shaped, Enter, Leave, Bindings, RunCommand, RunCommands, Item, SameBindings, OwnLocals, SameShape;
    ShapedIsReady(c);
    RunOne(Enter(c, kind, locals), table, effects, cmd);
    RunHasShape(c, kind, locals, table, effects, [cmd]);
    var i := Item(c, kind, locals, table, effects, [cmd]);
    EnterHolds(i.c, kind', locals);
  }

  /** The checker accepts a suite whose test deletes an inherited constant that after-each reads, and
      after-each then finds the constant missing. */
  lemma DeletedInheritedIsMissed(c: Context, table: Table, effects: Effects)
    requires Shaped(c) && EffectsFree(effects, |c.heap|, {}) && !effects("a", []).raised
    requires "d" in table.rows && table.rows["d"] == X_SLOT
    ensures SuiteError(UNSOUND).None?
    ensures var r := RunTest(c, UNSOUND_TEST, table, effects);
            r.beforeEach.status == Finished && r.test.status == Finished && r.afterEach.status == Broken("c")
  {
    hide Shaped, Enter, Bindings, RunCommand, Item, SuiteError, NewDict, OwnLocals, SameShape, SimpleName;
    UnsoundIsAccepted();
    NewDictHolds(c);
    XIsSimple();
    var locals, n := |c.heap|, NewDict(c);
    ShapedIsReady(n);
    EnterHolds(n, HookItem, locals);
    var e1 := Enter(n, HookItem, locals);
    assert EffectsFree(effects, |e1.heap|, {}) by {
      assert |e1.heap| == |c.heap| + 1 by {
        GrownByOne(c);
      }
    }
    WriteX(e1, table, effects, SET_X);
    ItemOfOne(n, HookItem, locals, table, effects, SET_X, TestItem);
    var b := Item(n, HookItem, locals, table, effects, [SET_X]);
    ShapedIsReady(b.c);
    RemoveX(Enter(b.c, TestItem, locals), table, effects, DELETE_X);
    ItemOfOne(b.c, TestItem, locals, table, effects, DELETE_X, HookItem);
    var t := Item(b.c, TestItem, locals, table, effects, [DELETE_X]);
    ShapedIsReady(t.c);
    var e3 := Enter(t.c, HookItem, locals);
    ReadMissing(e3, table, effects, READ_X, "d");
    ItemIsRun(t.c, HookItem, locals, table, effects, [READ_X]);
    RunOne(e3, table, effects, READ_X);
  }

  lemma GrownByOne(c: Context)
    requires Shaped(c)
    ensures ScopesAreDicts(NewDict(c)) && |Enter(NewDict(c), HookItem, |c.heap|).heap| == |c.heap| + 1
  {
    hide Shaped, Bindings;
    NewDictHolds(c);
    ShapedIsReady(NewDict(c));
    EnterHolds(NewDict(c), HookItem, |c.heap|);
  }

  // ---- ties -------------------------------------------------------------------------------------

  const INHERITED_X := Definition("d", "z", 1, BeforeEach, "x", LocalScope, JsonValue, None)
  const FIRST := Command("a", 1, DeleteVariable("d"))
  const TIED := Command("b", 1, SetVariable("e", "x", LocalScope, JsonValue))
  const LATER := Command("c", 2, Action(JsonEquals, ["e"], [], None, None))

  lemma FirstStep(defs: Definitions)
    requires defs == map["d" := INHERITED_X.(order := 0)]
    ensures PlanStep(TestSection, defs, FIRST) == Accepted(defs["d" := defs["d"].(deletedAt := Some(1))])
  {
    assert "d" in Active(defs, Readable(TestSection), 1);
  }

  lemma TiedStep(defs: Definitions)
    requires defs == map["d" := INHERITED_X.(order := 0).(deletedAt := Some(1))]
    ensures PlanStep(TestSection, defs, TIED) == Accepted(defs["e" := Declared(TestSection, TIED).value])
  {
    assert Active(defs, ALL_SCOPES, 2) == map[];
  }

  lemma LaterStep(defs: Definitions)
    requires "e" in defs && defs["e"] == Declared(TestSection, TIED).value
    ensures PlanStep(TestSection, defs, LATER) == Accepted(defs)
  {
    var active := Active(defs, Readable(TestSection), 2);
    assert "e" in active && CheckRefs(active, JsonEquals, ["e"][1..]).None?;
  }

  lemma TiedIsSorted()
    ensures SortedCommands([FIRST, TIED, LATER]) == [FIRST, TIED, LATER]
  {
    hide SortBy;
    assert SortedBy([FIRST, TIED, LATER], CommandLeq);
    SortBySorted([FIRST, TIED, LATER], CommandLeq);
  }

  lemma CarriedX()
    ensures Carried(map["d" := INHERITED_X]) == map["d" := INHERITED_X.(order := 0)]
  {
  }

  lemma TiedIsAccepted()
    ensures PlanSection(TestSection, map["d" := INHERITED_X], [FIRST, TIED, LATER]).Accepted?
  {
    hide PlanStep, SortedCommands, Carried, PlanFrom;
    TiedIsSorted();
    var defs: Definitions := map["d" := INHERITED_X.(order := 0)];
    CarriedX();
    FirstStep(defs);
    var defs1 := defs["d" := defs["d"].(deletedAt := Some(1))];
    TiedStep(defs1);
    var defs2 := defs1["e" := Declared(TestSection, TIED).value];
    LaterStep(defs2);
    PlanThree(defs, defs1, defs2);
  }

  lemma PlanThree(defs: Definitions, defs1: Definitions, defs2: Definitions)
    requires PlanStep(TestSection, defs, FIRST) == Accepted(defs1)
    requires PlanStep(TestSection, defs1, TIED) == Accepted(defs2)
    requires PlanStep(TestSection, defs2, LATER) == Accepted(defs2)
    ensures PlanFrom(TestSection, defs, [FIRST, TIED, LATER]) == Accepted(defs2)
  {
    hide PlanStep;
    assert [FIRST, TIED, LATER][1..] == [TIED, LATER] && [TIED, LATER][1..] == [LATER] && [LATER][1..] == [];
    assert PlanFrom(TestSection, defs2, [LATER]) == Accepted(defs2);
    assert PlanFrom(TestSection, defs1, [TIED, LATER]) == Accepted(defs2);
  }

  lemma TiedIsListed()
    ensures IsListing([FIRST, TIED, LATER], [TIED, FIRST, LATER])
  {
    TwoSwapped(FIRST, TIED, LATER);
    ThreeAscend(TIED, FIRST, LATER);
  }

  lemma ThreeAscend(a: Command, b: Command, d: Command)
    requires a.order <= b.order <= d.order
    ensures Ascending([a, b, d])
  {
  }

  /** Deleting `x` and setting it anew at the same order is accepted. When the engine lists the
      deletion last, it removes the new constant, and the command after it reads a missing one. */
  lemma TiedDeletionBreaks(c: Context, table: Table, effects: Effects)
    requires Shaped(c) && EffectsFree(effects, |c.heap|, {}) && !effects("b", []).raised
    requires "d" in table.rows && "e" in table.rows && table.rows["d"] == X_SLOT == table.rows["e"]
    ensures PlanSection(TestSection, map["d" := INHERITED_X], [FIRST, TIED, LATER]).Accepted?
    ensures IsListing([FIRST, TIED, LATER], [TIED, FIRST, LATER])
    ensures ScopesAreDicts(c) && RunCommands(c, table, effects, [TIED, FIRST, LATER]).status == Broken("c")
  {
    hide Shaped, Bindings, RunCommand, RunCommands, SameShape, PlanSection, SimpleName, EffectsFree, IsListing;
    TiedIsAccepted();
    TiedIsListed();
    XIsSimple();
    WriteX(c, table, effects, TIED);
    var c1 := RunCommand(c, table, effects, TIED).c;
    RemoveX(c1, table, effects, FIRST);
    var c2 := RunCommand(c1, table, effects, FIRST).c;
    ReadMissing(c2, table, effects, LATER, "e");
    RunOne(c2, table, effects, LATER);
    assert [TIED, FIRST, LATER][1..] == [FIRST, LATER] && [FIRST, LATER][1..] == [LATER];
    RunRest(c, table, effects, [TIED, FIRST, LATER]);
    RunRest(c1, table, effects, [FIRST, LATER]);
  }

  // ---- negative orders --------------------------------------------------------------------------

  /** The duplicate-name test misses the inherited definitions exactly for negative orders. */
  lemma InheritedIsMissed(section: Section, initial: Definitions, id: string, order: int, d: Definition)
    requires Live(initial, id) && SlotOf(initial[id]) == SlotOf(d) && d.scope in Writable(section)
    ensures CheckDeclaration(section, Carried(initial), order, d).None? <==> order < 0
  {
    var defs := Carried(initial);
    EveryScope(d.scope);
    Activity(defs, ALL_SCOPES, order + 1, id);
    if order < 0 {
      assert Active(defs, ALL_SCOPES, order + 1) == map[];
    }
  }

  /** So setVariable for an inherited constant is accepted if and only if its order is negative, and then
      leaves two live definitions of the constant. */
  lemma NegativeOrderClashes(section: Section, initial: Definitions, id: string, cmd: Command)
    requires cmd.cfg.SetVariable? && cmd.cfg.scope in Writable(section) && cmd.cfg.definitionId != id
    requires Live(initial, id) && SlotOf(initial[id]) == Slot(cmd.cfg.scope, cmd.cfg.name)
    ensures PlanSection(section, initial, [cmd]).Accepted? <==> cmd.order < 0
    ensures PlanSection(section, initial, [cmd]).Accepted? ==> !NoClash(PlanSection(section, initial, [cmd]).value)
  {
    hide CheckDeclaration, PlanSection, SortedCommands;
    var d := Declared(section, cmd).value;
    PlanOne(section, initial, cmd);
    InheritedIsMissed(section, initial, id, cmd.order, d);
    if cmd.order < 0 {
      var defs := After(section, Carried(initial), cmd);
      assert Live(defs, id) && Live(defs, d.id) && SlotOf(defs[id]) == SlotOf(defs[d.id]);
    }
  }

  /** No two live definitions of one constant, before and after every command. */
  ghost predicate StaysDistinct(section: Section, defs: Definitions, cmds: seq<Command>)
    decreases |cmds|
  {
    NoClash(defs) && (cmds == [] || StaysDistinct(section, After(section, defs, cmds[0]), cmds[1..]))
  }

  /** A command of negative order declares an inherited constant. */
  ghost predicate RedeclaresEarly(section: Section, initial: Definitions, cmds: seq<Command>) {
    exists cmd, id :: cmd in cmds && DeclaresInherited(section, initial, cmd, id)
  }

  ghost predicate DeclaresInherited(section: Section, initial: Definitions, cmd: Command, id: string) {
    && cmd.order < 0 && Live(initial, id)
    && Declared(section, cmd).Some? && SlotOf(Declared(section, cmd).value) == SlotOf(initial[id])
  }

  /** Commands declare definitions of their own. */
  ghost predicate OwnIds(section: Section, initial: Definitions, cmds: seq<Command>) {
    forall cmd | cmd in cmds && Declared(section, cmd).Some? :: Declared(section, cmd).value.id !in initial
  }

  /** Before a command of order `last` or later: a definition is older, or inherited and live. */
  ghost predicate OlderOrInherited(defs: Definitions, initial: Definitions, last: int) {
    forall id | id in defs ::
      || (defs[id].order <= last && (defs[id].deletedAt.Some? ==> defs[id].deletedAt.value <= last))
      || (id in initial && Live(initial, id) && defs[id] == initial[id].(order := 0))
  }

  /** The duplicate-name test sees every live definition but the inherited ones. */
  lemma AcceptedIsNew(section: Section, defs: Definitions, initial: Definitions, last: int, order: int, d: Definition, id: string)
    requires OlderOrInherited(defs, initial, last) && last <= order && Live(defs, id)
    requires CheckDeclaration(section, defs, order, d).None?
    requires order < 0 && Live(initial, id) ==> SlotOf(initial[id]) != SlotOf(d)
    ensures SlotOf(defs[id]) != SlotOf(d)
  {
    EveryScope(defs[id].scope);
    Activity(defs, ALL_SCOPES, order + 1, id);
  }

  lemma NextIsDistinct(section: Section, defs: Definitions, initial: Definitions, last: int, cmd: Command)
    requires NoClash(defs) && OlderOrInherited(defs, initial, last) && last <= cmd.order && Lawful(section, defs, cmd)
    requires !RedeclaresEarly(section, initial, [cmd])
    ensures NoClash(After(section, defs, cmd)) && OlderOrInherited(After(section, defs, cmd), initial, cmd.order)
  {
    hide CheckDeclaration, Lawful, OlderOrInherited, NoClash, After, Declared;
    assert cmd in [cmd];
    if Declared(section, cmd).Some? {
      DeclarationChecked(section, defs, cmd);
      var d := Declared(section, cmd).value;
      forall id | Live(defs, id)
        ensures SlotOf(defs[id]) != SlotOf(d)
      {
        assert !DeclaresInherited(section, initial, cmd, id);
        AcceptedIsNew(section, defs, initial, last, cmd.order, d, id);
      }
    }
    AfterIsDistinct(section, defs, cmd);
    AfterIsOlder(section, defs, initial, last, cmd);
  }

  lemma DeclarationChecked(section: Section, defs: Definitions, cmd: Command)
    requires Lawful(section, defs, cmd) && Declared(section, cmd).Some?
    ensures CheckDeclaration(section, defs, cmd.order, Declared(section, cmd).value).None?
  {
  }

  lemma AfterIsDistinct(section: Section, defs: Definitions, cmd: Command)
    requires NoClash(defs)
    requires Declared(section, cmd).Some? ==> forall id | Live(defs, id) :: SlotOf(defs[id]) != SlotOf(Declared(section, cmd).value)
    ensures NoClash(After(section, defs, cmd))
  {
    var defs' := After(section, defs, cmd);
    if cmd.cfg.DeleteVariable? {
      assert forall id | Live(defs', id) :: Live(defs, id) && defs'[id] == defs[id];
    } else if Declared(section, cmd).Some? {
      var d := Declared(section, cmd).value;
      assert forall id | Live(defs', id) && id != d.id :: Live(defs, id) && defs'[id] == defs[id];
    }
  }

  lemma AfterIsOlder(section: Section, defs: Definitions, initial: Definitions, last: int, cmd: Command)
    requires OlderOrInherited(defs, initial, last) && last <= cmd.order && Lawful(section, defs, cmd)
    ensures OlderOrInherited(After(section, defs, cmd), initial, cmd.order)
  {
    hide CheckDeclaration;
    var defs' := After(section, defs, cmd);
    if cmd.cfg.DeleteVariable? {
      assert cmd.cfg.target in Refs(cmd);
      Activity(defs, Readable(section), cmd.order, cmd.cfg.target);
    }
    forall id | id in defs'
      ensures || (defs'[id].order <= cmd.order && (defs'[id].deletedAt.Some? ==> defs'[id].deletedAt.value <= cmd.order))
              || (id in initial && Live(initial, id) && defs'[id] == initial[id].(order := 0))
    {
      if Touched(section, cmd) != Some(id) {
        assert id in defs && defs'[id] == defs[id];
      }
    }
  }

  lemma {:induction false} NoneEarlyIsDistinct(section: Section, defs: Definitions, initial: Definitions, last: int,
                                               cmds: seq<Command>)
    requires NoClash(defs) && OlderOrInherited(defs, initial, last) && InOrder(cmds, last) && LawfulRun(section, defs, cmds)
    requires !RedeclaresEarly(section, initial, cmds)
    ensures StaysDistinct(section, defs, cmds)
    decreases |cmds|
  {
    hide Lawful, After, NoClash, OlderOrInherited, InOrder, DeclaresInherited;
    if cmds == [] {
    } else {
      InOrderTail(cmds, last);
      assert cmds[0] in cmds && forall cmd | cmd in cmds[1..] :: cmd in cmds;
      NextIsDistinct(section, defs, initial, last, cmds[0]);
      NoneEarlyIsDistinct(section, After(section, defs, cmds[0]), initial, cmds[0].order, cmds[1..]);
    }
  }

  lemma InOrderTail(cmds: seq<Command>, last: int)
    requires cmds != [] && InOrder(cmds, last)
    ensures last <= cmds[0].order && InOrder(cmds[1..], cmds[0].order)
  {
    assert forall i | 0 <= i < |cmds[1..]| :: cmds[1..][i] == cmds[i + 1];
  }

  /** No command of negative order can see an inherited definition. */
  lemma EarlyKeepsInherited(section: Section, defs: Definitions, initial: Definitions, cmd: Command, id: string)
    requires Live(initial, id) && id in defs && defs[id] == initial[id].(order := 0)
    requires Lawful(section, defs, cmd) && cmd.order < 0 && OwnIds(section, initial, [cmd])
    ensures id in After(section, defs, cmd) && After(section, defs, cmd)[id] == defs[id]
  {
    assert cmd in [cmd];
    if cmd.cfg.DeleteVariable? {
      assert cmd.cfg.target in Refs(cmd);
      Activity(defs, Readable(section), cmd.order, cmd.cfg.target);
    }
  }

  lemma {:induction false} EarlyClashes(section: Section, defs: Definitions, initial: Definitions, last: int,
                                        cmds: seq<Command>, cmd: Command, id: string)
    requires id in defs && Live(initial, id) && defs[id] == initial[id].(order := 0)
    requires InOrder(cmds, last) && LawfulRun(section, defs, cmds) && OwnIds(section, initial, cmds)
    requires cmd in cmds && DeclaresInherited(section, initial, cmd, id)
    ensures !StaysDistinct(section, defs, cmds)
    decreases |cmds|
  {
    hide Lawful, InOrder;
    InOrderTail(cmds, last);
    var first := cmds[0];
    var after := After(section, defs, first);
    assert first in cmds && forall other | other in cmds[1..] :: other in cmds;
    if first == cmd {
      var d := Declared(section, cmd).value;
      assert d.id != id && Live(after, id) && Live(after, d.id) && SlotOf(after[id]) == SlotOf(after[d.id]);
    } else {
      assert cmd in cmds[1..] && first.order <= cmd.order by {
        InOrderMembers(cmds[1..], first.order);
      }
      EarlyKeepsInherited(section, defs, initial, first, id);
      EarlyClashes(section, after, initial, first.order, cmds[1..], cmd, id);
    }
  }

  lemma InOrderMembers(cmds: seq<Command>, last: int)
    requires InOrder(cmds, last)
    ensures forall cmd | cmd in cmds :: last <= cmd.order
  {
  }

  /** For an accepted section of any orders: there are never two live definitions of one constant if and
      only if no command of negative order declares an inherited constant. */
  lemma NegativeOrdersDecide(section: Section, initial: Definitions, cmds: seq<Command>)
    requires NoClash(initial) && OwnIds(section, initial, cmds) && PlanSection(section, initial, cmds).Accepted?
    ensures StaysDistinct(section, Carried(initial), SortedCommands(cmds)) <==> !RedeclaresEarly(section, initial, cmds)
  {
    hide SortedCommands, PlanFrom, StaysDistinct, DeclaresInherited, LawfulRun, Declared, NoClash, Carried, InOrder;
    var sorted := SortedCommands(cmds);
    PlanIsLawful(section, Carried(initial), sorted);
    SortedIsListing(cmds);
    MultisetMembers(sorted, cmds);
    var last := LeastOrder(sorted);
    CarriedIsInherited(initial, last);
    if RedeclaresEarly(section, initial, cmds) {
      var cmd, id :| cmd in cmds && DeclaresInherited(section, initial, cmd, id);
      DeclaredIsLive(section, initial, cmd, id);
      EarlyClashes(section, Carried(initial), initial, last, sorted, cmd, id);
    } else {
      NoneEarlyIsDistinct(section, Carried(initial), initial, last, sorted);
    }
  }

  lemma DeclaredIsLive(section: Section, initial: Definitions, cmd: Command, id: string)
    requires DeclaresInherited(section, initial, cmd, id)
    ensures Live(initial, id)
  {
  }

  lemma CarriedIsInherited(initial: Definitions, last: int)
    requires NoClash(initial)
    ensures NoClash(Carried(initial)) && OlderOrInherited(Carried(initial), initial, last)
    ensures forall id | Live(initial, id) :: id in Carried(initial) && Carried(initial)[id] == initial[id].(order := 0)
  {
    var defs := Carried(initial);
    forall x | Live(defs, x)
      ensures Live(initial, x) && SlotOf(defs[x]) == SlotOf(initial[x])
    {
    }
  }

  lemma LeastOrder(cmds: seq<Command>) returns (last: int)
    requires Ascending(cmds)
    ensures InOrder(cmds, last)
  {
    last := if cmds == [] then 0 else cmds[0].order;
    forall cmd | cmd in cmds
      ensures last <= cmd.order
    {
      var i :| 0 <= i < |cmds| && cmds[i] == cmd;
    }
  }
}
