/** What the items of a suite share and what they do not: local constants last for one test, and only the
    test itself is kept from the global scope and the envelope. */
module SuiteScopes {
  import opened PyText
  import opened ObjectHeap
  import opened PathText
  import opened RunContexts
  import opened ContextPaths
  import opened ConstantStore
  import opened ConstantPlanner
  import opened CommandListings
  import opened PlannerSoundness
  import opened SuiteSoundness
  import opened PlannerLimits

  lemma FirstDecides(c: Context, table: Table, effects: Effects, cmds: seq<Command>)
    requires ScopesAreDicts(c) && cmds != [] && RunCommand(c, table, effects, cmds[0]).status != Finished
    ensures RunCommands(c, table, effects, cmds) == RunCommand(c, table, effects, cmds[0])
  {
    hide RunCommand;
  }

  /** The status of an item whose first command does not finish. */
  lemma ItemStops(c: Context, kind: ItemKind, locals: nat, table: Table, effects: Effects, listing: seq<Command>)
    requires Shaped(c) && OwnLocals(c, locals) && listing != []
    ensures ScopesAreDicts(Enter(c, kind, locals))
    ensures var r := RunCommand(Enter(c, kind, locals), table, effects, listing[0]);
            r.status != Finished ==> Item(c, kind, locals, table, effects, listing).status == r.status
  {
    hide Shaped, RunCommand, RunCommands, Enter, Leave, Item, OwnLocals;
    ShapedIsReady(c);
    EnterHolds(c, kind, locals);
    var e := Enter(c, kind, locals);
    ShapedIsReady(e);
    if RunCommand(e, table, effects, listing[0]).status != Finished {
      FirstDecides(e, table, effects, listing);
      ItemIsRun(c, kind, locals, table, effects, listing);
    }
  }

  /** A test starts without local constants, whatever the tests before it have set: reading one before
      it is set fails. */
  lemma LocalsAreFresh(c: Context, l: TestListing, table: Table, effects: Effects, id: string)
    requires Shaped(c) && l.beforeEach != [] && l.beforeEach[0].cfg.Action? && l.beforeEach[0].cfg.refs == [id]
    requires id in table.rows && table.rows[id].scope == LocalScope && SimpleName(table.rows[id].name)
    ensures RunTest(c, l, table, effects).beforeEach.status == Broken(l.beforeEach[0].id)
  {
    hide Shaped, RunCommand, Enter, Item, OwnLocals, Bindings, SimpleName;
    var n := NewDict(c);
    NewDictHolds(c);
    ShapedIsReady(n);
    EnterHolds(n, HookItem, |c.heap|);
    var e := Enter(n, HookItem, |c.heap|);
    ReadMissing(e, table, effects, l.beforeEach[0], id);
    ItemStops(n, HookItem, |c.heap|, table, effects, l.beforeEach);
  }

  lemma GuardedWrite(c: Context, s: Scope, name: string, value: Val)
    requires ScopesAreDicts(c) && SimpleName(name) && c.kind.TestItem? && (s.GlobalScope? || s.RunEnvelopeScope?)
    ensures WritePath(c, ConstantPath(s, name), value).0 == c && WritePath(c, ConstantPath(s, name), value).1.Raised?
  {
    hide WritePath, ConstantPath, ConstantSegments, Assign, RefText;
    ConstantPathText(s, name);
    WritePlainPath(c, ConstantSegments(s, name), value);
  }

  /** A test cannot set a constant of the global scope or the envelope, and leaves it as it was. */
  lemma TestsAreGuarded(c: Context, l: TestListing, table: Table, effects: Effects, cmd: Command)
    requires Shaped(c) && l.beforeEach == [] && l.test == [cmd] && cmd.cfg.SetVariable? && effects(cmd.id, []).given.Some?
    requires SimpleName(cmd.cfg.name) && (cmd.cfg.scope.GlobalScope? || cmd.cfg.scope.RunEnvelopeScope?)
    ensures var r := RunTest(c, l, table, effects);
            r.test.status == Broken(cmd.id) && Bindings(r.test.c, cmd.cfg.scope) == Bindings(c, cmd.cfg.scope)
  {
    hide Shaped, RunCommand, RunCommands, Enter, Item, OwnLocals, Bindings, SimpleName, SameShape;
    var n, locals := NewDict(c), |c.heap|;
    NewDictHolds(c);
    NothingDone(n, HookItem, locals, table, effects);
    var b := Item(n, HookItem, locals, table, effects, []);
    ShapedIsReady(b.c);
    EnterHolds(b.c, TestItem, locals);
    var e := Enter(b.c, TestItem, locals);
    ShapedIsReady(e);
    GuardedCommand(e, table, effects, cmd);
    SameShapeReflexive(e);
    RunOne(e, table, effects, cmd);
    RunHasShape(b.c, TestItem, locals, table, effects, [cmd]);
    LeaveHolds(b.c, e, TestItem, locals);
    ItemIsRun(b.c, TestItem, locals, table, effects, [cmd]);
  }

  lemma GuardedCommand(c: Context, table: Table, effects: Effects, cmd: Command)
    requires ScopesAreDicts(c) && c.kind.TestItem? && cmd.cfg.SetVariable? && effects(cmd.id, []).given.Some?
    requires SimpleName(cmd.cfg.name) && (cmd.cfg.scope.GlobalScope? || cmd.cfg.scope.RunEnvelopeScope?)
    ensures var r := RunCommand(c, table, effects, cmd); r.status == Broken(cmd.id) && r.c == c
  {
    hide WritePath, ConstantPath, SimpleName;
    GuardedWrite(c, cmd.cfg.scope, cmd.cfg.name, effects(cmd.id, []).given.value);
  }

  lemma NothingDone(c: Context, kind: ItemKind, locals: nat, table: Table, effects: Effects)
    requires Shaped(c) && OwnLocals(c, locals)
    ensures var i := Item(c, kind, locals, table, effects, []);
            && i.status == Finished && Shaped(i.c) && OwnLocals(i.c, locals)
            && forall s | s != LocalScope :: Bindings(i.c, s) == Bindings(c, s)
  {
    hide Shaped, Enter, OwnLocals, Bindings, SameShape, Leave;
    ShapedIsReady(c);
    EnterHolds(c, kind, locals);
    var e := Enter(c, kind, locals);
    ShapedIsReady(e);
    SameShapeReflexive(e);
    RunHasShape(c, kind, locals, table, effects, []);
    LeaveHolds(c, e, kind, locals);
  }

  /** A hook can. */
  lemma HooksAreNotGuarded(c: Context, l: TestListing, table: Table, effects: Effects, cmd: Command, value: Val)
    requires Shaped(c) && l.beforeEach == [cmd] && cmd.cfg.SetVariable? && SimpleName(cmd.cfg.name)
    requires effects(cmd.id, []) == Effect(Some(value), false) && (value.Ref? ==> value.addr < |c.heap|)
    requires cmd.cfg.scope != LocalScope
    ensures var r := RunTest(c, l, table, effects);
            && r.beforeEach.status == Finished
            && Bindings(r.beforeEach.c, cmd.cfg.scope) == Bindings(c, cmd.cfg.scope)[cmd.cfg.name := value]
  {
    hide Shaped, RunCommand, RunCommands, Enter, Item, OwnLocals, Bindings, SimpleName, SameShape, WritePath, ConstantPath;
    var n, locals := NewDict(c), |c.heap|;
    NewDictHolds(c);
    ShapedIsReady(n);
    EnterHolds(n, HookItem, locals);
    var e, s, name := Enter(n, HookItem, locals), cmd.cfg.scope, cmd.cfg.name;
    ShapedIsReady(e);
    WriteConstant(e, s, name, value);
    BindingsInHeap(e, s);
    ReboundShape(e, s, Bindings(e, s)[name := value]);
    BindingCommand(e, table, effects, cmd, value);
    RunOne(e, table, effects, cmd);
    RunHasShape(n, HookItem, locals, table, effects, [cmd]);
    LeaveHolds(n, RunCommand(e, table, effects, cmd).c, HookItem, locals);
    ItemIsRun(n, HookItem, locals, table, effects, [cmd]);
  }

  lemma BindingCommand(c: Context, table: Table, effects: Effects, cmd: Command, value: Val)
    requires ScopesAreDicts(c) && cmd.cfg.SetVariable? && effects(cmd.id, []) == Effect(Some(value), false)
    ensures var (c', outcome) := WritePath(c, ConstantPath(cmd.cfg.scope, cmd.cfg.name), value);
            outcome == Done ==> RunCommand(c, table, effects, cmd) == Ran(c', [Entry(cmd.id, [])], Finished)
  {
    hide WritePath, ConstantPath;
  }

  // ---- what items find ----------------------------------------------------------------------

  /** The first command of an item, which reads one constant that is not local, reads what the item before
      it has left there. */
  ghost predicate ReadsOn(listing: seq<Command>, before: Context, table: Table, id: string, r: Ran) {
    && listing != [] && listing[0].cfg.Action? && listing[0].cfg.refs == [id]
    && id in table.rows && table.rows[id].scope != LocalScope && SimpleName(table.rows[id].name)
    && table.rows[id].name in Bindings(before, table.rows[id].scope)
    && (listing[0].cfg.result.Some? ==> listing[0].cfg.result.value.definitionId in table.rows)
    ==> r.trace != [] &&
        r.trace[0] == Entry(listing[0].id, [Seen(table.rows[id], Bindings(before, table.rows[id].scope)[table.rows[id].name])])
  }

  lemma ItemReadsOn(before: Context, c: Context, kind: ItemKind, locals: nat, table: Table, effects: Effects,
                    listing: seq<Command>, id: string)
    requires Shaped(c) && OwnLocals(c, locals) && forall s | s != LocalScope :: Bindings(c, s) == Bindings(before, s)
    ensures ReadsOn(listing, before, table, id, Item(c, kind, locals, table, effects, listing))
  {
    hide Shaped, RunCommands, Enter, Leave, Item, OwnLocals, Bindings, SimpleName, Seen, Store, WriteTarget, Given;
    ShapedIsReady(c);
    EnterHolds(c, kind, locals);
    var e := Enter(c, kind, locals);
    ShapedIsReady(e);
    if listing != [] && listing[0].cfg.Action? && listing[0].cfg.refs == [id] && id in table.rows && table.rows[id].scope != LocalScope
       && SimpleName(table.rows[id].name) && table.rows[id].name in Bindings(before, table.rows[id].scope)
       && (listing[0].cfg.result.Some? ==> listing[0].cfg.result.value.definitionId in table.rows) {
      FirstRead(e, table, effects, listing[0], id);
      FirstOfRun(e, table, effects, listing);
      ItemIsRun(c, kind, locals, table, effects, listing);
    }
  }

  lemma FirstRead(c: Context, table: Table, effects: Effects, cmd: Command, id: string)
    requires Shaped(c) && ScopesAreDicts(c) && cmd.cfg.Action? && cmd.cfg.refs == [id] && id in table.rows
    requires SimpleName(table.rows[id].name) && table.rows[id].name in Bindings(c, table.rows[id].scope)
    requires cmd.cfg.result.Some? ==> cmd.cfg.result.value.definitionId in table.rows
    ensures var r := RunCommand(c, table, effects, cmd);
            r.trace == [Entry(cmd.id, [Seen(table.rows[id], Bindings(c, table.rows[id].scope)[table.rows[id].name])])]
  {
    hide WritePath, ReadPath, ConstantPath, Bindings, SimpleName, Seen, Shaped, Given;
    ReadConstant(c, table.rows[id].scope, table.rows[id].name);
    var v := Bindings(c, table.rows[id].scope)[table.rows[id].name];
    assert ReadDefinition(c, table, id) == Some(Seen(table.rows[id], v));
    assert [id][1..] == [] && ReadAll(c, table, []) == Some([]) && [Seen(table.rows[id], v)] + [] == [Seen(table.rows[id], v)];
    assert ReadAll(c, table, [id]) == Some([Seen(table.rows[id], v)]);
  }

  /** An item over new local constants. */
  lemma NewItemReadsOn(c: Context, table: Table, effects: Effects, listing: seq<Command>, id: string)
    requires Shaped(c)
    ensures ReadsOn(listing, c, table, id, Item(NewDict(c), HookItem, |c.heap|, table, effects, listing))
  {
    hide Shaped, Item, OwnLocals, ReadsOn;
    NewDictHolds(c);
    ItemReadsOn(c, NewDict(c), HookItem, |c.heap|, table, effects, listing, id);
  }

  /** Within a test, each item finds what the one before it has left outside the local scope. */
  lemma ItemsReadOn(c: Context, l: TestListing, table: Table, effects: Effects, id: string)
    requires Shaped(c)
    ensures var r := RunTest(c, l, table, effects);
            && ReadsOn(l.beforeEach, c, table, id, r.beforeEach)
            && (Shaped(r.beforeEach.c) && OwnLocals(r.beforeEach.c, |c.heap|) ==> ReadsOn(l.test, r.beforeEach.c, table, id, r.test))
            && (Shaped(r.test.c) && OwnLocals(r.test.c, |c.heap|) ==> ReadsOn(l.afterEach, r.test.c, table, id, r.afterEach))
  {
    hide Shaped, Item, OwnLocals, ReadsOn;
    var r := RunTest(c, l, table, effects);
    NewItemReadsOn(c, table, effects, l.beforeEach, id);
    if Shaped(r.beforeEach.c) && OwnLocals(r.beforeEach.c, |c.heap|) {
      ItemReadsOn(r.beforeEach.c, r.beforeEach.c, TestItem, |c.heap|, table, effects, l.test, id);
    }
    if Shaped(r.test.c) && OwnLocals(r.test.c, |c.heap|) {
      ItemReadsOn(r.test.c, r.test.c, HookItem, |c.heap|, table, effects, l.afterEach, id);
    }
  }

  lemma {:induction false} RunsFollow(c: Context, tests: seq<TestListing>, table: Table, effects: Effects, k: nat)
    requires k + 1 < |RunTests(c, tests, table, effects)|
    ensures |RunTests(c, tests, table, effects)| <= |tests|
    ensures var runs := RunTests(c, tests, table, effects);
            runs[k + 1] == RunTest(ResetLocals(runs[k].afterEach.c), tests[k + 1], table, effects)
    decreases |tests|
  {
    hide RunTest, ResetLocals;
    TestsEndAtAbort(c, tests, table, effects);
    var t := RunTest(c, tests[0], table, effects);
    var c' := ResetLocals(t.afterEach.c);
    var rest := RunTests(c', tests[1..], table, effects);
    assert RunTests(c, tests, table, effects) == [t] + rest;
    if k == 0 {
      FirstOfRuns(c', tests[1..], table, effects);
    } else {
      RunsFollow(c', tests[1..], table, effects, k - 1);
    }
  }

  lemma FirstOfRuns(c: Context, tests: seq<TestListing>, table: Table, effects: Effects)
    requires RunTests(c, tests, table, effects) != []
    ensures tests != [] && RunTests(c, tests, table, effects)[0] == RunTest(c, tests[0], table, effects)
  {
    hide RunTest, ResetLocals;
  }

  /** Resetting the local constants leaves the others as they are. */
  lemma ResetKeepsOthers(c: Context)
    requires Shaped(c)
    ensures Shaped(ResetLocals(c)) && forall s | s != LocalScope :: Bindings(ResetLocals(c), s) == Bindings(c, s)
  {
    hide Shaped, Bindings, Enter, ResetLocals, OwnLocals;
    ShapedIsReady(c);
    NewDictHolds(c);
    var n := NewDict(c);
    ShapedIsReady(n);
    EnterHolds(n, n.kind, |c.heap|);
    ResetIsEnter(c);
  }

  /** Across a suite: the first executed test finds what before-all has left outside the local scope, each
      further test what the one before it has left, and after-all what the last one has left. */
  lemma ResultsAreShared(c: Context, l: SuiteListing, table: Table, effects: Effects, id: string, k: nat)
    ensures var r := SuiteSoundness.RunSuite(c, l, table, effects);
            && (r.tests != [] && l.tests != [] && Shaped(r.beforeAll.c) ==>
                  ReadsOn(l.tests[0].beforeEach, r.beforeAll.c, table, id, r.tests[0].beforeEach))
            && (k + 1 < |r.tests| && k + 1 < |l.tests| && Shaped(r.tests[k].afterEach.c) ==>
                  ReadsOn(l.tests[k + 1].beforeEach, r.tests[k].afterEach.c, table, id, r.tests[k + 1].beforeEach))
            && (r.tests != [] && Shaped(r.tests[|r.tests| - 1].afterEach.c) ==>
                  ReadsOn(l.afterAll, r.tests[|r.tests| - 1].afterEach.c, table, id, r.afterAll))
            && (r.tests == [] && Shaped(r.beforeAll.c) ==> ReadsOn(l.afterAll, r.beforeAll.c, table, id, r.afterAll))
  {
    hide Shaped, Item, OwnLocals, ReadsOn, RunTests, RunTest, ResetLocals, Bindings;
    var r := SuiteSoundness.RunSuite(c, l, table, effects);
    var first := r.beforeAll;
    if r.tests != [] && Shaped(first.c) {
      FirstOfRuns(first.c, l.tests, table, effects);
      BeforeEachReadsOn(first.c, first.c, l.tests[0], table, effects, id);
    }
    if k + 1 < |r.tests| && k + 1 < |l.tests| && Shaped(r.tests[k].afterEach.c) {
      var before := r.tests[k].afterEach.c;
      RunsFollow(first.c, l.tests, table, effects, k);
      ResetKeepsOthers(before);
      BeforeEachReadsOn(before, ResetLocals(before), l.tests[k + 1], table, effects, id);
    }
    if r.tests != [] && Shaped(r.tests[|r.tests| - 1].afterEach.c) {
      var before := r.tests[|r.tests| - 1].afterEach.c;
      ResetKeepsOthers(before);
      LastReadsOn(before, ResetLocals(before), table, effects, l.afterAll, id);
    }
    if r.tests == [] && Shaped(first.c) {
      LastReadsOn(first.c, first.c, table, effects, l.afterAll, id);
    }
  }

  lemma BeforeEachReadsOn(before: Context, c: Context, l: TestListing, table: Table, effects: Effects, id: string)
    requires Shaped(c) && forall s | s != LocalScope :: Bindings(c, s) == Bindings(before, s)
    ensures ReadsOn(l.beforeEach, before, table, id, RunTest(c, l, table, effects).beforeEach)
  {
    hide Shaped, Item, OwnLocals, ReadsOn, Bindings;
    NewDictHolds(c);
    ItemReadsOn(before, NewDict(c), HookItem, |c.heap|, table, effects, l.beforeEach, id);
  }

  lemma LastReadsOn(before: Context, c: Context, table: Table, effects: Effects, listing: seq<Command>, id: string)
    requires Shaped(c) && forall s | s != LocalScope :: Bindings(c, s) == Bindings(before, s)
    ensures ReadsOn(listing, before, table, id, Item(NewDict(c), HookItem, |c.heap|, table, effects, listing))
  {
    hide Shaped, Item, OwnLocals, ReadsOn, Bindings;
    NewDictHolds(c);
    ItemReadsOn(before, NewDict(c), HookItem, |c.heap|, table, effects, listing, id);
  }
}
