/** A whole test suite: the sections are checked one against another, and executed around each test
    with the local constants swapped in and out (test_suite_executor_thread.py). A failed item does not
    end the run. */
module SuiteSoundness {
  import opened PyText
  import opened PyList
  import opened ObjectHeap
  import opened PathText
  import opened RunContexts
  import opened ContextPaths
  import opened ConstantStore
  import opened ConstantPlanner
  import opened CommandListings
  import opened TargetWrites
  import opened PlannerSoundness

  /** A missing hook is one without commands. */
  datatype Suite = Suite(
    beforeAll: seq<Command>, beforeEach: seq<Command>, tests: seq<seq<Command>>,
    afterEach: seq<Command>, afterAll: seq<Command>)

  function PlanSection(section: Section, initial: Definitions, cmds: seq<Command>): Checked<Definitions> {
    PlanFrom(section, Carried(initial), SortedCommands(cmds))
  }

  function PlanTests(initial: Definitions, tests: seq<seq<Command>>): Option<PlanError> {
    if tests == [] then None
    else match PlanSection(TestSection, initial, tests[0])
      case Rejected(e) => Some(e)
      case Accepted(_) => PlanTests(initial, tests[1..])
  }

  /** `validate_suite_constant_graph`: the first error, if any. */
  function SuiteError(s: Suite): Option<PlanError> {
    match PlanSection(BeforeAll, map[], s.beforeAll)
    case Rejected(e) => Some(e)
    case Accepted(all) =>
      match PlanSection(BeforeEach, all, s.beforeEach)
      case Rejected(e) => Some(e)
      case Accepted(each) =>
        match PlanTests(each, s.tests)
        case Some(e) => Some(e)
        case None =>
          match PlanSection(AfterEach, each, s.afterEach)
          case Rejected(e) => Some(e)
          case Accepted(_) =>
            match PlanSection(AfterAll, all, s.afterAll)
            case Rejected(e) => Some(e)
            case Accepted(_) => None
  }

  method ValidateSuite(s: Suite) returns (error: Option<PlanError>)
    ensures error == SuiteError(s)
  {
    hide PlanFrom, Carried, SortedCommands;
    var _, all := Plan(s.beforeAll, BeforeAll, map[]);
    if all.Rejected? {
      return Some(all.error);
    }
    var _, each := Plan(s.beforeEach, BeforeEach, all.value);
    if each.Rejected? {
      return Some(each.error);
    }
    for i := 0 to |s.tests|
      invariant PlanTests(each.value, s.tests) == PlanTests(each.value, s.tests[i..])
    {
      assert s.tests[i..][0] == s.tests[i] && s.tests[i..][1..] == s.tests[i + 1..];
      var _, test := Plan(s.tests[i], TestSection, each.value);
      if test.Rejected? {
        return Some(test.error);
      }
    }
    var _, afterEach := Plan(s.afterEach, AfterEach, each.value);
    if afterEach.Rejected? {
      return Some(afterEach.error);
    }
    var _, afterAll := Plan(s.afterAll, AfterAll, all.value);
    if afterAll.Rejected? {
      return Some(afterAll.error);
    }
    error := None;
  }

  // ---- execution --------------------------------------------------------------------------------

  /** A new empty dictionary. */
  function NewDict(c: Context): Context { c.(heap := c.heap + [Dict(map[])]) }

  function SetLocals(c: Context, locals: nat): Context
    requires IsDict(c.heap, Ref(c.localScope))
  {
    c.(heap := SetKey(c.heap, Ref(c.localScope), Prop("constants"), Ref(locals)))
  }

  /** `bind_suite_item_context` on entry. */
  function Enter(c: Context, kind: ItemKind, locals: nat): Context
    requires IsDict(c.heap, Ref(c.localScope))
  {
    SetLocals(c, locals).(kind := kind)
  }

  /** `bind_suite_item_context` on exit: the kind and the local constants from before the item. */
  function Leave(before: Context, c: Context): Context
    requires IsDict(c.heap, Ref(c.localScope)) && ConstantsOf(before, LocalScope).Some?
  {
    SetLocals(c, ConstantsOf(before, LocalScope).value).(kind := before.kind)
  }

  predicate Ready(c: Context) { ScopesAreDicts(c) && ConstantsOf(c, LocalScope).Some? }

  /** One item over the local constants in `locals`, its commands as listed. */
  function Item(c: Context, kind: ItemKind, locals: nat, table: Table, effects: Effects, listing: seq<Command>): Ran {
    if !Ready(c) then Ran(c, [], Broken(""))
    else
      var r := RunCommands(Enter(c, kind, locals), table, effects, listing);
      if ScopesAreDicts(r.c) then r.(c := Leave(c, r.c)) else r
  }

  /** `reset_local_context`. */
  function ResetLocals(c: Context): Context {
    if ScopesAreDicts(c) then SetLocals(NewDict(c), |c.heap|) else c
  }

  /** The commands of a test and its hooks as listed for one execution, and whether its failure ends
      the loop. */
  datatype TestListing = TestListing(
    beforeEach: seq<Command>, test: seq<Command>, afterEach: seq<Command>, abort: bool)

  datatype SuiteListing = SuiteListing(beforeAll: seq<Command>, tests: seq<TestListing>, afterAll: seq<Command>)

  /** The executed tests are tests of the suite: all of them, or the requested one. */
  ghost predicate Lists(s: Suite, l: SuiteListing) {
    && IsListing(s.beforeAll, l.beforeAll) && IsListing(s.afterAll, l.afterAll)
    && forall t | t in l.tests :: ListsTest(s, t)
  }

  ghost predicate ListsTest(s: Suite, t: TestListing) {
    && IsListing(s.beforeEach, t.beforeEach) && IsListing(s.afterEach, t.afterEach)
    && exists test | test in s.tests :: IsListing(test, t.test)
  }

  datatype TestRun = TestRun(beforeEach: Ran, test: Ran, afterEach: Ran)

  datatype SuiteOutcome = SuiteOutcome(beforeAll: Ran, tests: seq<TestRun>, afterAll: Ran)

  /** One test with the hooks around it, all over the same new local constants. The test runs when
      before-each has failed, and after-each in any case. */
  function RunTest(c: Context, l: TestListing, table: Table, effects: Effects): TestRun {
    var locals := |c.heap|;
    var b := Item(NewDict(c), HookItem, locals, table, effects, l.beforeEach);
    var t := Item(b.c, TestItem, locals, table, effects, l.test);
    var a := Item(t.c, HookItem, locals, table, effects, l.afterEach);
    TestRun(b, t, a)
  }

  predicate Failed(t: TestRun) {
    t.beforeEach.status != Finished || t.test.status != Finished || t.afterEach.status != Finished
  }

  function RunTests(c: Context, tests: seq<TestListing>, table: Table, effects: Effects): seq<TestRun>
    decreases |tests|
  {
    if tests == [] then []
    else
      var t := RunTest(c, tests[0], table, effects);
      if Failed(t) && tests[0].abort then [t]
      else [t] + RunTests(ResetLocals(t.afterEach.c), tests[1..], table, effects)
  }

  /** The context after the last executed test. */
  function AfterTests(c: Context, runs: seq<TestRun>): Context {
    if runs == [] then c else ResetLocals(runs[|runs| - 1].afterEach.c)
  }

  /** No test is executed when before-all has failed; after-all is executed in any case. */
  function RunSuite(c: Context, l: SuiteListing, table: Table, effects: Effects): SuiteOutcome {
    var first := Item(NewDict(c), HookItem, |c.heap|, table, effects, l.beforeAll);
    var tests := if first.status == Finished then RunTests(first.c, l.tests, table, effects) else [];
    var c' := AfterTests(first.c, tests);
    SuiteOutcome(first, tests, Item(NewDict(c'), HookItem, |c'.heap|, table, effects, l.afterAll))
  }

  // ---- what is executed -------------------------------------------------------------------------

  ghost predicate AllFinished(t: TestRun) {
    t.beforeEach.status == Finished && t.test.status == Finished && t.afterEach.status == Finished
  }

  /** The executed tests are the first ones, up to the end or to the first that fails and aborts. */
  ghost predicate EndsAtAbort(tests: seq<TestListing>, runs: seq<TestRun>) {
    && |runs| <= |tests|
    && (forall i | 0 <= i < |runs| - 1 :: AllFinished(runs[i]) || !tests[i].abort)
    && (|runs| < |tests| ==> runs != [] && !AllFinished(runs[|runs| - 1]) && tests[|runs| - 1].abort)
  }

  lemma {:induction false} TestsEndAtAbort(c: Context, tests: seq<TestListing>, table: Table, effects: Effects)
    ensures EndsAtAbort(tests, RunTests(c, tests, table, effects))
    decreases |tests|
  {
    hide RunTest, ResetLocals;
    if tests == [] {
    } else {
      var t := RunTest(c, tests[0], table, effects);
      var runs := RunTests(c, tests, table, effects);
      if runs == [t] {
      } else {
        var c' := ResetLocals(t.afterEach.c);
        TestsEndAtAbort(c', tests[1..], table, effects);
        var rest := RunTests(c', tests[1..], table, effects);
        assert runs == [t] + rest;
        forall i | 0 <= i < |runs| - 1
          ensures AllFinished(runs[i]) || !tests[i].abort
        {
          assert i > 0 ==> runs[i] == rest[i - 1] && tests[i] == tests[1..][i - 1];
        }
      }
    }
  }

  /** No test is executed when before-all fails. Otherwise the tests are executed one after the other,
      failing ones too, up to the first that fails and aborts. */
  lemma TestsExecuted(c: Context, l: SuiteListing, table: Table, effects: Effects)
    ensures var r := RunSuite(c, l, table, effects);
            if r.beforeAll.status == Finished then EndsAtAbort(l.tests, r.tests) else r.tests == []
  {
    hide RunTests, Item, AfterTests;
    var first := Item(NewDict(c), HookItem, |c.heap|, table, effects, l.beforeAll);
    TestsEndAtAbort(first.c, l.tests, table, effects);
  }

  /** The item has set to work: its first command has left its entry, or could not read its input. */
  ghost predicate Attempts(listing: seq<Command>, r: Ran) {
    listing != [] ==>
      (r.trace != [] && r.trace[0].commandId == listing[0].id) || r.status == Broken(listing[0].id)
  }

  lemma CommandAttempts(c: Context, table: Table, effects: Effects, cmd: Command)
    requires ScopesAreDicts(c)
    ensures var r := RunCommand(c, table, effects, cmd);
            (r.trace != [] && r.trace[0].commandId == cmd.id) || (r.trace == [] && r.status == Broken(cmd.id))
  {
    hide WritePath, RemovePath, ConstantPath, ReadAll, Given;
  }

  lemma ItemAttempts(c: Context, kind: ItemKind, locals: nat, table: Table, effects: Effects, listing: seq<Command>)
    requires Shaped(c) && OwnLocals(c, locals)
    ensures Attempts(listing, Item(c, kind, locals, table, effects, listing))
  {
    hide Shaped, RunCommand, RunCommands, Enter, Leave, OwnLocals;
    ShapedIsReady(c);
    EnterHolds(c, kind, locals);
    var e := Enter(c, kind, locals);
    ShapedIsReady(e);
    ItemIsRun(c, kind, locals, table, effects, listing);
    if listing != [] {
      CommandAttempts(e, table, effects, listing[0]);
      FirstOfRun(e, table, effects, listing);
    }
  }

  lemma FirstOfRun(c: Context, table: Table, effects: Effects, cmds: seq<Command>)
    requires ScopesAreDicts(c) && cmds != []
    ensures var first, r := RunCommand(c, table, effects, cmds[0]), RunCommands(c, table, effects, cmds);
            (first.trace != [] ==> r.trace != [] && r.trace[0] == first.trace[0])
            && (first.status != Finished ==> r.status == first.status)
  {
    hide RunCommand;
  }

  // ---- swapping the local constants -------------------------------------------------------------

  /** `d` is a constants dictionary that no other scope uses. */
  ghost predicate OwnLocals(c: Context, d: nat) {
    && IsDict(c.heap, Ref(d))
    && (forall s :: d != AddrOf(c, s))
    && forall s | s != LocalScope :: ConstantsOf(c, s) != Some(d)
  }

  lemma ScopesAreApart(c: Context, s: Scope)
    requires Shaped(c) && s != LocalScope
    ensures AddrOf(c, s) != c.localScope && ConstantsOf(c, s) != Some(c.localScope)
  {
    assert ConstantsOf(c, s) != ConstantsOf(c, LocalScope);
    assert AddrOf(c, LocalScope) == c.localScope;
  }

  lemma SetLocalsConstants(c: Context, d: nat, s: Scope)
    requires Shaped(c) && OwnLocals(c, d)
    ensures ConstantsOf(SetLocals(c, d), s) == if s == LocalScope then Some(d) else ConstantsOf(c, s)
    ensures AddrOf(SetLocals(c, d), s) == AddrOf(c, s)
    ensures Bindings(SetLocals(c, d), s) == if s == LocalScope then c.heap[d].entries else Bindings(c, s)
  {
    assert AddrOf(c, LocalScope) == c.localScope;
    if s != LocalScope {
      ScopesAreApart(c, s);
    }
  }

  lemma SetLocalsShape(c: Context, d: nat)
    requires Shaped(c) && OwnLocals(c, d)
    ensures Shaped(SetLocals(c, d)) && |SetLocals(c, d).heap| == |c.heap| && SameKinds(c.heap, SetLocals(c, d).heap)
  {
    hide ConstantsOf, SetLocals;
    var r := SetLocals(c, d);
    assert Closed(r.heap) && ScopesAreDicts(r) && |r.heap| == |c.heap| && SameKinds(c.heap, r.heap) by {
      SetLocalsCells(c, d);
    }
    forall s
      ensures ConstantsOf(r, s) == (if s == LocalScope then Some(d) else ConstantsOf(c, s)) && AddrOf(r, s) == AddrOf(c, s)
    {
      SetLocalsConstants(c, d, s);
    }
  }

  lemma SetLocalsCells(c: Context, d: nat)
    requires Shaped(c) && IsDict(c.heap, Ref(d))
    ensures Closed(SetLocals(c, d).heap) && ScopesAreDicts(SetLocals(c, d)) && |SetLocals(c, d).heap| == |c.heap|
    ensures SameKinds(c.heap, SetLocals(c, d).heap)
  {
    hide SetKey;
    SetKeepsShape(c.heap, Ref(c.localScope), Prop("constants"), Ref(d));
  }

  lemma ShapedIsReady(c: Context)
    requires Shaped(c)
    ensures ScopesAreDicts(c) && Ready(c) && forall s :: ConstantsOf(c, s).Some?
  {
    assert forall s :: ConstantsOf(c, s).Some?;
  }

  /** The item kind plays no part in what the scopes hold. */
  lemma KindIsIrrelevant(c: Context, kind: ItemKind)
    ensures Shaped(c.(kind := kind)) == Shaped(c)
    ensures forall s :: Bindings(c.(kind := kind), s) == Bindings(c, s)
    ensures forall s :: ConstantsOf(c.(kind := kind), s) == ConstantsOf(c, s) && AddrOf(c.(kind := kind), s) == AddrOf(c, s)
  {
    var c' := c.(kind := kind);
    assert forall s :: ConstantsOf(c', s) == ConstantsOf(c, s) && AddrOf(c', s) == AddrOf(c, s);
  }

  /** Holds what `d` holds as local constants, and what `c` holds for the other scopes. */
  lemma EnterHolds(c: Context, kind: ItemKind, d: nat)
    requires Shaped(c) && OwnLocals(c, d)
    ensures var e := Enter(c, kind, d);
            && Shaped(e) && e.kind == kind && |e.heap| == |c.heap| && SameKinds(c.heap, e.heap)
            && (forall b: nat | b < |c.heap| && b != c.localScope :: e.heap[b] == c.heap[b])
            && (forall s :: AddrOf(e, s) == AddrOf(c, s))
            && (forall s :: ConstantsOf(e, s) == if s == LocalScope then Some(d) else ConstantsOf(c, s))
            && (forall s :: Bindings(e, s) == if s == LocalScope then c.heap[d].entries else Bindings(c, s))
  {
    hide Shaped, ConstantsOf, Bindings;
    ShapedIsReady(c);
    var e := SetLocals(c, d);
    SetLocalsShape(c, d);
    forall s
      ensures ConstantsOf(e, s) == (if s == LocalScope then Some(d) else ConstantsOf(c, s)) && AddrOf(e, s) == AddrOf(c, s)
      ensures Bindings(e, s) == if s == LocalScope then c.heap[d].entries else Bindings(c, s)
    {
      SetLocalsConstants(c, d, s);
    }
    KindIsIrrelevant(e, kind);
  }

  lemma NewDictHolds(c: Context)
    requires Shaped(c)
    ensures var n := NewDict(c);
            && Shaped(n) && OwnLocals(n, |c.heap|) && n.heap[|c.heap|] == Dict(map[])
            && (forall s :: AddrOf(n, s) == AddrOf(c, s) && ConstantsOf(n, s) == ConstantsOf(c, s))
            && forall s :: Bindings(n, s) == Bindings(c, s)
  {
    var n := NewDict(c);
    ExtendKeepsShape(c.heap, Dict(map[]));
    forall s
      ensures AddrOf(n, s) == AddrOf(c, s) && ConstantsOf(n, s) == ConstantsOf(c, s) && Bindings(n, s) == Bindings(c, s)
      ensures AddrOf(c, s) < |c.heap|
    {
      assert Get(n.heap, Ref(AddrOf(c, s)), Prop("constants")) == Get(c.heap, Ref(AddrOf(c, s)), Prop("constants"));
    }
  }

  // ---- one item ---------------------------------------------------------------------------------

  /** The part of a section's definitions that does not depend on the local constants. */
  ghost predicate NonLocal(defs: Definitions) { forall id | Live(defs, id) :: defs[id].scope != LocalScope }

  /** What all sections of a suite share: simple names in the table, and a context whose own dictionaries
      nothing else holds or produces. */
  ghost predicate SuiteSetting(table: Table, effects: Effects, c: Context, own: set<nat>) {
    SimpleTable(table) && EffectsFree(effects, |c.heap|, own) && KeptApart(c, own)
  }

  /** Entering over a dictionary of the context's own. */
  lemma EnterIsApart(c: Context, kind: ItemKind, d: nat, own: set<nat>)
    requires Shaped(c) && OwnLocals(c, d) && KeptApart(c, own) && d in own
    ensures ScopesAreDicts(c) && KeptApart(Enter(c, kind, d), own)
  {
    hide Shaped, ConstantsOf, Bindings, SetKey, OwnLocals;
    ShapedIsReady(c);
    EnterHolds(c, kind, d);
    var e := Enter(c, kind, d);
    forall a: nat, k, v | a < |e.heap| && Get(e.heap, Ref(a), k) == Some(v) && v.Ref? && v.addr in own
      ensures ScopeEdge(e, a, k, v.addr)
    {
      if a == c.localScope && k == Prop("constants") {
        assert a == AddrOf(e, LocalScope);
      } else {
        assert Get(c.heap, Ref(a), k) == Some(v);
        SameScopeEdge(c, e, a, k, v.addr);
      }
    }
  }

  lemma NewIsApart(c: Context, own: set<nat>)
    requires Shaped(c) && KeptApart(c, own)
    ensures KeptApart(NewDict(c), own + {|c.heap|})
  {
    hide Bindings;
    NewDictHolds(c);
    var n := NewDict(c);
    forall a: nat, k, v | a < |n.heap| && Get(n.heap, Ref(a), k) == Some(v) && v.Ref? && v.addr in own + {|c.heap|}
      ensures ScopeEdge(n, a, k, v.addr)
    {
      assert a < |c.heap| && Get(c.heap, Ref(a), k) == Some(v);
      SameScopeEdge(c, n, a, k, v.addr);
    }
  }

  lemma SettingGrows(table: Table, effects: Effects, c: Context, own: set<nat>, c': Context)
    requires SuiteSetting(table, effects, c, own) && KeptApart(c', own) && |c.heap| <= |c'.heap|
    ensures SuiteSetting(table, effects, c', own)
  {
    hide KeptApart;
  }

  lemma SettingOfNew(table: Table, effects: Effects, c: Context, own: set<nat>)
    requires SuiteSetting(table, effects, c, own) && Shaped(c)
    ensures SuiteSetting(table, effects, NewDict(c), own + {|c.heap|})
  {
    hide KeptApart;
    NewIsApart(c, own);
  }

  /** Two contexts hold the same constants in the same dictionaries. */
  ghost predicate SameBindings(c: Context, c': Context) { forall s :: Bindings(c', s) == Bindings(c, s) }

  lemma StartsBySameBindings(c: Context, c': Context, env: Env, defs: Definitions, table: Table)
    requires Starts(c, env, defs, table) && SameBindings(c, c') && Shaped(c')
    ensures Starts(c', env, defs, table)
  {
    hide Bindings, Shaped;
  }

  lemma ShapedApart(c: Context, s: Scope)
    requires Shaped(c)
    ensures ConstantsOf(c, LocalScope) != Some(AddrOf(c, s))
    ensures s != LocalScope ==> ConstantsOf(c, s) != ConstantsOf(c, LocalScope)
  {
  }

  /** After the commands of an item, the local constants from before it are still free to be set. */
  lemma PreviousIsOwn(c: Context, e: Context, kind: ItemKind, locals: nat)
    requires Shaped(c) && OwnLocals(c, locals) && Shaped(e) && SameShape(Enter(c, kind, locals), e)
    ensures ConstantsOf(c, LocalScope).Some? && OwnLocals(e, ConstantsOf(c, LocalScope).value)
  {
    hide Shaped, Bindings, Enter, ConstantsOf;
    ShapedIsReady(c);
    EnterHolds(c, kind, locals);
    var previous := ConstantsOf(c, LocalScope).value;
    forall s
      ensures previous != AddrOf(e, s) && (s != LocalScope ==> ConstantsOf(e, s) != Some(previous))
    {
      ShapedApart(c, s);
    }
  }

  lemma LeaveIsEnter(c: Context, e: Context)
    requires ScopesAreDicts(e) && ConstantsOf(c, LocalScope).Some?
    ensures Leave(c, e) == Enter(e, c.kind, ConstantsOf(c, LocalScope).value)
  {
  }

  /** Leaving an item restores the shape from before it, and keeps its constants where entering again
      over the same local constants finds them. */
  lemma LeaveHolds(c: Context, e: Context, kind: ItemKind, locals: nat)
    requires Shaped(c) && OwnLocals(c, locals) && Shaped(e) && SameShape(Enter(c, kind, locals), e)
    ensures var l := Leave(c, e);
            && Shaped(l) && SameShape(c, l) && OwnLocals(l, locals)
            && (forall s | s != LocalScope :: Bindings(l, s) == Bindings(e, s))
            && l.heap[locals].entries == Bindings(e, LocalScope)
  {
    hide Shaped, Bindings, Enter, ConstantsOf, Leave;
    ShapedIsReady(c);
    ShapedIsReady(e);
    EnterHolds(c, kind, locals);
    var previous := ConstantsOf(c, LocalScope).value;
    PreviousIsOwn(c, e, kind, locals);
    EnterHolds(e, c.kind, previous);
    LeaveIsEnter(c, e);
    BindingsAt(e, LocalScope);
    forall s
      ensures AddrOf(Leave(c, e), s) == AddrOf(c, s) && ConstantsOf(Leave(c, e), s) == ConstantsOf(c, s)
    {
    }
    assert e.localScope == AddrOf(e, LocalScope);
    assert locals != AddrOf(e, LocalScope) && locals < |e.heap|;
  }

  lemma BindingsAt(c: Context, s: Scope)
    requires ConstantsOf(c, s).Some?
    ensures Bindings(c, s) == c.heap[ConstantsOf(c, s).value].entries
  {
  }

  lemma LeaveAndEnter(c: Context, e: Context, kind: ItemKind, locals: nat, kind': ItemKind)
    requires Shaped(c) && OwnLocals(c, locals) && Shaped(e) && SameShape(Enter(c, kind, locals), e)
    ensures var l := Leave(c, e);
            && Shaped(l) && OwnLocals(l, locals)
            && Shaped(Enter(l, kind', locals)) && SameBindings(e, Enter(l, kind', locals))
  {
    hide Shaped, Bindings, Enter, ConstantsOf, Leave;
    ShapedIsReady(c);
    ShapedIsReady(e);
    LeaveHolds(c, e, kind, locals);
    EnterHolds(Leave(c, e), kind', locals);
  }

  // ---- what a section leaves alone --------------------------------------------------------------

  /** No command deletes one of the definitions to be kept. */
  ghost predicate KeepsInherited(kept: Definitions, cmds: seq<Command>) {
    forall cmd | cmd in cmds && cmd.cfg.DeleteVariable? :: !Live(kept, cmd.cfg.target)
  }

  /** `defs` has the live definitions of `kept`, in the same slots. */
  ghost predicate Retains(kept: Definitions, defs: Definitions) {
    forall id | Live(kept, id) :: Live(defs, id) && SlotOf(defs[id]) == SlotOf(kept[id])
  }

  /** The constant that a command writes or removes. */
  function WrittenSlot(section: Section, table: Table, cmd: Command): Option<Slot> {
    match cmd.cfg
    case DeleteVariable(target) => if target in table.rows then Some(table.rows[target]) else None
    case _ =>
      match Declared(section, cmd)
      case None => None
      case Some(d) => Some(SlotOf(d))
  }

  /** A command writes only where its section may, and none of the constants to be kept. */
  ghost predicate Spares(section: Section, table: Table, kept: Definitions, cmd: Command) {
    var slot := WrittenSlot(section, table, cmd);
    && (slot.Some? ==> slot.value.scope in Writable(section))
    && forall id | Live(kept, id) :: slot != Some(SlotOf(kept[id]))
  }

  ghost predicate Avoids(section: Section, table: Table, kept: Definitions, cmds: seq<Command>) {
    forall cmd | cmd in cmds :: Spares(section, table, kept, cmd)
  }

  lemma LawfulSpares(section: Section, defs: Definitions, table: Table, last: int, kept: Definitions, cmd: Command)
    requires Planned(defs, table, last) && last <= cmd.order && Lawful(section, defs, cmd)
    requires TableDeclares(table, section, [cmd]) && Retains(kept, defs) && KeepsInherited(kept, [cmd])
    ensures Spares(section, table, kept, cmd) && Retains(kept, After(section, defs, cmd))
  {
    hide CheckDeclaration, Active;
    assert cmd in [cmd];
    if cmd.cfg.DeleteVariable? {
      assert cmd.cfg.target in Refs(cmd);
      VisibleIsLive(defs, last, section, cmd.order, cmd.cfg.target);
    } else if Declared(section, cmd).Some? {
      DeclarationIsNew(section, defs, last, cmd.order, Declared(section, cmd).value);
    }
  }

  lemma {:induction false} PlanAvoids(section: Section, defs: Definitions, table: Table, last: int, kept: Definitions,
                                      effects: Effects, cmds: seq<Command>)
    requires Planned(defs, table, last) && InOrder(cmds, last) && LawfulRun(section, defs, cmds)
    requires Dependable(table, section, effects, cmds) && Retains(kept, defs) && KeepsInherited(kept, cmds)
    ensures Avoids(section, table, kept, cmds) && Retains(kept, AfterAllOf(section, defs, cmds))
    decreases |cmds|
  {
    hide Lawful, After, Planned, Retains, TableDeclares, Dependable, Spares, InOrder;
    if cmds == [] {
    } else {
      var cmd := cmds[0];
      HeadAndTail(table, section, effects, cmds, last);
      AfterIsPlanned(section, defs, table, last, cmd);
      LawfulSpares(section, defs, table, last, kept, cmd);
      PlanAvoids(section, After(section, defs, cmd), table, cmd.order, kept, effects, cmds[1..]);
      assert forall other | other in cmds :: other == cmd || other in cmds[1..];
    }
  }

  ghost predicate KeptBy(c: Context, c': Context, env: Env, kept: Definitions, table: Table, own: set<nat>) {
    Shaped(c') && Agrees(c', env, kept, table) && SameShape(c, c') && KeptApart(c', own)
  }

  lemma KeptBySpared(c: Context, c': Context, env: Env, kept: Definitions, table: Table, own: set<nat>, slot: Slot)
    requires Spared(c, c', own, OfConstant(slot)) && Agrees(c, env, kept, table)
    requires forall id | Live(kept, id) :: SlotOf(kept[id]) != slot
    ensures KeptBy(c, c', env, kept, table, own)
  {
    hide Bindings, Shaped, KeptApart, SameShape;
  }

  lemma KeptByItself(c: Context, env: Env, kept: Definitions, table: Table, own: set<nat>)
    requires Shaped(c) && Agrees(c, env, kept, table) && KeptApart(c, own)
    ensures KeptBy(c, c, env, kept, table, own)
  {
    hide Shaped, KeptApart, Agrees;
    SameShapeReflexive(c);
  }

  lemma StoreKeeps(c: Context, env: Env, kept: Definitions, table: Table, cmd: Command, inputs: seq<Val>, slot: Slot, e: Effect,
                   own: set<nat>)
    requires Shaped(c) && Agrees(c, env, kept, table) && MayWrite(c.kind, slot.scope) && SimpleName(slot.name)
    requires KeptApart(c, own) && forall id | Live(kept, id) :: SlotOf(kept[id]) != slot
    requires e.given.Some? ==> IsFree(c.heap, own, e.given.value)
    ensures ScopesAreDicts(c) && KeptBy(c, Store(c, cmd, inputs, slot, e).c, env, kept, table, own)
  {
    hide WritePath, ConstantPath, Shaped, Bindings, Rebound, Agrees, KeptApart, Spared;
    ShapedIsReady(c);
    KeptByItself(c, env, kept, table, own);
    if e.given.Some? {
      WriteConstant(c, slot.scope, slot.name, e.given.value);
      BindSpares(c, own, slot.scope, slot.name, e.given.value);
      KeptBySpared(c, Rebound(c, slot.scope, Bindings(c, slot.scope)[slot.name := e.given.value]), env, kept, table, own, slot);
    }
  }

  lemma DeletionKeeps(c: Context, env: Env, kept: Definitions, table: Table, slot: Slot, own: set<nat>)
    requires Shaped(c) && Agrees(c, env, kept, table) && MayWrite(c.kind, slot.scope) && SimpleName(slot.name)
    requires KeptApart(c, own) && forall id | Live(kept, id) :: SlotOf(kept[id]) != slot
    ensures ScopesAreDicts(c) && KeptBy(c, RemovePath(c, ConstantPath(slot.scope, slot.name)).0, env, kept, table, own)
  {
    hide RemovePath, ConstantPath, Shaped, Bindings, KeptApart, Rebound;
    ShapedIsReady(c);
    RemoveConstant(c, slot.scope, slot.name);
    BindingsInHeap(c, slot.scope);
    BindingsAreFree(c, own, slot.scope);
    ReboundShape(c, slot.scope, Bindings(c, slot.scope) - {slot.name});
    ReboundIsApart(c, own, slot.scope, Bindings(c, slot.scope) - {slot.name});
  }

  lemma TargetKeeps(c: Context, env: Env, kept: Definitions, table: Table, effects: Effects, section: Section, cmd: Command,
                    inputs: seq<Val>, own: set<nat>)
    requires Shaped(c) && Agrees(c, env, kept, table) && TableHolds(table, kept)
    requires Setting(table, effects, section, c, own) && TargetsAreHarmless(table, section, [cmd]) && NeverWrites(cmd)
    ensures ScopesAreDicts(c)
    ensures KeptBy(c, WriteTarget(c, cmd, inputs, cmd.cfg.targetPath, effects(cmd.id, inputs)).c, env, kept, table, own)
  {
    hide WritePath, Shaped, Agrees, KeptApart, Spared, Harmless, AimOf;
    assert cmd in [cmd];
    ShapedIsReady(c);
    KeptByItself(c, env, kept, table, own);
    var e := effects(cmd.id, inputs);
    if cmd.cfg.targetPath.Some? && e.given.Some? {
      var path, inTest := cmd.cfg.targetPath.value, section.TestSection?;
      HarmlessAim(inTest, table, path);
      TargetWriteSpares(c, own, inTest, path, e.given.value);
      var c' := WritePath(c, path, e.given.value).0;
      SparedAgrees(c, c', env, kept, table, own, AimOf(inTest, path).value);
      SparedParts(c, c', own, AimOf(inTest, path).value);
    }
  }

  lemma CommandKeeps(c: Context, env: Env, kept: Definitions, table: Table, effects: Effects, section: Section, cmd: Command,
                     own: set<nat>)
    requires Shaped(c) && Agrees(c, env, kept, table) && TableHolds(table, kept)
    requires Setting(table, effects, section, c, own)
    requires Dependable(table, section, effects, [cmd]) && Spares(section, table, kept, cmd)
    ensures ScopesAreDicts(c) && KeptBy(c, RunCommand(c, table, effects, cmd).c, env, kept, table, own)
  {
    hide Store, WriteTarget, RemovePath, ConstantPath, Shaped, Bindings, ReadAll, Agrees, SameShape, KeptApart, KeptBy, Refs,
         TargetsAreHarmless;
    assert cmd in [cmd];
    ShapedIsReady(c);
    KeptByItself(c, env, kept, table, own);
    var slot := WrittenSlot(section, table, cmd);
    if NeverWrites(cmd) {
      forall inputs
        ensures KeptBy(c, WriteTarget(c, cmd, inputs, cmd.cfg.targetPath, effects(cmd.id, inputs)).c, env, kept, table, own)
      {
        TargetKeeps(c, env, kept, table, effects, section, cmd, inputs, own);
      }
    } else if slot.Some? {
      WritableScope(c.kind, section, slot.value.scope);
      SlotIsSimple(section, table, cmd);
      if cmd.cfg.DeleteVariable? {
        DeletionKeeps(c, env, kept, table, slot.value, own);
      } else {
        forall inputs
          ensures KeptBy(c, Store(c, cmd, inputs, slot.value, Given(cmd, effects(cmd.id, inputs))).c, env, kept, table, own)
        {
          StoreKeeps(c, env, kept, table, cmd, inputs, slot.value, Given(cmd, effects(cmd.id, inputs)), own);
        }
      }
    }
  }

  lemma SlotIsSimple(section: Section, table: Table, cmd: Command)
    requires SimpleTable(table) && TableDeclares(table, section, [cmd]) && WrittenSlot(section, table, cmd).Some?
    ensures SimpleName(WrittenSlot(section, table, cmd).value.name)
  {
    hide SimpleName;
    assert cmd in [cmd];
    if !cmd.cfg.DeleteVariable? {
      assert SimpleName(table.rows[Declared(section, cmd).value.id].name);
    }
  }

  lemma KeptByTransitive(c: Context, c1: Context, c2: Context, env: Env, kept: Definitions, table: Table, own: set<nat>)
    requires KeptBy(c, c1, env, kept, table, own) && KeptBy(c1, c2, env, kept, table, own)
    ensures KeptBy(c, c2, env, kept, table, own)
  {
    hide Shaped, KeptApart, Agrees;
    SameShapeTransitive(c, c1, c2);
  }

  lemma KeptByParts(c: Context, c': Context, env: Env, kept: Definitions, table: Table, own: set<nat>)
    requires KeptBy(c, c', env, kept, table, own)
    ensures Shaped(c') && Agrees(c', env, kept, table) && SameShape(c, c') && KeptApart(c', own)
    ensures |c.heap| <= |c'.heap| && c'.kind == c.kind
  {
  }

  /** Whatever becomes of its commands, a section keeps the constants that it does not write. */
  lemma {:induction false} RunKeeps(c: Context, env: Env, kept: Definitions, table: Table, effects: Effects,
                                    section: Section, cmds: seq<Command>, own: set<nat>)
    requires Shaped(c) && Agrees(c, env, kept, table) && TableHolds(table, kept)
    requires Setting(table, effects, section, c, own)
    requires Dependable(table, section, effects, cmds) && Avoids(section, table, kept, cmds)
    ensures ScopesAreDicts(c) && KeptBy(c, RunCommands(c, table, effects, cmds).c, env, kept, table, own)
    decreases |cmds|
  {
    hide RunCommand, Shaped, Agrees, KeptBy, EffectsFree, SimpleTable, Spares, KindFits, TableHolds, KeptApart, Dependable;
    ShapedIsReady(c);
    KeptByItself(c, env, kept, table, own);
    if cmds == [] {
    } else {
      assert cmds[0] in cmds && forall cmd | cmd in cmds[1..] :: cmd in cmds;
      FewerAreDependable(table, section, effects, cmds, [cmds[0]]);
      FewerAreDependable(table, section, effects, cmds, cmds[1..]);
      CommandKeeps(c, env, kept, table, effects, section, cmds[0], own);
      var c' := RunCommand(c, table, effects, cmds[0]).c;
      KeptByParts(c, c', env, kept, table, own);
      EffectsGrow(effects, |c.heap|, |c'.heap|, own);
      SameKindFits(c.kind, c'.kind, section);
      ShapedIsReady(c');
      RunKeeps(c', env, kept, table, effects, section, cmds[1..], own);
      KeptByTransitive(c, c', RunCommands(c', table, effects, cmds[1..]).c, env, kept, table, own);
    }
  }

  lemma SameKindFits(kind: ItemKind, kind': ItemKind, section: Section)
    requires KindFits(kind, section) && kind' == kind
    ensures KindFits(kind', section)
  {
  }

  // ---- one item ---------------------------------------------------------------------------------

  /** Between the items of a test: the local constants are in `locals`, and an item entered over them
      finds the constants of `defs`. */
  ghost predicate Holds(c: Context, locals: nat, env: Env, defs: Definitions, table: Table) {
    Shaped(c) && OwnLocals(c, locals) && forall kind :: Starts(Enter(c, kind, locals), env, defs, table)
  }

  /** What a section must be beyond being accepted: orders that are not negative, dependable commands, no
      conflicting ties, and no deletion of what is to be kept. */
  ghost predicate Orderly(section: Section, kept: Definitions, table: Table, effects: Effects, cmds: seq<Command>) {
    NonNegative(cmds) && Dependable(table, section, effects, cmds) && TieFree(section, table, cmds) && KeepsInherited(kept, cmds)
  }

  lemma SectionAvoids(section: Section, initial: Definitions, kept: Definitions, table: Table, effects: Effects,
                      cmds: seq<Command>, listing: seq<Command>)
    requires NoClash(initial) && TableHolds(table, initial) && Retains(kept, initial)
    requires Orderly(section, kept, table, effects, cmds)
    requires PlanSection(section, initial, cmds).Accepted? && IsListing(cmds, listing)
    ensures Dependable(table, section, effects, listing) && Avoids(section, table, kept, listing)
    ensures Retains(kept, PlanSection(section, initial, cmds).value)
  {
    hide Planned, TieFree, SortedCommands, PlanFrom, Carried, Spares, Declared, Dependable;
    CarriedIsPlanned(initial, table);
    MultisetMembers(listing, cmds);
    FewerAreDependable(table, section, effects, cmds, cmds);
    FewerAreDependable(table, section, effects, cmds, listing);
    AcceptedListing(section, Carried(initial), table, cmds, listing);
    PlanAvoids(section, Carried(initial), table, 0, kept, effects, listing);
  }

  /** What an item leaves, given what its commands leave. */
  lemma RunHasShape(c: Context, kind: ItemKind, locals: nat, table: Table, effects: Effects, listing: seq<Command>)
    requires Shaped(c) && OwnLocals(c, locals)
    requires var e := Enter(c, kind, locals);
             ScopesAreDicts(e) && var r := RunCommands(e, table, effects, listing);
             Shaped(r.c) && SameShape(e, r.c)
    ensures var e := Enter(c, kind, locals);
            var r, i := RunCommands(e, table, effects, listing), Item(c, kind, locals, table, effects, listing);
            && ScopesAreDicts(r.c) && i == r.(c := Leave(c, r.c)) && Shaped(i.c) && SameShape(c, i.c) && OwnLocals(i.c, locals)
            && forall kind' :: Shaped(Enter(i.c, kind', locals)) && SameBindings(r.c, Enter(i.c, kind', locals))
  {
    hide Shaped, Enter, Leave, RunCommands, Bindings, ConstantsOf, SameBindings, SameShape, OwnLocals;
    ShapedIsReady(c);
    var r := RunCommands(Enter(c, kind, locals), table, effects, listing);
    ShapedIsReady(r.c);
    LeaveHolds(c, r.c, kind, locals);
    ShapedIsReady(Leave(c, r.c));
    forall kind'
      ensures Shaped(Enter(Leave(c, r.c), kind', locals)) && SameBindings(r.c, Enter(Leave(c, r.c), kind', locals))
    {
      LeaveAndEnter(c, r.c, kind, locals, kind');
    }
  }

  lemma LeaveIsApart(c: Context, e: Context, kind: ItemKind, locals: nat, own: set<nat>)
    requires Shaped(c) && OwnLocals(c, locals) && Shaped(e) && SameShape(Enter(c, kind, locals), e)
    requires KeptApart(c, own) && KeptApart(e, own)
    ensures ScopesAreDicts(e) && ConstantsOf(c, LocalScope).Some? && KeptApart(Leave(c, e), own)
  {
    hide Shaped, Bindings, Enter, ConstantsOf, Leave, OwnLocals, SameShape;
    ShapedIsReady(c);
    ShapedIsReady(e);
    PreviousIsOwn(c, e, kind, locals);
    EnterIsApart(e, c.kind, ConstantsOf(c, LocalScope).value, own);
    LeaveIsEnter(c, e);
  }

  lemma HoldsEntered(c: Context, locals: nat, env: Env, defs: Definitions, table: Table, effects: Effects, section: Section,
                     kind: ItemKind, own: set<nat>)
    requires Holds(c, locals, env, defs, table) && SuiteSetting(table, effects, c, own) && locals in own && KindFits(kind, section)
    ensures Shaped(c) && OwnLocals(c, locals) && ScopesAreDicts(c) && KeptApart(c, own)
    ensures var e := Enter(c, kind, locals);
            Shaped(e) && Starts(e, env, defs, table) && Setting(table, effects, section, e, own)
  {
    hide Shaped, Starts, Enter, KeptApart, OwnLocals;
    ShapedIsReady(c);
    EnterHolds(c, kind, locals);
    EnterIsApart(c, kind, locals, own);
  }

  /** An item keeps the constants that its section does not write, whether it fails or not. */
  lemma ItemKeeps(c: Context, env: Env, kept: Definitions, table: Table, effects: Effects, section: Section,
                  kind: ItemKind, locals: nat, listing: seq<Command>, own: set<nat>)
    requires Holds(c, locals, env, kept, table) && SuiteSetting(table, effects, c, own) && locals in own && KindFits(kind, section)
    requires Dependable(table, section, effects, listing) && Avoids(section, table, kept, listing)
    ensures var i := Item(c, kind, locals, table, effects, listing);
            Holds(i.c, locals, env, kept, table) && SuiteSetting(table, effects, i.c, own)
  {
    hide Shaped, Enter, Leave, Starts, RunCommands, SameBindings, SameShape, Avoids, Item, OwnLocals, Agrees, KeptApart,
         Dependable, Setting, SuiteSetting, KeptBy;
    HoldsEntered(c, locals, env, kept, table, effects, section, kind, own);
    var e := Enter(c, kind, locals);
    ShapedIsReady(e);
    StartsParts(e, env, kept, table);
    RunKeeps(e, env, kept, table, effects, section, listing, own);
    var r, i := RunCommands(e, table, effects, listing), Item(c, kind, locals, table, effects, listing);
    KeptByParts(e, r.c, env, kept, table, own);
    RunHasShape(c, kind, locals, table, effects, listing);
    LeaveIsApart(c, r.c, kind, locals, own);
    SameShapeSize(c, i.c);
    SettingGrows(table, effects, c, own, i.c);
    ShapedIsReady(i.c);
    PartsStart(r.c, env, kept, table);
    forall kind'
      ensures Starts(Enter(i.c, kind', locals), env, kept, table)
    {
      StartsBySameBindings(r.c, Enter(i.c, kind', locals), env, kept, table);
    }
  }

  lemma PartsStart(c: Context, env: Env, defs: Definitions, table: Table)
    requires Shaped(c) && NoClash(defs) && Agrees(c, env, defs, table) && TableHolds(table, defs)
    ensures Starts(c, env, defs, table)
  {
  }

  lemma ItemIsRun(c: Context, kind: ItemKind, locals: nat, table: Table, effects: Effects, listing: seq<Command>)
    requires Ready(c) && ScopesAreDicts(Enter(c, kind, locals))
    ensures var r, i := RunCommands(Enter(c, kind, locals), table, effects, listing), Item(c, kind, locals, table, effects, listing);
            i.status == r.status && i.trace == r.trace
  {
    hide RunCommands, Enter, Leave;
  }

  /** One item: the commands run as the interpreter says, in whatever order they are listed, and when
      they finish the section's definitions hold for any item entered over the same local constants. */
  lemma ItemAgrees(c: Context, env: Env, initial: Definitions, kept: Definitions, table: Table, effects: Effects,
                   section: Section, kind: ItemKind, locals: nat, cmds: seq<Command>, listing: seq<Command>, own: set<nat>)
    requires Holds(c, locals, env, initial, table) && SuiteSetting(table, effects, c, own) && locals in own && KindFits(kind, section)
    requires Orderly(section, kept, table, effects, cmds) && PlanSection(section, initial, cmds).Accepted?
    requires IsListing(cmds, listing)
    ensures var i, m := Item(c, kind, locals, table, effects, listing), Interpret(env, table, effects, listing);
            && SameRun(i, m)
            && (i.status == Finished ==> Holds(i.c, locals, m.env, PlanSection(section, initial, cmds).value, table))
  {
    hide Shaped, Enter, Leave, Starts, PlanFrom, RunCommands, Interpret, SortedCommands, Carried, SuiteSetting, Setting,
         SameBindings, SameShape, Dependable, TieFree, IsListing, OwnLocals, KeptApart;
    HoldsEntered(c, locals, env, initial, table, effects, section, kind, own);
    var e := Enter(c, kind, locals);
    ShapedIsReady(e);
    PlannedCommandsRun(e, env, initial, table, effects, section, cmds, listing, own);
    var r, m := RunCommands(e, table, effects, listing), Interpret(env, table, effects, listing);
    var final := PlanSection(section, initial, cmds).value;
    ShapedIsReady(c);
    ItemIsRun(c, kind, locals, table, effects, listing);
    if r.status == Finished {
      StartsParts(r.c, m.env, final, table);
      RunHasShape(c, kind, locals, table, effects, listing);
      var i := Item(c, kind, locals, table, effects, listing);
      ShapedIsReady(i.c);
      forall kind'
        ensures Starts(Enter(i.c, kind', locals), m.env, final, table)
      {
        StartsBySameBindings(r.c, Enter(i.c, kind', locals), m.env, final, table);
      }
    }
  }

  // ---- a test with its hooks --------------------------------------------------------------------

  /** Definitions outside the local scope do not notice which local constants are set. */
  lemma StartsWithOtherLocals(c: Context, c': Context, env: Env, defs: Definitions, table: Table)
    requires Starts(c, env, defs, table) && NonLocal(defs) && Shaped(c')
    requires forall s | s != LocalScope :: Bindings(c', s) == Bindings(c, s)
    ensures Starts(c', env, defs, table)
  {
    hide Shaped, Bindings;
  }

  /** Outside items: the definitions of before-all hold, whatever the local constants are. */
  ghost predicate Between(c: Context, env: Env, all: Definitions, table: Table, effects: Effects, own: set<nat>) {
    Starts(c, env, all, table) && NonLocal(all) && SuiteSetting(table, effects, c, own)
  }

  /** Entering an item over new local constants keeps the definitions outside the local scope. */
  lemma EnterNew(c: Context, env: Env, all: Definitions, table: Table, effects: Effects, own: set<nat>)
    requires Between(c, env, all, table, effects, own)
    ensures Holds(NewDict(c), |c.heap|, env, all, table) && SuiteSetting(table, effects, NewDict(c), own + {|c.heap|})
  {
    hide Shaped, Bindings, Starts, Enter, ConstantsOf, SuiteSetting;
    StartsParts(c, env, all, table);
    NewDictHolds(c);
    var n := NewDict(c);
    ShapedIsReady(n);
    forall kind
      ensures Starts(Enter(n, kind, |c.heap|), env, all, table)
    {
      EnterHolds(n, kind, |c.heap|);
      StartsWithOtherLocals(c, Enter(n, kind, |c.heap|), env, all, table);
    }
    SettingOfNew(table, effects, c, own);
  }

  /** Back outside an item, the definitions that do not depend on the local constants hold. */
  lemma BackOutside(c: Context, locals: nat, env: Env, all: Definitions, table: Table, effects: Effects, own: set<nat>)
    requires Holds(c, locals, env, all, table) && NonLocal(all) && SuiteSetting(table, effects, c, own)
    ensures Between(c, env, all, table, effects, own)
  {
    hide Shaped, Bindings, Starts, Enter, ConstantsOf, SuiteSetting;
    ShapedIsReady(c);
    EnterHolds(c, HookItem, locals);
    StartsWithOtherLocals(Enter(c, HookItem, locals), c, env, all, table);
  }

  lemma ResetKeepsBetween(c: Context, env: Env, all: Definitions, table: Table, effects: Effects, own: set<nat>)
    requires Between(c, env, all, table, effects, own)
    ensures Between(ResetLocals(c), env, all, table, effects, own + {|c.heap|})
  {
    hide Shaped, Bindings, Starts, Enter, ConstantsOf, SuiteSetting, KeptApart, OwnLocals;
    StartsParts(c, env, all, table);
    ShapedIsReady(c);
    NewDictHolds(c);
    var n, own' := NewDict(c), own + {|c.heap|};
    ShapedIsReady(n);
    EnterHolds(n, n.kind, |c.heap|);
    StartsWithOtherLocals(c, Enter(n, n.kind, |c.heap|), env, all, table);
    SettingOfNew(table, effects, c, own);
    SettingIsApart(table, effects, n, own');
    EnterIsApart(n, n.kind, |c.heap|, own');
    SettingGrows(table, effects, n, own', Enter(n, n.kind, |c.heap|));
    assert Enter(n, n.kind, |c.heap|) == ResetLocals(c) by {
      ResetIsEnter(c);
    }
  }

  lemma SettingIsApart(table: Table, effects: Effects, c: Context, own: set<nat>)
    requires SuiteSetting(table, effects, c, own)
    ensures KeptApart(c, own)
  {
  }

  lemma ResetIsEnter(c: Context)
    requires ScopesAreDicts(c) && ScopesAreDicts(NewDict(c))
    ensures Enter(NewDict(c), NewDict(c).kind, |c.heap|) == ResetLocals(c)
  {
  }

  lemma HoldsParts(c: Context, locals: nat, env: Env, defs: Definitions, table: Table)
    requires Holds(c, locals, env, defs, table)
    ensures NoClash(defs) && TableHolds(table, defs)
  {
    hide Shaped, Enter;
    ShapedIsReady(c);
    StartsParts(Enter(c, HookItem, locals), env, defs, table);
  }

  lemma RetainsSelf(defs: Definitions)
    ensures Retains(defs, defs)
  {
  }

  lemma AvoidsFewer(section: Section, table: Table, kept: Definitions, fewer: Definitions, cmds: seq<Command>)
    requires Avoids(section, table, kept, cmds) && Retains(fewer, kept)
    ensures Avoids(section, table, fewer, cmds)
  {
    hide WrittenSlot, Writable;
  }

  /** What a suite's sections must be for one of its tests, beyond being accepted. */
  ghost predicate GoodTest(s: Suite, test: seq<Command>, all: Definitions, each: Definitions, table: Table, effects: Effects) {
    && Orderly(BeforeEach, all, table, effects, s.beforeEach) && Orderly(TestSection, each, table, effects, test)
    && Orderly(AfterEach, all, table, effects, s.afterEach)
    && PlanSection(BeforeEach, all, s.beforeEach) == Accepted(each)
    && PlanSection(TestSection, each, test).Accepted? && PlanSection(AfterEach, each, s.afterEach).Accepted?
  }

  /** Before-each does what it means after before-all. When it finishes, the test and after-each do
      what they mean after it, whether the test fails or not; all three set to work in any case. */
  ghost predicate TestInStep(env: Env, l: TestListing, r: TestRun, table: Table, effects: Effects) {
    var m := Interpret(env, table, effects, l.beforeEach);
    && SameRun(r.beforeEach, m)
    && (r.beforeEach.status == Finished ==>
          && SameRun(r.test, Interpret(m.env, table, effects, l.test))
          && SameRun(r.afterEach, Interpret(m.env, table, effects, l.afterEach)))
    && Attempts(l.beforeEach, r.beforeEach) && Attempts(l.test, r.test) && Attempts(l.afterEach, r.afterEach)
  }

  /** The sections of a test do not touch the definitions of before-all. */
  lemma TestAvoids(c: Context, locals: nat, env: Env, s: Suite, test: seq<Command>, l: TestListing, all: Definitions,
                   each: Definitions, table: Table, effects: Effects)
    requires Holds(c, locals, env, all, table) && GoodTest(s, test, all, each, table, effects)
    requires ListsTest(s, l) && IsListing(test, l.test)
    ensures Retains(all, each) && NoClash(each) && TableHolds(table, each)
    ensures Dependable(table, BeforeEach, effects, l.beforeEach) && Avoids(BeforeEach, table, all, l.beforeEach)
    ensures Dependable(table, TestSection, effects, l.test) && Avoids(TestSection, table, each, l.test)
    ensures Avoids(TestSection, table, all, l.test)
    ensures Dependable(table, AfterEach, effects, l.afterEach) && Avoids(AfterEach, table, all, l.afterEach)
  {
    hide Shaped, Enter, Starts, PlanSection, Orderly, Avoids, Retains, Dependable, TableHolds, NoClash, IsListing, Holds;
    HoldsParts(c, locals, env, all, table);
    RetainsSelf(all);
    SectionAvoids(BeforeEach, all, all, table, effects, s.beforeEach, l.beforeEach);
    PlanKeepsTable(BeforeEach, all, all, table, effects, s.beforeEach);
    RetainsSelf(each);
    SectionAvoids(TestSection, each, each, table, effects, test, l.test);
    AvoidsFewer(TestSection, table, each, all, l.test);
    SectionAvoids(AfterEach, each, all, table, effects, s.afterEach, l.afterEach);
  }

  lemma {:induction false} RunStaysPlanned(section: Section, defs: Definitions, table: Table, last: int, effects: Effects,
                                           cmds: seq<Command>) returns (end: int)
    requires Planned(defs, table, last) && InOrder(cmds, last) && LawfulRun(section, defs, cmds)
    requires Dependable(table, section, effects, cmds)
    ensures Planned(AfterAllOf(section, defs, cmds), table, end)
    decreases |cmds|
  {
    hide Lawful, After, Planned, Dependable, InOrder;
    end := last;
    if cmds == [] {
    } else {
      HeadAndTail(table, section, effects, cmds, last);
      AfterIsPlanned(section, defs, table, last, cmds[0]);
      end := RunStaysPlanned(section, After(section, defs, cmds[0]), table, cmds[0].order, effects, cmds[1..]);
    }
  }

  lemma PlanKeepsTable(section: Section, initial: Definitions, kept: Definitions, table: Table, effects: Effects,
                       cmds: seq<Command>)
    requires NoClash(initial) && TableHolds(table, initial) && Orderly(section, kept, table, effects, cmds)
    requires PlanSection(section, initial, cmds).Accepted?
    ensures var defs := PlanSection(section, initial, cmds).value; NoClash(defs) && TableHolds(table, defs)
  {
    hide SortedCommands, PlanFrom, Carried, TieFree, Dependable, NonNegative, KeepsInherited;
    CarriedIsPlanned(initial, table);
    SortedIsListing(cmds);
    FewerAreDependable(table, section, effects, cmds, cmds);
    FewerAreDependable(table, section, effects, cmds, SortedCommands(cmds));
    AcceptedListing(section, Carried(initial), table, cmds, SortedCommands(cmds));
    var end := RunStaysPlanned(section, Carried(initial), table, 0, effects, SortedCommands(cmds));
  }

  lemma HoldsAttempts(c: Context, locals: nat, env: Env, defs: Definitions, table: Table, effects: Effects, kind: ItemKind,
                      listing: seq<Command>)
    requires Holds(c, locals, env, defs, table)
    ensures Attempts(listing, Item(c, kind, locals, table, effects, listing))
  {
    hide Shaped, Starts, Enter, Item, OwnLocals;
    ItemAttempts(c, kind, locals, table, effects, listing);
  }

  lemma TestAgrees(c: Context, env: Env, s: Suite, test: seq<Command>, l: TestListing, all: Definitions, each: Definitions,
                   table: Table, effects: Effects, own: set<nat>) returns (own': set<nat>)
    requires Between(c, env, all, table, effects, own) && GoodTest(s, test, all, each, table, effects)
    requires ListsTest(s, l) && IsListing(test, l.test)
    ensures var r := RunTest(c, l, table, effects);
            TestInStep(env, l, r, table, effects) && Between(ResetLocals(r.afterEach.c), env, all, table, effects, own')
  {
    hide Starts, SuiteSetting, Item, Interpret, PlanSection, Dependable, Retains, NonLocal, ResetLocals, NewDict,
         TableHolds, NoClash, Holds, Orderly, Avoids, IsListing, SameRun;
    var locals, n, mine := |c.heap|, NewDict(c), own + {|c.heap|};
    EnterNew(c, env, all, table, effects, own);
    TestAvoids(n, locals, env, s, test, l, all, each, table, effects);
    ItemAgrees(n, env, all, all, table, effects, BeforeEach, HookItem, locals, s.beforeEach, l.beforeEach, mine);
    ItemKeeps(n, env, all, table, effects, BeforeEach, HookItem, locals, l.beforeEach, mine);
    var b, m := Item(n, HookItem, locals, table, effects, l.beforeEach), Interpret(env, table, effects, l.beforeEach);
    ItemKeeps(b.c, env, all, table, effects, TestSection, TestItem, locals, l.test, mine);
    var t := Item(b.c, TestItem, locals, table, effects, l.test);
    ItemKeeps(t.c, env, all, table, effects, AfterEach, HookItem, locals, l.afterEach, mine);
    var a := Item(t.c, HookItem, locals, table, effects, l.afterEach);
    if b.status == Finished {
      ItemAgrees(b.c, m.env, each, each, table, effects, TestSection, TestItem, locals, test, l.test, mine);
      ItemKeeps(b.c, m.env, each, table, effects, TestSection, TestItem, locals, l.test, mine);
      ItemAgrees(t.c, m.env, each, all, table, effects, AfterEach, HookItem, locals, s.afterEach, l.afterEach, mine);
    }
    HoldsAttempts(n, locals, env, all, table, effects, HookItem, l.beforeEach);
    HoldsAttempts(b.c, locals, env, all, table, effects, TestItem, l.test);
    HoldsAttempts(t.c, locals, env, all, table, effects, HookItem, l.afterEach);
    BackOutside(a.c, locals, env, all, table, effects, mine);
    ResetKeepsBetween(a.c, env, all, table, effects, mine);
    own' := mine + {|a.c.heap|};
  }

  lemma {:induction false} TestsAgree(c: Context, env: Env, s: Suite, tests: seq<TestListing>, all: Definitions,
                                      each: Definitions, table: Table, effects: Effects, own: set<nat>)
    returns (own': set<nat>)
    requires Between(c, env, all, table, effects, own)
    requires forall test | test in s.tests :: GoodTest(s, test, all, each, table, effects)
    requires forall l | l in tests :: ListsTest(s, l)
    ensures var runs := RunTests(c, tests, table, effects);
            && |runs| <= |tests| && Between(AfterTests(c, runs), env, all, table, effects, own')
            && forall i | 0 <= i < |runs| :: TestInStep(env, tests[i], runs[i], table, effects)
    decreases |tests|
  {
    hide Between, GoodTest, RunTest, TestInStep, ResetLocals, Failed, IsListing;
    own' := own;
    if tests == [] {
    } else {
      assert tests[0] in tests && forall l | l in tests[1..] :: l in tests;
      var test :| test in s.tests && IsListing(test, tests[0].test);
      own' := TestAgrees(c, env, s, test, tests[0], all, each, table, effects, own);
      var r := RunTest(c, tests[0], table, effects);
      if !(Failed(r) && tests[0].abort) {
        own' := TestsAgree(ResetLocals(r.afterEach.c), env, s, tests[1..], all, each, table, effects, own');
      }
    }
  }

  // ---- the suite --------------------------------------------------------------------------------

  lemma {:induction false} PlanTestsAccepted(initial: Definitions, tests: seq<seq<Command>>)
    requires PlanTests(initial, tests).None?
    ensures forall test | test in tests :: PlanSection(TestSection, initial, test).Accepted?
    decreases |tests|
  {
    hide PlanSection;
    if tests == [] {
    } else {
      PlanTestsAccepted(initial, tests[1..]);
      assert forall test | test in tests :: test == tests[0] || test in tests[1..];
    }
  }

  ghost predicate ScopesWithin(defs: Definitions, scopes: set<Scope>) {
    forall id | id in defs :: defs[id].scope in scopes
  }

  lemma {:induction false} PlanStaysWritable(section: Section, defs: Definitions, cmds: seq<Command>)
    requires ScopesWithin(defs, Writable(section)) && PlanFrom(section, defs, cmds).Accepted?
    ensures ScopesWithin(PlanFrom(section, defs, cmds).value, Writable(section))
    decreases |cmds|
  {
    hide PlanStep, Writable;
    if cmds == [] {
    } else {
      StepStaysWritable(section, defs, cmds[0]);
      PlanStaysWritable(section, PlanStep(section, defs, cmds[0]).value, cmds[1..]);
    }
  }

  lemma StepStaysWritable(section: Section, defs: Definitions, cmd: Command)
    requires ScopesWithin(defs, Writable(section)) && PlanStep(section, defs, cmd).Accepted?
    ensures ScopesWithin(PlanStep(section, defs, cmd).value, Writable(section))
  {
    hide CheckVisibility, Writable;
  }

  /** The definitions of before-all are global or results. */
  lemma BeforeAllIsNonLocal(cmds: seq<Command>)
    requires PlanSection(BeforeAll, map[], cmds).Accepted?
    ensures NonLocal(PlanSection(BeforeAll, map[], cmds).value)
  {
    hide SortedCommands, PlanFrom;
    PlanStaysWritable(BeforeAll, Carried(map[]), SortedCommands(cmds));
  }

  /** The conditions on a suite beyond its being accepted. Before-each and after-each keep what
      before-all defined, a test keeps what it inherited. */
  ghost predicate Regular(s: Suite, table: Table, effects: Effects)
    requires SuiteError(s).None?
  {
    var all := PlanSection(BeforeAll, map[], s.beforeAll).value;
    var each := PlanSection(BeforeEach, all, s.beforeEach).value;
    && Orderly(BeforeAll, map[], table, effects, s.beforeAll) && Orderly(BeforeEach, all, table, effects, s.beforeEach)
    && Orderly(AfterEach, all, table, effects, s.afterEach) && Orderly(AfterAll, map[], table, effects, s.afterAll)
    && forall test | test in s.tests :: Orderly(TestSection, each, table, effects, test)
  }

  lemma AcceptedTests(s: Suite, table: Table, effects: Effects)
    requires SuiteError(s).None? && Regular(s, table, effects)
    ensures var all := PlanSection(BeforeAll, map[], s.beforeAll).value;
            var each := PlanSection(BeforeEach, all, s.beforeEach).value;
            forall test | test in s.tests :: GoodTest(s, test, all, each, table, effects)
  {
    hide PlanSection, Orderly;
    var all := PlanSection(BeforeAll, map[], s.beforeAll).value;
    PlanTestsAccepted(PlanSection(BeforeEach, all, s.beforeEach).value, s.tests);
  }

  lemma StartsWithNothing(c: Context, env: Env, table: Table, effects: Effects, own: set<nat>)
    requires Shaped(c) && SuiteSetting(table, effects, c, own)
    ensures Between(c, env, map[], table, effects, own)
  {
  }

  lemma FirstItem(c: Context, env: Env, section: Section, cmds: seq<Command>, listing: seq<Command>, table: Table,
                  effects: Effects, own: set<nat>)
    requires Shaped(c) && SuiteSetting(table, effects, c, own) && !section.TestSection?
    requires Orderly(section, map[], table, effects, cmds) && PlanSection(section, map[], cmds).Accepted? && IsListing(cmds, listing)
    ensures var i, m := Item(NewDict(c), HookItem, |c.heap|, table, effects, listing), Interpret(env, table, effects, listing);
            && SameRun(i, m) && SuiteSetting(table, effects, i.c, own + {|c.heap|}) && Shaped(i.c) && Attempts(listing, i)
            && (i.status == Finished ==> Holds(i.c, |c.heap|, m.env, PlanSection(section, map[], cmds).value, table))
  {
    hide Shaped, Starts, Enter, SuiteSetting, Item, Interpret, PlanSection, NewDict, Orderly, Avoids, IsListing, OwnLocals,
         Dependable, SameRun;
    StartsWithNothing(c, env, table, effects, own);
    EnterNew(c, env, map[], table, effects, own);
    var n, mine := NewDict(c), own + {|c.heap|};
    RetainsSelf(map[]);
    HoldsParts(n, |c.heap|, env, map[], table);
    SectionAvoids(section, map[], map[], table, effects, cmds, listing);
    ItemKeeps(n, env, map[], table, effects, section, HookItem, |c.heap|, listing, mine);
    ItemAttempts(n, HookItem, |c.heap|, table, effects, listing);
    ItemAgrees(n, env, map[], map[], table, effects, section, HookItem, |c.heap|, cmds, listing, mine);
  }

  /** After-all sets to work whatever before-all did. */
  lemma LastAttempts(c: Context, table: Table, effects: Effects, listing: seq<Command>)
    requires Shaped(c)
    ensures Attempts(listing, Item(NewDict(c), HookItem, |c.heap|, table, effects, listing))
  {
    hide Shaped, Item, OwnLocals;
    NewDictHolds(c);
    ItemAttempts(NewDict(c), HookItem, |c.heap|, table, effects, listing);
  }

  /** Suite soundness, for every order in which tied commands may be listed and whatever fails on the
      way. Before-all does what it means. When it finishes, after-all and the before-each of every
      executed test do what they mean after it, whatever the other tests have done; and when before-each
      finishes, so do the test and after-each. None of them reads a missing constant or trips an
      immutability guard. The tests are executed up to the first that fails and aborts, and after-all in
      any case. */
  lemma AcceptedSuiteRuns(c: Context, env: Env, s: Suite, l: SuiteListing, table: Table, effects: Effects, own: set<nat>)
    requires Shaped(c) && SuiteSetting(table, effects, c, own)
    requires SuiteError(s).None? && Regular(s, table, effects) && Lists(s, l)
    ensures var r, m := RunSuite(c, l, table, effects), Interpret(env, table, effects, l.beforeAll);
            && SameRun(r.beforeAll, m) && Attempts(l.beforeAll, r.beforeAll) && Attempts(l.afterAll, r.afterAll)
            && (r.beforeAll.status != Finished ==> r.tests == [])
            && (r.beforeAll.status == Finished ==>
                  && EndsAtAbort(l.tests, r.tests)
                  && SameRun(r.afterAll, Interpret(m.env, table, effects, l.afterAll))
                  && forall i | 0 <= i < |r.tests| :: TestInStep(m.env, l.tests[i], r.tests[i], table, effects))
  {
    hide Shaped, SuiteSetting, Item, Interpret, PlanSection, NonLocal, NewDict, TableHolds, Starts, RunTests, SameRun,
         Holds, Orderly, Between, GoodTest, ListsTest, IsListing, TestInStep, AfterTests, NoClash, Attempts, EndsAtAbort;
    TestsExecuted(c, l, table, effects);
    var all := PlanSection(BeforeAll, map[], s.beforeAll).value;
    FirstItem(c, env, BeforeAll, s.beforeAll, l.beforeAll, table, effects, own);
    var i, m := Item(NewDict(c), HookItem, |c.heap|, table, effects, l.beforeAll), Interpret(env, table, effects, l.beforeAll);
    if i.status == Finished {
      BeforeAllIsNonLocal(s.beforeAll);
      BackOutside(i.c, |c.heap|, m.env, all, table, effects, own + {|c.heap|});
      AcceptedTests(s, table, effects);
      var each := PlanSection(BeforeEach, all, s.beforeEach).value;
      var own' := TestsAgree(i.c, m.env, s, l.tests, all, each, table, effects, own + {|c.heap|});
      var c' := AfterTests(i.c, RunTests(i.c, l.tests, table, effects));
      EnterNew(c', m.env, all, table, effects, own');
      ItemAgrees(NewDict(c'), m.env, all, map[], table, effects, AfterAll, HookItem, |c'.heap|, s.afterAll, l.afterAll,
                 own' + {|c'.heap|});
      HoldsAttempts(NewDict(c'), |c'.heap|, m.env, all, table, effects, HookItem, l.afterAll);
    } else {
      NoTests(i.c);
      LastAttempts(i.c, table, effects, l.afterAll);
    }
  }

  lemma NoTests(c: Context)
    ensures AfterTests(c, []) == c
  {
  }
}
