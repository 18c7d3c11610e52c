/** Exactly which commands the planner accepts, in terms of the fields of commands and definitions, and
    what a section may count on from the sections checked before it. */
module PlannerAcceptance {
  import opened PyText
  import opened PyList
  import opened ConstantStore
  import opened ConstantPlanner
  import opened CommandListings
  import opened SuiteSoundness

  // ---- one command ------------------------------------------------------------------------------

  /** The sections that may read a scope. */
  predicate Sees(section: Section, scope: Scope) {
    match scope
    case RunEnvelopeScope => true
    case ResultScope => true
    case GlobalScope => section in {BeforeEach, TestSection, AfterEach, AfterAll}
    case LocalScope => section in {TestSection, AfterEach}
  }

  /** The sections that may set and delete in a scope. */
  predicate Sets(section: Section, scope: Scope) {
    match scope
    case RunEnvelopeScope => section.MockPreResponse?
    case ResultScope => true
    case GlobalScope => section in {BeforeAll, AfterAll}
    case LocalScope => section in {BeforeEach, TestSection, AfterEach}
  }

  /** The command codes that take a value of a type. */
  predicate IsTakenBy(t: ValueType, code: CommandCode) {
    match t
    case PlainValue => code !in {SaveTable, ExportDataset} && !ChecksArrays(code)
    case JsonValue => !ChecksArrays(code)
    case JsonArrayValue => !ChecksValues(code)
    case DatasetValue => !ChecksArrays(code) && !ChecksValues(code)
    case FunctionValue => IsUnrestricted(code)
    case SqsQueueValue => IsUnrestricted(code)
  }

  predicate ChecksArrays(code: CommandCode) { code in {JsonArrayEquals, JsonArrayEmpty, JsonArrayNotEmpty, JsonArrayContains} }

  predicate ChecksValues(code: CommandCode) { code in {JsonEquals, JsonEmpty, JsonNotEmpty, JsonContains} }

  predicate IsUnrestricted(code: CommandCode) {
    code !in {SendMessageQueue, SaveTable, ExportDataset} && !ChecksArrays(code) && !ChecksValues(code)
  }

  /** Defined earlier, not deleted since, and in a scope that the section reads. */
  predicate IsVisible(section: Section, defs: Definitions, order: int, id: string) {
    && id in defs && Sees(section, defs[id].scope) && defs[id].order < order
    && (defs[id].deletedAt.None? || order < defs[id].deletedAt.value)
  }

  /** No definition made so far has the constant; one that was deleted does not count. */
  ghost predicate IsFree(defs: Definitions, order: int, scope: Scope, name: string) {
    forall id | id in defs && defs[id].scope == scope && defs[id].name == name ::
      order < defs[id].order || (defs[id].deletedAt.Some? && defs[id].deletedAt.value <= order + 1)
  }

  ghost predicate ReadsWell(section: Section, defs: Definitions, order: int, code: CommandCode, refs: seq<string>) {
    forall id | id in refs :: IsVisible(section, defs, order, id) && IsTakenBy(defs[id].valueType, code)
  }

  /** A form field is no data source, and no dataset or array that is visible. */
  predicate FieldFits(section: Section, defs: Definitions, order: int, f: FormField) {
    match f
    case LiteralField => true
    case SourceField => false
    case RuntimeField(id) =>
      !(IsVisible(section, defs, order, Strip(id)) && defs[Strip(id)].valueType in {DatasetValue, JsonArrayValue})
  }

  ghost predicate Acceptable(section: Section, defs: Definitions, cmd: Command) {
    match cmd.cfg
    case SetVariable(_, name, scope, _) => Sets(section, scope) && IsFree(defs, cmd.order, scope, name)
    case DeleteVariable(id) => IsVisible(section, defs, cmd.order, id) && Sets(section, defs[id].scope)
    case Action(code, refs, form, result, _) =>
      && ReadsWell(section, defs, cmd.order, code, refs)
      && (forall i | 0 <= i < |form| :: FieldFits(section, defs, cmd.order, form[i]))
      && (result.Some? ==> IsFree(defs, cmd.order, ResultScope, result.value.name))
  }

  /** The definitions after the command. */
  function Defined(section: Section, defs: Definitions, cmd: Command): Definitions {
    match cmd.cfg
    case SetVariable(id, name, scope, valueType) =>
      defs[id := Definition(id, cmd.id, cmd.order, section, name, scope, valueType, None)]
    case DeleteVariable(id) => if id in defs then defs[id := defs[id].(deletedAt := Some(cmd.order))] else defs
    case Action(_, _, _, None, _) => defs
    case Action(_, _, _, Some(ResultConstant(id, name, valueType)), _) =>
      defs[id := Definition(id, cmd.id, cmd.order, section, name, ResultScope, valueType, None)]
  }

  lemma SeesReadable(section: Section, scope: Scope)
    ensures scope in Readable(section) <==> Sees(section, scope)
    ensures scope in Writable(section) <==> Sets(section, scope)
  {
    match section
    case TestSection =>
    case BeforeAll =>
    case BeforeEach =>
    case AfterEach =>
    case AfterAll =>
    case MockPreResponse =>
    case MockPostResponse =>
    case MockQueue =>
  }

  lemma TakenIsCompatible(t: ValueType, code: CommandCode)
    ensures Compatible(code, t) <==> IsTakenBy(t, code)
  {
  }

  lemma VisibleIsActive(section: Section, defs: Definitions, order: int, id: string)
    ensures var active := Active(defs, Readable(section), order);
            (id in active <==> IsVisible(section, defs, order, id)) && (id in active ==> active[id] == defs[id])
  {
    hide Readable, Sees;
    Activity(defs, Readable(section), order, id);
    if id in defs {
      SeesReadable(section, defs[id].scope);
    }
  }

  lemma {:induction false} RefsAreChecked(section: Section, defs: Definitions, order: int, code: CommandCode, refs: seq<string>)
    ensures CheckRefs(Active(defs, Readable(section), order), code, refs).None? <==> ReadsWell(section, defs, order, code, refs)
    decreases |refs|
  {
    hide Active, Readable, IsVisible, Compatible, IsTakenBy;
    if refs == [] {
    } else {
      VisibleIsActive(section, defs, order, refs[0]);
      VisibleIsDefined(section, defs, order, refs[0]);
      if IsVisible(section, defs, order, refs[0]) {
        TakenIsCompatible(defs[refs[0]].valueType, code);
      }
      RefsAreChecked(section, defs, order, code, refs[1..]);
      assert refs == [refs[0]] + refs[1..];
    }
  }

  lemma {:induction false} FormIsChecked(section: Section, defs: Definitions, order: int, form: seq<FormField>)
    ensures CheckForm(Active(defs, Readable(section), order), form).None? <==>
            forall i | 0 <= i < |form| :: FieldFits(section, defs, order, form[i])
    decreases |form|
  {
    hide Active, Readable, IsVisible, Strip;
    if form == [] {
    } else {
      if form[0].RuntimeField? {
        VisibleIsActive(section, defs, order, Strip(form[0].definitionId));
      }
      FormIsChecked(section, defs, order, form[1..]);
      assert forall i | 0 <= i < |form[1..]| :: form[1..][i] == form[i + 1];
      assert forall i | 0 < i < |form| :: form[i] == form[1..][i - 1];
    }
  }

  lemma DeclarationIsChecked(section: Section, defs: Definitions, order: int, d: Definition)
    ensures CheckDeclaration(section, defs, order, d).None? <==> Sets(section, d.scope) && IsFree(defs, order, d.scope, d.name)
  {
    hide Readable, Writable, Active;
    SeesReadable(section, d.scope);
    var active := Active(defs, ALL_SCOPES, order + 1);
    forall id
      ensures id in active <==>
                id in defs && defs[id].order <= order && (defs[id].deletedAt.None? || order + 1 < defs[id].deletedAt.value)
      ensures id in active ==> active[id] == defs[id]
    {
      Activity(defs, ALL_SCOPES, order + 1, id);
      if id in defs {
        EveryScope(defs[id].scope);
      }
    }
    if !IsFree(defs, order, d.scope, d.name) {
      var id :| id in defs && defs[id].scope == d.scope && defs[id].name == d.name &&
                !(order < defs[id].order || (defs[id].deletedAt.Some? && defs[id].deletedAt.value <= order + 1));
      assert id in active;
    }
  }

  /** The planner accepts a command exactly when its references are visible and of a fitting type, its
      form fields fit, what it deletes may be deleted, and what it declares may be set and is new; and it
      then adds, or marks as deleted, exactly that definition. */
  lemma AcceptsExactly(section: Section, defs: Definitions, cmd: Command)
    ensures PlanStep(section, defs, cmd).Accepted? <==> Acceptable(section, defs, cmd)
    ensures PlanStep(section, defs, cmd).Accepted? ==> PlanStep(section, defs, cmd).value == Defined(section, defs, cmd)
  {
    hide Active, Readable, Writable, IsVisible, CheckRefs, CheckForm, CheckDeclaration, ReadsWell, FieldFits, IsFree, Sets, Sees;
    match cmd.cfg
    case SetVariable(_, _, scope, _) => DeclarationIsChecked(section, defs, cmd.order, Declared(section, cmd).value);
    case DeleteVariable(id) =>
      VisibleIsActive(section, defs, cmd.order, id);
      VisibleIsDefined(section, defs, cmd.order, id);
      if id in defs {
        SeesReadable(section, defs[id].scope);
      }
    case Action(code, refs, form, result, _) =>
      RefsAreChecked(section, defs, cmd.order, code, refs);
      FormIsChecked(section, defs, cmd.order, form);
      if result.Some? {
        ResultsMayBeSet(section);
        DeclarationIsChecked(section, defs, cmd.order, Declared(section, cmd).value);
      }
  }

  lemma VisibleIsDefined(section: Section, defs: Definitions, order: int, id: string)
    ensures IsVisible(section, defs, order, id) ==> id in defs
  {
  }

  lemma ResultsMayBeSet(section: Section)
    ensures Sets(section, ResultScope)
  {
  }

  // ---- a section --------------------------------------------------------------------------------

  /** Each command in turn is acceptable after those before it. */
  ghost predicate AllAcceptable(section: Section, defs: Definitions, cmds: seq<Command>)
    decreases |cmds|
  {
    cmds == [] || (Acceptable(section, defs, cmds[0]) && AllAcceptable(section, Defined(section, defs, cmds[0]), cmds[1..]))
  }

  lemma {:induction false} PlansExactly(section: Section, defs: Definitions, cmds: seq<Command>)
    ensures PlanFrom(section, defs, cmds).Accepted? <==> AllAcceptable(section, defs, cmds)
    decreases |cmds|
  {
    hide PlanStep, Acceptable, Defined;
    if cmds == [] {
    } else {
      AcceptsExactly(section, defs, cmds[0]);
      PlansExactly(section, Defined(section, defs, cmds[0]), cmds[1..]);
    }
  }

  /** What is inherited: the live definitions, as if declared before every command. */
  ghost predicate Inherits(defs: Definitions, initial: Definitions) {
    && (forall id :: id in defs <==> id in initial && initial[id].deletedAt.None?)
    && forall id | id in defs :: defs[id] == initial[id].(order := 0)
  }

  /** A section is accepted exactly when, with the inherited definitions and in the order of the commands'
      orders and then ids, each command is acceptable. */
  lemma SectionAcceptedExactly(section: Section, initial: Definitions, cmds: seq<Command>, sorted: seq<Command>, defs: Definitions)
    requires multiset(sorted) == multiset(cmds) && Inherits(defs, initial)
    requires forall i, j | 0 <= i < j < |sorted| ::
               sorted[i].order < sorted[j].order || (sorted[i].order == sorted[j].order && LexLeq(sorted[i].id, sorted[j].id))
    requires forall x, y | x in cmds && y in cmds && x.order == y.order && x.id == y.id :: x == y
    ensures PlanSection(section, initial, cmds).Accepted? <==> AllAcceptable(section, defs, sorted)
  {
    hide PlanFrom, AllAcceptable, LexLeq, SortBy;
    assert defs == Carried(initial);
    SortedIs(cmds, sorted);
    PlansExactly(section, defs, sorted);
  }

  /** There is one order of (order, id) when no two commands have both in common. */
  lemma SortedIs(cmds: seq<Command>, sorted: seq<Command>)
    requires multiset(sorted) == multiset(cmds)
    requires forall i, j | 0 <= i < j < |sorted| ::
               sorted[i].order < sorted[j].order || (sorted[i].order == sorted[j].order && LexLeq(sorted[i].id, sorted[j].id))
    requires forall x, y | x in cmds && y in cmds && x.order == y.order && x.id == y.id :: x == y
    ensures SortedCommands(cmds) == sorted
  {
    hide SortBy;
    CommandsAreSorted(cmds);
    forall x, y | x in cmds && y in cmds && CommandLeq(x, y) && CommandLeq(y, x)
      ensures x == y
    {
      LexTotal(x.id, y.id);
    }
    var ss := SortedCommands(cmds);
    MultisetMembers(ss, cmds);
    forall i, j | 0 <= i < |ss| && 0 <= j < |ss| && CommandLeq(ss[i], ss[j]) && CommandLeq(ss[j], ss[i])
      ensures ss[i] == ss[j]
    {
      assert ss[i] in ss && ss[j] in ss;
    }
    SortedIsUnique(SortedCommands(cmds), sorted, CommandLeq);
  }

  // ---- what a section may count on --------------------------------------------------------------

  /** A command that only reads, whatever the types. */
  predicate OnlyReads(cmd: Command) {
    cmd.cfg.Action? && IsUnrestricted(cmd.cfg.code) && cmd.cfg.form == [] && cmd.cfg.result.None?
  }

  /** Such a command, of positive order, may read every inherited definition in a scope that its section
      sees. */
  lemma InheritedIsReadable(section: Section, initial: Definitions, cmd: Command)
    requires OnlyReads(cmd) && cmd.order > 0
    requires forall id | id in cmd.cfg.refs ::
               id in initial && initial[id].deletedAt.None? && Sees(section, initial[id].scope)
    ensures PlanSection(section, initial, [cmd]).Accepted?
  {
    hide Sees, PlanStep;
    var defs := Carried(initial);
    forall id | id in cmd.cfg.refs
      ensures IsVisible(section, defs, cmd.order, id) && IsTakenBy(defs[id].valueType, cmd.cfg.code)
    {
      UnrestrictedTakes(defs[id].valueType, cmd.cfg.code);
    }
    AcceptsExactly(section, defs, cmd);
    PlanOfOne(section, initial, cmd);
  }

  lemma PlanOfOne(section: Section, initial: Definitions, cmd: Command)
    ensures PlanSection(section, initial, [cmd]) == PlanStep(section, Carried(initial), cmd)
  {
    hide PlanStep;
    assert [cmd][1..] == [];
    assert SortBy([cmd][1..], CommandLeq) == [];
    assert SortedCommands([cmd]) == [cmd];
    var step := PlanStep(section, Carried(initial), cmd);
    if step.Accepted? {
      assert PlanFrom(section, step.value, [cmd][1..]) == step;
    }
  }

  lemma UnrestrictedTakes(t: ValueType, code: CommandCode)
    requires IsUnrestricted(code)
    ensures IsTakenBy(t, code)
  {
  }

  lemma {:induction false} PlanStaysWithin(section: Section, defs: Definitions, cmds: seq<Command>, scopes: set<Scope>)
    requires ScopesWithin(defs, scopes) && PlanFrom(section, defs, cmds).Accepted? && forall s | Sets(section, s) :: s in scopes
    ensures ScopesWithin(PlanFrom(section, defs, cmds).value, scopes)
    decreases |cmds|
  {
    hide PlanStep, Sets, ReadsWell, FieldFits, IsFree;
    if cmds == [] {
    } else {
      AcceptsExactly(section, defs, cmds[0]);
      assert ScopesWithin(Defined(section, defs, cmds[0]), scopes) by {
        ResultsMayBeSet(section);
      }
      PlanStaysWithin(section, Defined(section, defs, cmds[0]), cmds[1..], scopes);
    }
  }

  lemma SectionStaysWithin(section: Section, initial: Definitions, cmds: seq<Command>, scopes: set<Scope>)
    requires ScopesWithin(initial, scopes) && PlanSection(section, initial, cmds).Accepted?
    requires forall s | Sets(section, s) :: s in scopes
    ensures ScopesWithin(PlanSection(section, initial, cmds).value, scopes)
  {
    hide PlanFrom, SortedCommands, Sets;
    PlanStaysWithin(section, Carried(initial), SortedCommands(cmds), scopes);
  }

  /** A suite is accepted exactly when its sections are: before-each and after-all on what before-all
      leaves, the tests and after-each on what before-each leaves. */
  lemma SuiteAcceptedExactly(s: Suite, all: Definitions, each: Definitions)
    requires PlanSection(BeforeAll, map[], s.beforeAll) == Accepted(all)
    requires PlanSection(BeforeEach, all, s.beforeEach) == Accepted(each)
    ensures SuiteError(s).None? <==>
            && (forall test | test in s.tests :: PlanSection(TestSection, each, test).Accepted?)
            && PlanSection(AfterEach, each, s.afterEach).Accepted? && PlanSection(AfterAll, all, s.afterAll).Accepted?
  {
    hide PlanSection;
    PlanTestsExactly(each, s.tests);
  }

  lemma {:induction false} PlanTestsExactly(initial: Definitions, tests: seq<seq<Command>>)
    ensures PlanTests(initial, tests).None? <==> forall test | test in tests :: PlanSection(TestSection, initial, test).Accepted?
    decreases |tests|
  {
    hide PlanSection;
    if tests == [] {
    } else {
      PlanTestsExactly(initial, tests[1..]);
      assert forall test | test in tests :: test == tests[0] || test in tests[1..];
      assert forall test | test in tests[1..] :: test in tests;
    }
  }

  /** What before-all leaves may be read in before-each and after-all, and what before-each leaves, what
      it inherited included, in the tests and in after-each. */
  lemma LaterSectionsRead(beforeAll: seq<Command>, beforeEach: seq<Command>, all: Definitions, each: Definitions, cmd: Command)
    requires PlanSection(BeforeAll, map[], beforeAll) == Accepted(all)
    requires PlanSection(BeforeEach, all, beforeEach) == Accepted(each)
    requires OnlyReads(cmd) && cmd.order > 0
    ensures (forall id | id in cmd.cfg.refs :: id in all && all[id].deletedAt.None?) ==>
              && PlanSection(BeforeEach, all, [cmd]).Accepted?
              && SuiteError(Suite(beforeAll, beforeEach, [], [], [cmd])).None?
    ensures (forall id | id in cmd.cfg.refs :: id in each && each[id].deletedAt.None?) ==>
              SuiteError(Suite(beforeAll, beforeEach, [[cmd]], [cmd], [])).None?
  {
    hide PlanSection, IsUnrestricted;
    var none: Definitions := map[];
    SectionStaysWithin(BeforeAll, none, beforeAll, {GlobalScope, ResultScope});
    SectionStaysWithin(BeforeEach, all, beforeEach, {GlobalScope, LocalScope, ResultScope});
    EmptyIsAccepted(AfterEach, each);
    EmptyIsAccepted(AfterAll, all);
    if forall id | id in cmd.cfg.refs :: id in all && all[id].deletedAt.None? {
      InheritedIsReadable(BeforeEach, all, cmd);
      InheritedIsReadable(AfterAll, all, cmd);
      SuiteAcceptedExactly(Suite(beforeAll, beforeEach, [], [], [cmd]), all, each);
    }
    if forall id | id in cmd.cfg.refs :: id in each && each[id].deletedAt.None? {
      InheritedIsReadable(TestSection, each, cmd);
      InheritedIsReadable(AfterEach, each, cmd);
      SuiteAcceptedExactly(Suite(beforeAll, beforeEach, [[cmd]], [cmd], []), all, each);
    }
  }

  lemma EmptyIsAccepted(section: Section, initial: Definitions)
    ensures PlanSection(section, initial, []).Accepted?
  {
    assert SortedCommands([]) == [];
  }

  /** What a command declares, by its fields. */
  ghost predicate Declares(section: Section, cmd: Command, d: Definition) {
    && d.commandId == cmd.id && d.order == cmd.order && d.section == section && d.deletedAt.None?
    && match cmd.cfg
       case SetVariable(id, name, scope, valueType) => d.id == id && d.name == name && d.scope == scope && d.valueType == valueType
       case DeleteVariable(_) => false
       case Action(_, _, _, result, _) =>
         result.Some? && d.scope.ResultScope? &&
         d.id == result.value.definitionId && d.name == result.value.name && d.valueType == result.value.valueType
  }

  /** The reported definitions are those that the commands declare. */
  lemma {:induction false} DeclarationsAreReported(section: Section, cmds: seq<Command>, d: Definition)
    ensures d in DeclaredBy(section, cmds) <==> exists cmd :: cmd in cmds && Declares(section, cmd, d)
    decreases |cmds|
  {
    hide Declares;
    if cmds == [] {
    } else {
      DeclarationsAreReported(section, cmds[1..], d);
      DeclaredIs(section, cmds[0], d);
      assert forall cmd :: cmd in cmds <==> cmd == cmds[0] || cmd in cmds[1..];
    }
  }

  lemma DeclaredIs(section: Section, cmd: Command, d: Definition)
    ensures Declared(section, cmd) == Some(d) <==> Declares(section, cmd, d)
  {
  }

  // ---- the errors -------------------------------------------------------------------------------

  lemma {:induction false} FirstBadRef(section: Section, defs: Definitions, order: int, code: CommandCode, refs: seq<string>, i: nat)
    requires i < |refs| && !(IsVisible(section, defs, order, refs[i]) && IsTakenBy(defs[refs[i]].valueType, code))
    requires forall j | 0 <= j < i :: IsVisible(section, defs, order, refs[j]) && IsTakenBy(defs[refs[j]].valueType, code)
    ensures CheckRefs(Active(defs, Readable(section), order), code, refs) ==
            Some(if IsVisible(section, defs, order, refs[i]) then IncompatibleType(refs[i]) else NotVisible(refs[i]))
    decreases |refs|
  {
    hide Active, Readable, Compatible, IsTakenBy;
    VisibleIsActive(section, defs, order, refs[0]);
    VisibleIsDefined(section, defs, order, refs[0]);
    if IsVisible(section, defs, order, refs[0]) {
      TakenIsCompatible(defs[refs[0]].valueType, code);
    }
    if i > 0 {
      FirstBadRef(section, defs, order, code, refs[1..], i - 1);
    }
  }

  lemma {:induction false} FirstBadField(section: Section, defs: Definitions, order: int, form: seq<FormField>, i: nat)
    requires i < |form| && !FieldFits(section, defs, order, form[i]) && forall j | 0 <= j < i :: FieldFits(section, defs, order, form[j])
    ensures CheckForm(Active(defs, Readable(section), order), form) ==
            Some(if form[i].SourceField? then SourceInForm else IncompatibleForm(Strip(form[i].definitionId)))
    decreases |form|
  {
    hide Active, Readable, IsVisible, Strip;
    if form[0].RuntimeField? {
      VisibleIsActive(section, defs, order, Strip(form[0].definitionId));
    }
    if i > 0 {
      FirstBadField(section, defs, order, form[1..], i - 1);
    }
  }

  /** The error of a rejected command. An action is rejected for its first reference that is not visible or
      of the wrong type, else for its first form field that does not fit, else for its result constant; a
      deletion for what it does not see, else for what it may not delete; a declaration for its scope, else
      for its name. */
  lemma RejectionIsExact(section: Section, defs: Definitions, cmd: Command, i: nat)
    ensures cmd.cfg.SetVariable? && !Sets(section, cmd.cfg.scope) ==> PlanStep(section, defs, cmd) == Rejected(NotWritable(cmd.cfg.scope))
    ensures cmd.cfg.SetVariable? && Sets(section, cmd.cfg.scope) && !IsFree(defs, cmd.order, cmd.cfg.scope, cmd.cfg.name) ==>
              PlanStep(section, defs, cmd) == Rejected(AlreadyDefined(cmd.cfg.name, cmd.cfg.scope))
    ensures cmd.cfg.DeleteVariable? && !IsVisible(section, defs, cmd.order, cmd.cfg.target) ==>
              PlanStep(section, defs, cmd) == Rejected(NotVisible(cmd.cfg.target))
    ensures cmd.cfg.DeleteVariable? && IsVisible(section, defs, cmd.order, cmd.cfg.target) && !Sets(section, defs[cmd.cfg.target].scope) ==>
              PlanStep(section, defs, cmd) == Rejected(NotDeletable(cmd.cfg.target))
    ensures cmd.cfg.Action? && IsFirstBadRef(section, defs, cmd, i) ==>
              PlanStep(section, defs, cmd) ==
              Rejected(if IsVisible(section, defs, cmd.order, cmd.cfg.refs[i]) then IncompatibleType(cmd.cfg.refs[i]) else NotVisible(cmd.cfg.refs[i]))
    ensures cmd.cfg.Action? && ReadsWell(section, defs, cmd.order, cmd.cfg.code, cmd.cfg.refs) && IsFirstBadField(section, defs, cmd, i) ==>
              PlanStep(section, defs, cmd) ==
              Rejected(if cmd.cfg.form[i].SourceField? then SourceInForm else IncompatibleForm(Strip(cmd.cfg.form[i].definitionId)))
    ensures cmd.cfg.Action? && cmd.cfg.result.Some? && ReadsWell(section, defs, cmd.order, cmd.cfg.code, cmd.cfg.refs) &&
            (forall j | 0 <= j < |cmd.cfg.form| :: FieldFits(section, defs, cmd.order, cmd.cfg.form[j])) &&
            !IsFree(defs, cmd.order, ResultScope, cmd.cfg.result.value.name) ==>
              PlanStep(section, defs, cmd) == Rejected(AlreadyDefined(cmd.cfg.result.value.name, ResultScope))
  {
    hide Active, Readable, Writable, IsVisible, CheckRefs, CheckForm, CheckDeclaration, ReadsWell, FieldFits, IsFree, Sets, Sees, IsTakenBy;
    match cmd.cfg
    case SetVariable(_, _, _, _) => DeclarationRejected(section, defs, cmd.order, Declared(section, cmd).value);
    case DeleteVariable(id) =>
      VisibleIsActive(section, defs, cmd.order, id);
      VisibleIsDefined(section, defs, cmd.order, id);
      if id in defs {
        SeesReadable(section, defs[id].scope);
      }
    case Action(_, _, _, _, _) =>
      hide PlanStep;
      BadRefRejected(section, defs, cmd, i);
      BadFieldRejected(section, defs, cmd, i);
      BadResultRejected(section, defs, cmd);
  }

  lemma BadRefRejected(section: Section, defs: Definitions, cmd: Command, i: nat)
    requires cmd.cfg.Action?
    ensures IsFirstBadRef(section, defs, cmd, i) ==>
              PlanStep(section, defs, cmd) ==
              Rejected(if IsVisible(section, defs, cmd.order, cmd.cfg.refs[i]) then IncompatibleType(cmd.cfg.refs[i]) else NotVisible(cmd.cfg.refs[i]))
  {
    hide Active, Readable, IsVisible, CheckRefs, CheckForm, CheckDeclaration, IsTakenBy;
    if IsFirstBadRef(section, defs, cmd, i) {
      FirstBadRef(section, defs, cmd.order, cmd.cfg.code, cmd.cfg.refs, i);
    }
  }

  lemma BadFieldRejected(section: Section, defs: Definitions, cmd: Command, i: nat)
    requires cmd.cfg.Action?
    ensures ReadsWell(section, defs, cmd.order, cmd.cfg.code, cmd.cfg.refs) && IsFirstBadField(section, defs, cmd, i) ==>
              PlanStep(section, defs, cmd) ==
              Rejected(if cmd.cfg.form[i].SourceField? then SourceInForm else IncompatibleForm(Strip(cmd.cfg.form[i].definitionId)))
  {
    hide Active, Readable, IsVisible, CheckRefs, CheckForm, CheckDeclaration, ReadsWell, FieldFits;
    RefsAreChecked(section, defs, cmd.order, cmd.cfg.code, cmd.cfg.refs);
    if IsFirstBadField(section, defs, cmd, i) {
      FirstBadField(section, defs, cmd.order, cmd.cfg.form, i);
    }
  }

  lemma BadResultRejected(section: Section, defs: Definitions, cmd: Command)
    requires cmd.cfg.Action?
    ensures cmd.cfg.result.Some? && ReadsWell(section, defs, cmd.order, cmd.cfg.code, cmd.cfg.refs) &&
            (forall j | 0 <= j < |cmd.cfg.form| :: FieldFits(section, defs, cmd.order, cmd.cfg.form[j])) &&
            !IsFree(defs, cmd.order, ResultScope, cmd.cfg.result.value.name) ==>
              PlanStep(section, defs, cmd) == Rejected(AlreadyDefined(cmd.cfg.result.value.name, ResultScope))
  {
    hide Active, Readable, Writable, IsVisible, CheckRefs, CheckForm, CheckDeclaration, ReadsWell, FieldFits, IsFree, Sets;
    RefsAreChecked(section, defs, cmd.order, cmd.cfg.code, cmd.cfg.refs);
    FormIsChecked(section, defs, cmd.order, cmd.cfg.form);
    if cmd.cfg.result.Some? {
      ResultsMayBeSet(section);
      DeclarationRejected(section, defs, cmd.order, Declared(section, cmd).value);
    }
  }

  ghost predicate IsFirstBadRef(section: Section, defs: Definitions, cmd: Command, i: nat)
    requires cmd.cfg.Action?
  {
    var refs := cmd.cfg.refs;
    && i < |refs| && !(IsVisible(section, defs, cmd.order, refs[i]) && IsTakenBy(defs[refs[i]].valueType, cmd.cfg.code))
    && forall j | 0 <= j < i :: IsVisible(section, defs, cmd.order, refs[j]) && IsTakenBy(defs[refs[j]].valueType, cmd.cfg.code)
  }

  ghost predicate IsFirstBadField(section: Section, defs: Definitions, cmd: Command, i: nat)
    requires cmd.cfg.Action?
  {
    var form := cmd.cfg.form;
    i < |form| && !FieldFits(section, defs, cmd.order, form[i]) && forall j | 0 <= j < i :: FieldFits(section, defs, cmd.order, form[j])
  }

  lemma DeclarationRejected(section: Section, defs: Definitions, order: int, d: Definition)
    ensures !Sets(section, d.scope) ==> CheckDeclaration(section, defs, order, d) == Some(NotWritable(d.scope))
    ensures Sets(section, d.scope) && !IsFree(defs, order, d.scope, d.name) ==>
              CheckDeclaration(section, defs, order, d) == Some(AlreadyDefined(d.name, d.scope))
  {
    hide Readable, Writable, Active, IsFree, Sets;
    SeesReadable(section, d.scope);
    DeclarationIsChecked(section, defs, order, d);
  }
}
