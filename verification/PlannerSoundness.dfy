/** Commands accepted by the planner never read a missing constant: the run over the aliased run
    context reads exactly what a plain interpreter, with one variable per definition, would read. */
module PlannerSoundness {
  import opened PyText
  import opened PyList
  import opened ObjectHeap
  import opened PathText
  import opened RunContexts
  import opened ConstantStore
  import opened ConstantPlanner
  import opened CommandListings
  import opened TargetWrites

  /** What becomes of a command: the value that it has for its constant, if any, and whether it raises,
      which an HTTP command may do after writing. The objects are taken to be in the heap from the start. */
  datatype Effect = Effect(given: Option<Val>, raised: bool)

  type Effects = (string, seq<Val>) -> Effect

  /** The effect as far as the executor of the command lets it happen. */
  function Given(cmd: Command, e: Effect): (r: Effect)
    ensures r.raised == e.raised
    ensures r.given.None? && !r.raised ==> MayNotWrite(cmd)
  {
    if NeverWrites(cmd) then e.(given := None)
    else if e.given.None? && !e.raised && !MayNotWrite(cmd) then e.(given := Some(Null))
    else e
  }

  datatype Entry = Entry(commandId: string, inputs: seq<Val>)

  /** `TargetFailed`: a target could not be written for the shape of what is there. `Broken`: a constant was
      missing, or a path or scope was refused. */
  datatype Status = Finished | CommandFailed(id: string) | TargetFailed(id: string) | Broken(id: string)

  // ---- the run over the context -----------------------------------------------------------------

  /** `resolve_definition_input_data` takes a value that equals its own path text for unresolved. */
  function Seen(slot: Slot, v: Val): Val {
    if v == Str(ConstantPath(slot.scope, slot.name)) then Null else v
  }

  function ReadDefinition(c: Context, table: Table, id: string): Option<Val> {
    if id !in table.rows then None
    else match ReadPath(c, ConstantPath(table.rows[id].scope, table.rows[id].name))
      case Found(v) => Some(Seen(table.rows[id], v))
      case _ => None
  }

  function ReadAll(c: Context, table: Table, refs: seq<string>): Option<seq<Val>> {
    if refs == [] then Some([])
    else match (ReadDefinition(c, table, refs[0]), ReadAll(c, table, refs[1..]))
      case (Some(v), Some(rest)) => Some([v] + rest)
      case _ => None
  }

  datatype Ran = Ran(c: Context, trace: seq<Entry>, status: Status)

  function EndOf(cmd: Command, e: Effect): Status { if e.raised then CommandFailed(cmd.id) else Finished }

  /** Stores what a command has for its constant at the constant's path. */
  function Store(c: Context, cmd: Command, inputs: seq<Val>, slot: Slot, e: Effect): Ran
    requires ScopesAreDicts(c)
  {
    match e.given
    case None => Ran(c, [Entry(cmd.id, inputs)], EndOf(cmd, e))
    case Some(v) =>
      var (c', outcome) := WritePath(c, ConstantPath(slot.scope, slot.name), v);
      Ran(c', [Entry(cmd.id, inputs)], if outcome == Done then EndOf(cmd, e) else Broken(cmd.id))
  }

  /** Writes what a command has read at the command's target. */
  function WriteTarget(c: Context, cmd: Command, inputs: seq<Val>, target: Option<string>, e: Effect): Ran
    requires ScopesAreDicts(c)
  {
    if target.None? || e.given.None? then Ran(c, [Entry(cmd.id, inputs)], EndOf(cmd, e))
    else
      var (c', outcome) := WritePath(c, target.value, e.given.value);
      Ran(c', [Entry(cmd.id, inputs)],
          if outcome == Done then EndOf(cmd, e) else if IsShapeError(outcome) then TargetFailed(cmd.id) else Broken(cmd.id))
  }

  function RunCommand(c: Context, table: Table, effects: Effects, cmd: Command): Ran
    requires ScopesAreDicts(c)
  {
    match cmd.cfg
    case SetVariable(_, name, scope, _) => Store(c, cmd, [], Slot(scope, name), Given(cmd, effects(cmd.id, [])))
    case DeleteVariable(target) =>
      if target !in table.rows then Ran(c, [], Broken(cmd.id))
      else
        var (c', outcome) := RemovePath(c, ConstantPath(table.rows[target].scope, table.rows[target].name));
        Ran(c', [Entry(cmd.id, [])], if outcome == Done then Finished else Broken(cmd.id))
    case Action(_, refs, _, result, target) =>
      match ReadAll(c, table, refs)
      case None => Ran(c, [], Broken(cmd.id))
      case Some(inputs) =>
        if NeverWrites(cmd) then WriteTarget(c, cmd, inputs, target, effects(cmd.id, inputs))
        else match result
        case None =>
          Ran(c, [Entry(cmd.id, inputs)], EndOf(cmd, effects(cmd.id, inputs)))
        case Some(constant) =>
          var e := Given(cmd, effects(cmd.id, inputs));
          if e.given.None? then Ran(c, [Entry(cmd.id, inputs)], EndOf(cmd, e))
          else if constant.definitionId !in table.rows then Ran(c, [], Broken(cmd.id))
          else Store(c, cmd, inputs, table.rows[constant.definitionId], e)
  }

  function RunCommands(c: Context, table: Table, effects: Effects, cmds: seq<Command>): Ran
    requires ScopesAreDicts(c)
    decreases |cmds|
  {
    if cmds == [] then Ran(c, [], Finished)
    else
      var first := RunCommand(c, table, effects, cmds[0]);
      if first.status != Finished || !ScopesAreDicts(first.c) then first
      else
        var rest := RunCommands(first.c, table, effects, cmds[1..]);
        Ran(rest.c, first.trace + rest.trace, rest.status)
  }

  /** The command loop over the run context object. */
  method ExecuteCommands(ctx: RunContext, table: Table, effects: Effects, cmds: seq<Command>)
    returns (trace: seq<Entry>, status: Status)
    requires ScopesAreDicts(ctx.State())
    modifies ctx`heap
    ensures Ran(ctx.State(), trace, status) == RunCommands(old(ctx.State()), table, effects, cmds)
  {
    hide RunCommand;
    ghost var c0 := ctx.State();
    trace, status := [], Finished;
    var i := 0;
    while i < |cmds|
      invariant 0 <= i <= |cmds| && ScopesAreDicts(ctx.State()) && status == Finished
      invariant var rest := RunCommands(ctx.State(), table, effects, cmds[i..]);
                RunCommands(c0, table, effects, cmds) == Ran(rest.c, trace + rest.trace, rest.status)
    {
      assert cmds[i..][0] == cmds[i] && cmds[i..][1..] == cmds[i + 1..];
      label Before:
      ghost var rest := RunCommands(ctx.State(), table, effects, cmds[i..]);
      var t, s := ExecuteCommand(ctx, table, effects, cmds[i]);
      if s != Finished || !ScopesAreDicts(ctx.State()) {
        trace, status := trace + t, s;
        return;
      }
      ghost var rest' := RunCommands(ctx.State(), table, effects, cmds[i + 1..]);
      assert rest == Ran(rest'.c, t + rest'.trace, rest'.status);
      assert trace + (t + rest'.trace) == (trace + t) + rest'.trace;
      trace, status, i := trace + t, s, i + 1;
    }
    assert cmds[i..] == [];
  }

  method ExecuteCommand(ctx: RunContext, table: Table, effects: Effects, cmd: Command)
    returns (trace: seq<Entry>, status: Status)
    requires ScopesAreDicts(ctx.State())
    modifies ctx`heap
    ensures Ran(ctx.State(), trace, status) == RunCommand(old(ctx.State()), table, effects, cmd)
  {
    hide WritePath, RemovePath, ReadPath, ConstantPath;
    match cmd.cfg
    case SetVariable(_, name, scope, _) =>
      trace, status := StoreResult(ctx, cmd, [], Slot(scope, name), Given(cmd, effects(cmd.id, [])));
    case DeleteVariable(target) =>
      if target !in table.rows {
        return [], Broken(cmd.id);
      }
      var outcome := ctx.RemoveContextPath(ConstantPath(table.rows[target].scope, table.rows[target].name));
      trace, status := [Entry(cmd.id, [])], if outcome == Done then Finished else Broken(cmd.id);
    case Action(_, refs, _, result, target) =>
      var inputs := ReadAll(ctx.State(), table, refs);
      if inputs == None {
        return [], Broken(cmd.id);
      }
      if NeverWrites(cmd) {
        trace, status := WriteToTarget(ctx, cmd, inputs.value, target, effects(cmd.id, inputs.value));
        return;
      }
      if result == None {
        return [Entry(cmd.id, inputs.value)], EndOf(cmd, effects(cmd.id, inputs.value));
      }
      var e := Given(cmd, effects(cmd.id, inputs.value));
      if e.given == None {
        return [Entry(cmd.id, inputs.value)], EndOf(cmd, e);
      }
      if result.value.definitionId !in table.rows {
        return [], Broken(cmd.id);
      }
      trace, status := StoreResult(ctx, cmd, inputs.value, table.rows[result.value.definitionId], e);
  }

  method StoreResult(ctx: RunContext, cmd: Command, inputs: seq<Val>, slot: Slot, e: Effect)
    returns (trace: seq<Entry>, status: Status)
    requires ScopesAreDicts(ctx.State())
    modifies ctx`heap
    ensures Ran(ctx.State(), trace, status) == Store(old(ctx.State()), cmd, inputs, slot, e)
  {
    hide WritePath, ConstantPath;
    trace := [Entry(cmd.id, inputs)];
    if e.given == None {
      return trace, EndOf(cmd, e);
    }
    var outcome := ctx.WriteContextPath(ConstantPath(slot.scope, slot.name), e.given.value);
    status := if outcome == Done then EndOf(cmd, e) else Broken(cmd.id);
  }

  method WriteToTarget(ctx: RunContext, cmd: Command, inputs: seq<Val>, target: Option<string>, e: Effect)
    returns (trace: seq<Entry>, status: Status)
    requires ScopesAreDicts(ctx.State())
    modifies ctx`heap
    ensures Ran(ctx.State(), trace, status) == WriteTarget(old(ctx.State()), cmd, inputs, target, e)
  {
    hide WritePath;
    trace := [Entry(cmd.id, inputs)];
    if target == None || e.given == None {
      return trace, EndOf(cmd, e);
    }
    var outcome := ctx.WriteContextPath(target.value, e.given.value);
    status := if outcome == Done then EndOf(cmd, e) else if IsShapeError(outcome) then TargetFailed(cmd.id) else Broken(cmd.id);
  }

  // ---- the plain interpreter --------------------------------------------------------------------

  /** One variable per definition id. */
  type Env = map<string, Val>

  datatype Meant = Meant(env: Env, trace: seq<Entry>, status: Status)

  function Inputs(env: Env, table: Table, refs: seq<string>): Option<seq<Val>> {
    if refs == [] then Some([])
    else if refs[0] !in env || refs[0] !in table.rows then None
    else match Inputs(env, table, refs[1..])
      case None => None
      case Some(rest) => Some([Seen(table.rows[refs[0]], env[refs[0]])] + rest)
  }

  /** A definition that its command does not write has no variable. */
  function Define(env: Env, cmd: Command, inputs: seq<Val>, id: string, e: Effect): Meant {
    var env' := match e.given case None => env - {id} case Some(v) => env[id := v];
    Meant(env', [Entry(cmd.id, inputs)], EndOf(cmd, e))
  }

  function InterpretCommand(env: Env, table: Table, effects: Effects, cmd: Command): Meant {
    match cmd.cfg
    case SetVariable(id, _, _, _) => Define(env, cmd, [], id, Given(cmd, effects(cmd.id, [])))
    case DeleteVariable(target) =>
      if target !in env then Meant(env, [], Broken(cmd.id)) else Meant(env - {target}, [Entry(cmd.id, [])], Finished)
    case Action(_, refs, _, result, _) =>
      match Inputs(env, table, refs)
      case None => Meant(env, [], Broken(cmd.id))
      case Some(inputs) =>
        match result
        case None =>
          Meant(env, [Entry(cmd.id, inputs)], EndOf(cmd, effects(cmd.id, inputs)))
        case Some(constant) => Define(env, cmd, inputs, constant.definitionId, Given(cmd, effects(cmd.id, inputs)))
  }

  function Interpret(env: Env, table: Table, effects: Effects, cmds: seq<Command>): Meant
    decreases |cmds|
  {
    if cmds == [] then Meant(env, [], Finished)
    else
      var first := InterpretCommand(env, table, effects, cmds[0]);
      if first.status != Finished then first
      else
        var rest := Interpret(first.env, table, effects, cmds[1..]);
        Meant(rest.env, first.trace + rest.trace, rest.status)
  }

  // ---- the simulation ---------------------------------------------------------------------------

  ghost predicate SimpleTable(table: Table) { forall id | id in table.rows :: SimpleName(table.rows[id].name) }

  /** The constant of every live definition, except the loose ones, holds the value that its declaring
      command last wrote. */
  ghost predicate Agrees(c: Context, env: Env, defs: Definitions, table: Table) {
    forall id | Live(defs, id) && id !in table.loose ::
      var d := defs[id];
      id in env && d.name in Bindings(c, d.scope) && Bindings(c, d.scope)[d.name] == env[id]
  }

  ghost predicate Simulates(c: Context, env: Env, defs: Definitions, table: Table, last: int) {
    Shaped(c) && Agrees(c, env, defs, table) && Planned(defs, table, last)
  }

  /** Only a test item runs with the immutable scopes. */
  predicate KindFits(kind: ItemKind, section: Section) { kind.TestItem? ==> section.TestSection? }

  /** Commands produce objects of the heap that are none of the context's own dictionaries. */
  ghost predicate EffectsFree(effects: Effects, size: nat, own: set<nat>) {
    forall id, inputs | effects(id, inputs).given.Some? && effects(id, inputs).given.value.Ref? ::
      effects(id, inputs).given.value.addr < size && effects(id, inputs).given.value.addr !in own
  }

  /** What the run-time setting must be: simple names in the table, and a context whose own dictionaries
      nothing else holds or produces. */
  ghost predicate Setting(table: Table, effects: Effects, section: Section, c: Context, own: set<nat>) {
    SimpleTable(table) && EffectsFree(effects, |c.heap|, own) && KeptApart(c, own) && KindFits(c.kind, section)
  }

  /** A definition that its command may finish without writing is a loose one. */
  ghost predicate SkipsAreLoose(table: Table, section: Section, effects: Effects, cmds: seq<Command>) {
    forall cmd, inputs | cmd in cmds && Declared(section, cmd).Some? ::
      var e := Given(cmd, effects(cmd.id, inputs));
      e.given.None? && !e.raised ==> Declared(section, cmd).value.id in table.loose
  }

  /** What commands must be beyond being accepted: a row for each definition, no reference to a definition
      that may not have been written, and targets that are harmless. */
  ghost predicate Dependable(table: Table, section: Section, effects: Effects, cmds: seq<Command>) {
    && TableDeclares(table, section, cmds) && RefsAreSolid(table, cmds)
    && TargetsAreHarmless(table, section, cmds) && SkipsAreLoose(table, section, effects, cmds)
  }

  /** Whatever the effects are, it is enough that the definitions of the four executors are loose. */
  lemma SkippersAreLoose(table: Table, section: Section, effects: Effects, cmds: seq<Command>)
    requires forall cmd | cmd in cmds && Declared(section, cmd).Some? && MayNotWrite(cmd) :: Declared(section, cmd).value.id in table.loose
    ensures SkipsAreLoose(table, section, effects, cmds)
  {
    hide MayNotWrite, Declared;
  }

  lemma {:induction false} ReadsAgree(c: Context, env: Env, defs: Definitions, table: Table, refs: seq<string>)
    requires Shaped(c) && Agrees(c, env, defs, table) && TableHolds(table, defs) && SimpleTable(table)
    requires forall id | id in refs :: Live(defs, id) && id !in table.loose
    ensures ReadAll(c, table, refs).Some? && ReadAll(c, table, refs) == Inputs(env, table, refs)
    decreases |refs|
  {
    hide ReadPath, ConstantPath, Shaped;
    if refs == [] {
    } else {
      var id := refs[0];
      assert id in refs;
      ReadConstant(c, table.rows[id].scope, table.rows[id].name);
      ReadsAgree(c, env, defs, table, refs[1..]);
    }
  }

  /** The run and the interpreter did the same, up to a target that could not be written, and can go on
      from there. */
  ghost predicate InStep(c: Context, r: Ran, m: Meant, defs: Definitions, table: Table, last: int, own: set<nat>) {
    && !r.status.Broken?
    && (if r.status.TargetFailed? then r.trace <= m.trace && !m.status.Broken? else r.status == m.status && r.trace == m.trace)
    && (r.status == Finished ==>
          Simulates(r.c, m.env, defs, table, last) && SameShape(c, r.c) && KeptApart(r.c, own))
  }

  lemma StoreAgrees(c: Context, env: Env, defs: Definitions, defs': Definitions, table: Table, last: int, cmd: Command,
                    d: Definition, inputs: seq<Val>, e: Effect, own: set<nat>)
    requires Simulates(c, env, defs, table, last) && SimpleTable(table) && KeptApart(c, own)
    requires defs' == defs[d.id := d] && Planned(defs', table, cmd.order)
    requires d.deletedAt.None? && MayWrite(c.kind, d.scope)
    requires forall x | Live(defs, x) :: SlotOf(defs[x]) != SlotOf(d)
    requires e.given.Some? ==> IsFree(c.heap, own, e.given.value)
    requires e.given.None? && !e.raised ==> d.id in table.loose
    ensures InStep(c, Store(c, cmd, inputs, SlotOf(d), e), Define(env, cmd, inputs, d.id, e), defs', table, cmd.order, own)
  {
    hide WritePath, ConstantPath, Shaped, Simulates, Planned, KeptApart, Rebound, Bindings;
    SimulatesParts(c, env, defs, table, last);
    if e.given.Some? {
      var v := e.given.value;
      RowIsSimple(table, defs', cmd.order, d.id);
      WriteConstant(c, d.scope, d.name, v);
      BindAgrees(c, env, defs, table, d, v);
      BindSpares(c, own, d.scope, d.name, v);
      var c' := Rebound(c, d.scope, Bindings(c, d.scope)[d.name := v]);
      SparedParts(c, c', own, OfConstant(SlotOf(d)));
      BoundSimulates(c', env[d.id := v], defs', table, cmd.order);
    } else if !e.raised {
      SkipAgrees(c, env, defs, table, d);
      BoundSimulates(c, env - {d.id}, defs', table, cmd.order);
      SameShapeReflexive(c);
    }
  }

  /** A loose definition that is not written. */
  lemma SkipAgrees(c: Context, env: Env, defs: Definitions, table: Table, d: Definition)
    requires Agrees(c, env, defs, table) && d.id in table.loose
    ensures Agrees(c, env - {d.id}, defs[d.id := d], table)
  {
    hide Bindings;
  }

  lemma RowIsSimple(table: Table, defs: Definitions, last: int, id: string)
    requires Planned(defs, table, last) && SimpleTable(table) && id in defs
    ensures SimpleName(defs[id].name)
  {
    assert SimpleName(table.rows[id].name);
  }

  lemma BoundSimulates(c: Context, env: Env, defs: Definitions, table: Table, last: int)
    requires Shaped(c) && Agrees(c, env, defs, table) && Planned(defs, table, last)
    ensures Simulates(c, env, defs, table, last)
  {
  }

  lemma BindAgrees(c: Context, env: Env, defs: Definitions, table: Table, d: Definition, v: Val)
    requires Shaped(c) && Agrees(c, env, defs, table) && d.deletedAt.None?
    requires forall x | Live(defs, x) :: SlotOf(defs[x]) != SlotOf(d)
    requires v.Ref? ==> v.addr < |c.heap|
    ensures ConstantsOf(c, d.scope).Some?
    ensures var c' := Rebound(c, d.scope, Bindings(c, d.scope)[d.name := v]);
            Shaped(c') && Agrees(c', env[d.id := v], defs[d.id := d], table) && SameShape(c, c')
  {
    hide Shaped, Rebound, Bindings;
    BindingsInHeap(c, d.scope);
    ReboundShape(c, d.scope, Bindings(c, d.scope)[d.name := v]);
  }

  lemma DeleteAgrees(c: Context, env: Env, defs: Definitions, defs': Definitions, table: Table, last: int, cmd: Command,
                     target: string, own: set<nat>)
    requires Simulates(c, env, defs, table, last) && SimpleTable(table) && KeptApart(c, own)
    requires Live(defs, target) && MayWrite(c.kind, defs[target].scope)
    requires defs' == defs[target := defs[target].(deletedAt := Some(cmd.order))] && Planned(defs', table, cmd.order)
    ensures target in table.rows
    ensures var (c', outcome) := RemovePath(c, ConstantPath(table.rows[target].scope, table.rows[target].name));
            && outcome == Done && SameShape(c, c') && KeptApart(c', own)
            && Simulates(c', env - {target}, defs', table, cmd.order)
  {
    hide RemovePath, ConstantPath, Shaped, Bindings, KeptApart, Rebound;
    var d := defs[target];
    RemoveConstant(c, d.scope, d.name);
    BindingsInHeap(c, d.scope);
    BindingsAreFree(c, own, d.scope);
    ReboundShape(c, d.scope, Bindings(c, d.scope) - {d.name});
    ReboundIsApart(c, own, d.scope, Bindings(c, d.scope) - {d.name});
    forall x | Live(defs', x)
      ensures Live(defs, x) && defs'[x] == defs[x] && SlotOf(defs[x]) != SlotOf(d)
    {
    }
  }

  lemma WritableScope(kind: ItemKind, section: Section, s: Scope)
    requires KindFits(kind, section) && s in Writable(section)
    ensures MayWrite(kind, s)
  {
  }

  /** One accepted command, in whatever listing it comes. */
  lemma StepAgrees(c: Context, env: Env, defs: Definitions, table: Table, last: int, effects: Effects,
                   section: Section, cmd: Command, own: set<nat>)
    requires Simulates(c, env, defs, table, last) && Setting(table, effects, section, c, own)
    requires last <= cmd.order && Lawful(section, defs, cmd) && Dependable(table, section, effects, [cmd])
    ensures InStep(c, RunCommand(c, table, effects, cmd), InterpretCommand(env, table, effects, cmd),
                   After(section, defs, cmd), table, cmd.order, own)
  {
    hide RunCommand, InterpretCommand, Lawful, After, Simulates, Planned, TableDeclares, RefsAreSolid, TargetsAreHarmless,
         SkipsAreLoose, KeptApart;
    SimulatesParts(c, env, defs, table, last);
    AfterIsPlanned(section, defs, table, last, cmd);
    match cmd.cfg
    case SetVariable(_, _, _, _) => SetVariableAgrees(c, env, defs, table, last, effects, section, cmd, own);
    case DeleteVariable(_) => DeleteVariableAgrees(c, env, defs, table, last, effects, section, cmd, own);
    case Action(_, _, _, _, _) => ActionAgrees(c, env, defs, table, last, effects, section, cmd, own);
  }

  /** The declaration of a lawful command is new and writable. */
  lemma DeclaredIsNew(c: Context, env: Env, defs: Definitions, table: Table, last: int, section: Section, cmd: Command)
    requires Simulates(c, env, defs, table, last) && KindFits(c.kind, section)
    requires last <= cmd.order && Lawful(section, defs, cmd) && TableDeclares(table, section, [cmd])
    requires Declared(section, cmd).Some?
    ensures var d := Declared(section, cmd).value;
            && After(section, defs, cmd) == defs[d.id := d]
            && MayWrite(c.kind, d.scope) && d.id in table.rows && table.rows[d.id] == SlotOf(d)
            && forall x | Live(defs, x) :: SlotOf(defs[x]) != SlotOf(d)
  {
    hide Simulates, Active, CheckDeclaration;
    SimulatesParts(c, env, defs, table, last);
    var d := Declared(section, cmd).value;
    assert cmd in [cmd];
    DeclarationIsNew(section, defs, last, cmd.order, d);
    WritableScope(c.kind, section, d.scope);
  }

  lemma SetVariableAgrees(c: Context, env: Env, defs: Definitions, table: Table, last: int, effects: Effects,
                          section: Section, cmd: Command, own: set<nat>)
    requires Simulates(c, env, defs, table, last) && Setting(table, effects, section, c, own)
    requires last <= cmd.order && Lawful(section, defs, cmd) && Dependable(table, section, effects, [cmd])
    requires Planned(After(section, defs, cmd), table, cmd.order) && cmd.cfg.SetVariable?
    ensures InStep(c, RunCommand(c, table, effects, cmd), InterpretCommand(env, table, effects, cmd),
                   After(section, defs, cmd), table, cmd.order, own)
  {
    hide Simulates, Lawful, After, Store, Define, TableDeclares, Planned, RefsAreSolid, TargetsAreHarmless, KeptApart;
    assert cmd in [cmd];
    SimulatesParts(c, env, defs, table, last);
    DeclaredIsNew(c, env, defs, table, last, section, cmd);
    StoreAgrees(c, env, defs, After(section, defs, cmd), table, last, cmd, Declared(section, cmd).value, [],
                Given(cmd, effects(cmd.id, [])), own);
  }

  lemma DeleteVariableAgrees(c: Context, env: Env, defs: Definitions, table: Table, last: int, effects: Effects,
                             section: Section, cmd: Command, own: set<nat>)
    requires Simulates(c, env, defs, table, last) && Setting(table, effects, section, c, own)
    requires last <= cmd.order && Lawful(section, defs, cmd) && RefsAreSolid(table, [cmd])
    requires Planned(After(section, defs, cmd), table, cmd.order) && cmd.cfg.DeleteVariable?
    ensures InStep(c, RunCommand(c, table, effects, cmd), InterpretCommand(env, table, effects, cmd),
                   After(section, defs, cmd), table, cmd.order, own)
  {
    hide Simulates, RemovePath, ConstantPath, Planned, Active, CheckDeclaration, KeptApart;
    var target := cmd.cfg.target;
    SimulatesParts(c, env, defs, table, last);
    assert cmd in [cmd] && target in Refs(cmd);
    VisibleIsLive(defs, last, section, cmd.order, target);
    LiveIsDefined(c, env, defs, table, last, target);
    WritableScope(c.kind, section, defs[target].scope);
    DeleteAgrees(c, env, defs, After(section, defs, cmd), table, last, cmd, target, own);
  }

  lemma ActionAgrees(c: Context, env: Env, defs: Definitions, table: Table, last: int, effects: Effects,
                     section: Section, cmd: Command, own: set<nat>)
    requires Simulates(c, env, defs, table, last) && Setting(table, effects, section, c, own)
    requires last <= cmd.order && Lawful(section, defs, cmd) && Dependable(table, section, effects, [cmd])
    requires Planned(After(section, defs, cmd), table, cmd.order) && cmd.cfg.Action?
    ensures InStep(c, RunCommand(c, table, effects, cmd), InterpretCommand(env, table, effects, cmd),
                   After(section, defs, cmd), table, cmd.order, own)
  {
    hide Simulates, ReadAll, Inputs, Store, Define, TableDeclares, Lawful, Planned, TargetsAreHarmless, KeptApart, WriteTarget;
    SimulatesParts(c, env, defs, table, last);
    RefsAreLive(section, defs, last, cmd);
    assert cmd in [cmd];
    ReadsAgree(c, env, defs, table, cmd.cfg.refs);
    var inputs := ReadAll(c, table, cmd.cfg.refs).value;
    var e := Given(cmd, effects(cmd.id, inputs));
    if NeverWrites(cmd) {
      TargetIsMeant(env, cmd, inputs, effects(cmd.id, inputs));
      TargetAgrees(c, env, defs, table, last, effects, section, cmd, inputs, own);
    } else if cmd.cfg.result.Some? {
      DeclaredIsNew(c, env, defs, table, last, section, cmd);
      StoreNothing(c, cmd, inputs, SlotOf(Declared(section, cmd).value), e);
      StoreAgrees(c, env, defs, After(section, defs, cmd), table, last, cmd, Declared(section, cmd).value, inputs, e, own);
    } else {
      SimulatesLater(c, env, defs, table, last, cmd.order);
      SameShapeReflexive(c);
    }
  }

  /** What the interpreter does for a command that writes a target. */
  function TargetMeant(env: Env, cmd: Command, inputs: seq<Val>, e: Effect): Meant
    requires cmd.cfg.Action?
  {
    Meant(match cmd.cfg.result case None => env case Some(constant) => env - {constant.definitionId},
          [Entry(cmd.id, inputs)], EndOf(cmd, e))
  }

  lemma TargetIsMeant(env: Env, cmd: Command, inputs: seq<Val>, e: Effect)
    requires NeverWrites(cmd)
    ensures TargetMeant(env, cmd, inputs, e) ==
            match cmd.cfg.result
            case None => Meant(env, [Entry(cmd.id, inputs)], EndOf(cmd, e))
            case Some(constant) => Define(env, cmd, inputs, constant.definitionId, Given(cmd, e))
  {
  }

  /** A write to a harmless target. */
  lemma HarmlessWrite(c: Context, env: Env, defs: Definitions, table: Table, last: int, inTest: bool, path: string, value: Val,
                      own: set<nat>)
    requires Shaped(c) && KeptApart(c, own) && IsFree(c.heap, own, value) && Planned(defs, table, last)
    requires (c.kind.TestItem? ==> inTest) && Harmless(inTest, table, path)
    ensures ScopesAreDicts(c)
    ensures var (c', o) := WritePath(c, path, value);
            && (o == Done || IsShapeError(o)) && SameShape(c, c') && KeptApart(c', own)
            && (Agrees(c, env, defs, table) ==> Simulates(c', env, defs, table, last))
  {
    hide Simulates, Planned, KeptApart, WritePath, Harmless, AimOf, Shaped, Spared, Agrees;
    HarmlessAim(inTest, table, path);
    TargetWriteSpares(c, own, inTest, path, value);
    var c' := WritePath(c, path, value).0;
    PlannedParts(defs, table, last);
    SparedAgrees(c, c', env, defs, table, own, AimOf(inTest, path).value);
    SparedParts(c, c', own, AimOf(inTest, path).value);
    if Agrees(c, env, defs, table) {
      BoundSimulates(c', env, defs, table, last);
    }
  }

  /** A harmless target leaves the constants of the live definitions alone. */
  lemma TargetAgrees(c: Context, env: Env, defs: Definitions, table: Table, last: int, effects: Effects,
                     section: Section, cmd: Command, inputs: seq<Val>, own: set<nat>)
    requires Simulates(c, env, defs, table, last) && Setting(table, effects, section, c, own)
    requires last <= cmd.order && Lawful(section, defs, cmd) && Dependable(table, section, effects, [cmd])
    requires Planned(After(section, defs, cmd), table, cmd.order) && NeverWrites(cmd)
    ensures InStep(c, WriteTarget(c, cmd, inputs, cmd.cfg.targetPath, effects(cmd.id, inputs)),
                   TargetMeant(env, cmd, inputs, effects(cmd.id, inputs)), After(section, defs, cmd), table, cmd.order, own)
  {
    hide Simulates, TableDeclares, Lawful, Planned, RefsAreSolid, KeptApart, WritePath, Harmless, AimOf, Shaped, After,
         SkipsAreLoose;
    SimulatesParts(c, env, defs, table, last);
    assert cmd in [cmd];
    var e, env', defs' := effects(cmd.id, inputs), TargetMeant(env, cmd, inputs, effects(cmd.id, inputs)).env, After(section, defs, cmd);
    SkippedTarget(c, env, defs, table, last, effects, section, cmd, inputs);
    if cmd.cfg.targetPath.Some? && e.given.Some? {
      HarmlessWrite(c, env', defs', table, cmd.order, section.TestSection?, cmd.cfg.targetPath.value, e.given.value, own);
    } else if !e.raised {
      BoundSimulates(c, env', defs', table, cmd.order);
      SameShapeReflexive(c);
    }
  }

  lemma HarmlessAim(inTest: bool, table: Table, path: string)
    requires Harmless(inTest, table, path)
    ensures AimOf(inTest, path).Some? && !AimOf(inTest, path).value.Unsafe?
    ensures AimOf(inTest, path).value.OfConstant? ==> IsUnplanned(table, AimOf(inTest, path).value.slot)
  {
  }

  /** The definition that such a command declares is loose. */
  lemma SkippedTarget(c: Context, env: Env, defs: Definitions, table: Table, last: int, effects: Effects,
                      section: Section, cmd: Command, inputs: seq<Val>)
    requires Simulates(c, env, defs, table, last) && Dependable(table, section, effects, [cmd])
    requires NeverWrites(cmd)
    ensures var env' := TargetMeant(env, cmd, inputs, effects(cmd.id, inputs)).env;
            !effects(cmd.id, inputs).raised ==> Agrees(c, env', After(section, defs, cmd), table)
  {
    hide Bindings, Shaped, Planned;
    assert cmd in [cmd];
    if Declared(section, cmd).Some? && !effects(cmd.id, inputs).raised {
      assert Given(cmd, effects(cmd.id, inputs)).given.None?;
      SkipAgrees(c, env, defs, table, Declared(section, cmd).value);
    }
  }

  /** Where only an unplanned constant has changed, the definitions still agree. */
  lemma SparedAgrees(c: Context, c': Context, env: Env, defs: Definitions, table: Table, own: set<nat>, reach: Reach)
    requires Spared(c, c', own, reach) && TableHolds(table, defs)
    requires reach.Clear? || (reach.OfConstant? && IsUnplanned(table, reach.slot))
    ensures Agrees(c, env, defs, table) ==> Agrees(c', env, defs, table)
  {
    hide Bindings, Shaped, KeptApart, SameShape;
  }

  lemma StoreNothing(c: Context, cmd: Command, inputs: seq<Val>, slot: Slot, e: Effect)
    requires ScopesAreDicts(c)
    ensures e.given.None? ==> Store(c, cmd, inputs, slot, e) == Ran(c, [Entry(cmd.id, inputs)], EndOf(cmd, e))
  {
  }

  lemma RefsAreLive(section: Section, defs: Definitions, last: int, cmd: Command)
    requires Lawful(section, defs, cmd) && UpTo(defs, last) && last <= cmd.order
    ensures forall id | id in Refs(cmd) :: Live(defs, id)
  {
    hide Active, UpTo;
    forall id | id in Refs(cmd)
      ensures Live(defs, id)
    {
      VisibleIsLive(defs, last, section, cmd.order, id);
    }
  }

  lemma SimulatesParts(c: Context, env: Env, defs: Definitions, table: Table, last: int)
    requires Simulates(c, env, defs, table, last)
    ensures Shaped(c) && Agrees(c, env, defs, table) && Planned(defs, table, last)
    ensures NoClash(defs) && UpTo(defs, last) && TableHolds(table, defs)
  {
  }

  lemma LiveIsDefined(c: Context, env: Env, defs: Definitions, table: Table, last: int, id: string)
    requires Simulates(c, env, defs, table, last) && Live(defs, id) && id !in table.loose
    ensures id in env && id in table.rows
  {
  }

  lemma SimulatesLater(c: Context, env: Env, defs: Definitions, table: Table, last: int, later: int)
    requires Simulates(c, env, defs, table, last) && last <= later
    ensures Simulates(c, env, defs, table, later)
  {
  }

  // ---- the interpreter alone --------------------------------------------------------------------

  /** Every definition that commands may refer to has a variable. */
  ghost predicate IsDefined(env: Env, defs: Definitions, table: Table) {
    forall id | Live(defs, id) && id !in table.loose :: id in env
  }

  lemma {:induction false} InputsDefined(env: Env, table: Table, refs: seq<string>)
    requires forall id | id in refs :: id in env && id in table.rows
    ensures Inputs(env, table, refs).Some?
    decreases |refs|
  {
    if refs == [] {
    } else {
      assert refs[0] in refs && forall id | id in refs[1..] :: id in refs;
      InputsDefined(env, table, refs[1..]);
    }
  }

  lemma InterpretStep(env: Env, defs: Definitions, table: Table, last: int, effects: Effects, section: Section, cmd: Command)
    requires IsDefined(env, defs, table) && Planned(defs, table, last) && last <= cmd.order && Lawful(section, defs, cmd)
    requires Dependable(table, section, effects, [cmd])
    ensures var m := InterpretCommand(env, table, effects, cmd);
            && !m.status.Broken? && !m.status.TargetFailed?
            && (m.status == Finished ==> IsDefined(m.env, After(section, defs, cmd), table))
  {
    hide Active, CheckDeclaration, Inputs, TargetsAreHarmless, NoClash;
    assert cmd in [cmd];
    RefsAreLive(section, defs, last, cmd);
    PlannedParts(defs, table, last);
    forall id | id in Refs(cmd)
      ensures id in env && id in table.rows
    {
      assert Live(defs, id) && id !in table.loose;
    }
    if cmd.cfg.Action? {
      InputsDefined(env, table, cmd.cfg.refs);
    }
    if cmd.cfg.DeleteVariable? {
      assert cmd.cfg.target in Refs(cmd);
    }
  }

  lemma {:induction false} InterpretNeverBreaks(env: Env, defs: Definitions, table: Table, last: int, effects: Effects,
                                                section: Section, cmds: seq<Command>)
    requires IsDefined(env, defs, table) && Planned(defs, table, last) && InOrder(cmds, last)
    requires LawfulRun(section, defs, cmds) && Dependable(table, section, effects, cmds)
    ensures !Interpret(env, table, effects, cmds).status.Broken? && !Interpret(env, table, effects, cmds).status.TargetFailed?
    decreases |cmds|
  {
    hide InterpretCommand, Lawful, After, Planned, InOrder, IsDefined, Dependable;
    if cmds == [] {
    } else {
      var cmd := cmds[0];
      HeadAndTail(table, section, effects, cmds, last);
      InterpretStep(env, defs, table, last, effects, section, cmd);
      AfterIsPlanned(section, defs, table, last, cmd);
      var m := InterpretCommand(env, table, effects, cmd);
      if m.status == Finished {
        InterpretNeverBreaks(m.env, After(section, defs, cmd), table, cmd.order, effects, section, cmds[1..]);
      }
    }
  }

  lemma AgreesDefines(c: Context, env: Env, defs: Definitions, table: Table)
    requires Agrees(c, env, defs, table)
    ensures IsDefined(env, defs, table)
  {
    hide Bindings;
  }

  // ---- a section --------------------------------------------------------------------------------

  lemma EffectsGrow(effects: Effects, size: nat, size': nat, own: set<nat>)
    requires EffectsFree(effects, size, own) && size <= size'
    ensures EffectsFree(effects, size', own)
  {
  }

  lemma InStepStays(c: Context, r: Ran, m: Meant, defs: Definitions, table: Table, last: int, own: set<nat>)
    requires InStep(c, r, m, defs, table, last, own) && r.status == Finished
    ensures m.status == Finished && Simulates(r.c, m.env, defs, table, last) && KeptApart(r.c, own) && SameShape(c, r.c)
  {
  }

  /** One run in step after another. */
  lemma InStepThen(c: Context, r: Ran, m: Meant, defs: Definitions, table: Table, last: int, own: set<nat>,
                   rest: Ran, rest': Meant, defs': Definitions, last': int)
    requires InStep(c, r, m, defs, table, last, own) && r.status == Finished
    requires InStep(r.c, rest, rest', defs', table, last', own)
    ensures InStep(c, Ran(rest.c, r.trace + rest.trace, rest.status), Meant(rest'.env, m.trace + rest'.trace, rest'.status),
                   defs', table, last', own)
  {
    hide Simulates, SameShape, KeptApart;
    if rest.status == Finished {
      SameShapeTransitive(c, r.c, rest.c);
    }
  }

  /** A run that stops after one command. */
  lemma InStepAlone(c: Context, r: Ran, m: Meant, rest: Meant, defs: Definitions, defs': Definitions, table: Table,
                    last: int, last': int, own: set<nat>)
    requires InStep(c, r, m, defs, table, last, own) && r.status != Finished
    requires rest == m || (m.status == Finished && m.trace <= rest.trace && !rest.status.Broken?)
    ensures InStep(c, r, rest, defs', table, last', own)
  {
  }

  lemma {:induction false} RunAgrees(c: Context, env: Env, defs: Definitions, table: Table, last: int, effects: Effects,
                                     section: Section, cmds: seq<Command>, own: set<nat>) returns (end: int)
    requires Simulates(c, env, defs, table, last) && Setting(table, effects, section, c, own)
    requires LawfulRun(section, defs, cmds) && Dependable(table, section, effects, cmds) && InOrder(cmds, last)
    ensures InStep(c, RunCommands(c, table, effects, cmds), Interpret(env, table, effects, cmds),
                   AfterAllOf(section, defs, cmds), table, end, own)
    decreases |cmds|
  {
    hide RunCommand, InterpretCommand, Lawful, After, Simulates, EffectsFree, SimpleTable, SameShape, InOrder, Dependable,
         KeptApart, Agrees, Planned, IsDefined, Shaped;
    SimulatesParts(c, env, defs, table, last);
    ShapedScopes(c);
    SameShapeReflexive(c);
    end := last;
    if cmds == [] {
    } else {
      hide InStep;
      var cmd := cmds[0];
      HeadAndTail(table, section, effects, cmds, last);
      StepAgrees(c, env, defs, table, last, effects, section, cmd, own);
      AgreesDefines(c, env, defs, table);
      InterpretNeverBreaks(env, defs, table, last, effects, section, cmds);
      var r, m, defs' := RunCommand(c, table, effects, cmd), InterpretCommand(env, table, effects, cmd), After(section, defs, cmd);
      if r.status == Finished {
        InStepStays(c, r, m, defs', table, cmd.order, own);
        SimulatesParts(r.c, m.env, defs', table, cmd.order);
        ShapedScopes(r.c);
        SameShapeSize(c, r.c);
        EffectsGrow(effects, |c.heap|, |r.c.heap|, own);
        end := RunAgrees(r.c, m.env, defs', table, cmd.order, effects, section, cmds[1..], own);
        InStepThen(c, r, m, defs', table, cmd.order, own, RunCommands(r.c, table, effects, cmds[1..]),
                   Interpret(m.env, table, effects, cmds[1..]), AfterAllOf(section, defs, cmds), end);
      } else {
        InStepStops(c, r, m, defs', table, cmd.order, own);
        InStepAlone(c, r, m, Interpret(env, table, effects, cmds), defs', AfterAllOf(section, defs, cmds), table, cmd.order, end, own);
      }
    }
  }

  lemma InStepStops(c: Context, r: Ran, m: Meant, defs: Definitions, table: Table, last: int, own: set<nat>)
    requires InStep(c, r, m, defs, table, last, own) && r.status != Finished
    ensures m.status == Finished ==> r.status.TargetFailed?
  {
  }

  lemma HeadAndTail(table: Table, section: Section, effects: Effects, cmds: seq<Command>, last: int)
    requires cmds != [] && Dependable(table, section, effects, cmds) && InOrder(cmds, last)
    ensures Dependable(table, section, effects, [cmds[0]]) && Dependable(table, section, effects, cmds[1..])
    ensures TableDeclares(table, section, [cmds[0]]) && TableDeclares(table, section, cmds[1..])
    ensures last <= cmds[0].order && InOrder(cmds[1..], cmds[0].order)
  {
    hide Dependable;
    assert forall cmd | cmd in [cmds[0]] :: cmd in cmds;
    assert forall cmd | cmd in cmds[1..] :: cmd in cmds;
    FewerAreDependable(table, section, effects, cmds, [cmds[0]]);
    FewerAreDependable(table, section, effects, cmds, cmds[1..]);
    assert forall i | 0 <= i < |cmds[1..]| :: cmds[1..][i] == cmds[i + 1];
  }

  lemma FewerAreDependable(table: Table, section: Section, effects: Effects, cmds: seq<Command>, fewer: seq<Command>)
    requires Dependable(table, section, effects, cmds) && forall cmd | cmd in fewer :: cmd in cmds
    ensures Dependable(table, section, effects, fewer) && TableDeclares(table, section, fewer)
  {
    hide Declared, Refs, Given, Harmless, TargetOf;
  }

  /** The starting context holds every inherited definition that is still live. */
  ghost predicate Starts(c: Context, env: Env, initial: Definitions, table: Table) {
    Shaped(c) && NoClash(initial) && Agrees(c, env, initial, table) && TableHolds(table, initial)
  }

  lemma CarriedIsPlanned(initial: Definitions, table: Table)
    requires NoClash(initial) && TableHolds(table, initial)
    ensures Planned(Carried(initial), table, 0)
    ensures forall id :: Live(Carried(initial), id) <==> Live(initial, id)
    ensures forall id | Live(initial, id) :: SlotOf(Carried(initial)[id]) == SlotOf(initial[id])
  {
    var defs := Carried(initial);
    forall x | Live(defs, x)
      ensures Live(initial, x) && SlotOf(defs[x]) == SlotOf(initial[x])
    {
    }
  }

  lemma CarriedSimulates(c: Context, env: Env, initial: Definitions, table: Table)
    requires Starts(c, env, initial, table)
    ensures Simulates(c, env, Carried(initial), table, 0)
  {
    hide Shaped, Bindings, Carried, Planned;
    CarriedIsPlanned(initial, table);
  }

  /** The run did what the interpreter did, or stopped at a target that could not be written; it never
      read a missing constant and was never refused a path or a scope. */
  ghost predicate SameRun(r: Ran, m: Meant) {
    && !r.status.Broken?
    && if r.status.TargetFailed? then r.trace <= m.trace && !m.status.Broken? else r.status == m.status && r.trace == m.trace
  }

  /** Planner soundness: commands that the planner accepts, run in any order in which the engine may
      list them, from a context holding the inherited constants, never read a missing constant and
      never trip an immutability guard; every command reads the values last written by the declaring
      commands, so the run and the plain interpreter record the same trace; and the definitions the
      planner reports at the end are again held by the context. No deletion may tie with a command
      that reads the deleted definition or declares its slot, no command may refer to a definition
      whose command may finish without writing it, and no target may be a planned constant. */
  lemma PlannedCommandsRun(c: Context, env: Env, initial: Definitions, table: Table, effects: Effects,
                           section: Section, cmds: seq<Command>, listing: seq<Command>, own: set<nat>)
    requires Starts(c, env, initial, table) && Setting(table, effects, section, c, own)
    requires NonNegative(cmds) && Dependable(table, section, effects, cmds) && TieFree(section, table, cmds)
    requires PlanFrom(section, Carried(initial), SortedCommands(cmds)).Accepted?
    requires IsListing(cmds, listing)
    ensures var r, m := RunCommands(c, table, effects, listing), Interpret(env, table, effects, listing);
            && SameRun(r, m)
            && (r.status == Finished ==>
                  && Starts(r.c, m.env, PlanFrom(section, Carried(initial), SortedCommands(cmds)).value, table)
                  && SameShape(c, r.c) && KeptApart(r.c, own))
  {
    hide RunCommands, Interpret, PlanFrom, Simulates, SortedCommands, Carried, Starts, Planned, Dependable, TieFree, Setting;
    StartsParts(c, env, initial, table);
    CarriedSimulates(c, env, initial, table);
    CarriedIsPlanned(initial, table);
    MultisetMembers(listing, cmds);
    FewerAreDependable(table, section, effects, cmds, cmds);
    FewerAreDependable(table, section, effects, cmds, listing);
    AcceptedListing(section, Carried(initial), table, cmds, listing);
    var end := RunAgrees(c, env, Carried(initial), table, 0, effects, section, listing, own);
    var r, m := RunCommands(c, table, effects, listing), Interpret(env, table, effects, listing);
    if r.status == Finished {
      SimulatesStarts(r.c, m.env, AfterAllOf(section, Carried(initial), listing), table, end);
    }
  }

  lemma StartsParts(c: Context, env: Env, initial: Definitions, table: Table)
    requires Starts(c, env, initial, table)
    ensures Shaped(c) && NoClash(initial) && Agrees(c, env, initial, table) && TableHolds(table, initial)
  {
  }

  lemma SimulatesStarts(c: Context, env: Env, defs: Definitions, table: Table, last: int)
    requires Simulates(c, env, defs, table, last)
    ensures Starts(c, env, defs, table)
  {
  }
}
