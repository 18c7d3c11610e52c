/** The static checker of constant definitions (command_constant_definition_registry.py). */
module ConstantPlanner {
  import opened PyText
  import opened PyList
  import opened ConstantStore

  datatype Section =
    | TestSection | BeforeAll | BeforeEach | AfterEach | AfterAll | MockPreResponse | MockPostResponse | MockQueue

  datatype ValueType = PlainValue | JsonValue | JsonArrayValue | DatasetValue | FunctionValue | SqsQueueValue

  datatype CommandCode =
    | SendMessageQueue | SaveTable | ExportDataset
    | JsonEquals | JsonEmpty | JsonNotEmpty | JsonContains
    | JsonArrayEquals | JsonArrayEmpty | JsonArrayNotEmpty | JsonArrayContains
    | ReadApi | WriteApi | RunSuite | ReceiveQueue | QueryDatabase | Sleep | DropTable | CleanTable

  datatype ResultConstant = ResultConstant(definitionId: string, name: string, valueType: ValueType)

  /** A field of a form-encoded body. */
  datatype FormField = LiteralField | SourceField | RuntimeField(definitionId: string)

  /** A command as the checker sees it: `refs` are the definitions it reads. The checker does not look at
      `targetPath`, which receiveQueue and queryDatabase write. */
  datatype Cfg =
    | SetVariable(definitionId: string, name: string, scope: Scope, valueType: ValueType)
    | DeleteVariable(target: string)
    | Action(code: CommandCode, refs: seq<string>, form: seq<FormField>, result: Option<ResultConstant>, targetPath: Option<string>)

  datatype Command = Command(id: string, order: int, cfg: Cfg)

  datatype Definition = Definition(
    id: string, commandId: string, order: int, section: Section, name: string, scope: Scope,
    valueType: ValueType, deletedAt: Option<int>)

  type Definitions = map<string, Definition>

  datatype PlanError =
    | NotVisible(id: string) | IncompatibleType(id: string) | NotDeletable(id: string)
    | SourceInForm | IncompatibleForm(id: string)
    | NotWritable(scope: Scope) | AlreadyDefined(name: string, scope: Scope)

  datatype Checked<+T> = Accepted(value: T) | Rejected(error: PlanError)

  function Readable(s: Section): set<Scope> {
    match s
    case BeforeAll => {RunEnvelopeScope, ResultScope}
    case BeforeEach => {RunEnvelopeScope, GlobalScope, ResultScope}
    case TestSection => {RunEnvelopeScope, GlobalScope, LocalScope, ResultScope}
    case AfterEach => {RunEnvelopeScope, GlobalScope, LocalScope, ResultScope}
    case AfterAll => {RunEnvelopeScope, GlobalScope, ResultScope}
    case MockPreResponse => {RunEnvelopeScope, ResultScope}
    case MockPostResponse => {RunEnvelopeScope, ResultScope}
    case MockQueue => {RunEnvelopeScope, ResultScope}
  }

  function Writable(s: Section): set<Scope> {
    match s
    case BeforeAll => {GlobalScope, ResultScope}
    case BeforeEach => {LocalScope, ResultScope}
    case TestSection => {LocalScope, ResultScope}
    case AfterEach => {LocalScope, ResultScope}
    case AfterAll => {GlobalScope, ResultScope}
    case MockPreResponse => {RunEnvelopeScope, ResultScope}
    case MockPostResponse => {ResultScope}
    case MockQueue => {ResultScope}
  }

  /** `_TYPE_COMPATIBILITY`; a code without an entry takes any type. */
  predicate Compatible(code: CommandCode, t: ValueType) {
    match code
    case SendMessageQueue => t in {PlainValue, JsonValue, JsonArrayValue, DatasetValue}
    case SaveTable => t in {JsonValue, JsonArrayValue, DatasetValue}
    case ExportDataset => t in {JsonValue, JsonArrayValue, DatasetValue}
    case JsonEquals => t in {JsonValue, PlainValue}
    case JsonEmpty => t in {JsonValue, PlainValue}
    case JsonNotEmpty => t in {JsonValue, PlainValue}
    case JsonContains => t in {JsonValue, PlainValue}
    case JsonArrayEquals => t == JsonArrayValue
    case JsonArrayEmpty => t == JsonArrayValue
    case JsonArrayNotEmpty => t == JsonArrayValue
    case JsonArrayContains => t == JsonArrayValue
    case _ => true
  }

  /** `_active_definitions`. */
  function Active(defs: Definitions, readable: set<Scope>, order: int): Definitions {
    map id | id in defs && defs[id].scope in readable && defs[id].order < order &&
             (defs[id].deletedAt.Some? ==> order < defs[id].deletedAt.value)
      :: defs[id]
  }

  function CheckRefs(active: Definitions, code: CommandCode, refs: seq<string>): Option<PlanError> {
    if refs == [] then None
    else if refs[0] !in active then Some(NotVisible(refs[0]))
    else if !Compatible(code, active[refs[0]].valueType) then Some(IncompatibleType(refs[0]))
    else CheckRefs(active, code, refs[1..])
  }

  /** `_validate_form_urlencoded_body_refs`. */
  function CheckForm(active: Definitions, form: seq<FormField>): Option<PlanError> {
    if form == [] then None
    else match form[0]
      case SourceField => Some(SourceInForm)
      case RuntimeField(id) =>
        var key := Strip(id);
        if key in active && active[key].valueType in {DatasetValue, JsonArrayValue} then Some(IncompatibleForm(key))
        else CheckForm(active, form[1..])
      case LiteralField => CheckForm(active, form[1..])
  }

  /** `_validate_ref_visibility`. */
  function CheckVisibility(section: Section, defs: Definitions, cmd: Command): Option<PlanError> {
    var active := Active(defs, Readable(section), cmd.order);
    match cmd.cfg
    case SetVariable(_, _, _, _) => None
    case DeleteVariable(target) =>
      if target !in active then Some(NotVisible(target))
      else if active[target].scope !in Writable(section) then Some(NotDeletable(target))
      else None
    case Action(code, refs, form, _, _) =>
      var error := CheckRefs(active, code, refs);
      if error.Some? then error else CheckForm(active, form)
  }

  /** `_planned_declarations`: what a command declares. */
  function Declared(section: Section, cmd: Command): Option<Definition> {
    match cmd.cfg
    case SetVariable(id, name, scope, valueType) =>
      Some(Definition(id, cmd.id, cmd.order, section, name, scope, valueType, None))
    case DeleteVariable(_) => None
    case Action(_, _, _, None, _) => None
    case Action(_, _, _, Some(ResultConstant(id, name, valueType)), _) =>
      Some(Definition(id, cmd.id, cmd.order, section, name, ResultScope, valueType, None))
  }

  const ALL_SCOPES: set<Scope> := {RunEnvelopeScope, GlobalScope, LocalScope, ResultScope}

  /** `_validate_declarations`. */
  function CheckDeclaration(section: Section, defs: Definitions, order: int, d: Definition): Option<PlanError> {
    if d.scope !in Writable(section) then Some(NotWritable(d.scope))
    else
      var active := Active(defs, ALL_SCOPES, order + 1);
      if exists id | id in active :: active[id].name == d.name && active[id].scope == d.scope
      then Some(AlreadyDefined(d.name, d.scope))
      else None
  }

  /** One turn of the planning loop. */
  function PlanStep(section: Section, defs: Definitions, cmd: Command): Checked<Definitions> {
    var error := CheckVisibility(section, defs, cmd);
    if error.Some? then Rejected(error.value)
    else if cmd.cfg.DeleteVariable? then
      var id := cmd.cfg.target;
      if id !in defs then Rejected(NotVisible(id))
      else Accepted(defs[id := defs[id].(deletedAt := Some(cmd.order))])
    else match Declared(section, cmd)
      case None => Accepted(defs)
      case Some(d) =>
        var clash := CheckDeclaration(section, defs, cmd.order, d);
        if clash.Some? then Rejected(clash.value) else Accepted(defs[d.id := d])
  }

  function PlanFrom(section: Section, defs: Definitions, cmds: seq<Command>): Checked<Definitions>
    decreases |cmds|
  {
    if cmds == [] then Accepted(defs)
    else match PlanStep(section, defs, cmds[0])
      case Rejected(e) => Rejected(e)
      case Accepted(defs') => PlanFrom(section, defs', cmds[1..])
  }

  /** `_carry_over_visible_map`. */
  function Carried(defs: Definitions): Definitions {
    map id | id in defs && defs[id].deletedAt.None? :: defs[id].(order := 0)
  }

  /** The sort key `(order, id)`. */
  predicate CommandLeq(a: Command, b: Command) { a.order < b.order || (a.order == b.order && LexLeq(a.id, b.id)) }

  function SortedCommands(cmds: seq<Command>): seq<Command> { SortBy(cmds, CommandLeq) }

  lemma CommandsAreSorted(cmds: seq<Command>)
    ensures SortedBy(SortedCommands(cmds), CommandLeq)
    ensures multiset(SortedCommands(cmds)) == multiset(cmds)
  {
    forall a: Command, b: Command
      ensures CommandLeq(a, b) || CommandLeq(b, a)
    {
      LexTotal(a.id, b.id);
    }
    forall a: Command, b: Command, c: Command | CommandLeq(a, b) && CommandLeq(b, c)
      ensures CommandLeq(a, c)
    {
      if a.order == c.order {
        LexTransitive(a.id, b.id, c.id);
      }
    }
    SortByIsSorted(cmds, CommandLeq);
  }

  /** What a section declares, in planning order. */
  function DeclaredBy(section: Section, cmds: seq<Command>): seq<Definition> {
    if cmds == [] then []
    else
      var rest := DeclaredBy(section, cmds[1..]);
      match Declared(section, cmds[0])
      case None => rest
      case Some(d) => [d] + rest
  }

  lemma PlanTurns(section: Section, defs: Definitions, cmds: seq<Command>, i: nat)
    requires i < |cmds|
    ensures PlanFrom(section, defs, cmds[i..]) ==
            match PlanStep(section, defs, cmds[i])
            case Rejected(e) => Rejected(e)
            case Accepted(next) => PlanFrom(section, next, cmds[i + 1..])
  {
    hide PlanStep;
    assert cmds[i..][0] == cmds[i] && cmds[i..][1..] == cmds[i + 1..];
  }

  lemma DeclarationTurns(section: Section, planned: seq<Definition>, cmds: seq<Command>, i: nat)
    requires i < |cmds|
    ensures planned + DeclaredBy(section, cmds[i..]) ==
            match Declared(section, cmds[i])
            case None => planned + DeclaredBy(section, cmds[i + 1..])
            case Some(d) => (planned + [d]) + DeclaredBy(section, cmds[i + 1..])
  {
    hide Declared;
    assert cmds[i..][0] == cmds[i] && cmds[i..][1..] == cmds[i + 1..];
  }

  /** `plan_definitions_for_commands`. */
  method Plan(cmds: seq<Command>, section: Section, initial: Definitions)
    returns (planned: seq<Definition>, r: Checked<Definitions>)
    ensures r == PlanFrom(section, Carried(initial), SortedCommands(cmds))
    ensures r.Accepted? ==> planned == DeclaredBy(section, SortedCommands(cmds))
  {
    hide PlanStep, Declared, SortedCommands, Carried, PlanFrom, DeclaredBy;
    var definitions := Carried(initial);
    var commands := SortedCommands(cmds);
    planned := [];
    assert commands[0..] == commands;
    for i := 0 to |commands|
      invariant PlanFrom(section, Carried(initial), commands) == PlanFrom(section, definitions, commands[i..])
      invariant DeclaredBy(section, commands) == planned + DeclaredBy(section, commands[i..])
    {
      PlanTurns(section, definitions, commands, i);
      DeclarationTurns(section, planned, commands, i);
      var step := PlanStep(section, definitions, commands[i]);
      if step.Rejected? {
        return planned, Rejected(step.error);
      }
      definitions := step.value;
      var d := Declared(section, commands[i]);
      if d.Some? {
        planned := planned + [d.value];
      }
    }
    assert commands[|commands|..] == [];
    PlanEnds(section, definitions, planned);
    r := Accepted(definitions);
  }

  lemma PlanEnds(section: Section, defs: Definitions, planned: seq<Definition>)
    ensures PlanFrom(section, defs, []) == Accepted(defs) && planned + DeclaredBy(section, []) == planned
  {
  }
}
