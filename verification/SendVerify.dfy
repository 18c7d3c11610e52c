/** The `send_verify` template: the command chain it generates, and what the planner says of it
    (send_verify.py). */
module SendVerify {
  import opened PyText
  import opened PyList
  import opened ObjectHeap
  import opened PathText
  import opened RunContexts
  import opened ConstantStore
  import opened ConstantPlanner
  import opened SuiteSoundness

  datatype Wait = DefaultWait | WaitMs(ms: int) | NotANumber

  /** Texts are empty when the form leaves them out; `hasExpected` means present and not null, since the
      assert command itself refuses a null. */
  datatype AssertSpec = AssertSpec(
    target: string, operator: string, queueId: string, connectionId: string, query: string, hasExpected: bool)

  datatype Config = Config(queueId: string, payloadKind: string, wait: Wait, asserts: seq<AssertSpec>)

  datatype ConfigError =
    | QueueRequired | BadWait | BadPayloadKind | BadTarget(index: nat) | BadOperator(index: nat)
    | ReadQueueRequired(index: nat) | ConnectionRequired(index: nat) | QueryRequired(index: nat) | ExpectedRequired(index: nat)

  datatype Generated = Chain(commands: seq<Command>) | Refused(error: ConfigError)

  function Token(s: string): string { Lower(Strip(s)) }

  const PAYLOAD_ID := "tpl_sv_payload"

  function ActualId(i: nat): string { "tpl_sv_actual_" + Dec(i) }

  function ActualName(i: nat): string { "actual_" + Dec(i) }

  function PayloadCommand(order: nat): Command {
    Command(Dec(order), order, SetVariable(PAYLOAD_ID, "payload", LocalScope, JsonValue))
  }

  function SendCommand(order: nat): Command {
    Command(Dec(order), order, Action(SendMessageQueue, [PAYLOAD_ID], [], None, None))
  }

  function WaitCommand(order: nat): Command { Command(Dec(order), order, Action(Sleep, [], [], None, None)) }

  function ReadCommand(order: nat, code: CommandCode, i: nat): Command {
    Command(Dec(order), order, Action(code, [], [], Some(ResultConstant(ActualId(i), ActualName(i), JsonValue)),
                                  Some(ConstantPath(LocalScope, ActualName(i)))))
  }

  function AssertCommand(order: nat, code: CommandCode, i: nat): Command {
    Command(Dec(order), order, Action(code, [ActualId(i)], [], None, None))
  }

  /** The checks on one assert entry, in order; `None` for an entry that generates nothing. */
  function AssertError(a: AssertSpec, i: nat): Option<ConfigError> {
    var target, operator := Token(a.target), Token(a.operator);
    if target != "queue" && target != "database" && target != "none" then Some(BadTarget(i))
    else if target == "none" then None
    else if operator != "equals" && operator != "exists" then Some(BadOperator(i))
    else if target == "queue" && Strip(a.queueId) == [] then Some(ReadQueueRequired(i))
    else if target == "database" && Strip(a.connectionId) == [] then Some(ConnectionRequired(i))
    else if target == "database" && Strip(a.query) == [] then Some(QueryRequired(i))
    else if operator == "equals" && !a.hasExpected then Some(ExpectedRequired(i))
    else None
  }

  predicate Skipped(a: AssertSpec) { Token(a.target) == "none" }

  function AssertPair(a: AssertSpec, i: nat, order: nat): seq<Command> {
    [ReadCommand(order, if Token(a.target) == "queue" then ReceiveQueue else QueryDatabase, i),
     AssertCommand(order + 1, if Token(a.operator) == "equals" then JsonEquals else JsonNotEmpty, i)]
  }

  function GenerateAsserts(asserts: seq<AssertSpec>, i: nat, order: nat): Generated
    decreases |asserts|
  {
    if asserts == [] then Chain([])
    else if AssertError(asserts[0], i).Some? then Refused(AssertError(asserts[0], i).value)
    else if Skipped(asserts[0]) then GenerateAsserts(asserts[1..], i + 1, order)
    else match GenerateAsserts(asserts[1..], i + 1, order + 2)
      case Refused(e) => Refused(e)
      case Chain(rest) => Chain(AssertPair(asserts[0], i, order) + rest)
  }

  function Prelude(wait: Wait): seq<Command> {
    [PayloadCommand(0), SendCommand(1)] + if wait == WaitMs(0) then [] else [WaitCommand(2)]
  }

  /** `generate_commands`. */
  function Generate(c: Config): Generated {
    if Strip(c.queueId) == [] then Refused(QueueRequired)
    else if c.wait.NotANumber? || (c.wait.WaitMs? && c.wait.ms < 0) then Refused(BadWait)
    else if Token(c.payloadKind) != "json_inline" then Refused(BadPayloadKind)
    else match GenerateAsserts(c.asserts, 0, |Prelude(c.wait)|)
      case Refused(e) => Refused(e)
      case Chain(rest) => Chain(Prelude(c.wait) + rest)
  }

  /** Generated commands after those of `before`. */
  function Following(before: seq<Command>, g: Generated): Generated {
    match g case Refused(e) => Refused(e) case Chain(rest) => Chain(before + rest)
  }

  lemma AssertTurn(before: seq<Command>, asserts: seq<AssertSpec>, i: nat, order: nat)
    requires i < |asserts| && AssertError(asserts[i], i).None?
    ensures Following(before, GenerateAsserts(asserts[i..], i, order)) ==
            if Skipped(asserts[i]) then Following(before, GenerateAsserts(asserts[i + 1..], i + 1, order))
            else Following(before + AssertPair(asserts[i], i, order), GenerateAsserts(asserts[i + 1..], i + 1, order + 2))
  {
    hide AssertError, AssertPair, Skipped;
    assert asserts[i..][0] == asserts[i] && asserts[i..][1..] == asserts[i + 1..];
    var rest := GenerateAsserts(asserts[i + 1..], i + 1, order + 2);
    if rest.Chain? {
      AppendAssociates(before, AssertPair(asserts[i], i, order), rest.commands);
    }
  }

  method GenerateCommands(c: Config) returns (g: Generated)
    ensures g == Generate(c)
  {
    hide Strip, Token, AssertError, AssertPair, Skipped;
    if Strip(c.queueId) == [] {
      return Refused(QueueRequired);
    }
    if c.wait.NotANumber? || (c.wait.WaitMs? && c.wait.ms < 0) {
      return Refused(BadWait);
    }
    if Token(c.payloadKind) != "json_inline" {
      return Refused(BadPayloadKind);
    }
    var order: nat := 0;
    var commands := [PayloadCommand(order)];
    order := order + 1;
    commands := commands + [SendCommand(order)];
    order := order + 1;
    if c.wait != WaitMs(0) {
      commands := commands + [WaitCommand(order)];
      order := order + 1;
    }
    assert commands == Prelude(c.wait) && order == |commands|;
    g := AppendAsserts(commands, c.asserts, order);
  }

  /** The loop over the asserts. */
  method AppendAsserts(prelude: seq<Command>, asserts: seq<AssertSpec>, first: nat) returns (g: Generated)
    ensures g == Following(prelude, GenerateAsserts(asserts, 0, first))
  {
    hide AssertError, AssertPair, Skipped;
    var commands, order := prelude, first;
    for i := 0 to |asserts|
      invariant Following(prelude, GenerateAsserts(asserts, 0, first)) == Following(commands, GenerateAsserts(asserts[i..], i, order))
    {
      assert asserts[i..][0] == asserts[i];
      var error := AssertError(asserts[i], i);
      if error.Some? {
        return Refused(error.value);
      }
      AssertTurn(commands, asserts, i, order);
      if !Skipped(asserts[i]) {
        commands := commands + AssertPair(asserts[i], i, order);
        order := order + 2;
      }
    }
    assert commands + [] == commands;
    g := Chain(commands);
  }

  // ---- what the chain is ------------------------------------------------------------------------

  lemma DecInjective(i: nat, j: nat)
    requires Dec(i) == Dec(j)
    ensures i == j
  {
    ParseDec(i);
    ParseDec(j);
  }

  lemma ActualsDiffer(i: nat, j: nat)
    requires i != j
    ensures ActualId(i) != ActualId(j) && ActualName(i) != ActualName(j)
  {
    hide Dec;
    if Dec(i) == Dec(j) {
      DecInjective(i, j);
    }
    SamePrefix("tpl_sv_actual_", Dec(i), Dec(j));
    SamePrefix("actual_", Dec(i), Dec(j));
  }

  lemma SamePrefix(p: string, a: string, b: string)
    ensures p + a == p + b ==> a == b
  {
    if p + a == p + b {
      assert (p + a)[|p|..] == a && (p + b)[|p|..] == b;
    }
  }

  ghost predicate Numbered(cmds: seq<Command>, first: nat) {
    forall k | 0 <= k < |cmds| :: cmds[k].order == first + k
  }

  lemma {:induction false} AssertsAreNumbered(asserts: seq<AssertSpec>, i: nat, order: nat)
    requires GenerateAsserts(asserts, i, order).Chain?
    ensures Numbered(GenerateAsserts(asserts, i, order).commands, order)
    decreases |asserts|
  {
    hide AssertError, Skipped, Dec, Token;
    if asserts == [] {
    } else {
      if Skipped(asserts[0]) {
        AssertsAreNumbered(asserts[1..], i + 1, order);
      } else {
        AssertsAreNumbered(asserts[1..], i + 1, order + 2);
      }
    }
  }

  /** The chain's orders are 0, 1, 2, ... */
  lemma ChainIsNumbered(c: Config)
    requires Generate(c).Chain?
    ensures Numbered(Generate(c).commands, 0) && |Generate(c).commands| > 1
  {
    hide Strip, Token, GenerateAsserts, Dec;
    AssertsAreNumbered(c.asserts, 0, |Prelude(c.wait)|);
  }

  // ---- the planner on the chain -----------------------------------------------------------------

  /** The chain with its orders moved up by one. */
  function Shifted(cmds: seq<Command>): seq<Command> {
    seq(|cmds|, k requires 0 <= k < |cmds| => cmds[k].(order := cmds[k].order + 1))
  }

  /** What has been planned before the `i`-th assert entry. */
  ghost predicate Planned(defs: Definitions, i: nat, last: int) {
    forall id | id in defs ::
      var d := defs[id];
      && d.deletedAt.None? && d.order <= last
      && (d.scope.ResultScope? ==> exists j: nat | j < i :: d.name == ActualName(j))
  }

  lemma ReadIsAccepted(defs: Definitions, i: nat, last: int, cmd: Command, code: CommandCode)
    requires Planned(defs, i, last) && last < cmd.order
    requires cmd.cfg == Action(code, [], [], Some(ResultConstant(ActualId(i), ActualName(i), JsonValue)),
                                  Some(ConstantPath(LocalScope, ActualName(i))))
    ensures var d := Definition(ActualId(i), cmd.id, cmd.order, TestSection, ActualName(i), ResultScope, JsonValue, None);
            && PlanStep(TestSection, defs, cmd) == Accepted(defs[ActualId(i) := d])
            && Planned(defs[ActualId(i) := d], i + 1, cmd.order)
  {
    hide ActualId, ActualName;
    var active := Active(defs, ALL_SCOPES, cmd.order + 1);
    forall id | id in active
      ensures !(active[id].name == ActualName(i) && active[id].scope.ResultScope?)
    {
      if active[id].scope.ResultScope? {
        var j: nat :| j < i && active[id].name == ActualName(j);
        ActualsDiffer(i, j);
      }
    }
  }

  lemma AssertIsAccepted(defs: Definitions, i: nat, last: int, cmd: Command, code: CommandCode, id: string)
    requires Planned(defs, i, last) && last < cmd.order && id in defs && defs[id].valueType == JsonValue
    requires defs[id].scope in {LocalScope, ResultScope}
    requires cmd.cfg == Action(code, [id], [], None, None) && Compatible(code, JsonValue)
    ensures PlanStep(TestSection, defs, cmd) == Accepted(defs) && Planned(defs, i, cmd.order)
  {
    hide ActualName;
    var active := Active(defs, Readable(TestSection), cmd.order);
    assert id in active;
    assert [id][1..] == [];
    assert CheckRefs(active, code, [id]).None?;
  }

  lemma ShiftedAppend(a: seq<Command>, b: seq<Command>)
    ensures Shifted(a + b) == Shifted(a) + Shifted(b)
  {
  }

  lemma {:induction false} PlanAppend(section: Section, defs: Definitions, a: seq<Command>, b: seq<Command>)
    requires PlanFrom(section, defs, a).Accepted?
    ensures PlanFrom(section, defs, a + b) == PlanFrom(section, PlanFrom(section, defs, a).value, b)
    decreases |a|
  {
    hide PlanStep;
    if a == [] {
      assert a + b == b;
    } else {
      assert (a + b)[0] == a[0] && (a + b)[1..] == a[1..] + b;
      PlanAppend(section, PlanStep(section, defs, a[0]).value, a[1..], b);
    }
  }

  lemma PlanPair(section: Section, defs: Definitions, x: Command, y: Command)
    requires PlanStep(section, defs, x).Accepted? && PlanStep(section, PlanStep(section, defs, x).value, y).Accepted?
    ensures PlanFrom(section, defs, [x, y]) == PlanStep(section, PlanStep(section, defs, x).value, y)
  {
    hide PlanStep;
    var defs1 := PlanStep(section, defs, x).value;
    assert [x, y][1..] == [y] && [y][1..] == [];
    assert PlanFrom(section, defs1, [y]) == PlanFrom(section, PlanStep(section, defs1, y).value, [y][1..]);
  }

  lemma {:induction false} AssertsAreAccepted(asserts: seq<AssertSpec>, i: nat, order: nat, defs: Definitions)
    requires GenerateAsserts(asserts, i, order).Chain? && Planned(defs, i, order)
    ensures PlanFrom(TestSection, defs, Shifted(GenerateAsserts(asserts, i, order).commands)).Accepted?
    decreases |asserts|
  {
    hide AssertError, Skipped, Dec, Token, PlanStep, Planned, ActualId, ActualName;
    if asserts == [] {
    } else {
      if Skipped(asserts[0]) {
        PlannedLater(defs, i, order, order);
        AssertsAreAccepted(asserts[1..], i + 1, order, defs);
      } else {
        var pair := AssertPair(asserts[0], i, order);
        var read, check := Shifted(pair)[0], Shifted(pair)[1];
        ReadIsAccepted(defs, i, order, read, read.cfg.code);
        var defs1 := PlanStep(TestSection, defs, read).value;
        AssertIsAccepted(defs1, i + 1, read.order, check, check.cfg.code, ActualId(i));
        PlanPair(TestSection, defs, read, check);
        assert Shifted(pair) == [read, check];
        AssertsAreAccepted(asserts[1..], i + 1, order + 2, defs1);
        var rest := GenerateAsserts(asserts[1..], i + 1, order + 2).commands;
        ShiftedAppend(pair, rest);
        PlanAppend(TestSection, defs, Shifted(pair), Shifted(rest));
      }
    }
  }

  lemma PlannedLater(defs: Definitions, i: nat, last: int, later: int)
    requires Planned(defs, i, last) && last <= later
    ensures Planned(defs, i + 1, later)
  {
    hide ActualName;
  }

  const PAYLOAD_DEFINITION := Definition(PAYLOAD_ID, Dec(0), 1, TestSection, "payload", LocalScope, JsonValue, None)

  lemma PreludeIsAccepted(wait: Wait)
    ensures PlanFrom(TestSection, map[], Shifted(Prelude(wait))) == Accepted(map[PAYLOAD_ID := PAYLOAD_DEFINITION])
    ensures Planned(map[PAYLOAD_ID := PAYLOAD_DEFINITION], 0, |Prelude(wait)|)
  {
    hide ActualName;
    var defs: Definitions := map[PAYLOAD_ID := PAYLOAD_DEFINITION];
    var first, send := Shifted([PayloadCommand(0), SendCommand(1)])[0], Shifted([PayloadCommand(0), SendCommand(1)])[1];
    assert Active(map[], ALL_SCOPES, 2) == map[];
    assert PlanStep(TestSection, map[], first) == Accepted(defs);
    AssertIsAccepted(defs, 0, 1, send, SendMessageQueue, PAYLOAD_ID);
    PlanPair(TestSection, map[], first, send);
    if wait == WaitMs(0) {
      assert Shifted(Prelude(wait)) == [first, send];
    } else {
      var sleep := Shifted([WaitCommand(2)])[0];
      assert Shifted(Prelude(wait)) == [first, send] + [sleep];
      PlanAppend(TestSection, map[], [first, send], [sleep]);
      assert PlanStep(TestSection, defs, sleep) == Accepted(defs);
      assert [sleep][1..] == [];
      assert PlanFrom(TestSection, defs, [sleep]) == PlanFrom(TestSection, defs, [sleep][1..]);
    }
  }

  /** With orders that start at 1, the planner accepts every generated chain in a test. */
  lemma ShiftedChainIsAccepted(c: Config)
    requires Generate(c).Chain?
    ensures PlanSection(TestSection, map[], Shifted(Generate(c).commands)).Accepted?
  {
    hide Strip, Token, GenerateAsserts, Dec, Prelude, Planned, PlanStep, PlanFrom;
    var chain := Generate(c).commands;
    ChainIsNumbered(c);
    NumberedIsSorted(Shifted(chain), 1);
    PreludeIsAccepted(c.wait);
    AssertsAreAccepted(c.asserts, 0, |Prelude(c.wait)|, map[PAYLOAD_ID := PAYLOAD_DEFINITION]);
    var rest := GenerateAsserts(c.asserts, 0, |Prelude(c.wait)|).commands;
    ShiftedAppend(Prelude(c.wait), rest);
    PlanAppend(TestSection, map[], Shifted(Prelude(c.wait)), Shifted(rest));
    NothingIsCarried();
  }

  lemma NothingIsCarried()
    ensures Carried(map[]) == map[]
  {
  }

  lemma NumberedIsSorted(cmds: seq<Command>, first: nat)
    requires Numbered(cmds, first)
    ensures SortedCommands(cmds) == cmds
  {
    forall i, j | 0 <= i < j < |cmds|
      ensures CommandLeq(cmds[i], cmds[j])
    {
    }
    SortBySorted(cmds, CommandLeq);
  }

  // ---- the chain as it is -----------------------------------------------------------------------

  /** `int(command.order or index)`: the order 0 of the first command becomes its position, 1. The
      commands get whatever ids. */
  function Numbering(cmds: seq<Command>, ids: nat -> string): seq<Command> {
    seq(|cmds|, k requires 0 <= k < |cmds| =>
      cmds[k].(id := ids(k), order := if cmds[k].order == 0 then k + 1 else cmds[k].order))
  }

  lemma {:induction false} InvisibleIsRejected(section: Section, defs: Definitions, cmds: seq<Command>, id: string, k: nat)
    requires k < |cmds| && cmds[k].cfg.Action? && id in cmds[k].cfg.refs
    requires id !in defs || defs[id].order >= cmds[k].order
    requires forall j | 0 <= j < |cmds| && Declared(section, cmds[j]).Some? && Declared(section, cmds[j]).value.id == id ::
               cmds[j].order >= cmds[k].order
    ensures PlanFrom(section, defs, cmds).Rejected?
    decreases |cmds|
  {
    hide CheckDeclaration, CheckForm;
    if !PlanStep(section, defs, cmds[0]).Accepted? {
    } else {
      var defs' := PlanStep(section, defs, cmds[0]).value;
      if k == 0 {
        RefIsChecked(Active(defs, Readable(section), cmds[0].order), cmds[0].cfg.code, cmds[0].cfg.refs, id);
      } else {
        assert forall j | 0 <= j < |cmds[1..]| :: cmds[1..][j] == cmds[j + 1];
        InvisibleIsRejected(section, defs', cmds[1..], id, k - 1);
      }
    }
  }

  lemma {:induction false} RefIsChecked(active: Definitions, code: CommandCode, refs: seq<string>, id: string)
    requires id in refs && id !in active
    ensures CheckRefs(active, code, refs).Some?
    decreases |refs|
  {
    if refs[0] == id {
    } else {
      assert id in refs[1..];
      RefIsChecked(active, code, refs[1..], id);
    }
  }

  /** As generated, the chain is never accepted: the first two commands get the same order, so the
      payload is not visible to the command that sends it. */
  lemma ChainAsNumberedIsRejected(c: Config, ids: nat -> string)
    requires Generate(c).Chain?
    ensures PlanSection(TestSection, map[], Numbering(Generate(c).commands, ids)).Rejected?
  {
    hide Strip, Token, GenerateAsserts, Dec, PlanFrom, SortedCommands;
    var chain := Generate(c).commands;
    ChainIsNumbered(c);
    assert chain[1] == SendCommand(1);
    var cmds := Numbering(chain, ids);
    var sorted := SortedCommands(cmds);
    CommandsAreSorted(cmds);
    MultisetMembers(sorted, cmds);
    assert cmds[1] in sorted;
    var k :| 0 <= k < |sorted| && sorted[k] == cmds[1];
    assert PAYLOAD_ID in sorted[k].cfg.refs && sorted[k].order == 1;
    forall j | 0 <= j < |sorted|
      ensures sorted[j].order >= 1
    {
      assert sorted[j] in cmds;
    }
    NothingIsCarried();
    InvisibleIsRejected(TestSection, map[], sorted, PAYLOAD_ID, k);
  }

  // ---- declarations and references --------------------------------------------------------------

  function DeclaredId(cmd: Command): Option<string> {
    match Declared(TestSection, cmd)
    case None => None
    case Some(d) => Some(d.id)
  }

  function DeclaredName(cmd: Command): Option<string> {
    match Declared(TestSection, cmd)
    case None => None
    case Some(d) => Some(d.name)
  }

  /** No id and no name is declared twice, and a reference is declared by an earlier command. */
  ghost predicate WellScoped(cmds: seq<Command>) {
    && (forall j, k | 0 <= j < k < |cmds| && DeclaredId(cmds[j]).Some? && DeclaredId(cmds[k]).Some? ::
          DeclaredId(cmds[j]) != DeclaredId(cmds[k]) && DeclaredName(cmds[j]) != DeclaredName(cmds[k]))
    && forall k | 0 <= k < |cmds| && cmds[k].cfg.Action? ::
         forall id <- cmds[k].cfg.refs :: exists j :: 0 <= j < k && DeclaredId(cmds[j]) == Some(id)
  }

  /** Every declaration is the `j`-th actual, for some `j` from `i` on. */
  ghost predicate DeclaresFrom(cmds: seq<Command>, i: nat) {
    forall k | 0 <= k < |cmds| && DeclaredId(cmds[k]).Some? ::
      exists j: nat :: i <= j && DeclaredId(cmds[k]) == Some(ActualId(j)) && DeclaredName(cmds[k]) == Some(ActualName(j))
  }

  lemma WellScopedAppend(a: seq<Command>, b: seq<Command>)
    requires WellScoped(a) && WellScoped(b)
    requires forall j, k | 0 <= j < |a| && 0 <= k < |b| && DeclaredId(a[j]).Some? && DeclaredId(b[k]).Some? ::
               DeclaredId(a[j]) != DeclaredId(b[k]) && DeclaredName(a[j]) != DeclaredName(b[k])
    ensures WellScoped(a + b)
  {
    hide DeclaredId, DeclaredName;
    var cmds := a + b;
    forall k, id | 0 <= k < |cmds| && cmds[k].cfg.Action? && id in cmds[k].cfg.refs
      ensures exists j :: 0 <= j < k && DeclaredId(cmds[j]) == Some(id)
    {
      if k < |a| {
        var j :| 0 <= j < k && DeclaredId(a[j]) == Some(id);
        assert DeclaredId(cmds[j]) == Some(id);
      } else {
        assert cmds[k] == b[k - |a|];
        var j :| 0 <= j < k - |a| && DeclaredId(b[j]) == Some(id);
        assert DeclaredId(cmds[|a| + j]) == Some(id);
      }
    }
  }

  lemma PairIsWellScoped(a: AssertSpec, i: nat, order: nat)
    ensures WellScoped(AssertPair(a, i, order)) && DeclaresFrom(AssertPair(a, i, order), i)
    ensures forall k | 0 <= k < 2 && DeclaredId(AssertPair(a, i, order)[k]).Some? ::
              k == 0 && DeclaredId(AssertPair(a, i, order)[k]) == Some(ActualId(i)) &&
              DeclaredName(AssertPair(a, i, order)[k]) == Some(ActualName(i))
  {
    hide ActualId, ActualName, Dec, Token;
    var pair := AssertPair(a, i, order);
    assert DeclaredId(pair[0]) == Some(ActualId(i)) && DeclaredName(pair[0]) == Some(ActualName(i));
    assert DeclaredId(pair[1]) == None;
  }

  lemma {:induction false} AssertsAreWellScoped(asserts: seq<AssertSpec>, i: nat, order: nat)
    requires GenerateAsserts(asserts, i, order).Chain?
    ensures WellScoped(GenerateAsserts(asserts, i, order).commands)
    ensures DeclaresFrom(GenerateAsserts(asserts, i, order).commands, i)
    decreases |asserts|
  {
    hide AssertError, Skipped, Dec, Token, ActualId, ActualName, AssertPair, DeclaredId, DeclaredName, WellScoped;
    if asserts == [] {
      NothingIsWellScoped();
    } else if Skipped(asserts[0]) {
      AssertsAreWellScoped(asserts[1..], i + 1, order);
    } else {
      var pair, rest := AssertPair(asserts[0], i, order), GenerateAsserts(asserts[1..], i + 1, order + 2).commands;
      PairIsWellScoped(asserts[0], i, order);
      AssertsAreWellScoped(asserts[1..], i + 1, order + 2);
      assert |pair| == 2 by {
        PairLength(asserts[0], i, order);
      }
      forall j, k | 0 <= j < |pair| && 0 <= k < |rest| && DeclaredId(pair[j]).Some? && DeclaredId(rest[k]).Some?
        ensures DeclaredId(pair[j]) != DeclaredId(rest[k]) && DeclaredName(pair[j]) != DeclaredName(rest[k])
      {
        var m: nat :| i + 1 <= m && DeclaredId(rest[k]) == Some(ActualId(m)) && DeclaredName(rest[k]) == Some(ActualName(m));
        ActualsDiffer(i, m);
      }
      WellScopedAppend(pair, rest);
    }
  }

  lemma PairLength(a: AssertSpec, i: nat, order: nat)
    ensures |AssertPair(a, i, order)| == 2
  {
  }

  lemma NothingIsWellScoped()
    ensures WellScoped([])
  {
  }

  lemma PayloadIsNotActual(j: nat)
    ensures PAYLOAD_ID != ActualId(j) && "payload" != ActualName(j)
  {
    hide Dec;
    assert PAYLOAD_ID[7] != ActualId(j)[7];
    assert "payload"[0] != ActualName(j)[0];
  }

  /** Generated chains are well scoped: distinct definition ids, distinct names, and every reference
      declared strictly earlier. */
  lemma ChainIsWellScoped(c: Config)
    requires Generate(c).Chain?
    ensures WellScoped(Generate(c).commands)
  {
    hide Strip, Token, GenerateAsserts, Dec, ActualId, ActualName;
    var prelude := Prelude(c.wait);
    var rest := GenerateAsserts(c.asserts, 0, |prelude|).commands;
    AssertsAreWellScoped(c.asserts, 0, |prelude|);
    assert DeclaredId(prelude[0]) == Some(PAYLOAD_ID) && DeclaredName(prelude[0]) == Some("payload");
    assert forall k | 0 < k < |prelude| :: DeclaredId(prelude[k]) == None;
    assert WellScoped(prelude);
    forall j, k | 0 <= j < |prelude| && 0 <= k < |rest| && DeclaredId(prelude[j]).Some? && DeclaredId(rest[k]).Some?
      ensures DeclaredId(prelude[j]) != DeclaredId(rest[k]) && DeclaredName(prelude[j]) != DeclaredName(rest[k])
    {
      var m: nat :| DeclaredId(rest[k]) == Some(ActualId(m)) && DeclaredName(rest[k]) == Some(ActualName(m));
      PayloadIsNotActual(m);
    }
    WellScopedAppend(prelude, rest);
  }

  // ---- the chain at run time --------------------------------------------------------------------

  lemma ActualNameIsSimple(i: nat)
    ensures SimpleName(ActualName(i))
  {
    hide Dec;
    var d := Dec(i);
    var name := "actual_" + d;
    assert !IsDigit(name[0]);
    DigitsArePlain(d);
    forall k | 0 <= k < |name|
      ensures PlainChar(name[k])
    {
      if k >= 7 {
        assert name[k] == d[k - 7];
      }
    }
  }

  /** The read step of an assert stores its rows at its `target`, the local constant `actual_i`, and the
      assert reads the declared definition, which is the result constant `actual_i`: it is still
      missing after the read step. */
  lemma AssertReadsWhatWasNotWritten(c: Context, i: nat, rows: Val)
    requires Shaped(c) && (rows.Ref? ==> rows.addr < |c.heap|)
    requires ActualName(i) !in Bindings(c, ResultScope)
    ensures var (c', outcome) := WritePath(c, ConstantPath(LocalScope, ActualName(i)), rows);
            && outcome == Done && ReadPath(c', ConstantPath(LocalScope, ActualName(i))) == Found(rows)
            && ReadPath(c', ConstantPath(ResultScope, ActualName(i))) == Missing
  {
    hide Shaped, Bindings, ConstantsOf, WritePath, ReadPath, ConstantPath, ActualName, Rebound;
    var name := ActualName(i);
    ActualNameIsSimple(i);
    WriteConstant(c, LocalScope, name, rows);
    BindingsInHeap(c, LocalScope);
    ReboundShape(c, LocalScope, Bindings(c, LocalScope)[name := rows]);
    var c' := Rebound(c, LocalScope, Bindings(c, LocalScope)[name := rows]);
    ReadConstant(c', LocalScope, name);
    ReadConstant(c', ResultScope, name);
  }
}
