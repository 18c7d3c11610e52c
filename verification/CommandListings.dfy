/** The planner takes the commands of a section in the order of (order, id). The engine lists them by
    order alone (suite_item_command_service.py), so that tied commands run in any order. */
module CommandListings {
  import opened PyText
  import opened PyList
  import opened ConstantStore
  import opened ConstantPlanner

  datatype Slot = Slot(scope: Scope, name: string)

  /** The persisted definitions, by id: what `resolve_definition_path` looks up. The loose ones are those
      whose command may finish without writing them. */
  datatype Table = Table(rows: map<string, Slot>, loose: set<string>)

  /** These executors write their `target` and never a result constant. */
  predicate NeverWrites(cmd: Command) { cmd.cfg.Action? && (cmd.cfg.code.ReceiveQueue? || cmd.cfg.code.QueryDatabase?) }

  /** The path that the executor of the command writes besides a constant. */
  function TargetOf(cmd: Command): Option<string> { if NeverWrites(cmd) then cmd.cfg.targetPath else None }

  /** These two return early when there are no rows. */
  predicate MayNotWrite(cmd: Command) {
    NeverWrites(cmd) || (cmd.cfg.Action? && (cmd.cfg.code.SaveTable? || cmd.cfg.code.ExportDataset?))
  }

  predicate Live(defs: Definitions, id: string) { id in defs && defs[id].deletedAt.None? }

  function SlotOf(d: Definition): Slot { Slot(d.scope, d.name) }

  ghost predicate TableHolds(table: Table, defs: Definitions) {
    forall id | id in defs :: id in table.rows && table.rows[id] == SlotOf(defs[id])
  }

  ghost predicate TableDeclares(table: Table, section: Section, cmds: seq<Command>) {
    forall cmd | cmd in cmds && Declared(section, cmd).Some? ::
      var d := Declared(section, cmd).value;
      d.id in table.rows && table.rows[d.id] == SlotOf(d)
  }

  /** Live definitions have distinct slots. */
  ghost predicate NoClash(defs: Definitions) {
    forall x, y | Live(defs, x) && Live(defs, y) && SlotOf(defs[x]) == SlotOf(defs[y]) :: x == y
  }

  ghost predicate UpTo(defs: Definitions, last: int) {
    forall id | id in defs :: defs[id].order <= last && (defs[id].deletedAt.Some? ==> defs[id].deletedAt.value <= last)
  }

  /** What holds of the definitions all the way through a plan. */
  ghost predicate Planned(defs: Definitions, table: Table, last: int) {
    NoClash(defs) && TableHolds(table, defs) && UpTo(defs, last)
  }

  lemma DeclaringTail(table: Table, section: Section, cmds: seq<Command>, last: int)
    requires cmds != [] && TableDeclares(table, section, cmds) && InOrder(cmds, last)
    ensures TableDeclares(table, section, [cmds[0]]) && TableDeclares(table, section, cmds[1..])
    ensures last <= cmds[0].order && InOrder(cmds[1..], cmds[0].order)
  {
    hide Declared;
    assert forall cmd | cmd in [cmds[0]] :: cmd in cmds;
    assert forall cmd | cmd in cmds[1..] :: cmd in cmds;
    assert forall i | 0 <= i < |cmds[1..]| :: cmds[1..][i] == cmds[i + 1];
  }

  lemma PlannedParts(defs: Definitions, table: Table, last: int)
    requires Planned(defs, table, last)
    ensures NoClash(defs) && TableHolds(table, defs) && UpTo(defs, last)
  {
  }

  ghost predicate NonNegative(cmds: seq<Command>) { forall cmd | cmd in cmds :: cmd.order >= 0 }

  ghost predicate Ascending(cmds: seq<Command>) {
    forall i, j | 0 <= i < j < |cmds| :: cmds[i].order <= cmds[j].order
  }

  ghost predicate InOrder(cmds: seq<Command>, last: int) {
    (forall cmd | cmd in cmds :: last <= cmd.order) && Ascending(cmds)
  }

  /** A result that `get_all_by_suite_item_id` may have. */
  ghost predicate IsListing(cmds: seq<Command>, listing: seq<Command>) {
    multiset(listing) == multiset(cmds) && Ascending(listing)
  }

  // ---- what the run depends on ------------------------------------------------------------------

  /** The definitions that a command reads or deletes. */
  function Refs(cmd: Command): seq<string> {
    match cmd.cfg
    case SetVariable(_, _, _, _) => []
    case DeleteVariable(target) => [target]
    case Action(_, refs, _, _, _) => refs
  }

  /** No command reads or deletes a definition that may not have been written. */
  ghost predicate RefsAreSolid(table: Table, cmds: seq<Command>) {
    forall cmd, id | cmd in cmds && id in Refs(cmd) :: id !in table.loose
  }

  /** The part of the planner's verdict on which the run depends: not the types. */
  ghost predicate Lawful(section: Section, defs: Definitions, cmd: Command) {
    && (forall id | id in Refs(cmd) :: id in Active(defs, Readable(section), cmd.order))
    && (cmd.cfg.DeleteVariable? ==> cmd.cfg.target in defs && defs[cmd.cfg.target].scope in Writable(section))
    && (Declared(section, cmd).Some? ==>
          CheckDeclaration(section, defs, cmd.order, Declared(section, cmd).value).None?)
  }

  function After(section: Section, defs: Definitions, cmd: Command): Definitions {
    match cmd.cfg
    case DeleteVariable(target) =>
      if target in defs then defs[target := defs[target].(deletedAt := Some(cmd.order))] else defs
    case _ =>
      match Declared(section, cmd)
      case None => defs
      case Some(d) => defs[d.id := d]
  }

  ghost predicate LawfulRun(section: Section, defs: Definitions, cmds: seq<Command>)
    decreases |cmds|
  {
    cmds == [] || (Lawful(section, defs, cmds[0]) && LawfulRun(section, After(section, defs, cmds[0]), cmds[1..]))
  }

  function AfterAllOf(section: Section, defs: Definitions, cmds: seq<Command>): Definitions
    decreases |cmds|
  {
    if cmds == [] then defs else AfterAllOf(section, After(section, defs, cmds[0]), cmds[1..])
  }

  lemma {:induction false} CheckedRefs(active: Definitions, code: CommandCode, refs: seq<string>)
    requires CheckRefs(active, code, refs).None?
    ensures forall id | id in refs :: id in active
    decreases |refs|
  {
    if refs == [] {
    } else {
      CheckedRefs(active, code, refs[1..]);
      assert refs == [refs[0]] + refs[1..];
    }
  }

  lemma AcceptedIsAfter(section: Section, defs: Definitions, cmd: Command)
    requires PlanStep(section, defs, cmd).Accepted?
    ensures PlanStep(section, defs, cmd).value == After(section, defs, cmd)
  {
    hide CheckDeclaration, CheckVisibility;
  }

  lemma AcceptedIsLawful(section: Section, defs: Definitions, cmd: Command)
    requires PlanStep(section, defs, cmd).Accepted?
    ensures Lawful(section, defs, cmd) && PlanStep(section, defs, cmd).value == After(section, defs, cmd)
  {
    AcceptedIsAfter(section, defs, cmd);
    hide After;
    hide CheckDeclaration, CheckForm, CheckRefs, Writable, Readable;
    if cmd.cfg.Action? {
      CheckedRefs(Active(defs, Readable(section), cmd.order), cmd.cfg.code, cmd.cfg.refs);
    }
  }

  lemma {:induction false} PlanIsLawful(section: Section, defs: Definitions, cmds: seq<Command>)
    requires PlanFrom(section, defs, cmds).Accepted?
    ensures LawfulRun(section, defs, cmds) && PlanFrom(section, defs, cmds).value == AfterAllOf(section, defs, cmds)
    decreases |cmds|
  {
    hide PlanStep, Lawful, After;
    if cmds == [] {
    } else {
      AcceptedIsLawful(section, defs, cmds[0]);
      PlanIsLawful(section, After(section, defs, cmds[0]), cmds[1..]);
    }
  }

  // ---- the invariant of a plan ------------------------------------------------------------------

  lemma EveryScope(s: Scope)
    ensures s in ALL_SCOPES
  {
    match s
    case RunEnvelopeScope =>
    case GlobalScope =>
    case LocalScope =>
    case ResultScope =>
  }

  /** The duplicate-name test sees every live definition. */
  lemma DeclarationIsNew(section: Section, defs: Definitions, last: int, order: int, d: Definition)
    requires UpTo(defs, last) && last <= order && CheckDeclaration(section, defs, order, d).None?
    ensures d.scope in Writable(section)
    ensures forall x | Live(defs, x) :: SlotOf(defs[x]) != SlotOf(d)
  {
    var active := Active(defs, ALL_SCOPES, order + 1);
    forall x | Live(defs, x)
      ensures SlotOf(defs[x]) != SlotOf(d)
    {
      EveryScope(defs[x].scope);
      assert x in active && active[x] == defs[x];
    }
  }

  lemma VisibleIsLive(defs: Definitions, last: int, section: Section, order: int, id: string)
    requires UpTo(defs, last) && last <= order && id in Active(defs, Readable(section), order)
    ensures Live(defs, id)
  {
  }

  lemma AfterIsPlanned(section: Section, defs: Definitions, table: Table, last: int, cmd: Command)
    requires Planned(defs, table, last) && last <= cmd.order && Lawful(section, defs, cmd)
    requires TableDeclares(table, section, [cmd])
    ensures Planned(After(section, defs, cmd), table, cmd.order)
  {
    hide CheckDeclaration, Active;
    if Declared(section, cmd).Some? {
      assert cmd in [cmd];
      DeclarationIsNew(section, defs, last, cmd.order, Declared(section, cmd).value);
    }
  }

  // ---- ties -------------------------------------------------------------------------------------

  /** A deletion ties with a command that reads the deleted definition, or that declares its slot. */
  predicate Conflicts(section: Section, table: Table, deletion: Command, other: Command) {
    && deletion.cfg.DeleteVariable? && deletion.order == other.order
    && var target := deletion.cfg.target;
       || (other.cfg.Action? && target in other.cfg.refs)
       || (Declared(section, other).Some? && target in table.rows && table.rows[target] == SlotOf(Declared(section, other).value))
  }

  ghost predicate TieFree(section: Section, table: Table, cmds: seq<Command>) {
    forall x, y | x in cmds && y in cmds :: !Conflicts(section, table, x, y)
  }

  /** Two tied commands, `b` lawful after `a`, that do not conflict. */
  ghost predicate Swappable(section: Section, defs: Definitions, table: Table, a: Command, b: Command) {
    && a.order == b.order && UpTo(defs, a.order) && TableHolds(table, defs)
    && TableDeclares(table, section, [a]) && TableDeclares(table, section, [b])
    && Lawful(section, defs, a) && Lawful(section, After(section, defs, a), b)
    && !Conflicts(section, table, a, b) && !Conflicts(section, table, b, a)
  }

  /** The definition that a command adds, replaces or marks as deleted. */
  function Touched(section: Section, cmd: Command): Option<string> {
    match cmd.cfg
    case DeleteVariable(target) => Some(target)
    case _ =>
      match Declared(section, cmd)
      case None => None
      case Some(d) => Some(d.id)
  }

  /** What a command touches is not active for the commands it ties with. */
  lemma TouchedIsInactive(section: Section, defs: Definitions, a: Command, scopes: set<Scope>)
    ensures var after := After(section, defs, a);
            && (forall id | Touched(section, a) == Some(id) :: id !in Active(after, scopes, a.order))
            && (forall id | Touched(section, a) != Some(id) :: id in after <==> id in defs)
            && (forall id | Touched(section, a) != Some(id) && id in defs :: after[id] == defs[id])
  {
  }

  lemma Activity(defs: Definitions, scopes: set<Scope>, order: int, id: string)
    ensures id in Active(defs, scopes, order) <==>
            id in defs && defs[id].scope in scopes && defs[id].order < order &&
            (defs[id].deletedAt.Some? ==> order < defs[id].deletedAt.value)
    ensures id in Active(defs, scopes, order) ==> Active(defs, scopes, order)[id] == defs[id]
  {
  }

  /** No active definition has the slot of an accepted declaration. */
  lemma SlotIsFree(section: Section, defs: Definitions, cmd: Command, id: string)
    requires Lawful(section, defs, cmd) && Declared(section, cmd).Some?
    requires id in defs && defs[id].order <= cmd.order
    requires defs[id].deletedAt.Some? ==> cmd.order + 1 < defs[id].deletedAt.value
    ensures SlotOf(defs[id]) != SlotOf(Declared(section, cmd).value)
  {
    EveryScope(defs[id].scope);
    var active := Active(defs, ALL_SCOPES, cmd.order + 1);
    Activity(defs, ALL_SCOPES, cmd.order + 1, id);
    assert id in active && active[id] == defs[id];
  }

  lemma SlotsAreFree(section: Section, defs: Definitions, cmd: Command)
    requires Declared(section, cmd).Some? && Declared(section, cmd).value.scope in Writable(section)
    requires forall id | id in Active(defs, ALL_SCOPES, cmd.order + 1) ::
               id in defs && SlotOf(defs[id]) != SlotOf(Declared(section, cmd).value)
    ensures CheckDeclaration(section, defs, cmd.order, Declared(section, cmd).value).None?
  {
  }

  lemma TouchedApart(section: Section, defs: Definitions, table: Table, a: Command, b: Command)
    requires Swappable(section, defs, table, a, b) && Touched(section, a).Some?
    ensures Touched(section, a) != Touched(section, b)
  {
    hide Active, CheckDeclaration;
    var id := Touched(section, a).value;
    var after := After(section, defs, a);
    if Touched(section, b) == Some(id) {
      TouchedIsInactive(section, defs, a, Readable(section));
      assert a in [a] && b in [b];
      if b.cfg.DeleteVariable? {
        assert false;
      }
      if !a.cfg.DeleteVariable? {
        SlotIsFree(section, after, b, id);
      }
    }
  }

  /** The later of two tied commands is lawful without the earlier one. */
  lemma LawfulBefore(section: Section, defs: Definitions, table: Table, a: Command, b: Command)
    requires Swappable(section, defs, table, a, b)
    ensures Lawful(section, defs, b)
  {
    hide Active, CheckDeclaration;
    var after := After(section, defs, a);
    TouchedIsInactive(section, defs, a, Readable(section));
    forall id | id in Refs(b)
      ensures id in Active(defs, Readable(section), b.order) && id in defs && after[id] == defs[id]
    {
      Activity(after, Readable(section), b.order, id);
      Activity(defs, Readable(section), b.order, id);
    }
    if Declared(section, b).Some? {
      forall id | id in Active(defs, ALL_SCOPES, b.order + 1)
        ensures id in defs && SlotOf(defs[id]) != SlotOf(Declared(section, b).value)
      {
        Activity(defs, ALL_SCOPES, b.order + 1, id);
        DeclaresElsewhere(section, defs, table, a, b, id);
      }
      WritableDeclaration(section, after, b);
      SlotsAreFree(section, defs, b);
    }
  }

  lemma WritableDeclaration(section: Section, defs: Definitions, cmd: Command)
    requires Lawful(section, defs, cmd) && Declared(section, cmd).Some?
    ensures Declared(section, cmd).value.scope in Writable(section)
  {
  }

  lemma DeclaresElsewhere(section: Section, defs: Definitions, table: Table, a: Command, b: Command, id: string)
    requires Swappable(section, defs, table, a, b) && Declared(section, b).Some?
    requires id in defs && defs[id].order <= b.order && (defs[id].deletedAt.Some? ==> b.order + 1 < defs[id].deletedAt.value)
    ensures SlotOf(defs[id]) != SlotOf(Declared(section, b).value)
  {
    hide Active, CheckDeclaration, Lawful;
    var after := After(section, defs, a);
    TouchedIsInactive(section, defs, a, ALL_SCOPES);
    assert a in [a] && b in [b];
    if Touched(section, a) != Some(id) || !a.cfg.DeleteVariable? {
      SlotIsFree(section, after, b, id);
    }
  }

  /** The earlier of two tied commands is lawful after the later one. */
  lemma LawfulAfter(section: Section, defs: Definitions, table: Table, a: Command, b: Command)
    requires Swappable(section, defs, table, a, b)
    ensures Lawful(section, After(section, defs, b), a)
  {
    hide Active, CheckDeclaration;
    var after := After(section, defs, b);
    TouchedIsInactive(section, defs, b, Readable(section));
    forall id | id in Refs(a)
      ensures id in Active(after, Readable(section), a.order) && id in defs && after[id] == defs[id]
    {
      Activity(defs, Readable(section), a.order, id);
      Activity(after, Readable(section), a.order, id);
      ReadsElsewhere(section, defs, table, a, b, id);
    }
    if Declared(section, a).Some? {
      forall id | id in Active(after, ALL_SCOPES, a.order + 1)
        ensures id in after && SlotOf(after[id]) != SlotOf(Declared(section, a).value)
      {
        Activity(after, ALL_SCOPES, a.order + 1, id);
        DeclaresFirst(section, defs, table, a, b, id);
      }
      WritableDeclaration(section, defs, a);
      SlotsAreFree(section, after, a);
    }
  }

  lemma ReadsElsewhere(section: Section, defs: Definitions, table: Table, a: Command, b: Command, id: string)
    requires Swappable(section, defs, table, a, b) && id in Refs(a)
    requires id in defs && defs[id].order < a.order && (defs[id].deletedAt.Some? ==> a.order < defs[id].deletedAt.value)
    ensures Touched(section, b) != Some(id)
  {
    hide Active, CheckDeclaration;
    if Touched(section, b) == Some(id) {
      if Touched(section, a).Some? {
        TouchedApart(section, defs, table, a, b);
      }
      if Declared(section, b).Some? {
        assert b in [b];
        TouchedIsInactive(section, defs, a, ALL_SCOPES);
        SlotIsFree(section, After(section, defs, a), b, id);
      }
    }
  }

  lemma DeclaresFirst(section: Section, defs: Definitions, table: Table, a: Command, b: Command, id: string)
    requires Swappable(section, defs, table, a, b) && Declared(section, a).Some?
    requires var after := After(section, defs, b);
             id in after && after[id].order <= a.order &&
             (after[id].deletedAt.Some? ==> a.order + 1 < after[id].deletedAt.value)
    ensures SlotOf(After(section, defs, b)[id]) != SlotOf(Declared(section, a).value)
  {
    hide Active, CheckDeclaration;
    TouchedIsInactive(section, defs, b, ALL_SCOPES);
    if Touched(section, b) == Some(id) {
      var d := Declared(section, a).value;
      var after := After(section, defs, a);
      assert after[d.id] == d && d.order == a.order && d.deletedAt.None?;
      SlotIsFree(section, after, b, d.id);
    } else {
      SlotIsFree(section, defs, a, id);
    }
  }

  lemma AfterTwice(section: Section, defs: Definitions, a: Command, b: Command)
    requires Touched(section, a).None? || Touched(section, a) != Touched(section, b)
    ensures After(section, After(section, defs, b), a) == After(section, After(section, defs, a), b)
  {
  }

  lemma Commute(section: Section, defs: Definitions, table: Table, a: Command, b: Command)
    requires Swappable(section, defs, table, a, b)
    ensures Lawful(section, defs, b) && Lawful(section, After(section, defs, b), a)
    ensures After(section, After(section, defs, b), a) == After(section, After(section, defs, a), b)
  {
    hide Swappable, Lawful, After, Touched;
    LawfulBefore(section, defs, table, a, b);
    LawfulAfter(section, defs, table, a, b);
    if Touched(section, a).Some? {
      TouchedApart(section, defs, table, a, b);
    }
    AfterTwice(section, defs, a, b);
  }

  // ---- any listing ------------------------------------------------------------------------------

  /** A command that ties with all commands before it can be taken first. */
  lemma {:induction false} MoveFirst(section: Section, defs: Definitions, table: Table, last: int, cmds: seq<Command>, k: nat)
    requires k < |cmds| && Planned(defs, table, last) && InOrder(cmds, last) && TableDeclares(table, section, cmds)
    requires LawfulRun(section, defs, cmds) && TieFree(section, table, cmds)
    requires forall i | 0 <= i < k :: cmds[i].order == cmds[k].order
    ensures var rest := cmds[..k] + cmds[k + 1..];
            && Lawful(section, defs, cmds[k]) && LawfulRun(section, After(section, defs, cmds[k]), rest)
            && AfterAllOf(section, After(section, defs, cmds[k]), rest) == AfterAllOf(section, defs, cmds)
    decreases k
  {
    hide Lawful, After, Planned, TieFree, TableDeclares, InOrder;
    var rest := cmds[..k] + cmds[k + 1..];
    TailOf(section, table, cmds, last);
    if k == 0 {
      assert rest == cmds[1..];
    } else {
      var a, b, tail := cmds[0], cmds[k], cmds[1..];
      AfterIsPlanned(section, defs, table, last, a);
      assert tail[k - 1] == b && forall i | 0 <= i < k - 1 :: tail[i] == cmds[i + 1];
      MoveFirst(section, After(section, defs, a), table, a.order, tail, k - 1);
      RestOf(cmds, k);
      SwapFirst(section, defs, table, last, cmds, k);
    }
  }

  lemma RestOf(cmds: seq<Command>, k: nat)
    requires 0 < k < |cmds|
    ensures var rest := cmds[..k] + cmds[k + 1..];
            rest != [] && rest[0] == cmds[0] && rest[1..] == cmds[1..][..k - 1] + cmds[1..][k..]
  {
  }

  lemma SwapFirst(section: Section, defs: Definitions, table: Table, last: int, cmds: seq<Command>, k: nat)
    requires 0 < k < |cmds| && Planned(defs, table, last) && last <= cmds[0].order == cmds[k].order
    requires TableDeclares(table, section, cmds) && TieFree(section, table, cmds)
    requires Lawful(section, defs, cmds[0]) && Lawful(section, After(section, defs, cmds[0]), cmds[k])
    ensures var a, b := cmds[0], cmds[k];
            && Lawful(section, defs, b) && Lawful(section, After(section, defs, b), a)
            && After(section, After(section, defs, b), a) == After(section, After(section, defs, a), b)
  {
    hide Lawful, After, Declared, Conflicts;
    assert cmds[0] in cmds && cmds[k] in cmds;
    Commute(section, defs, table, cmds[0], cmds[k]);
  }

  lemma TailOf(section: Section, table: Table, cmds: seq<Command>, last: int)
    requires cmds != [] && InOrder(cmds, last) && TableDeclares(table, section, cmds) && TieFree(section, table, cmds)
    ensures last <= cmds[0].order && InOrder(cmds[1..], cmds[0].order)
    ensures TableDeclares(table, section, [cmds[0]]) && TableDeclares(table, section, cmds[1..])
    ensures TieFree(section, table, cmds[1..])
  {
    hide Declared, Conflicts;
    assert forall cmd | cmd in cmds[1..] :: cmd in cmds;
    assert forall cmd | cmd in [cmds[0]] :: cmd in cmds;
    assert forall i | 0 <= i < |cmds[1..]| :: cmds[1..][i] == cmds[i + 1];
  }

  /** What holds of all commands of a list holds of those of a shorter one. */
  lemma Fewer(section: Section, table: Table, cmds: seq<Command>, fewer: seq<Command>)
    requires TableDeclares(table, section, cmds) && TieFree(section, table, cmds)
    requires forall cmd | cmd in fewer :: cmd in cmds
    ensures TableDeclares(table, section, fewer) && TieFree(section, table, fewer)
  {
    hide Declared, Conflicts;
  }

  /** Without conflicting ties, every listing of a lawful plan is lawful and ends with the same
      definitions. */
  lemma {:induction false} ListingIsLawful(section: Section, defs: Definitions, table: Table, last: int,
                                           cmds: seq<Command>, listing: seq<Command>)
    requires Planned(defs, table, last) && InOrder(cmds, last) && TableDeclares(table, section, cmds)
    requires LawfulRun(section, defs, cmds) && TieFree(section, table, cmds) && IsListing(cmds, listing)
    ensures LawfulRun(section, defs, listing)
    ensures AfterAllOf(section, defs, listing) == AfterAllOf(section, defs, cmds)
    decreases |listing|
  {
    hide Lawful, After, Planned, Conflicts, TieFree, TableDeclares;
    MultisetMembers(listing, cmds);
    assert |listing| == |multiset(listing)| == |multiset(cmds)| == |cmds|;
    if listing == [] {
    } else {
      var h := listing[0];
      var k := FirstTied(cmds, listing);
      var rest := cmds[..k] + cmds[k + 1..];
      MoveFirst(section, defs, table, last, cmds, k);
      WithoutOne(cmds, listing, last, k);
      assert forall cmd | cmd in rest :: cmd in cmds;
      Fewer(section, table, cmds, rest);
      assert TableDeclares(table, section, [h]) by {
        Fewer(section, table, cmds, [h]);
      }
      AfterIsPlanned(section, defs, table, last, h);
      ListingIsLawful(section, After(section, defs, h), table, h.order, rest, listing[1..]);
    }
  }

  /** The first command of a listing ties with all those before it in the plan. */
  lemma FirstTied(cmds: seq<Command>, listing: seq<Command>) returns (k: nat)
    requires listing != [] && IsListing(cmds, listing) && Ascending(cmds)
    ensures k < |cmds| && cmds[k] == listing[0]
    ensures forall i | 0 <= i < k :: cmds[i].order == cmds[k].order
  {
    MultisetMembers(listing, cmds);
    assert listing[0] in cmds;
    k :| 0 <= k < |cmds| && cmds[k] == listing[0];
    forall i | 0 <= i < k
      ensures cmds[i].order == cmds[k].order
    {
      assert cmds[i] in listing;
      var j :| 0 <= j < |listing| && listing[j] == cmds[i];
    }
  }

  lemma WithoutOne(cmds: seq<Command>, listing: seq<Command>, last: int, k: nat)
    requires k < |cmds| && IsListing(cmds, listing) && InOrder(cmds, last) && listing != [] && cmds[k] == listing[0]
    ensures var rest := cmds[..k] + cmds[k + 1..];
            IsListing(rest, listing[1..]) && InOrder(rest, listing[0].order) && last <= listing[0].order
  {
    hide Ascending;
    SameRest(cmds, listing, k);
    TailIsLater(listing);
    RestAscends(cmds, last, k);
    hide InOrder;
    FromThere(cmds[..k] + cmds[k + 1..], listing[1..], listing[0].order);
  }

  lemma FromThere(rest: seq<Command>, tail: seq<Command>, from: int)
    requires multiset(rest) == multiset(tail) && Ascending(rest) && forall cmd | cmd in tail :: from <= cmd.order
    ensures InOrder(rest, from)
  {
    hide Ascending;
    MultisetMembers(rest, tail);
  }

  lemma TailIsLater(listing: seq<Command>)
    requires listing != [] && Ascending(listing)
    ensures Ascending(listing[1..]) && forall cmd | cmd in listing[1..] :: listing[0].order <= cmd.order
  {
  }

  lemma RestAscends(cmds: seq<Command>, last: int, k: nat)
    requires k < |cmds| && InOrder(cmds, last)
    ensures Ascending(cmds[..k] + cmds[k + 1..]) && last <= cmds[k].order
  {
    var rest := cmds[..k] + cmds[k + 1..];
    forall i, j | 0 <= i < j < |rest|
      ensures rest[i].order <= rest[j].order
    {
      var i', j' := if i < k then i else i + 1, if j < k then j else j + 1;
      assert rest[i] == cmds[i'] && rest[j] == cmds[j'] && i' < j';
    }
  }

  lemma SortedIsListing(cmds: seq<Command>)
    ensures IsListing(cmds, SortedCommands(cmds))
    ensures forall cmd :: cmd in SortedCommands(cmds) <==> cmd in cmds
  {
    hide SortedCommands;
    var sorted := SortedCommands(cmds);
    CommandsAreSorted(cmds);
    MultisetMembers(sorted, cmds);
    forall i, j | 0 <= i < j < |sorted|
      ensures sorted[i].order <= sorted[j].order
    {
      assert CommandLeq(sorted[i], sorted[j]);
    }
  }

  /** The plan of a section makes every listing of its commands lawful. */
  lemma AcceptedListing(section: Section, defs: Definitions, table: Table, cmds: seq<Command>, listing: seq<Command>)
    requires Planned(defs, table, 0) && NonNegative(cmds) && TableDeclares(table, section, cmds)
    requires PlanFrom(section, defs, SortedCommands(cmds)).Accepted?
    requires TieFree(section, table, cmds) && IsListing(cmds, listing)
    ensures LawfulRun(section, defs, listing) && InOrder(listing, 0) && TableDeclares(table, section, listing)
    ensures AfterAllOf(section, defs, listing) == PlanFrom(section, defs, SortedCommands(cmds)).value
  {
    hide SortedCommands, PlanFrom, Planned, Conflicts, TieFree, TableDeclares;
    var sorted := SortedCommands(cmds);
    SortedIsListing(cmds);
    PlanIsLawful(section, defs, sorted);
    Fewer(section, table, cmds, sorted);
    MultisetMembers(listing, cmds);
    Fewer(section, table, cmds, listing);
    ListingIsLawful(section, defs, table, 0, sorted, listing);
  }
}
