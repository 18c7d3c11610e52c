/** When tied commands may be listed in any order: accepted commands run well in every listing exactly
    when no deletion ties with a command that reads the deleted definition or declares its slot. */
module PlannerTies {
  import opened PyList
  import opened ObjectHeap
  import opened PathText
  import opened RunContexts
  import opened ConstantStore
  import opened ConstantPlanner
  import opened CommandListings
  import opened TargetWrites
  import opened PlannerSoundness

  /** The context holds every variable of the interpreter. */
  ghost predicate Mirrors(c: Context, env: Env, table: Table) {
    && Shaped(c)
    && forall id | id in env ::
         && id in table.rows && table.rows[id].name in Bindings(c, table.rows[id].scope)
         && Bindings(c, table.rows[id].scope)[table.rows[id].name] == env[id]
  }

  /** No command fails, each reads what the interpreter reads, and the context holds the interpreter's
      variables throughout. */
  ghost predicate Faithful(c: Context, env: Env, table: Table, effects: Effects, cmds: seq<Command>)
    decreases |cmds|
  {
    && Mirrors(c, env, table)
    && (cmds != [] ==>
          var r, m := RunCommand(c, table, effects, cmds[0]), InterpretCommand(env, table, effects, cmds[0]);
          && r.status == m.status == Finished && r.trace == m.trace
          && Faithful(r.c, m.env, table, effects, cmds[1..]))
  }

  ghost predicate NoneRaises(effects: Effects) { forall id, inputs :: !effects(id, inputs).raised }

  /** The interpreter has a variable for each live definition, except the loose ones, and no other. */
  ghost predicate Exact(env: Env, defs: Definitions, table: Table) {
    forall id :: id in env <==> Live(defs, id) && id !in table.loose
  }

  /** The loose definitions are those of the commands that write nothing under these effects, whatever
      they read; the other commands always write. */
  ghost predicate LooseIsUnwritten(section: Section, table: Table, effects: Effects, cmds: seq<Command>) {
    forall cmd, inputs | cmd in cmds && Declared(section, cmd).Some? ::
      Given(cmd, effects(cmd.id, inputs)).given.None? <==> Declared(section, cmd).value.id in table.loose
  }

  ghost predicate NoTargets(cmds: seq<Command>) { forall cmd | cmd in cmds :: TargetOf(cmd).None? }

  /** No command declares the definition that a tied command deletes. */
  ghost predicate IdsApart(section: Section, cmds: seq<Command>) {
    forall x, y | x in cmds && y in cmds && x.cfg.DeleteVariable? && Declared(section, y).Some? && x.order == y.order ::
      Declared(section, y).value.id != x.cfg.target
  }

  // ---- no ties, no failure ----------------------------------------------------------------------

  lemma ExactMirrors(c: Context, env: Env, defs: Definitions, table: Table, last: int)
    requires Simulates(c, env, defs, table, last) && Exact(env, defs, table)
    ensures Mirrors(c, env, table)
  {
    hide Shaped, Bindings;
    forall id | id in env
      ensures id in table.rows && table.rows[id] == SlotOf(defs[id]) && Live(defs, id)
    {
    }
  }

  lemma ExactAfter(env: Env, defs: Definitions, table: Table, last: int, effects: Effects, section: Section, cmd: Command)
    requires Exact(env, defs, table) && Lawful(section, defs, cmd) && NoneRaises(effects)
    requires LooseIsUnwritten(section, table, effects, [cmd])
    requires InterpretCommand(env, table, effects, cmd).status == Finished
    ensures Exact(InterpretCommand(env, table, effects, cmd).env, After(section, defs, cmd), table)
  {
    hide Lawful, Inputs, Given, Refs;
    assert cmd in [cmd];
  }

  lemma InterpretDoesNotRaise(env: Env, table: Table, effects: Effects, cmd: Command)
    requires NoneRaises(effects)
    ensures InterpretCommand(env, table, effects, cmd).status in {Finished, Broken(cmd.id)}
  {
  }

  lemma NoTargetFails(c: Context, table: Table, effects: Effects, cmd: Command)
    requires ScopesAreDicts(c) && TargetOf(cmd).None?
    ensures !RunCommand(c, table, effects, cmd).status.TargetFailed?
  {
    hide WritePath, RemovePath, ConstantPath, ReadAll, Given;
  }

  lemma {:induction false} LawfulIsFaithful(c: Context, env: Env, defs: Definitions, table: Table, last: int,
                                            effects: Effects, section: Section, cmds: seq<Command>, own: set<nat>)
    requires Simulates(c, env, defs, table, last) && Exact(env, defs, table) && NoneRaises(effects)
    requires Setting(table, effects, section, c, own)
    requires LawfulRun(section, defs, cmds) && Dependable(table, section, effects, cmds) && InOrder(cmds, last)
    requires LooseIsUnwritten(section, table, effects, cmds) && NoTargets(cmds)
    ensures Faithful(c, env, table, effects, cmds)
    decreases |cmds|
  {
    hide RunCommand, InterpretCommand, Lawful, After, Simulates, EffectsFree, SimpleTable, SameShape, Dependable, KeptApart,
         InOrder, Mirrors, Exact, NoneRaises, Declared, Given, TargetOf;
    ExactMirrors(c, env, defs, table, last);
    MirrorsShaped(c, env, table);
    if cmds == [] {
    } else {
      var cmd := cmds[0];
      HeadAndTail(table, section, effects, cmds, last);
      assert cmd in cmds && forall other | other in cmds[1..] :: other in cmds;
      StepAgrees(c, env, defs, table, last, effects, section, cmd, own);
      InterpretDoesNotRaise(env, table, effects, cmd);
      NoTargetFails(c, table, effects, cmd);
      ExactAfter(env, defs, table, last, effects, section, cmd);
      var r, m := RunCommand(c, table, effects, cmd), InterpretCommand(env, table, effects, cmd);
      SameShapeSize(c, r.c);
      EffectsGrow(effects, |c.heap|, |r.c.heap|, own);
      LawfulIsFaithful(r.c, m.env, After(section, defs, cmd), table, cmd.order, effects, section, cmds[1..], own);
    }
  }

  // ---- a conflicting tie breaks some listing ----------------------------------------------------

  function Moved(s: seq<Command>, to: nat, from: nat): seq<Command>
    requires to <= from < |s|
  {
    s[..to] + [s[from]] + s[to..from] + s[from + 1..]
  }

  lemma MovedIsListing(s: seq<Command>, to: nat, from: nat)
    requires to <= from < |s| && Ascending(s)
    requires forall i | to <= i < from :: s[i].order == s[from].order
    ensures IsListing(s, Moved(s, to, from))
  {
    var m := Moved(s, to, from);
    assert multiset(m) == multiset(s) by {
      assert s == s[..to] + s[to..from] + [s[from]] + s[from + 1..];
    }
    forall i, j | 0 <= i < j < |m|
      ensures m[i].order <= m[j].order
    {
      MovedAt(s, to, from, i);
      MovedAt(s, to, from, j);
    }
  }

  lemma MovedAt(s: seq<Command>, to: nat, from: nat, i: nat)
    requires to <= from < |s| && i < |s|
    ensures |Moved(s, to, from)| == |s|
    ensures Moved(s, to, from)[i] == if i < to then s[i] else if i == to then s[from] else if i <= from then s[i - 1] else s[i]
  {
  }

  /** Two tied commands can be listed one directly after the other, in either order. */
  lemma Adjacent(cmds: seq<Command>, x: Command, y: Command) returns (pre: seq<Command>, post: seq<Command>)
    requires x in cmds && y in cmds && x != y && x.order == y.order
    ensures IsListing(cmds, pre + [x, y] + post)
  {
    hide SortedCommands, Moved;
    var s := SortedCommands(cmds);
    SortedIsListing(cmds);
    var i :| 0 <= i < |s| && s[i] == x;
    var j :| 0 <= j < |s| && s[j] == y;
    var to, from := if i < j then i + 1 else j, if i < j then j else i;
    MovedIsListing(s, to, from);
    var m := Moved(s, to, from);
    var at := if i < j then i else j;
    MovedAt(s, to, from, at);
    MovedAt(s, to, from, at + 1);
    pre, post := m[..at], m[at + 2..];
    assert m == pre + [x, y] + post;
  }

  lemma RunKeepsKind(c: Context, table: Table, effects: Effects, cmd: Command)
    requires ScopesAreDicts(c)
    ensures RunCommand(c, table, effects, cmd).c.kind == c.kind
  {
    hide WritePath, RemovePath, ConstantPath, ReadAll;
    forall path, value
      ensures WritePath(c, path, value).0.kind == c.kind
    {
      PathsKeepKind(c, path, value);
    }
    forall path
      ensures RemovePath(c, path).0.kind == c.kind
    {
      PathsKeepKind(c, path, Null);
    }
  }

  lemma PathsKeepKind(c: Context, path: string, value: Val)
    requires ScopesAreDicts(c)
    ensures WritePath(c, path, value).0.kind == c.kind && RemovePath(c, path).0.kind == c.kind
  {
    hide Assign, Remove, PathKeys, ContextRoot, TargetKeys, TargetFromRoot, ReplaceAll;
  }

  lemma {:induction false} FaithfulTail(c: Context, env: Env, table: Table, effects: Effects, pre: seq<Command>,
                                        post: seq<Command>)
    returns (c': Context, env': Env)
    requires Faithful(c, env, table, effects, pre + post)
    ensures Faithful(c', env', table, effects, post) && c'.kind == c.kind
    decreases |pre|
  {
    hide RunCommand, InterpretCommand, Mirrors;
    if pre == [] {
      assert pre + post == post;
      c', env' := c, env;
    } else {
      assert (pre + post)[0] == pre[0] && (pre + post)[1..] == pre[1..] + post;
      assert ScopesAreDicts(c) by {
        MirrorsShaped(c, env, table);
      }
      RunKeepsKind(c, table, effects, pre[0]);
      c', env' := FaithfulTail(RunCommand(c, table, effects, pre[0]).c, InterpretCommand(env, table, effects, pre[0]).env,
                               table, effects, pre[1..], post);
    }
  }

  lemma MirrorsShaped(c: Context, env: Env, table: Table)
    requires Mirrors(c, env, table)
    ensures Shaped(c) && ScopesAreDicts(c)
  {
  }

  lemma {:induction false} InputsNeedAll(env: Env, table: Table, refs: seq<string>, id: string)
    requires id in refs && id !in env
    ensures Inputs(env, table, refs).None?
    decreases |refs|
  {
    if refs[0] == id {
    } else {
      assert refs == [refs[0]] + refs[1..];
      InputsNeedAll(env, table, refs[1..], id);
    }
  }

  /** Deleting first leaves the reader without its definition. */
  lemma DeleteThenRead(c: Context, env: Env, table: Table, effects: Effects, x: Command, y: Command, post: seq<Command>)
    requires x.cfg.DeleteVariable? && y.cfg.Action? && x.cfg.target in y.cfg.refs
    ensures !Faithful(c, env, table, effects, [x, y] + post)
  {
    hide RunCommand, Mirrors;
    var cmds := [x, y] + post;
    assert cmds[0] == x && cmds[1..][0] == y;
    if Faithful(c, env, table, effects, cmds) {
      MirrorsShaped(c, env, table);
      var m := InterpretCommand(env, table, effects, x);
      InputsNeedAll(m.env, table, y.cfg.refs, x.cfg.target);
    }
  }

  /** Deleting last removes what was declared in the same slot. */
  lemma DeclareThenDelete(c: Context, env: Env, table: Table, effects: Effects, section: Section, y: Command, x: Command,
                          post: seq<Command>)
    requires SimpleTable(table) && x.cfg.DeleteVariable? && Declared(section, y).Some?
    requires forall inputs :: Given(y, effects(y.id, inputs)).given.Some?
    requires var d := Declared(section, y).value;
             && x.cfg.target in table.rows && table.rows[x.cfg.target] == SlotOf(d) && d.id != x.cfg.target
             && d.id in table.rows && table.rows[d.id] == SlotOf(d) && MayWrite(c.kind, d.scope)
    ensures !Faithful(c, env, table, effects, [y, x] + post)
  {
    hide RunCommand, Mirrors;
    var cmds := [y, x] + post;
    assert cmds[0] == y && cmds[1..][0] == x;
    if Faithful(c, env, table, effects, cmds) {
      var d := Declared(section, y).value;
      MirrorsShaped(c, env, table);
      var c1, m1 := RunCommand(c, table, effects, y).c, InterpretCommand(env, table, effects, y);
      RunKeepsKind(c, table, effects, y);
      assert Faithful(c1, m1.env, table, effects, cmds[1..]);
      MirrorsShaped(c1, m1.env, table);
      DeclaredIsBound(env, table, effects, section, y);
      var c2, m2 := RunCommand(c1, table, effects, x).c, InterpretCommand(m1.env, table, effects, x);
      assert Faithful(c2, m2.env, table, effects, cmds[1..][1..]);
      DeletedIsUnbound(c1, table, effects, x);
      assert d.id in m2.env;
      MirrorsBound(c2, m2.env, table, d.id);
    }
  }

  lemma DeclaredIsBound(env: Env, table: Table, effects: Effects, section: Section, y: Command)
    requires Declared(section, y).Some? && forall inputs :: Given(y, effects(y.id, inputs)).given.Some?
    requires InterpretCommand(env, table, effects, y).status == Finished
    ensures Declared(section, y).value.id in InterpretCommand(env, table, effects, y).env
  {
  }

  lemma DeletedIsUnbound(c: Context, table: Table, effects: Effects, x: Command)
    requires Shaped(c) && SimpleTable(table) && x.cfg.DeleteVariable? && x.cfg.target in table.rows
    requires MayWrite(c.kind, table.rows[x.cfg.target].scope)
    ensures var slot := table.rows[x.cfg.target]; slot.name !in Bindings(RunCommand(c, table, effects, x).c, slot.scope)
  {
    hide RemovePath, ConstantPath, Bindings, Shaped;
    var slot := table.rows[x.cfg.target];
    RemoveConstant(c, slot.scope, slot.name);
    BindingsInHeap(c, slot.scope);
    ReboundShape(c, slot.scope, Bindings(c, slot.scope) - {slot.name});
  }

  lemma MirrorsBound(c: Context, env: Env, table: Table, id: string)
    requires Mirrors(c, env, table) && id in env
    ensures id in table.rows && table.rows[id].name in Bindings(c, table.rows[id].scope)
  {
  }

  lemma {:induction false} LawfulDeclarations(section: Section, defs: Definitions, cmds: seq<Command>)
    requires LawfulRun(section, defs, cmds)
    ensures forall cmd | cmd in cmds && Declared(section, cmd).Some? :: Declared(section, cmd).value.scope in Writable(section)
    decreases |cmds|
  {
    hide Lawful, After, Declared, Writable;
    if cmds == [] {
    } else {
      LawfulDeclarations(section, After(section, defs, cmds[0]), cmds[1..]);
      if Declared(section, cmds[0]).Some? {
        WritableDeclaration(section, defs, cmds[0]);
      }
      assert forall cmd | cmd in cmds :: cmd == cmds[0] || cmd in cmds[1..];
    }
  }

  lemma ListedCommands(cmds: seq<Command>, listing: seq<Command>)
    requires IsListing(cmds, listing)
    ensures forall cmd :: cmd in listing <==> cmd in cmds
  {
    MultisetMembers(listing, cmds);
  }

  /** A listing that goes wrong. */
  lemma ConflictBreaks(c: Context, env: Env, table: Table, effects: Effects, section: Section, cmds: seq<Command>,
                       x: Command, y: Command) returns (listing: seq<Command>)
    requires SimpleTable(table) && TableDeclares(table, section, cmds) && IdsApart(section, cmds)
    requires KindFits(c.kind, section) && LooseIsUnwritten(section, table, effects, cmds) && table.loose == {}
    requires forall cmd | cmd in cmds && Declared(section, cmd).Some? :: Declared(section, cmd).value.scope in Writable(section)
    requires x in cmds && y in cmds && Conflicts(section, table, x, y)
    ensures IsListing(cmds, listing) && !Faithful(c, env, table, effects, listing)
  {
    hide Faithful, KindFits, Writable, SimpleTable, IsListing;
    assert x != y;
    if y.cfg.Action? && x.cfg.target in y.cfg.refs {
      var pre, post := Adjacent(cmds, x, y);
      listing := pre + [x, y] + post;
      assert listing == pre + ([x, y] + post);
      if Faithful(c, env, table, effects, listing) {
        var c', env' := FaithfulTail(c, env, table, effects, pre, [x, y] + post);
        DeleteThenRead(c', env', table, effects, x, y, post);
      }
    } else {
      var pre, post := Adjacent(cmds, y, x);
      listing := pre + [y, x] + post;
      assert listing == pre + ([y, x] + post);
      WritableScope(c.kind, section, Declared(section, y).value.scope);
      if Faithful(c, env, table, effects, listing) {
        var c', env' := FaithfulTail(c, env, table, effects, pre, [y, x] + post);
        DeclareThenDelete(c', env', table, effects, section, y, x, post);
      }
    }
  }

  /** For accepted commands whose own work does not fail and that write what they declare, and no target:
      the run is faithful in every listing if and only if no tie conflicts. */
  lemma TiesDecide(c: Context, env: Env, initial: Definitions, table: Table, effects: Effects, section: Section,
                   cmds: seq<Command>, own: set<nat>)
    requires Starts(c, env, initial, table) && Exact(env, initial, table) && NoneRaises(effects)
    requires Setting(table, effects, section, c, own)
    requires NonNegative(cmds) && TableDeclares(table, section, cmds) && IdsApart(section, cmds)
    requires table.loose == {} && LooseIsUnwritten(section, table, effects, cmds) && NoTargets(cmds)
    requires PlanFrom(section, Carried(initial), SortedCommands(cmds)).Accepted?
    ensures (forall listing | IsListing(cmds, listing) :: Faithful(c, env, table, effects, listing))
            <==> TieFree(section, table, cmds)
  {
    hide Faithful, Simulates, SortedCommands, Carried, Starts, Planned, TableDeclares, PlanFrom, Conflicts, IdsApart,
         NoneRaises, IsListing, NonNegative, KindFits, SimpleTable, EffectsFree, KeptApart, Dependable, Given;
    StartsParts(c, env, initial, table);
    CarriedIsPlanned(initial, table);
    CarriedSimulates(c, env, initial, table);
    if TieFree(section, table, cmds) {
      forall listing | IsListing(cmds, listing)
        ensures Faithful(c, env, table, effects, listing)
      {
        AcceptedListing(section, Carried(initial), table, cmds, listing);
        ListedCommands(cmds, listing);
        AllDependable(table, section, effects, listing);
        LawfulIsFaithful(c, env, Carried(initial), table, 0, effects, section, listing, own);
      }
    } else {
      var x, y :| x in cmds && y in cmds && Conflicts(section, table, x, y);
      PlanIsLawful(section, Carried(initial), SortedCommands(cmds));
      SortedIsListing(cmds);
      LawfulDeclarations(section, Carried(initial), SortedCommands(cmds));
      var listing := ConflictBreaks(c, env, table, effects, section, cmds, x, y);
    }
  }

  lemma AllDependable(table: Table, section: Section, effects: Effects, cmds: seq<Command>)
    requires TableDeclares(table, section, cmds) && table.loose == {}
    requires LooseIsUnwritten(section, table, effects, cmds) && NoTargets(cmds)
    ensures Dependable(table, section, effects, cmds)
  {
    hide Declared, Given, TargetOf, Refs;
  }
}
