/** What single commands do to the constants of a context, by their code. */
module CommandEffects {
  import opened PyText
  import opened ObjectHeap
  import opened PathText
  import opened RunContexts
  import opened ConstantStore
  import opened ConstantPlanner
  import opened CommandListings
  import opened PlannerSoundness
  import opened SuiteSoundness

  /** setVariable binds its constant to the value, and no other. */
  lemma SetVariableBinds(c: Context, table: Table, effects: Effects, cmd: Command, v: Val)
    requires Shaped(c) && cmd.cfg.SetVariable? && SimpleName(cmd.cfg.name) && MayWrite(c.kind, cmd.cfg.scope)
    requires effects(cmd.id, []) == Effect(Some(v), false) && (v.Ref? ==> v.addr < |c.heap|)
    ensures ScopesAreDicts(c)
    ensures var r := RunCommand(c, table, effects, cmd);
            && r.status == Finished && r.trace == [Entry(cmd.id, [])]
            && Bindings(r.c, cmd.cfg.scope) == Bindings(c, cmd.cfg.scope)[cmd.cfg.name := v]
            && forall s | s != cmd.cfg.scope :: Bindings(r.c, s) == Bindings(c, s)
  {
    hide WritePath, ConstantPath, Bindings, Shaped, SimpleName;
    ShapedIsReady(c);
    var s, name := cmd.cfg.scope, cmd.cfg.name;
    WriteConstant(c, s, name, v);
    BindingsInHeap(c, s);
    ReboundShape(c, s, Bindings(c, s)[name := v]);
  }

  /** deleteVariable unbinds the constant of its definition, and no other. */
  lemma DeleteVariableUnbinds(c: Context, table: Table, effects: Effects, cmd: Command, slot: Slot)
    requires Shaped(c) && cmd.cfg.DeleteVariable? && cmd.cfg.target in table.rows && table.rows[cmd.cfg.target] == slot
    requires SimpleName(slot.name) && MayWrite(c.kind, slot.scope)
    ensures ScopesAreDicts(c)
    ensures var r := RunCommand(c, table, effects, cmd);
            && r.status == Finished && r.trace == [Entry(cmd.id, [])]
            && Bindings(r.c, slot.scope) == Bindings(c, slot.scope) - {slot.name}
            && forall s | s != slot.scope :: Bindings(r.c, s) == Bindings(c, s)
  {
    hide RemovePath, ConstantPath, Bindings, Shaped, SimpleName;
    ShapedIsReady(c);
    RemoveConstant(c, slot.scope, slot.name);
    BindingsInHeap(c, slot.scope);
    ReboundShape(c, slot.scope, Bindings(c, slot.scope) - {slot.name});
  }

  /** An action with a result constant: its command code decides whether it writes it. receiveQueue and
      queryDatabase do not; the others bind it to the value, saveTable and exportDataset only when they
      have one. */
  lemma ActionBindsResult(c: Context, table: Table, effects: Effects, cmd: Command, slot: Slot)
    requires Shaped(c) && cmd.cfg.Action? && cmd.cfg.refs == [] && cmd.cfg.targetPath.None? && cmd.cfg.result.Some?
    requires cmd.cfg.result.value.definitionId in table.rows && table.rows[cmd.cfg.result.value.definitionId] == slot
    requires SimpleName(slot.name) && MayWrite(c.kind, slot.scope) && !effects(cmd.id, []).raised
    requires effects(cmd.id, []).given.Some? && effects(cmd.id, []).given.value.Ref? ==> effects(cmd.id, []).given.value.addr < |c.heap|
    ensures ScopesAreDicts(c)
    ensures var r, given := RunCommand(c, table, effects, cmd), effects(cmd.id, []).given;
            && r.status == Finished && r.trace == [Entry(cmd.id, [])]
            && Bindings(r.c, slot.scope) ==
               (if cmd.cfg.code in {ReceiveQueue, QueryDatabase} then Bindings(c, slot.scope)
                else if given.Some? then Bindings(c, slot.scope)[slot.name := given.value]
                else if cmd.cfg.code in {SaveTable, ExportDataset} then Bindings(c, slot.scope)
                else Bindings(c, slot.scope)[slot.name := Null])
  {
    hide WritePath, ConstantPath, Bindings, Shaped, SimpleName;
    ShapedIsReady(c);
    ReadNone(c, table);
    var given := effects(cmd.id, []).given;
    var v := if given.Some? then given.value else Null;
    WriteConstant(c, slot.scope, slot.name, v);
    BindingsInHeap(c, slot.scope);
    ReboundShape(c, slot.scope, Bindings(c, slot.scope)[slot.name := v]);
  }

  lemma ReadNone(c: Context, table: Table)
    ensures ReadAll(c, table, []) == Some([])
  {
  }

  /** A command reads the value that the constant holds, but null from one that holds the text of its own
      path. */
  lemma OwnPathReadsNull(c: Context, table: Table, id: string, slot: Slot)
    requires Shaped(c) && id in table.rows && table.rows[id] == slot && SimpleName(slot.name)
    requires slot.name in Bindings(c, slot.scope)
    ensures var v := Bindings(c, slot.scope)[slot.name];
            ReadDefinition(c, table, id) == Some(if v == Str(ConstantPath(slot.scope, slot.name)) then Null else v)
  {
    hide ReadPath, ConstantPath, Bindings, Shaped, SimpleName;
    ReadConstant(c, slot.scope, slot.name);
  }
}
