/** The policy check made before a command runs (command_policy_validator.py): it refuses, in a test
    item, exactly the targets that the run context would refuse. */
module CommandPolicy {
  import opened PyText
  import opened ObjectHeap
  import opened PathText
  import opened RunContexts
  import opened ContextPaths
  import opened ConstantStore
  import opened ConstantPlanner
  import opened CommandListings
  import opened TargetWrites

  /** What the executor of a command writes: setVariable its constant, receiveQueue and queryDatabase their
      target, the senders, savers and HTTP commands their result constant. */
  datatype Writer = ConstantWriter | TargetWriter | ResultWriter | NoWriter

  /** The attributes of a command configuration that name a place to write. */
  datatype Config = Config(writer: Writer, target: Option<string>, context: Option<string>, name: Option<string>,
                           resultTarget: Option<string>, resultName: Option<string>)

  datatype TargetError = UnsupportedTarget(path: string) | GlobalTarget | EnvelopeTarget

  predicate Filled(s: Option<string>) { s.Some? && Strip(s.value) != [] }

  function One(path: Option<string>): seq<string> { if Filled(path) then [path.value] else [] }

  /** `_collect_target_paths`. */
  function Targets(cfg: Config): seq<string> {
    One(cfg.target)
    + (if Filled(cfg.context) && Filled(cfg.name) then ["$." + cfg.context.value + ".constants." + cfg.name.value] else [])
    + One(cfg.resultTarget)
    + (if cfg.resultName.Some? && cfg.resultName.value != [] then ["$.result.constants." + cfg.resultName.value] else [])
  }

  /** `extract_context_root`. */
  function RootOf(path: string): Option<string> {
    match PathKeys(path)
    case None => None
    case Some(keys) => ContextRoot(keys)
  }

  function CheckTarget(kind: ItemKind, path: string): Option<TargetError> {
    match RootOf(path)
    case None => Some(UnsupportedTarget(path))
    case Some(root) =>
      if kind.TestItem? && root == "global" then Some(GlobalTarget)
      else if kind.TestItem? && root == "runEnvelope" then Some(EnvelopeTarget)
      else None
  }

  method CollectTargetPaths(cfg: Config) returns (targets: seq<string>)
    ensures targets == Targets(cfg)
  {
    hide Strip;
    targets := [];
    if Filled(cfg.target) {
      targets := targets + [cfg.target.value];
    }
    if Filled(cfg.context) && Filled(cfg.name) {
      targets := targets + ["$." + cfg.context.value + ".constants." + cfg.name.value];
    }
    if Filled(cfg.resultTarget) {
      targets := targets + [cfg.resultTarget.value];
    }
    if cfg.resultName.Some? && cfg.resultName.value != [] {
      targets := targets + ["$.result.constants." + cfg.resultName.value];
    }
  }

  /** The attributes that the configuration classes have; none that is given is blank. No class has a
      result target, but a configuration could. */
  predicate Validated(cfg: Config) {
    && (cfg.target.Some? ==> Filled(cfg.target)) && (cfg.resultTarget.Some? ==> Filled(cfg.resultTarget))
    && (cfg.context.Some? ==> Filled(cfg.context)) && (cfg.name.Some? ==> Filled(cfg.name))
    && (cfg.resultName.Some? ==> Filled(cfg.resultName))
    && match cfg.writer
       case ConstantWriter => cfg.context.Some? && cfg.name.Some? && cfg.resultName.None?
       case TargetWriter => cfg.context.None? && cfg.name.None?
       case ResultWriter => cfg.target.None? && cfg.context.None? && cfg.name.None?
       case NoWriter => cfg.target.None? && cfg.context.None? && cfg.name.None? && cfg.resultName.None?
  }

  function ConstantText(context: string, name: string): string { "$." + context + ".constants." + name }

  /** The place that the executor may write. */
  function WrittenPlace(cfg: Config): Option<string>
    requires Validated(cfg)
  {
    match cfg.writer
    case ConstantWriter => Some(ConstantText(cfg.context.value, cfg.name.value))
    case TargetWriter => cfg.target
    case ResultWriter => if cfg.resultName.None? then None else Some(ConstantText("result", cfg.resultName.value))
    case NoWriter => None
  }

  /** A place that is collected and never written: the target of setVariable, the result constant of
      receiveQueue and queryDatabase, and a result target. */
  predicate Idle(cfg: Config, path: string) {
    || (cfg.writer.ConstantWriter? && cfg.target == Some(path))
    || (cfg.writer.TargetWriter? && cfg.resultName.Some? && path == ConstantText("result", cfg.resultName.value))
    || cfg.resultTarget == Some(path)
  }

  lemma TargetsByAttribute(cfg: Config, path: string)
    requires Validated(cfg)
    ensures path in Targets(cfg) <==>
            || cfg.target == Some(path) || cfg.resultTarget == Some(path)
            || (cfg.context.Some? && cfg.name.Some? && path == ConstantText(cfg.context.value, cfg.name.value))
            || (cfg.resultName.Some? && path == ConstantText("result", cfg.resultName.value))
  {
    hide Strip;
    StripNothing();
    assert "$." + "result" + ".constants." == "$.result.constants.";
  }

  /** The collected targets are the place that the command writes, and the idle ones. */
  lemma TargetsAreTheWrites(cfg: Config, path: string)
    requires Validated(cfg)
    ensures path in Targets(cfg) <==> WrittenPlace(cfg) == Some(path) || Idle(cfg, path)
  {
    hide Targets, ConstantText, Filled;
    TargetsByAttribute(cfg, path);
  }

  /** So the check refuses some commands for a place that they do not write: setVariable for a local
      constant, with a target in the global scope. */
  lemma IdleTargetIsRefused()
    ensures var cfg := Config(ConstantWriter, Some("$.global.constants.x"), Some("local"), Some("x"), None, None);
            && Validated(cfg) && WrittenPlace(cfg) == Some("$.local.constants.x")
            && CheckTarget(TestItem, WrittenPlace(cfg).value).None?
            && "$.global.constants.x" in Targets(cfg) && CheckTarget(TestItem, "$.global.constants.x") == Some(GlobalTarget)
  {
    hide RootOf, Strip, SimpleName, Targets;
    XIsSimple();
    var cfg := Config(ConstantWriter, Some("$.global.constants.x"), Some("local"), Some("x"), None, None);
    ConstantPathRoot(GlobalScope, "x");
    ConstantPathRoot(LocalScope, "x");
    assert ConstantPath(GlobalScope, "x") == "$.global.constants.x" && ConstantPath(LocalScope, "x") == "$.local.constants.x";
    assert Validated(cfg) by {
      ScopeNameIsSimple(LocalScope);
      SimpleIsFilled("local");
      SimpleIsFilled("x");
      PathIsFilled("$.global.constants.x");
    }
    TargetsByAttribute(cfg, "$.global.constants.x");
  }

  lemma PathIsFilled(path: string)
    requires path != [] && !IsSpace(path[0]) && !IsSpace(path[|path| - 1])
    ensures Filled(Some(path))
  {
    hide Strip, IsSpace;
    StripKeeps(path);
  }

  /** The error of the first target that has one. */
  method ValidateTargetRoots(targets: seq<string>, kind: ItemKind) returns (r: Option<TargetError>)
    ensures r == None ==> forall i | 0 <= i < |targets| :: CheckTarget(kind, targets[i]) == None
    ensures r.Some? ==> exists i :: 0 <= i < |targets| && CheckTarget(kind, targets[i]) == r &&
                                    forall j | 0 <= j < i :: CheckTarget(kind, targets[j]) == None
  {
    hide CheckTarget;
    for i := 0 to |targets|
      invariant forall j | 0 <= j < i :: CheckTarget(kind, targets[j]) == None
    {
      r := CheckTarget(kind, targets[i]);
      if r.Some? {
        return;
      }
    }
    r := None;
  }

  /** The part of `validate_operation_policy` that concerns targets. */
  method ValidateTargets(cfg: Config, kind: ItemKind) returns (r: Option<TargetError>)
    requires Validated(cfg)
    ensures r == None <==> forall path | WrittenPlace(cfg) == Some(path) || Idle(cfg, path) :: CheckTarget(kind, path) == None
    ensures r.Some? ==> exists path :: (WrittenPlace(cfg) == Some(path) || Idle(cfg, path)) && CheckTarget(kind, path) == r
  {
    hide CheckTarget, Targets, Validated, WrittenPlace, Idle;
    var targets := CollectTargetPaths(cfg);
    r := ValidateTargetRoots(targets, kind);
    forall path
      ensures path in targets <==> WrittenPlace(cfg) == Some(path) || Idle(cfg, path)
    {
      TargetsAreTheWrites(cfg, path);
    }
  }

  /** Refused before the value is looked at. */
  predicate RefusedPath(o: Outcome) {
    o.Raised? && (o.error.EmptyPath? || o.error.UnsupportedRoot? || o.error.GlobalImmutable? || o.error.EnvelopeImmutable?)
  }

  lemma WriteBelowIsNotRefused(c: Context, root: string, keys: seq<Key>, value: Val)
    requires ScopesAreDicts(c)
    ensures !RefusedPath(WriteKeys(c, root, keys, value).1)
  {
    hide Assign, TargetFromRoot;
  }

  /** The policy and the write guard agree on every path and value. */
  lemma PolicyIsTheWriteGuard(c: Context, path: string, value: Val)
    requires ScopesAreDicts(c)
    ensures CheckTarget(c.kind, path) == None <==> !RefusedPath(WritePath(c, path, value).1)
    ensures CheckTarget(c.kind, path) == Some(GlobalTarget) <==> WritePath(c, path, value).1 == Raised(GlobalImmutable)
    ensures CheckTarget(c.kind, path) == Some(EnvelopeTarget) <==> WritePath(c, path, value).1 == Raised(EnvelopeImmutable)
    ensures CheckTarget(c.kind, path) != None ==> WritePath(c, path, value).0 == c
  {
    hide PathKeys, ContextRoot, WriteKeys;
    var keys := PathKeys(path);
    if keys.Some? {
      var root := ContextRoot(keys.value);
      if root.Some? {
        WriteBelowIsNotRefused(c, root.value, TargetKeys(root.value, keys.value), value);
      }
    }
  }

  /** A command that passes the policy writes no place that the run context refuses, whatever it
      writes there. */
  lemma AcceptedWritesGoThrough(c: Context, cfg: Config, value: Val)
    requires ScopesAreDicts(c) && Validated(cfg) && WrittenPlace(cfg).Some?
    requires forall i | 0 <= i < |Targets(cfg)| :: CheckTarget(c.kind, Targets(cfg)[i]) == None
    ensures !RefusedPath(WritePath(c, WrittenPlace(cfg).value, value).1)
  {
    hide CheckTarget, WritePath, Targets, Strip, WrittenPlace;
    TargetsAreTheWrites(cfg, WrittenPlace(cfg).value);
    PolicyIsTheWriteGuard(c, WrittenPlace(cfg).value, value);
  }

  /** The paths that have an aim are those that the check passes. */
  lemma AimedTargetsPass(kind: ItemKind, path: string)
    ensures CheckTarget(kind, path).None? <==> AimOf(kind.TestItem?, path).Some?
  {
    hide PathKeys, ContextRoot;
  }

  function WriterOf(cmd: Command): Writer {
    if NeverWrites(cmd) then TargetWriter
    else match cmd.cfg
      case SetVariable(_, _, _, _) => ConstantWriter
      case DeleteVariable(_) => NoWriter
      case Action(_, _, _, result, _) => if result.Some? then ResultWriter else NoWriter
  }

  /** The attributes of a planned command. */
  function ConfigOf(cmd: Command): Config {
    match cmd.cfg
    case SetVariable(_, name, scope, _) => Config(WriterOf(cmd), None, Some(ScopeName(scope)), Some(name), None, None)
    case DeleteVariable(_) => Config(WriterOf(cmd), None, None, None, None, None)
    case Action(_, _, _, result, _) =>
      Config(WriterOf(cmd), TargetOf(cmd), None, None, None, match result case None => None case Some(r) => Some(r.name))
  }

  predicate NamesAreSimple(cmd: Command) {
    match cmd.cfg
    case SetVariable(_, name, _, _) => SimpleName(name)
    case DeleteVariable(_) => true
    case Action(_, _, _, result, _) => result.Some? ==> SimpleName(result.value.name)
  }

  lemma ConstantPathRoot(s: Scope, name: string)
    requires SimpleName(name)
    ensures RootOf(ConstantPath(s, name)) == Some(ScopeName(s))
  {
    hide PathKeys, KeysOf, RefText, ConstantPath, ConstantSegments, SimpleName, Strip;
    var p := ConstantSegments(s, name);
    ConstantPathText(s, name);
    WriterReadsCanonical(p);
    FirstKeys(p);
    ScopeNameStrips(s);
  }

  lemma ScopeNameStrips(s: Scope)
    ensures Strip(ScopeName(s)) == ScopeName(s)
    ensures ScopeName(s) != "vars"
  {
    hide Strip, SimpleName;
    ScopeNameIsSimple(s);
    SimpleIsFilled(ScopeName(s));
  }

  lemma SimpleIsFilled(name: string)
    requires SimpleName(name)
    ensures name != [] && Strip(name) == name && Filled(Some(name))
  {
    hide Strip;
    StripKeeps(name);
  }

  /** What the check makes of a command that the planner accepts in a test: it passes if and only if the
      command's own target does, for the planner has seen to the constant. */
  lemma PlannedTargetsPass(defs: Definitions, cmd: Command)
    requires PlanStep(TestSection, defs, cmd).Accepted? && NamesAreSimple(cmd)
    requires TargetOf(cmd).Some? ==> Filled(TargetOf(cmd))
    ensures (forall i | 0 <= i < |Targets(ConfigOf(cmd))| :: CheckTarget(TestItem, Targets(ConfigOf(cmd))[i]).None?)
            <==> (TargetOf(cmd).Some? ==> AimOf(true, TargetOf(cmd).value).Some?)
  {
    hide Strip, CheckVisibility, Active, SimpleName, RootOf, CheckTarget, AimOf;
    var declared, targets := Declared(TestSection, cmd), Targets(ConfigOf(cmd));
    if TargetOf(cmd).Some? {
      AimedTargetsPass(TestItem, TargetOf(cmd).value);
    }
    if declared.Some? {
      var d := declared.value;
      assert d.scope in Writable(TestSection);
      SimpleIsFilled(d.name);
      ScopeNameStrips(d.scope);
      ConstantPathRoot(d.scope, d.name);
      ConstantPasses(d.scope, d.name);
      PlannedTargets(cmd, d.scope, d.name);
      assert targets == One(TargetOf(cmd)) + [ConstantPath(d.scope, d.name)];
    } else {
      assert targets == One(TargetOf(cmd));
    }
    assert TargetOf(cmd).Some? ==> targets[0] == TargetOf(cmd).value;
  }

  lemma ConstantPasses(s: Scope, name: string)
    requires RootOf(ConstantPath(s, name)) == Some(ScopeName(s)) && s in Writable(TestSection)
    ensures CheckTarget(TestItem, ConstantPath(s, name)).None?
  {
    hide RootOf;
  }

  lemma PlannedTargets(cmd: Command, scope: Scope, name: string)
    requires !cmd.cfg.DeleteVariable? && name != [] && Strip(name) != [] && Strip(ScopeName(scope)) != []
    requires cmd.cfg.SetVariable? ==> cmd.cfg.name == name && cmd.cfg.scope == scope
    requires cmd.cfg.Action? ==> cmd.cfg.result.Some? && cmd.cfg.result.value.name == name && scope == ResultScope
    ensures Targets(ConfigOf(cmd)) == One(TargetOf(cmd)) + [ConstantPath(scope, name)]
  {
    hide Strip;
    if cmd.cfg.Action? {
      assert ConstantPath(ResultScope, name) == "$." + "result" + ".constants." + name;
      assert "$." + "result" + ".constants." == "$.result.constants.";
    }
  }

  /** The configuration of a planned command names the place that running the command writes: the target
      of receiveQueue and queryDatabase, the constant of the others, and none of deleteVariable. */
  lemma PlannedPlaces(cmd: Command)
    requires NamesAreSimple(cmd) && (TargetOf(cmd).Some? ==> Filled(TargetOf(cmd)))
    ensures Validated(ConfigOf(cmd))
    ensures var place := WrittenPlace(ConfigOf(cmd));
            match cmd.cfg
            case SetVariable(_, name, scope, _) => place == Some(ConstantPath(scope, name))
            case DeleteVariable(_) => place == None
            case Action(code, _, _, result, target) =>
              if code.ReceiveQueue? || code.QueryDatabase? then place == target
              else if result.Some? then place == Some(ConstantPath(ResultScope, result.value.name))
              else place == None
  {
    hide Strip, SimpleName;
    match cmd.cfg
    case SetVariable(_, name, scope, _) =>
      SimpleIsFilled(name);
      ScopeNameIsSimple(scope);
      SimpleIsFilled(ScopeName(scope));
    case DeleteVariable(_) =>
    case Action(_, _, _, result, _) =>
      if result.Some? {
        SimpleIsFilled(result.value.name);
      }
  }

  predicate HasText(s: Option<string>) { s.Some? && exists i :: 0 <= i < |s.value| && !IsSpace(s.value[i]) }

  lemma FilledHasText(s: Option<string>)
    ensures Filled(s) <==> HasText(s)
    ensures HasText(s) ==> s.Some?
  {
    hide Strip, IsSpace;
    if s.Some? {
      var before, after := StripIs(s.value);
      if Strip(s.value) != [] {
        assert s.value[|before|] == Strip(s.value)[0];
      }
    }
  }

  /** Which places are collected of any configuration: an attribute of nothing but space names none, except
      that a result name need only not be empty. */
  lemma CollectedExactly(cfg: Config, path: string)
    ensures path in Targets(cfg) <==>
            || (HasText(cfg.target) && cfg.target == Some(path)) || (HasText(cfg.resultTarget) && cfg.resultTarget == Some(path))
            || (HasText(cfg.context) && HasText(cfg.name) && path == "$." + cfg.context.value + ".constants." + cfg.name.value)
            || (cfg.resultName.Some? && cfg.resultName != Some("") && path == "$.result.constants." + cfg.resultName.value)
  {
    hide Filled, HasText;
    FilledHasText(cfg.target);
    FilledHasText(cfg.resultTarget);
    FilledHasText(cfg.context);
    FilledHasText(cfg.name);
  }
}
