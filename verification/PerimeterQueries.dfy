/** Resolving the parameters of a perimeter and compiling its filter: the compiled query keeps the rows
    that the written filter describes. */
module PerimeterQueries {
  import opened PyText
  import opened Json
  import opened Perimeters
  import opened PerimeterIdempotence

  // ---- resolving parameters ---------------------------------------------------------------------

  datatype Clock = Clock(now: int, today: int)

  datatype Overrides = NoOverrides | NotADictionary | Overrides(values: map<string, Value>)

  function OverrideValues(o: Overrides): map<string, Value> { if o.Overrides? then o.values else map[] }

  function Coerced(py: Python, p: Parameter, v: Value): Checked<Value> {
    match Coerce(py, p.kind, v)
    case None => Bad(BadValue(p.name))
    case Some(c) => Ok(c)
  }

  /** `_resolve_default_value`. */
  function ResolveDefault(py: Python, clock: Clock, p: Parameter): Checked<Value> {
    match p.default
    case DefaultValue(v) => if v.Null? then Ok(Plain(Null)) else Coerced(py, p, Plain(v))
    case DefaultBinding(r) => Coerced(py, p, if r.Now? then Datetime(clock.now) else Date(clock.today))
    case NoDefault => Ok(Plain(Null))
  }

  function ResolveOne(py: Python, clock: Clock, p: Parameter, given: map<string, Value>): Checked<Value> {
    if p.name in given then Coerced(py, p, given[p.name]) else ResolveDefault(py, clock, p)
  }

  function ResolveFrom(py: Python, clock: Clock, ps: seq<Parameter>, given: map<string, Value>, done: map<string, Value>):
    Checked<map<string, Value>>
    decreases |ps|
  {
    if ps == [] then Ok(done)
    else match ResolveOne(py, clock, ps[0], given)
      case Bad(e) => Bad(e)
      case Ok(v) => ResolveFrom(py, clock, ps[1..], given, done[ps[0].name := v])
  }

  /** `resolve` on a normalised perimeter. */
  function Resolved(py: Python, clock: Clock, p: Perimeter, o: Overrides): Checked<map<string, Value>> {
    if p.parameters == [] then Ok(map[])
    else if o.NotADictionary? then Bad(NotAnObject)
    else if exists k | k in OverrideValues(o) :: TypeIn(p.parameters, Strip(k)).None? then Bad(Unsupported("override"))
    else ResolveFrom(py, clock, p.parameters, OverrideValues(o), map[])
  }

  method Resolve(py: Python, clock: Clock, p: Perimeter, o: Overrides) returns (r: Checked<map<string, Value>>)
    ensures r == Resolved(py, clock, p, o)
  {
    hide ResolveOne, TypeIn;
    if p.parameters == [] {
      return Ok(map[]);
    }
    if o.NotADictionary? {
      return Bad(NotAnObject);
    }
    var given := OverrideValues(o);
    if exists k | k in given :: TypeIn(p.parameters, Strip(k)).None? {
      return Bad(Unsupported("override"));
    }
    var resolved: map<string, Value> := map[];
    for i := 0 to |p.parameters|
      invariant ResolveFrom(py, clock, p.parameters, given, map[]) ==
                ResolveFrom(py, clock, p.parameters[i..], given, resolved)
    {
      assert p.parameters[i..][0] == p.parameters[i] && p.parameters[i..][1..] == p.parameters[i + 1..];
      var v := ResolveOne(py, clock, p.parameters[i], given);
      if v.Bad? {
        return Bad(v.error);
      }
      resolved := resolved[p.parameters[i].name := v.value];
    }
    r := Ok(resolved);
  }

  lemma {:induction false} ResolvedNames(py: Python, clock: Clock, ps: seq<Parameter>, given: map<string, Value>, done: map<string, Value>)
    ensures var r := ResolveFrom(py, clock, ps, given, done);
            r.Ok? ==> forall name :: name in r.value <==> name in done || TypeIn(ps, name).Some?
    decreases |ps|
  {
    hide ResolveOne;
    if ps == [] || !ResolveOne(py, clock, ps[0], given).Ok? {
    } else {
      var v := ResolveOne(py, clock, ps[0], given).value;
      ResolvedNames(py, clock, ps[1..], given, done[ps[0].name := v]);
    }
  }

  lemma {:induction false} ResolvedKeeps(py: Python, clock: Clock, ps: seq<Parameter>, given: map<string, Value>, done: map<string, Value>, name: string)
    requires ResolveFrom(py, clock, ps, given, done).Ok? && name in done && forall i | 0 <= i < |ps| :: ps[i].name != name
    ensures name in ResolveFrom(py, clock, ps, given, done).value
    ensures ResolveFrom(py, clock, ps, given, done).value[name] == done[name]
    decreases |ps|
  {
    hide ResolveOne;
    if ps == [] {
    } else {
      var v := ResolveOne(py, clock, ps[0], given).value;
      assert forall i | 0 <= i < |ps[1..]| :: ps[1..][i] == ps[i + 1];
      ResolvedKeeps(py, clock, ps[1..], given, done[ps[0].name := v], name);
    }
  }

  /** Each parameter is resolved on its own: from its override if there is one, else from its default or
      its binding. */
  lemma {:induction false} ResolvedValues(py: Python, clock: Clock, ps: seq<Parameter>, given: map<string, Value>, done: map<string, Value>, k: nat)
    requires ResolveFrom(py, clock, ps, given, done).Ok? && k < |ps| && NamesDiffer(ps)
    ensures ps[k].name in ResolveFrom(py, clock, ps, given, done).value
    ensures Ok(ResolveFrom(py, clock, ps, given, done).value[ps[k].name]) ==
            if ps[k].name in given then Coerced(py, ps[k], given[ps[k].name]) else ResolveDefault(py, clock, ps[k])
    decreases |ps|
  {
    hide Coerced, ResolveDefault;
    var v := ResolveOne(py, clock, ps[0], given).value;
    var tail := ps[1..];
    assert forall i | 0 <= i < |tail| :: tail[i] == ps[i + 1];
    if k == 0 {
      ResolvedKeeps(py, clock, tail, given, done[ps[0].name := v], ps[0].name);
    } else {
      ResolvedValues(py, clock, tail, given, done[ps[0].name := v], k - 1);
    }
  }

  // ---- the compiled query -----------------------------------------------------------------------

  /** The boolean expressions of the query. */
  datatype Expr =
    | NullTest(column: string)
    | NotNullTest(column: string)
    | Comparison(operator: Operator, column: string, value: Value)
    | Membership(column: string, values: seq<Json>)
    | NonMembership(column: string, values: seq<Json>)
    | AndOf(parts: seq<Expr>)
    | OrOf(parts: seq<Expr>)

  datatype Statement = Statement(columns: seq<string>, where: Option<Expr>, orderBy: seq<Sort>)

  datatype Table = Table(columns: seq<string>)

  /** The operators that compare: all but equality, membership and the null tests. */
  predicate Compares(o: Operator) { o !in {Eq, Neq, In, NotIn, IsNull, IsNotNull} }

  /** The query builder (SQLAlchemy 2.0) raises when an operator other than equality is given `None`,
      `True` or `False`. */
  predicate Takes(o: Operator, v: Value) { Compares(o) ==> v != Plain(Null) && !(v.Plain? && v.json.Bool?) }

  type Values = map<string, Value>

  function OperandValue(v: Operand, resolved: Values): Option<Value> {
    match v
    case NoOperand => Some(Plain(Null))
    case Literal(j) => Some(Plain(j))
    case ParameterRef(name) => if name in resolved then Some(resolved[name]) else None
  }

  /** The expression of an operator, a column and a value. */
  function ExprOf(o: Operator, column: string, v: Value): Expr {
    match o
    case Eq => if v == Plain(Null) then NullTest(column) else Comparison(Eq, column, v)
    case Neq => if v == Plain(Null) then NotNullTest(column) else Comparison(Neq, column, v)
    case In => Membership(column, if v.Plain? && v.json.Arr? then v.json.items else [])
    case NotIn => NonMembership(column, if v.Plain? && v.json.Arr? then v.json.items else [])
    case IsNull => NullTest(column)
    case IsNotNull => NotNullTest(column)
    case _ => Comparison(o, column, v)
  }

  /** `_compile_condition`. */
  function CompileCondition(t: Table, resolved: Values, c: Condition): Checked<Expr> {
    if c.field !in t.columns then Bad(MissingColumn(c.field))
    else match OperandValue(c.operand, resolved)
      case None => Bad(BadValue(c.field))
      case Some(v) => if Takes(c.operator, v) then Ok(ExprOf(c.operator, c.field, v)) else Bad(Refused)
  }

  function ConditionCompiler(t: Table, resolved: Values): Condition -> Checked<Expr> {
    c => CompileCondition(t, resolved, c)
  }

  function Joined(logic: Logic, parts: seq<Expr>): Expr { if logic.Or? then OrOf(parts) else AndOf(parts) }

  /** `_compile_filter_item`. */
  function CompileItem(t: Table, resolved: Values, i: Item): Checked<Expr> {
    match i
    case One(c) => CompileCondition(t, resolved, c)
    case Group(logic, cs) =>
      match Each(cs, ConditionCompiler(t, resolved))
      case Bad(e) => Bad(e)
      case Ok(parts) => Ok(Joined(logic, parts))
  }

  function ItemCompiler(t: Table, resolved: Values): Item -> Checked<Expr> { i => CompileItem(t, resolved, i) }

  function CompileFilter(t: Table, resolved: Values, f: Option<Filter>): Checked<Option<Expr>> {
    match f
    case None => Ok(None)
    case Some(Filter(logic, items)) =>
      match Each(items, ItemCompiler(t, resolved))
      case Bad(e) => Bad(e)
      case Ok(parts) => Ok(Some(Joined(logic, parts)))
  }

  /** The first name that the table does not have. */
  function FirstMissing(t: Table, names: seq<string>): (r: Option<string>)
    ensures r.None? <==> forall i | 0 <= i < |names| :: names[i] in t.columns
  {
    if names == [] then None
    else if names[0] !in t.columns then Some(names[0])
    else
      var r := FirstMissing(t, names[1..]);
      assert forall i | 0 <= i < |names[1..]| :: names[1..][i] == names[i + 1];
      assert r.None? ==> forall i | 0 < i < |names| :: names[i] == names[1..][i - 1];
      r
  }

  function SelectedColumns(t: Table, p: Perimeter): seq<string> {
    if p.columns.Some? && p.columns.value != [] then p.columns.value else t.columns
  }

  function SortFields(p: Perimeter): seq<string> {
    if p.sort.None? then [] else seq(|p.sort.value|, k requires 0 <= k < |p.sort.value| => p.sort.value[k].field)
  }

  /** `compile` after its own normalisation. */
  function CompileNormalized(t: Table, resolved: Values, p: Perimeter): Checked<Statement> {
    var columns := SelectedColumns(t, p);
    if FirstMissing(t, columns).Some? then Bad(MissingColumn(FirstMissing(t, columns).value))
    else match CompileFilter(t, resolved, p.filter)
      case Bad(e) => Bad(e)
      case Ok(where) =>
        if FirstMissing(t, SortFields(p)).Some? then Bad(MissingColumn(FirstMissing(t, SortFields(p)).value))
        else Ok(Statement(columns, where, if p.sort.Some? then p.sort.value else []))
  }

  /** `compile`. */
  function Compiled(py: Python, t: Table, resolved: Values, raw: Json): Checked<Statement> {
    match Normalized(py, raw)
    case Bad(e) => Bad(e)
    case Ok(p) => CompileNormalized(t, resolved, p)
  }

  // ---- meaning ----------------------------------------------------------------------------------

  /** The truth values of SQL. */
  datatype Truth = True | False | Unknown

  /** `compare` decides an operator on two values that are not null. */
  type Compare = (Operator, Value, Value) -> bool

  function Cell(row: Values, column: string): Value { if column in row then row[column] else Plain(Null) }

  function FromBool(b: bool): Truth { if b then True else False }

  function Compared(cmp: Compare, o: Operator, a: Value, b: Value): Truth {
    if a == Plain(Null) || b == Plain(Null) then Unknown else FromBool(cmp(o, a, b))
  }

  function BothTrue(a: Truth, b: Truth): Truth {
    if a.False? || b.False? then False else if a.Unknown? || b.Unknown? then Unknown else True
  }

  function EitherTrue(a: Truth, b: Truth): Truth {
    if a.True? || b.True? then True else if a.Unknown? || b.Unknown? then Unknown else False
  }

  function Opposite(a: Truth): Truth { match a case True => False case False => True case Unknown => Unknown }

  function EqualsOne(cmp: Compare, v: Value, values: seq<Json>): Truth {
    if values == [] then False else EitherTrue(Compared(cmp, Eq, v, Plain(values[0])), EqualsOne(cmp, v, values[1..]))
  }

  /** The value of the compiled expression on a row. */
  function Eval(cmp: Compare, row: Values, e: Expr): Truth
    decreases e
  {
    match e
    case NullTest(c) => FromBool(Cell(row, c) == Plain(Null))
    case NotNullTest(c) => FromBool(Cell(row, c) != Plain(Null))
    case Comparison(o, c, v) => Compared(cmp, o, Cell(row, c), v)
    case Membership(c, vs) => EqualsOne(cmp, Cell(row, c), vs)
    case NonMembership(c, vs) => Opposite(EqualsOne(cmp, Cell(row, c), vs))
    case AndOf(parts) => EvalAll(cmp, row, parts)
    case OrOf(parts) => EvalAny(cmp, row, parts)
  }

  function EvalAll(cmp: Compare, row: Values, parts: seq<Expr>): Truth
    decreases parts
  {
    if parts == [] then True else BothTrue(Eval(cmp, row, parts[0]), EvalAll(cmp, row, parts[1..]))
  }

  function EvalAny(cmp: Compare, row: Values, parts: seq<Expr>): Truth
    decreases parts
  {
    if parts == [] then False else EitherTrue(Eval(cmp, row, parts[0]), EvalAny(cmp, row, parts[1..]))
  }

  /** A list of truth values read as one: AND is false if any is false and true if all are true; OR is
      true if any is true and false if all are false. */
  function Reading(logic: Logic, ts: seq<Truth>): Truth {
    if logic.And? then
      if False in ts then False else if Unknown in ts then Unknown else True
    else
      if True in ts then True else if Unknown in ts then Unknown else False
  }

  function ReferenceName(py: Python, written: Json): string {
    if written.Obj? then Token(py, Get(written.fields, "name")) else []
  }

  /** What a written condition says of a row. */
  function ConditionTruth(py: Python, cmp: Compare, row: Values, resolved: Values, raw: Json): Truth {
    if !raw.Obj? then Unknown
    else match OperatorNamed(Lower(Token(py, Get(raw.fields, "operator"))))
      case None => Unknown
      case Some(o) =>
        var written := Get(raw.fields, "value");
        var v := if IsReference(py, written) then Cell(resolved, ReferenceName(py, written)) else Plain(written);
        var cell := Cell(row, Token(py, Get(raw.fields, "field")));
        match o
        case Eq => if v == Plain(Null) then FromBool(cell == Plain(Null)) else Compared(cmp, Eq, cell, v)
        case Neq => if v == Plain(Null) then FromBool(cell != Plain(Null)) else Compared(cmp, Neq, cell, v)
        case In => EqualsOne(cmp, cell, if written.Arr? then written.items else [])
        case NotIn => Opposite(EqualsOne(cmp, cell, if written.Arr? then written.items else []))
        case IsNull => FromBool(cell == Plain(Null))
        case IsNotNull => FromBool(cell != Plain(Null))
        case _ => Compared(cmp, o, cell, v)
  }

  function ItemsOf(v: Json): seq<Json> { if v.Arr? then v.items else [] }

  function ConditionTruths(py: Python, cmp: Compare, row: Values, resolved: Values, raws: seq<Json>): seq<Truth> {
    seq(|raws|, k requires 0 <= k < |raws| => ConditionTruth(py, cmp, row, resolved, raws[k]))
  }

  function LogicWritten(py: Python, fields: map<string, Json>): Logic {
    var l := LogicOf(py, fields);
    if l.Some? then l.value else And
  }

  /** What a written item says: a condition, or a group of conditions under its own logic. */
  function ItemTruth(py: Python, cmp: Compare, row: Values, resolved: Values, raw: Json): Truth {
    if raw.Obj? && Lower(Strip(TextOr(py, Get(raw.fields, "kind"), "condition"))) == "group" then
      Reading(LogicWritten(py, raw.fields),
              ConditionTruths(py, cmp, row, resolved, ItemsOf(Get(raw.fields, "conditions"))))
    else ConditionTruth(py, cmp, row, resolved, raw)
  }

  function ItemTruths(py: Python, cmp: Compare, row: Values, resolved: Values, raws: seq<Json>): seq<Truth> {
    seq(|raws|, k requires 0 <= k < |raws| => ItemTruth(py, cmp, row, resolved, raws[k]))
  }

  /** What a written filter says of a row: its items, or in the old form its conditions, under its logic;
      a filter that lists nothing says yes to every row, under OR as well. */
  function FilterTruth(py: Python, cmp: Compare, row: Values, resolved: Values, raw: Json): Truth {
    if !raw.Obj? then True
    else
      var ts := if Get(raw.fields, "items").Null?
                then ConditionTruths(py, cmp, row, resolved, ItemsOf(Get(raw.fields, "conditions")))
                else ItemTruths(py, cmp, row, resolved, ItemsOf(Get(raw.fields, "items")));
      if ts == [] then True else Reading(LogicWritten(py, raw.fields), ts)
  }

  function WhereTruth(cmp: Compare, row: Values, s: Statement): Truth {
    if s.where.None? then True else Eval(cmp, row, s.where.value)
  }

  function Evals(cmp: Compare, row: Values, parts: seq<Expr>): seq<Truth> {
    seq(|parts|, k requires 0 <= k < |parts| => Eval(cmp, row, parts[k]))
  }

  lemma {:induction false} AllIsReading(cmp: Compare, row: Values, parts: seq<Expr>)
    ensures EvalAll(cmp, row, parts) == Reading(And, Evals(cmp, row, parts))
    ensures EvalAny(cmp, row, parts) == Reading(Or, Evals(cmp, row, parts))
    decreases |parts|
  {
    hide Eval;
    if parts == [] {
    } else {
      AllIsReading(cmp, row, parts[1..]);
      assert Evals(cmp, row, parts) == [Eval(cmp, row, parts[0])] + Evals(cmp, row, parts[1..]);
    }
  }

  lemma JoinedIsReading(cmp: Compare, row: Values, logic: Logic, parts: seq<Expr>)
    ensures Eval(cmp, row, Joined(logic, parts)) == Reading(logic, Evals(cmp, row, parts))
  {
    hide EvalAll, EvalAny;
    AllIsReading(cmp, row, parts);
  }

  /** A compiled condition says what the written one says. */
  lemma ConditionKeepsMeaning(py: Python, cmp: Compare, t: Table, row: Values, resolved: Values, raw: Json, ps: seq<Parameter>)
    requires NormalizeCondition(py, raw, ps).Ok? && CompileCondition(t, resolved, NormalizeCondition(py, raw, ps).value).Ok?
    ensures Eval(cmp, row, CompileCondition(t, resolved, NormalizeCondition(py, raw, ps).value).value)
         == ConditionTruth(py, cmp, row, resolved, raw)
  {
    hide Token, Lower, OperatorNamed, TypeIn, Compatible, IsReference, ReferenceName, Eval, ExprOf;
    var c := NormalizeCondition(py, raw, ps).value;
    ReadsOperand(py, raw, ps, resolved);
    ExprMeaning(cmp, row, c.operator, c.field, OperandValue(c.operand, resolved).value);
  }

  /** The normalised operand has the value that the written one stands for. */
  lemma ReadsOperand(py: Python, raw: Json, ps: seq<Parameter>, resolved: Values)
    requires NormalizeCondition(py, raw, ps).Ok? && OperandValue(NormalizeCondition(py, raw, ps).value.operand, resolved).Some?
    ensures var c := NormalizeCondition(py, raw, ps).value;
            var v := OperandValue(c.operand, resolved).value;
            var written := Get(raw.fields, "value");
            && (c.operator.In? || c.operator.NotIn? ==> written.Arr? && v == Plain(written))
            && (!c.operator.IsNull? && !c.operator.IsNotNull? ==>
                  v == if IsReference(py, written) then Cell(resolved, ReferenceName(py, written)) else Plain(written))
  {
    hide Token, Lower, OperatorNamed, TypeIn, Compatible;
  }

  lemma ExprMeaning(cmp: Compare, row: Values, o: Operator, column: string, v: Value)
    ensures Eval(cmp, row, ExprOf(o, column, v)) ==
            match o
            case Eq => if v == Plain(Null) then FromBool(Cell(row, column) == Plain(Null)) else Compared(cmp, Eq, Cell(row, column), v)
            case Neq => if v == Plain(Null) then FromBool(Cell(row, column) != Plain(Null)) else Compared(cmp, Neq, Cell(row, column), v)
            case In => EqualsOne(cmp, Cell(row, column), if v.Plain? && v.json.Arr? then v.json.items else [])
            case NotIn => Opposite(EqualsOne(cmp, Cell(row, column), if v.Plain? && v.json.Arr? then v.json.items else []))
            case IsNull => FromBool(Cell(row, column) == Plain(Null))
            case IsNotNull => FromBool(Cell(row, column) != Plain(Null))
            case _ => Compared(cmp, o, Cell(row, column), v)
  {
    hide Cell, Compared, EqualsOne;
  }

  lemma ConditionsKeepMeaning(py: Python, cmp: Compare, t: Table, row: Values, resolved: Values, raws: seq<Json>, ps: seq<Parameter>)
    requires Each(raws, ConditionReader(py, ps)).Ok?
    requires Each(Each(raws, ConditionReader(py, ps)).value, ConditionCompiler(t, resolved)).Ok?
    ensures Evals(cmp, row, Each(Each(raws, ConditionReader(py, ps)).value, ConditionCompiler(t, resolved)).value)
         == ConditionTruths(py, cmp, row, resolved, raws)
  {
    hide CompileCondition, NormalizeCondition, Eval, ConditionTruth;
    EachGives(raws, ConditionReader(py, ps));
    var cs := Each(raws, ConditionReader(py, ps)).value;
    EachGives(cs, ConditionCompiler(t, resolved));
    var parts := Each(cs, ConditionCompiler(t, resolved)).value;
    forall k | 0 <= k < |raws|
      ensures Eval(cmp, row, parts[k]) == ConditionTruth(py, cmp, row, resolved, raws[k])
    {
      assert ConditionReader(py, ps)(raws[k]) == Ok(cs[k]) && ConditionCompiler(t, resolved)(cs[k]) == Ok(parts[k]);
      ConditionKeepsMeaning(py, cmp, t, row, resolved, raws[k], ps);
    }
  }

  lemma ItemKeepsMeaning(py: Python, cmp: Compare, t: Table, row: Values, resolved: Values, raw: Json, ps: seq<Parameter>)
    requires NormalizeItem(py, raw, ps).Ok? && CompileItem(t, resolved, NormalizeItem(py, raw, ps).value).Ok?
    ensures Eval(cmp, row, CompileItem(t, resolved, NormalizeItem(py, raw, ps).value).value)
         == ItemTruth(py, cmp, row, resolved, raw)
  {
    hide CompileCondition, NormalizeCondition, Eval, ConditionTruth, Lower, Strip, TextOr, Each, Reading, LogicOf, Joined;
    if Lower(Strip(TextOr(py, Get(raw.fields, "kind"), "condition"))) == "group" {
      var raws := ItemsOf(Get(raw.fields, "conditions"));
      ConditionsKeepMeaning(py, cmp, t, row, resolved, raws, ps);
      var logic := LogicOf(py, raw.fields).value;
      var cs := Each(raws, ConditionReader(py, ps)).value;
      JoinedIsReading(cmp, row, logic, Each(cs, ConditionCompiler(t, resolved)).value);
    } else {
      ConditionKeepsMeaning(py, cmp, t, row, resolved, raw, ps);
    }
  }

  lemma ItemsKeepMeaning(py: Python, cmp: Compare, t: Table, row: Values, resolved: Values, raws: seq<Json>, ps: seq<Parameter>)
    requires Each(raws, ItemReader(py, ps)).Ok?
    requires Each(Each(raws, ItemReader(py, ps)).value, ItemCompiler(t, resolved)).Ok?
    ensures Evals(cmp, row, Each(Each(raws, ItemReader(py, ps)).value, ItemCompiler(t, resolved)).value)
         == ItemTruths(py, cmp, row, resolved, raws)
  {
    hide CompileItem, NormalizeItem, Eval, ItemTruth;
    EachGives(raws, ItemReader(py, ps));
    var items := Each(raws, ItemReader(py, ps)).value;
    EachGives(items, ItemCompiler(t, resolved));
    var parts := Each(items, ItemCompiler(t, resolved)).value;
    forall k | 0 <= k < |raws|
      ensures Eval(cmp, row, parts[k]) == ItemTruth(py, cmp, row, resolved, raws[k])
    {
      assert ItemReader(py, ps)(raws[k]) == Ok(items[k]) && ItemCompiler(t, resolved)(items[k]) == Ok(parts[k]);
      ItemKeepsMeaning(py, cmp, t, row, resolved, raws[k], ps);
    }
  }

  /** The old form: one group under the filter's logic says what its conditions say under that logic. */
  lemma LegacyKeepsMeaning(py: Python, cmp: Compare, t: Table, row: Values, resolved: Values, raw: Json, ps: seq<Parameter>)
    requires raw.Obj? && Get(raw.fields, "items").Null?
    requires NormalizeFilter(py, raw, ps).Ok? && NormalizeFilter(py, raw, ps).value.Some?
    requires CompileFilter(t, resolved, NormalizeFilter(py, raw, ps).value).Ok?
    ensures Eval(cmp, row, CompileFilter(t, resolved, NormalizeFilter(py, raw, ps).value).value.value)
         == FilterTruth(py, cmp, row, resolved, raw)
  {
    hide CompileCondition, NormalizeCondition, Eval, ConditionTruth, Reading, LogicOf, Joined, Each, CompileFilter, NormalizeFilter;
    hide Evals;
    var raws := ItemsOf(Get(raw.fields, "conditions"));
    LegacyIsOneGroup(py, raw, ps);
    var logic := LogicOf(py, raw.fields).value;
    var cs := Each(raws, ConditionReader(py, ps)).value;
    EachGives(raws, ConditionReader(py, ps));
    CompileOneGroup(t, resolved, logic, cs);
    var parts := Each(cs, ConditionCompiler(t, resolved)).value;
    ConditionsKeepMeaning(py, cmp, t, row, resolved, raws, ps);
    JoinedIsReading(cmp, row, logic, parts);
    JoinedIsReading(cmp, row, logic, [Joined(logic, parts)]);
    OneEval(cmp, row, Joined(logic, parts));
    OneReading(logic, Eval(cmp, row, Joined(logic, parts)));
    assert |ConditionTruths(py, cmp, row, resolved, raws)| == |raws| > 0;
  }

  lemma OneEval(cmp: Compare, row: Values, e: Expr)
    ensures Evals(cmp, row, [e]) == [Eval(cmp, row, e)]
  {
    hide Eval;
  }

  lemma LegacyIsOneGroup(py: Python, raw: Json, ps: seq<Parameter>)
    requires raw.Obj? && Get(raw.fields, "items").Null?
    requires NormalizeFilter(py, raw, ps).Ok? && NormalizeFilter(py, raw, ps).value.Some?
    ensures LogicOf(py, raw.fields).Some?
    ensures var r := Each(ItemsOf(Get(raw.fields, "conditions")), ConditionReader(py, ps));
            var logic := LogicOf(py, raw.fields).value;
            r.Ok? && r.value != [] && NormalizeFilter(py, raw, ps).value == Some(Filter(logic, [Group(logic, r.value)]))
  {
    hide LogicOf, Each;
  }

  lemma CompileOneGroup(t: Table, resolved: Values, logic: Logic, cs: seq<Condition>)
    requires CompileFilter(t, resolved, Some(Filter(logic, [Group(logic, cs)]))).Ok?
    ensures var r := Each(cs, ConditionCompiler(t, resolved));
            r.Ok? && CompileFilter(t, resolved, Some(Filter(logic, [Group(logic, cs)]))).value ==
                     Some(Joined(logic, [Joined(logic, r.value)]))
  {
    hide Joined;
    var group := Group(logic, cs);
    var f := ItemCompiler(t, resolved);
    assert [group][1..] == [];
    assert Each([group][1..], f) == Ok([]);
    assert f(group) == CompileItem(t, resolved, group);
    var none: seq<Expr> := [];
    var x := Joined(logic, Each(cs, ConditionCompiler(t, resolved)).value);
    assert [x] + none == [x];
  }

  lemma OneReading(logic: Logic, t: Truth)
    ensures Reading(logic, [t]) == t
  {
  }

  lemma GroupedKeepsMeaning(py: Python, cmp: Compare, t: Table, row: Values, resolved: Values, raw: Json, ps: seq<Parameter>)
    requires raw.Obj? && !Get(raw.fields, "items").Null?
    requires NormalizeFilter(py, raw, ps).Ok? && NormalizeFilter(py, raw, ps).value.Some?
    requires CompileFilter(t, resolved, NormalizeFilter(py, raw, ps).value).Ok?
    ensures Eval(cmp, row, CompileFilter(t, resolved, NormalizeFilter(py, raw, ps).value).value.value)
         == FilterTruth(py, cmp, row, resolved, raw)
  {
    hide CompileItem, NormalizeItem, Eval, ItemTruth, Reading, LogicOf, Joined, Each;
    var raws := ItemsOf(Get(raw.fields, "items"));
    var logic := LogicOf(py, raw.fields).value;
    var items := Each(raws, ItemReader(py, ps)).value;
    EachGives(raws, ItemReader(py, ps));
    ItemsKeepMeaning(py, cmp, t, row, resolved, raws, ps);
    JoinedIsReading(cmp, row, logic, Each(items, ItemCompiler(t, resolved)).value);
  }

  lemma EmptyFilterSaysYes(py: Python, cmp: Compare, row: Values, resolved: Values, raw: Json, ps: seq<Parameter>)
    requires NormalizeFilter(py, raw, ps) == Ok(None)
    ensures FilterTruth(py, cmp, row, resolved, raw) == True
  {
    hide NormalizeItem, NormalizeCondition, ItemTruth, ConditionTruth, Reading, LogicOf, Each;
    if raw.Obj? {
      var items, conditions := ItemsOf(Get(raw.fields, "items")), ItemsOf(Get(raw.fields, "conditions"));
      EachGivesOrFails(items, ItemReader(py, ps));
      EachGivesOrFails(conditions, ConditionReader(py, ps));
      if Get(raw.fields, "items").Null? {
        assert |conditions| == 0;
        assert ConditionTruths(py, cmp, row, resolved, conditions) == [];
      } else {
        assert |items| == 0;
        assert ItemTruths(py, cmp, row, resolved, items) == [];
      }
    }
  }

  lemma EachGivesOrFails<S, T>(raws: seq<S>, f: S -> Checked<T>)
    ensures Each(raws, f).Ok? ==> |Each(raws, f).value| == |raws|
  {
    if Each(raws, f).Ok? {
      EachGives(raws, f);
    }
  }

  /** Compiling keeps the meaning: on every row, the query's condition has the truth value that the
      written filter has, in its grouped and in its old form, with the resolved parameters in place. */
  lemma CompileKeepsMeaning(py: Python, cmp: Compare, t: Table, row: Values, resolved: Values, raw: Json)
    requires raw.Obj? && Compiled(py, t, resolved, raw).Ok?
    ensures WhereTruth(cmp, row, Compiled(py, t, resolved, raw).value)
         == FilterTruth(py, cmp, row, resolved, Get(raw.fields, "filter"))
  {
    hide NormalizeFilter, CompileFilter, FilterTruth, Eval;
    hide NormalizeColumnList, NormalizeSortList, NormalizeParameterList, FirstMissing, SelectedColumns, SortFields;
    var p := Normalized(py, raw).value;
    var filter := Get(raw.fields, "filter");
    if p.filter.None? {
      EmptyFilterSaysYes(py, cmp, row, resolved, filter, p.parameters);
      NoFilterCompiles(t, resolved);
    } else {
      FilterIsWritten(py, filter, p.parameters);
      SomeFilterCompiles(t, resolved, p.filter);
      if Get(filter.fields, "items").Null? {
        LegacyKeepsMeaning(py, cmp, t, row, resolved, filter, p.parameters);
      } else {
        GroupedKeepsMeaning(py, cmp, t, row, resolved, filter, p.parameters);
      }
    }
  }

  lemma NoFilterCompiles(t: Table, resolved: Values)
    ensures CompileFilter(t, resolved, None) == Ok(None)
  {
  }

  lemma SomeFilterCompiles(t: Table, resolved: Values, f: Option<Filter>)
    requires f.Some? && CompileFilter(t, resolved, f).Ok?
    ensures CompileFilter(t, resolved, f).value.Some?
  {
  }

  lemma FilterIsWritten(py: Python, raw: Json, ps: seq<Parameter>)
    requires NormalizeFilter(py, raw, ps).Ok? && NormalizeFilter(py, raw, ps).value.Some?
    ensures raw.Obj?
  {
  }
}
