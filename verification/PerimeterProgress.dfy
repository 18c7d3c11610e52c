/** What can go wrong with a perimeter after it has been normalised: which overrides are used, and when
    exactly compiling fails. */
module PerimeterProgress {
  import opened PyText
  import opened Json
  import opened Perimeters
  import opened PerimeterIdempotence
  import opened PerimeterQueries

  // ---- overrides --------------------------------------------------------------------------------

  /** An override whose name only differs by spaces passes the unknown-name check and is then ignored. */
  lemma SpacedOverrideIsIgnored(py: Python, clock: Clock, p: Parameter, v: Value)
    requires p.name == "a" && p.default == NoDefault
    ensures Resolved(py, clock, Perimeter([p], None, None, None), Overrides(map[" a" := v])) == Ok(map["a" := Plain(Null)])
  {
    var given := map[" a" := v];
    SpacedA();
    assert [p][1..] == [];
    hide Strip;
    assert forall k | k in given :: k == " a";
    assert TypeIn([p], "a").Some?;
    assert ResolveOne(py, clock, p, given) == Ok(Plain(Null));
    assert ResolveFrom(py, clock, [p], given, map[]) == ResolveFrom(py, clock, [], given, map["a" := Plain(Null)]);
  }

  lemma SpacedA()
    ensures Strip(" a") == "a"
  {
    hide TrimRight;
    assert " a"[1..] == "a";
    TrimKeeps("a", IsSpace);
  }

  /** The loop looks at the overrides of its parameters' names only. */
  lemma {:induction false} OtherOverridesDoNotMatter(py: Python, clock: Clock, ps: seq<Parameter>, given: map<string, Value>,
                                                     k: string, done: map<string, Value>)
    requires forall i | 0 <= i < |ps| :: ps[i].name != k
    ensures ResolveFrom(py, clock, ps, given - {k}, done) == ResolveFrom(py, clock, ps, given, done)
    decreases |ps|
  {
    hide Coerced, ResolveDefault;
    if ps == [] {
    } else {
      assert ResolveOne(py, clock, ps[0], given - {k}) == ResolveOne(py, clock, ps[0], given);
      assert forall i | 0 <= i < |ps[1..]| :: ps[1..][i] == ps[i + 1];
      if ResolveOne(py, clock, ps[0], given).Ok? {
        OtherOverridesDoNotMatter(py, clock, ps[1..], given, k,
                                  done[ps[0].name := ResolveOne(py, clock, ps[0], given).value]);
      }
    }
  }

  lemma {:induction false} TypeInIndex(ps: seq<Parameter>, name: string) returns (i: nat)
    requires TypeIn(ps, name).Some?
    ensures i < |ps| && ps[i].name == name && ps[i].kind == TypeIn(ps, name).value
    decreases |ps|
  {
    if ps[0].name == name {
      i := 0;
    } else {
      i := TypeInIndex(ps[1..], name);
      i := i + 1;
    }
  }

  /** Every override that passes the unknown-name check: it is the value of its parameter when its name
      has no spaces around it, and otherwise it is ignored, as if it had not been given. */
  lemma OverrideIsUsedExactly(py: Python, clock: Clock, p: Perimeter, given: map<string, Value>, k: string)
    requires ValidParameters(py, p.parameters) && k in given && TypeIn(p.parameters, Strip(k)).Some?
    ensures Strip(k) != k ==> Resolved(py, clock, p, Overrides(given)) == Resolved(py, clock, p, Overrides(given - {k}))
    ensures Strip(k) == k && Resolved(py, clock, p, Overrides(given)).Ok? ==>
              exists i :: 0 <= i < |p.parameters| && p.parameters[i].name == k
                          && k in Resolved(py, clock, p, Overrides(given)).value
                          && Ok(Resolved(py, clock, p, Overrides(given)).value[k]) == Coerced(py, p.parameters[i], given[k])
  {
    hide Strip, ResolveFrom, Coerced, ResolveDefault, TypeIn;
    assert p.parameters != [] by {
      var i := TypeInIndex(p.parameters, Strip(k));
    }
    if Strip(k) != k {
      assert forall i | 0 <= i < |p.parameters| :: ValidParameter(py, p.parameters[i]);
      OtherOverridesDoNotMatter(py, clock, p.parameters, given, k, map[]);
      assert (given - {k}).Keys == given.Keys - {k};
      assert (exists x | x in given :: TypeIn(p.parameters, Strip(x)).None?) <==>
             (exists x | x in given - {k} :: TypeIn(p.parameters, Strip(x)).None?);
    } else if Resolved(py, clock, p, Overrides(given)).Ok? {
      var i := TypeInIndex(p.parameters, k);
      ResolvedValues(py, clock, p.parameters, given, map[], i);
    }
  }

  // ---- progress ---------------------------------------------------------------------------------

  function ConditionsOf(i: Item): seq<Condition> { match i case One(c) => [c] case Group(_, cs) => cs }

  /** The table has the column, and the query builder takes the comparison. */
  ghost predicate Fits(t: Table, resolved: Values, c: Condition) {
    c.field in t.columns && OperandValue(c.operand, resolved).Some? && Takes(c.operator, OperandValue(c.operand, resolved).value)
  }

  ghost predicate ItemFits(t: Table, resolved: Values, i: Item) {
    forall k | 0 <= k < |ConditionsOf(i)| :: Fits(t, resolved, ConditionsOf(i)[k])
  }

  lemma {:induction false} EachSucceeds<S(!new), T>(xs: seq<S>, f: S -> Checked<T>)
    ensures Each(xs, f).Ok? <==> forall i | 0 <= i < |xs| :: f(xs[i]).Ok?
    ensures Each(xs, f).Bad? ==> exists i :: 0 <= i < |xs| && f(xs[i]).Bad? && f(xs[i]).error == Each(xs, f).error
    decreases |xs|
  {
    if xs == [] {
    } else {
      EachSucceeds(xs[1..], f);
      assert forall i | 0 <= i < |xs[1..]| :: xs[1..][i] == xs[i + 1];
      if Each(xs, f).Bad? && f(xs[0]).Ok? {
        var i :| 0 <= i < |xs[1..]| && f(xs[1..][i]).Bad? && f(xs[1..][i]).error == Each(xs[1..], f).error;
        assert f(xs[i + 1]).Bad?;
      }
      if forall i | 0 <= i < |xs| :: f(xs[i]).Ok? {
        assert f(xs[0]).Ok?;
      }
    }
  }

  lemma ConditionFits(t: Table, resolved: Values, c: Condition)
    ensures CompileCondition(t, resolved, c).Ok? <==> Fits(t, resolved, c)
  {
  }

  lemma ItemCompiles(t: Table, resolved: Values, i: Item)
    ensures CompileItem(t, resolved, i).Ok? <==> ItemFits(t, resolved, i)
  {
    hide CompileCondition, Fits;
    match i
    case One(c) =>
      ConditionFits(t, resolved, c);
      assert ConditionsOf(i) == [c];
      assert ItemFits(t, resolved, i) <==> Fits(t, resolved, ConditionsOf(i)[0]);
    case Group(_, cs) =>
      EachSucceeds(cs, ConditionCompiler(t, resolved));
      forall k | 0 <= k < |cs|
        ensures ConditionCompiler(t, resolved)(cs[k]).Ok? <==> Fits(t, resolved, cs[k])
      {
        ConditionFits(t, resolved, cs[k]);
      }
      assert ConditionsOf(i) == cs;
      assert ItemFits(t, resolved, i) <==> forall k | 0 <= k < |cs| :: Fits(t, resolved, cs[k]);
  }

  lemma FilterCompiles(t: Table, resolved: Values, f: Option<Filter>)
    ensures CompileFilter(t, resolved, f).Ok? <==>
            f.None? || forall k | 0 <= k < |f.value.items| :: ItemFits(t, resolved, f.value.items[k])
  {
    hide CompileItem, ItemFits;
    if f.Some? {
      EachSucceeds(f.value.items, ItemCompiler(t, resolved));
      forall k | 0 <= k < |f.value.items|
        ensures ItemCompiler(t, resolved)(f.value.items[k]).Ok? <==> ItemFits(t, resolved, f.value.items[k])
      {
        ItemCompiles(t, resolved, f.value.items[k]);
      }
    }
  }

  /** Everything the perimeter asks of the table. */
  ghost predicate TableServes(t: Table, resolved: Values, p: Perimeter) {
    && (forall i | 0 <= i < |SelectedColumns(t, p)| :: SelectedColumns(t, p)[i] in t.columns)
    && (forall i | 0 <= i < |SortFields(p)| :: SortFields(p)[i] in t.columns)
    && (p.filter.Some? ==> forall k | 0 <= k < |p.filter.value.items| :: ItemFits(t, resolved, p.filter.value.items[k]))
  }

  lemma OperandIsResolved(py: Python, c: Condition, ps: seq<Parameter>, resolved: Values)
    requires ValidCondition(py, c, ps) && forall name :: TypeIn(ps, name).Some? ==> name in resolved
    ensures OperandValue(c.operand, resolved).Some?
  {
    hide TypeIn, IsReference, Compatible, Stripped;
    if c.operand.ParameterRef? {
      assert TypeIn(ps, c.operand.name).Some?;
    }
  }

  /** No condition refers to a parameter that was not resolved. */
  ghost predicate NothingMissing(p: Perimeter, resolved: Values) {
    p.filter.Some? ==> forall k, j | 0 <= k < |p.filter.value.items| && 0 <= j < |ConditionsOf(p.filter.value.items[k])| ::
      OperandValue(ConditionsOf(p.filter.value.items[k])[j].operand, resolved).Some?
  }

  lemma NothingIsMissing(py: Python, clock: Clock, p: Perimeter, o: Overrides)
    requires Valid(py, p) && Resolved(py, clock, p, o).Ok?
    ensures NothingMissing(p, Resolved(py, clock, p, o).value)
  {
    hide ValidCondition, OperandValue, Resolved, ValidParameters, ValidColumns, Stripped;
    var resolved := Resolved(py, clock, p, o).value;
    AllResolved(py, clock, p, o);
    if p.filter.Some? {
      forall k, j | 0 <= k < |p.filter.value.items| && 0 <= j < |ConditionsOf(p.filter.value.items[k])|
        ensures OperandValue(ConditionsOf(p.filter.value.items[k])[j].operand, resolved).Some?
      {
        var i := p.filter.value.items[k];
        assert ValidItem(py, i, p.parameters);
        OperandIsResolved(py, ConditionsOf(i)[j], p.parameters, resolved);
      }
    }
  }

  lemma CompiledExactly(t: Table, resolved: Values, p: Perimeter)
    ensures CompileNormalized(t, resolved, p).Ok? <==> TableServes(t, resolved, p)
  {
    hide CompileFilter, ItemFits, FirstMissing, SelectedColumns, SortFields;
    FilterCompiles(t, resolved, p.filter);
  }

  lemma AllResolved(py: Python, clock: Clock, p: Perimeter, o: Overrides)
    requires Resolved(py, clock, p, o).Ok?
    ensures forall name :: TypeIn(p.parameters, name).Some? ==> name in Resolved(py, clock, p, o).value
  {
    hide ResolveFrom;
    if p.parameters != [] {
      ResolvedNames(py, clock, p.parameters, OverrideValues(o), map[]);
    }
  }

  // ---- when compiling fails ---------------------------------------------------------------------

  ghost predicate HasCondition(p: Perimeter, c: Condition) {
    p.filter.Some? && exists k :: 0 <= k < |p.filter.value.items| && c in ConditionsOf(p.filter.value.items[k])
  }

  /** A selected, filtered or sorted column that the table does not have. */
  ghost predicate LacksColumn(t: Table, p: Perimeter) {
    || (exists name | name in SelectedColumns(t, p) :: name !in t.columns)
    || (exists name | name in SortFields(p) :: name !in t.columns)
    || (exists c | HasCondition(p, c) :: c.field !in t.columns)
  }

  /** A parameter that is given null, or given nothing and has no default. */
  predicate IsLeftNull(p: Parameter, given: map<string, Value>) {
    if p.name in given then given[p.name] == Plain(Null) else p.default == NoDefault || p.default == DefaultValue(Null)
  }

  /** A literal null or boolean, or a parameter left null. */
  ghost predicate NullOperand(ps: seq<Parameter>, given: map<string, Value>, operand: Operand) {
    match operand
    case NoOperand => true
    case Literal(j) => j.Null? || j.Bool?
    case ParameterRef(name) => exists i :: 0 <= i < |ps| && ps[i].name == name && IsLeftNull(ps[i], given)
  }

  /** A condition compares a column with null or a boolean by other than equality. */
  ghost predicate ComparesNull(p: Perimeter, given: map<string, Value>) {
    exists c | HasCondition(p, c) :: Compares(c.operator) && NullOperand(p.parameters, given, c.operand)
  }

  /** Coercion makes no null and, but for boolean parameters, no boolean. */
  lemma CoercedKind(py: Python, kind: ParamType, v: Value)
    requires Coerce(py, kind, v).Some?
    ensures var r := Coerce(py, kind, v).value;
            && (r == Plain(Null) <==> v == Plain(Null))
            && (!kind.BooleanType? ==> !(r.Plain? && r.json.Bool?))
  {
    hide Strip, Lower, IntegerText, DatetimeText, EndsInZ;
  }

  lemma ResolvedKind(py: Python, clock: Clock, p: Parameter, given: map<string, Value>)
    requires ResolveOne(py, clock, p, given).Ok?
    ensures var r := ResolveOne(py, clock, p, given).value;
            && (r == Plain(Null) <==> IsLeftNull(p, given))
            && (!p.kind.BooleanType? ==> !(r.Plain? && r.json.Bool?))
  {
    hide Coerce;
    if p.name in given {
      CoercedKind(py, p.kind, given[p.name]);
    } else {
      match p.default
      case DefaultValue(v) =>
        if !v.Null? {
          CoercedKind(py, p.kind, Plain(v));
        }
      case DefaultBinding(r) =>
        CoercedKind(py, p.kind, if r.Now? then Datetime(clock.now) else Date(clock.today));
      case NoDefault =>
    }
  }

  /** The resolved value of a referenced parameter is refused exactly when the parameter is left null. */
  lemma ReferenceIsTaken(py: Python, clock: Clock, p: Perimeter, o: Overrides, c: Condition)
    requires ValidParameters(py, p.parameters) && Resolved(py, clock, p, o).Ok?
    requires c.operand.ParameterRef? && ValidCondition(py, c, p.parameters)
    ensures var resolved := Resolved(py, clock, p, o).value;
            && c.operand.name in resolved
            && (Takes(c.operator, resolved[c.operand.name]) <==>
                  !(Compares(c.operator) && NullOperand(p.parameters, OverrideValues(o), c.operand)))
  {
    hide Strip, ResolveFrom, ResolveOne, TypeIn, IsLeftNull, Stripped;
    var given, name := OverrideValues(o), c.operand.name;
    var i := TypeInIndex(p.parameters, name);
    ResolvedValues(py, clock, p.parameters, given, map[], i);
    assert ResolveOne(py, clock, p.parameters[i], given) == Ok(Resolved(py, clock, p, o).value[name]) by {
      OneIsResolved(py, clock, p.parameters[i], given);
    }
    ResolvedKind(py, clock, p.parameters[i], given);
    forall j | 0 <= j < |p.parameters| && p.parameters[j].name == name
      ensures j == i
    {
    }
  }

  lemma OneIsResolved(py: Python, clock: Clock, p: Parameter, given: map<string, Value>)
    ensures ResolveOne(py, clock, p, given) ==
            if p.name in given then Coerced(py, p, given[p.name]) else ResolveDefault(py, clock, p)
  {
  }

  lemma ConditionFitsExactly(py: Python, clock: Clock, t: Table, p: Perimeter, o: Overrides, c: Condition)
    requires ValidParameters(py, p.parameters) && Resolved(py, clock, p, o).Ok? && ValidCondition(py, c, p.parameters)
    ensures Fits(t, Resolved(py, clock, p, o).value, c) <==>
            c.field in t.columns && !(Compares(c.operator) && NullOperand(p.parameters, OverrideValues(o), c.operand))
  {
    hide Resolved, ValidParameters, TypeIn, Stripped;
    if c.operand.ParameterRef? {
      ReferenceIsTaken(py, clock, p, o, c);
    }
  }

  lemma ConditionIsValid(py: Python, p: Perimeter, k: nat, j: nat)
    requires Valid(py, p) && p.filter.Some? && k < |p.filter.value.items| && j < |ConditionsOf(p.filter.value.items[k])|
    ensures ValidParameters(py, p.parameters) && ValidCondition(py, ConditionsOf(p.filter.value.items[k])[j], p.parameters)
    ensures HasCondition(p, ConditionsOf(p.filter.value.items[k])[j])
  {
    hide ValidCondition, ValidParameters, ValidColumns, Stripped;
    assert ValidItem(py, p.filter.value.items[k], p.parameters);
  }

  lemma ServesExactly(py: Python, clock: Clock, t: Table, p: Perimeter, o: Overrides)
    requires Valid(py, p) && Resolved(py, clock, p, o).Ok?
    ensures TableServes(t, Resolved(py, clock, p, o).value, p) <==> !LacksColumn(t, p) && !ComparesNull(p, OverrideValues(o))
  {
    hide Valid, Resolved, Fits, ConditionsOf, SelectedColumns, SortFields, ValidParameters, ValidCondition, NullOperand, Compares;
    var resolved := Resolved(py, clock, p, o).value;
    if p.filter.Some? {
      forall k, j | 0 <= k < |p.filter.value.items| && 0 <= j < |ConditionsOf(p.filter.value.items[k])|
        ensures var c := ConditionsOf(p.filter.value.items[k])[j];
                && HasCondition(p, c)
                && (Fits(t, resolved, c) <==>
                      c.field in t.columns && !(Compares(c.operator) && NullOperand(p.parameters, OverrideValues(o), c.operand)))
      {
        ConditionIsValid(py, p, k, j);
        ConditionFitsExactly(py, clock, t, p, o, ConditionsOf(p.filter.value.items[k])[j]);
      }
    }
    ConditionsServe(t, resolved, p, OverrideValues(o));
  }

  lemma ConditionsServe(t: Table, resolved: Values, p: Perimeter, given: map<string, Value>)
    requires p.filter.Some? ==> forall k, j | 0 <= k < |p.filter.value.items| && 0 <= j < |ConditionsOf(p.filter.value.items[k])| ::
               var c := ConditionsOf(p.filter.value.items[k])[j];
               Fits(t, resolved, c) <==> c.field in t.columns && !(Compares(c.operator) && NullOperand(p.parameters, given, c.operand))
    ensures TableServes(t, resolved, p) <==> !LacksColumn(t, p) && !ComparesNull(p, given)
  {
    hide Fits, ConditionsOf, SelectedColumns, SortFields, NullOperand, Compares;
    if TableServes(t, resolved, p) {
      forall c | HasCondition(p, c)
        ensures c.field in t.columns && !(Compares(c.operator) && NullOperand(p.parameters, given, c.operand))
      {
        var k :| 0 <= k < |p.filter.value.items| && c in ConditionsOf(p.filter.value.items[k]);
        assert ItemFits(t, resolved, p.filter.value.items[k]);
      }
    }
    if !LacksColumn(t, p) && !ComparesNull(p, given) {
      forall k, j | p.filter.Some? && 0 <= k < |p.filter.value.items| && 0 <= j < |ConditionsOf(p.filter.value.items[k])|
        ensures Fits(t, resolved, ConditionsOf(p.filter.value.items[k])[j])
      {
        assert HasCondition(p, ConditionsOf(p.filter.value.items[k])[j]);
      }
    }
  }

  /** Once normalising and resolving have succeeded, compiling fails exactly when the table lacks a
      selected, filtered or sorted column, or a condition compares with null or a boolean by other than
      equality. No parameter is missing, and normalising once more on the way changes nothing. */
  lemma CompileFailsExactly(py: Python, clock: Clock, t: Table, raw: Json, o: Overrides)
    requires Lawful(py) && Normalized(py, raw).Ok? && Resolved(py, clock, Normalized(py, raw).value, o).Ok?
    ensures var p := Normalized(py, raw).value;
            var resolved := Resolved(py, clock, p, o).value;
            && (Compiled(py, t, resolved, raw).Bad? <==> LacksColumn(t, p) || ComparesNull(p, OverrideValues(o)))
            && Compiled(py, t, resolved, PerimeterJson(p)) == Compiled(py, t, resolved, raw)
            && NothingMissing(p, resolved)
  {
    hide Normalized, PerimeterJson, Lawful, CompileNormalized, TableServes, NothingMissing, Resolved, Valid,
         LacksColumn, ComparesNull;
    var p := Normalized(py, raw).value;
    NormalizeIsIdempotent(py, raw);
    NormalizedIsValid(py, raw);
    CompiledExactly(t, Resolved(py, clock, p, o).value, p);
    ServesExactly(py, clock, t, p, o);
    NothingIsMissing(py, clock, p, o);
  }

  const AT_LEAST := Perimeter([Parameter("a", IntegerType, None, NoDefault)], None,
                             Some(Filter(And, [One(Condition("c", Gte, ParameterRef("a")))])), None)

  lemma AtLeastIsNormalized(py: Python)
    requires Lawful(py)
    ensures Normalized(py, PerimeterJson(AT_LEAST)) == Ok(AT_LEAST)
  {
    hide Normalized, PerimeterJson, Lawful, Strip;
    StripKeeps("a");
    StripKeeps("c");
    assert TypeIn(AT_LEAST.parameters, "a") == Some(IntegerType);
    ValidReadsBack(py, AT_LEAST);
  }

  /** A parameter without default that no override gives is resolved to null, and the comparison with it
      is refused, although the table has the column. */
  lemma UnsetParameterIsRefused(py: Python, clock: Clock)
    requires Lawful(py)
    ensures Normalized(py, PerimeterJson(AT_LEAST)) == Ok(AT_LEAST)
    ensures Resolved(py, clock, AT_LEAST, NoOverrides) == Ok(map["a" := Plain(Null)])
    ensures CompileNormalized(Table(["c"]), map["a" := Plain(Null)], AT_LEAST) == Bad(Refused)
  {
    hide Normalized, PerimeterJson, Lawful, Strip;
    AtLeastIsNormalized(py);
    var ps, resolved := AT_LEAST.parameters, map["a" := Plain(Null)];
    assert ps[1..] == [];
    assert ResolveOne(py, clock, ps[0], map[]) == Ok(Plain(Null));
    assert ResolveFrom(py, clock, ps, map[], map[]) == ResolveFrom(py, clock, [], map[], resolved);
    var t, i := Table(["c"]), One(Condition("c", Gte, ParameterRef("a")));
    assert CompileItem(t, resolved, i) == Bad(Refused);
    assert ItemCompiler(t, resolved)(i) == Bad(Refused);
    assert Each([i], ItemCompiler(t, resolved)) == Bad(Refused);
    assert FirstMissing(t, ["c"]).None?;
  }
}
