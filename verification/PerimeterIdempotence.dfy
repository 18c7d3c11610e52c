/** Normalising a normalised perimeter gives the same perimeter. */
module PerimeterIdempotence {
  import opened PyText
  import opened Json
  import opened Perimeters

  // ---- texts ------------------------------------------------------------------------------------

  lemma TokenIsStripped(py: Python, v: Json)
    ensures Strip(Token(py, v)) == Token(py, v)
  {
    hide Strip;
    StripTwice(TextOr(py, v, []));
  }

  /** A stripped text is read back as it is. */
  lemma TokenOfText(py: Python, s: string)
    requires Lawful(py) && Strip(s) == s
    ensures Token(py, Str(s)) == s
  {
    hide Strip;
    assert py.str(Plain(Str(s))) == s;
  }

  predicate NoUpper(s: string) { forall i | 0 <= i < |s| :: !('A' <= s[i] <= 'Z') }

  predicate NoEdgeSpace(s: string) { s != [] && !IsSpace(s[0]) && !IsSpace(s[|s| - 1]) }

  /** A name of lower-case letters is read back as it is. */
  lemma LowerToken(py: Python, s: string)
    requires Lawful(py) && NoUpper(s) && NoEdgeSpace(s)
    ensures Lower(Token(py, Str(s))) == s && Lower(Strip(TextOr(py, Str(s), "condition"))) == s
    ensures Lower(Strip(TextOr(py, Str(s), "asc"))) == s && Token(py, Str(s)) == s
  {
    hide Strip, IsSpace;
    StripKeeps(s);
    assert py.str(Plain(Str(s))) == s;
    LowerSame(s);
  }

  lemma LowerSame(s: string)
    requires NoUpper(s)
    ensures Lower(s) == s
  {
  }

  lemma LogicReadsBack(py: Python, l: Logic, fields: map<string, Json>)
    requires Lawful(py) && "logic" in fields && fields["logic"] == Str(LogicName(l))
    ensures LogicOf(py, fields) == Some(l)
  {
    hide Strip, Upper;
    StripKeeps(LogicName(l));
    assert py.str(Plain(Str(LogicName(l)))) == LogicName(l);
    UpperLogic(l);
  }

  lemma UpperLogic(l: Logic)
    ensures Upper(LogicName(l)) == LogicName(l) && LogicNamed(LogicName(l)) == Some(l)
  {
  }

  lemma OperatorReadsBack(o: Operator)
    ensures OperatorNamed(OperatorName(o)) == Some(o)
  {
  }

  lemma OperatorIsLower(o: Operator)
    ensures NoUpper(OperatorName(o)) && NoEdgeSpace(OperatorName(o))
  {
    var s := OperatorName(o);
    assert |s| > 0 && 'a' <= s[0] <= 'z' && 'a' <= s[|s| - 1] <= 'z';
  }

  lemma TypeReadsBack(t: ParamType)
    ensures TypeNamed(TypeName(t)) == Some(t) && NoUpper(TypeName(t)) && NoEdgeSpace(TypeName(t))
  {
  }

  // ---- lists ------------------------------------------------------------------------------------

  lemma {:induction false} EachReads<S, T>(raws: seq<S>, f: S -> Checked<T>, xs: seq<T>)
    requires |raws| == |xs| && forall i | 0 <= i < |xs| :: f(raws[i]) == Ok(xs[i])
    ensures Each(raws, f) == Ok(xs)
    decreases |raws|
  {
    if raws != [] {
      EachReads(raws[1..], f, xs[1..]);
      assert [xs[0]] + xs[1..] == xs;
    } else {
      assert xs == [];
    }
  }

  lemma {:induction false} EachGives<S, T>(raws: seq<S>, f: S -> Checked<T>)
    requires Each(raws, f).Ok?
    ensures |Each(raws, f).value| == |raws| && forall i | 0 <= i < |raws| :: f(raws[i]) == Ok(Each(raws, f).value[i])
    decreases |raws|
  {
    if raws == [] {
    } else {
      EachGives(raws[1..], f);
    }
  }

  // ---- parameters -------------------------------------------------------------------------------

  ghost predicate Stripped(s: string) { s != [] && Strip(s) == s }

  ghost predicate ValidDefault(py: Python, t: ParamType, d: Default) {
    d.DefaultValue? && !d.value.Null? ==>
      Coerce(py, t, Plain(d.value)).Some? && Serialized(py, Coerce(py, t, Plain(d.value)).value) == d.value
  }

  ghost predicate ValidParameter(py: Python, p: Parameter) {
    && Stripped(p.name) && (p.description.Some? ==> Stripped(p.description.value)) && ValidDefault(py, p.kind, p.default)
  }

  lemma IntegerStays(py: Python, v: Json)
    requires CoerceInteger(Plain(v)).Some?
    ensures var c := CoerceInteger(Plain(v)).value;
            c.Plain? && CoerceInteger(c) == Some(c) && !c.json.Null?
  {
  }

  lemma NumberStays(py: Python, v: Json)
    requires CoerceNumber(py, Plain(v)).Some?
    ensures var c := CoerceNumber(py, Plain(v)).value;
            c.Plain? && CoerceNumber(py, c) == Some(c) && !c.json.Null?
  {
    hide Strip;
  }

  lemma BooleanStays(v: Json)
    requires CoerceBoolean(Plain(v)).Some?
    ensures var c := CoerceBoolean(Plain(v)).value;
            c.Plain? && CoerceBoolean(c) == Some(c) && !c.json.Null?
  {
    hide Strip, Lower;
  }

  /** A date that is printed is read back, whichever text it came from. */
  lemma DateStays(py: Python, d: int)
    requires Lawful(py)
    ensures CoerceDate(py, Plain(Str(py.printDate(d)))) == Some(Date(d))
  {
    hide Strip;
    assert py.parseDate(py.printDate(d)) == Some(d);
  }

  lemma DatetimeStays(py: Python, t: int)
    requires Lawful(py)
    ensures CoerceDatetime(py, Plain(Str(py.printDatetime(t)))) == Some(Datetime(t))
  {
    hide Strip;
    assert py.parseDatetime(py.printDatetime(t)) == Some(t);
  }

  /** A coerced and serialised default is coerced and serialised to itself. */
  lemma DefaultStays(py: Python, t: ParamType, v: Json)
    requires Lawful(py) && Coerce(py, t, Plain(v)).Some?
    ensures ValidDefault(py, t, DefaultValue(Serialized(py, Coerce(py, t, Plain(v)).value)))
  {
    hide CoerceInteger, CoerceNumber, CoerceBoolean, CoerceDate, CoerceDatetime, Lawful;
    if !v.Null? {
      match t
      case StringType => TextStays(py, v);
      case IntegerType => IntegerStays(py, v);
      case NumberType => NumberStays(py, v);
      case BooleanType => BooleanStays(v);
      case DateType =>
        CoercedToDate(py, v);
        DateStays(py, CoerceDate(py, Plain(v)).value.day);
      case DatetimeType =>
        CoercedToDatetime(py, v);
        DatetimeStays(py, CoerceDatetime(py, Plain(v)).value.instant);
    }
  }

  lemma TextStays(py: Python, v: Json)
    requires Lawful(py)
    ensures py.str(Plain(Str(py.str(Plain(v))))) == py.str(Plain(v))
  {
  }

  lemma CoercedToDate(py: Python, v: Json)
    ensures CoerceDate(py, Plain(v)).Some? ==> CoerceDate(py, Plain(v)).value.Date?
  {
    hide Strip;
  }

  lemma CoercedToDatetime(py: Python, v: Json)
    ensures CoerceDatetime(py, Plain(v)).Some? ==> CoerceDatetime(py, Plain(v)).value.Datetime?
  {
    hide Strip;
  }

  lemma ParameterIsValid(py: Python, raw: Json)
    requires Lawful(py) && NormalizeParameter(py, raw).Ok?
    ensures ValidParameter(py, NormalizeParameter(py, raw).value)
  {
    hide Strip, Token, Coerce, Serialized, Lower, ValidDefault;
    TokenIsStripped(py, Get(raw.fields, "name"));
    TokenIsStripped(py, Get(raw.fields, "description"));
    var t := TypeNamed(Lower(Token(py, Get(raw.fields, "type")))).value;
    DefaultIsValid(py, raw.fields, t);
  }

  lemma DefaultIsValid(py: Python, fields: map<string, Json>, t: ParamType)
    requires Lawful(py)
    ensures NormalizeDefault(py, fields, t).Ok? ==> ValidDefault(py, t, NormalizeDefault(py, fields, t).value)
  {
    hide Strip, Token, Coerce, Serialized, Lower;
    if "default_value" in fields && Coerce(py, t, Plain(fields["default_value"])).Some? {
      DefaultStays(py, t, fields["default_value"]);
    }
  }

  lemma BindingReadsBack(py: Python, r: Resolver)
    requires Lawful(py)
    ensures NormalizeBinding(py, Obj(map["kind" := Str("built_in"), "resolver" := Str(ResolverName(r))])) == Ok(DefaultBinding(r))
  {
    hide Strip, Lower, Token;
    LowerToken(py, "built_in");
    LowerToken(py, ResolverName(r));
  }

  lemma DefaultReadsBack(py: Python, p: Parameter)
    requires Lawful(py) && ValidParameter(py, p)
    ensures NormalizeDefault(py, ParameterJson(p).fields, p.kind) == Ok(p.default)
  {
    hide Coerce, Serialized, NormalizeBinding, Strip;
    if p.default.DefaultBinding? {
      BindingReadsBack(py, p.default.resolver);
    }
  }

  lemma ParameterReadsBack(py: Python, p: Parameter)
    requires Lawful(py) && ValidParameter(py, p)
    ensures NormalizeParameter(py, ParameterJson(p)) == Ok(p)
  {
    hide Strip, Token, Lower, NormalizeDefault, ValidDefault, TypeName, TypeNamed, NoUpper, NoEdgeSpace;
    TokenOfText(py, p.name);
    TypeReadsBack(p.kind);
    LowerToken(py, TypeName(p.kind));
    DefaultReadsBack(py, p);
    if p.description.Some? {
      TokenOfText(py, p.description.value);
    } else {
      TokenOfNull(py);
    }
  }

  lemma TokenOfNull(py: Python)
    ensures Token(py, Null) == []
  {
    StripNothing();
  }

  ghost predicate NamesDiffer(ps: seq<Parameter>) { forall i, j | 0 <= i < j < |ps| :: ps[i].name != ps[j].name }

  ghost predicate ValidParameters(py: Python, ps: seq<Parameter>) {
    NamesDiffer(ps) && forall i | 0 <= i < |ps| :: ValidParameter(py, ps[i])
  }

  lemma {:induction false} TypeInNone(ps: seq<Parameter>, name: string)
    ensures TypeIn(ps, name).None? <==> forall i | 0 <= i < |ps| :: ps[i].name != name
  {
    if ps == [] {
    } else {
      TypeInNone(ps[1..], name);
      assert forall i | 0 <= i < |ps[1..]| :: ps[1..][i] == ps[i + 1];
    }
  }

  lemma {:induction false} ParametersAreValid(py: Python, raws: seq<Json>, done: seq<Parameter>)
    requires Lawful(py) && ValidParameters(py, done)
    ensures NormalizeParametersFrom(py, raws, done).Ok? ==> ValidParameters(py, NormalizeParametersFrom(py, raws, done).value)
    decreases |raws|
  {
    hide NormalizeParameter, ValidParameter;
    if raws == [] || !NormalizeParameter(py, raws[0]).Ok? {
    } else {
      var p := NormalizeParameter(py, raws[0]).value;
      ParameterIsValid(py, raws[0]);
      TypeInNone(done, p.name);
      if TypeIn(done, p.name).None? {
        ParametersAreValid(py, raws[1..], done + [p]);
      }
    }
  }

  lemma {:induction false} ParametersReadBack(py: Python, done: seq<Parameter>, rest: seq<Parameter>)
    requires Lawful(py) && ValidParameters(py, done + rest)
    ensures NormalizeParametersFrom(py, ParametersJson(rest), done) == Ok(done + rest)
    decreases |rest|
  {
    hide NormalizeParameter, ValidParameter, ParameterJson;
    if rest == [] {
      assert done + rest == done;
    } else {
      assert (done + rest)[|done|] == rest[0];
      ParameterReadsBack(py, rest[0]);
      TypeInNone(done, rest[0].name);
      assert forall i | 0 <= i < |done| :: (done + rest)[i] == done[i];
      assert done + rest == (done + [rest[0]]) + rest[1..];
      ParametersReadBack(py, done + [rest[0]], rest[1..]);
      assert ParametersJson(rest)[1..] == ParametersJson(rest[1..]);
    }
  }

  // ---- columns and sort -------------------------------------------------------------------------

  ghost predicate ValidColumns(cs: seq<string>) {
    (forall i | 0 <= i < |cs| :: Stripped(cs[i])) && forall i, j | 0 <= i < j < |cs| :: cs[i] != cs[j]
  }

  lemma {:induction false} ColumnsAreValid(py: Python, raws: seq<Json>, done: seq<string>)
    requires ValidColumns(done)
    ensures NormalizeColumnsFrom(py, raws, done).Ok? ==> ValidColumns(NormalizeColumnsFrom(py, raws, done).value)
    decreases |raws|
  {
    hide Token, Strip;
    if raws == [] {
    } else {
      TokenIsStripped(py, raws[0]);
      var name := Token(py, raws[0]);
      if name != [] && name !in done {
        ColumnsAreValid(py, raws[1..], done + [name]);
      }
    }
  }

  lemma {:induction false} ColumnsReadBack(py: Python, done: seq<string>, rest: seq<string>)
    requires Lawful(py) && ValidColumns(done + rest)
    ensures NormalizeColumnsFrom(py, Texts(rest), done) == Ok(done + rest)
    decreases |rest|
  {
    hide Token, Strip;
    if rest == [] {
      assert done + rest == done;
    } else {
      assert (done + rest)[|done|] == rest[0];
      TokenOfText(py, rest[0]);
      assert forall i | 0 <= i < |done| :: (done + rest)[i] == done[i];
      assert done + rest == (done + [rest[0]]) + rest[1..];
      ColumnsReadBack(py, done + [rest[0]], rest[1..]);
      assert Texts(rest)[1..] == Texts(rest[1..]);
    }
  }

  function Tokens(py: Python, raws: seq<Json>): seq<string> {
    seq(|raws|, k requires 0 <= k < |raws| => Token(py, raws[k]))
  }

  /** The normalised columns are the stripped texts of the given ones, all of them and in order. */
  lemma {:induction false} ColumnsAreTheTexts(py: Python, raws: seq<Json>, done: seq<string>)
    ensures NormalizeColumnsFrom(py, raws, done).Ok? ==> NormalizeColumnsFrom(py, raws, done).value == done + Tokens(py, raws)
    decreases |raws|
  {
    hide Token;
    if raws != [] {
      var name := Token(py, raws[0]);
      if name != [] && name !in done {
        ColumnsAreTheTexts(py, raws[1..], done + [name]);
        assert done + Tokens(py, raws) == (done + [name]) + Tokens(py, raws[1..]);
      }
    } else {
      assert done + Tokens(py, raws) == done;
    }
  }

  /** The normalised sort has the written fields and directions, in order. */
  lemma SortsAreTheWritten(py: Python, raws: seq<Json>, k: nat)
    requires Each(raws, SortReader(py)).Ok? && k < |raws|
    ensures var ss := Each(raws, SortReader(py)).value;
            && |ss| == |raws| && raws[k].Obj? && ss[k].field == Token(py, Get(raws[k].fields, "field"))
            && (ss[k].descending <==> Lower(Strip(TextOr(py, Get(raws[k].fields, "direction"), "asc"))) == "desc")
  {
    hide Token, Lower, Strip, TextOr;
    EachGives(raws, SortReader(py));
    assert SortReader(py)(raws[k]) == Ok(Each(raws, SortReader(py)).value[k]);
  }

  lemma SortIsValid(py: Python, raw: Json)
    requires NormalizeSortItem(py, raw).Ok?
    ensures Stripped(NormalizeSortItem(py, raw).value.field)
  {
    hide Token, Strip, Lower, TextOr;
    TokenIsStripped(py, Get(raw.fields, "field"));
  }

  lemma SortReadsBack(py: Python, s: Sort)
    requires Lawful(py) && Stripped(s.field)
    ensures NormalizeSortItem(py, SortJson(s)) == Ok(s)
  {
    hide Token, Strip, Lower, TextOr;
    TokenOfText(py, s.field);
    LowerToken(py, if s.descending then "desc" else "asc");
  }

  // ---- the filter -------------------------------------------------------------------------------

  ghost predicate ValidOperand(py: Python, o: Operator, v: Operand, ps: seq<Parameter>) {
    match v
    case NoOperand => o.IsNull? || o.IsNotNull?
    case Literal(j) =>
      && !o.IsNull? && !o.IsNotNull? && !IsReference(py, j) && (o.In? || o.NotIn? ==> j.Arr? && j.items != [])
      && (o.Contains? || o.StartsWith? || o.EndsWith? ==> j.Str?)
    case ParameterRef(name) =>
      Stripped(name) && TypeIn(ps, name).Some? && Compatible(TypeIn(ps, name).value, o)
  }

  ghost predicate ValidCondition(py: Python, c: Condition, ps: seq<Parameter>) {
    Stripped(c.field) && ValidOperand(py, c.operator, c.operand, ps)
  }

  ghost predicate ValidItem(py: Python, i: Item, ps: seq<Parameter>) {
    match i
    case One(c) => ValidCondition(py, c, ps)
    case Group(_, cs) => cs != [] && forall k | 0 <= k < |cs| :: ValidCondition(py, cs[k], ps)
  }

  ghost predicate ValidFilter(py: Python, f: Filter, ps: seq<Parameter>) {
    f.items != [] && forall k | 0 <= k < |f.items| :: ValidItem(py, f.items[k], ps)
  }

  lemma OperandIsValid(py: Python, raw: Json, o: Operator, ps: seq<Parameter>)
    requires NormalizeOperand(py, raw, o, ps).Ok? && !o.IsNull? && !o.IsNotNull?
    ensures ValidOperand(py, o, NormalizeOperand(py, raw, o, ps).value, ps)
  {
    hide Token, Strip, Lower;
    if IsReference(py, raw) {
      TokenIsStripped(py, Get(raw.fields, "name"));
    }
  }

  lemma ConditionIsValid(py: Python, raw: Json, ps: seq<Parameter>)
    requires NormalizeCondition(py, raw, ps).Ok?
    ensures ValidCondition(py, NormalizeCondition(py, raw, ps).value, ps)
  {
    hide Token, Strip, Lower, OperatorNamed, NormalizeOperand;
    TokenIsStripped(py, Get(raw.fields, "field"));
    var o := OperatorNamed(Lower(Token(py, Get(raw.fields, "operator")))).value;
    if !o.IsNull? && !o.IsNotNull? {
      OperandIsValid(py, raw.fields["value"], o, ps);
    }
  }

  lemma OperandReadsBack(py: Python, o: Operator, v: Operand, ps: seq<Parameter>)
    requires Lawful(py) && ValidOperand(py, o, v, ps) && !v.NoOperand?
    ensures NormalizeOperand(py, OperandJson(v), o, ps) == Ok(v)
  {
    match v
    case ParameterRef(name) => ReferenceReadsBack(py, o, name, ps);
    case Literal(j) => hide IsReference;
  }

  lemma ReferenceReadsBack(py: Python, o: Operator, name: string, ps: seq<Parameter>)
    requires Lawful(py) && ValidOperand(py, o, ParameterRef(name), ps)
    ensures NormalizeOperand(py, OperandJson(ParameterRef(name)), o, ps) == Ok(ParameterRef(name))
  {
    hide Token, Strip, Lower, TypeIn;
    var raw := OperandJson(ParameterRef(name));
    assert Get(raw.fields, "kind") == Str("parameter") && Get(raw.fields, "name") == Str(name);
    LowerToken(py, "parameter");
    TokenOfText(py, name);
    assert IsReference(py, raw);
  }

  lemma ConditionEntries(c: Condition, fields: map<string, Json>)
    requires fields == ConditionFields(c) || fields == ConditionFields(c)["kind" := Str("condition")]
    ensures Get(fields, "field") == Str(c.field) && Get(fields, "operator") == Str(OperatorName(c.operator))
    ensures "value" in fields <==> !c.operand.NoOperand?
    ensures !c.operand.NoOperand? ==> fields["value"] == OperandJson(c.operand)
  {
    hide OperatorName, OperandJson;
  }

  lemma ConditionReadsBack(py: Python, c: Condition, ps: seq<Parameter>, fields: map<string, Json>)
    requires Lawful(py) && ValidCondition(py, c, ps)
    requires fields == ConditionFields(c) || fields == ConditionFields(c)["kind" := Str("condition")]
    ensures NormalizeCondition(py, Obj(fields), ps) == Ok(c)
  {
    hide Token, Strip, Lower, OperatorNamed, OperatorName, NormalizeOperand, OperandJson, NoUpper, NoEdgeSpace, TypeIn, ConditionFields;
    TokenOfText(py, c.field);
    OperatorReadsBack(c.operator);
    OperatorIsLower(c.operator);
    ConditionEntries(c, fields);
    LowerToken(py, OperatorName(c.operator));
    if !c.operand.NoOperand? {
      OperandReadsBack(py, c.operator, c.operand, ps);
    }
  }

  lemma ConditionsAreValid(py: Python, raws: seq<Json>, ps: seq<Parameter>)
    requires Each(raws, ConditionReader(py, ps)).Ok?
    ensures forall k | 0 <= k < |Each(raws, ConditionReader(py, ps)).value| ::
              ValidCondition(py, Each(raws, ConditionReader(py, ps)).value[k], ps)
  {
    hide NormalizeCondition, ValidCondition;
    var f := ConditionReader(py, ps);
    EachGives(raws, f);
    forall k | 0 <= k < |raws|
      ensures ValidCondition(py, Each(raws, f).value[k], ps)
    {
      assert f(raws[k]) == Ok(Each(raws, f).value[k]);
      ConditionIsValid(py, raws[k], ps);
    }
  }

  lemma ItemIsValid(py: Python, raw: Json, ps: seq<Parameter>)
    requires NormalizeItem(py, raw, ps).Ok?
    ensures ValidItem(py, NormalizeItem(py, raw, ps).value, ps)
  {
    hide NormalizeCondition, ValidCondition, Lower, Strip, TextOr, LogicOf, Each;
    var raws := Get(raw.fields, "conditions");
    if Lower(Strip(TextOr(py, Get(raw.fields, "kind"), "condition"))) == "group" {
      ConditionsAreValid(py, if raws.Arr? then raws.items else [], ps);
    } else {
      ConditionIsValid(py, raw, ps);
    }
  }

  lemma ItemsAreValid(py: Python, fields: map<string, Json>, logic: Logic, ps: seq<Parameter>)
    requires NormalizeItems(py, fields, logic, ps).Ok?
    ensures forall k | 0 <= k < |NormalizeItems(py, fields, logic, ps).value| ::
              ValidItem(py, NormalizeItems(py, fields, logic, ps).value[k], ps)
  {
    hide NormalizeCondition, NormalizeItem, ValidCondition, Each;
    var raws := Get(fields, "items");
    if raws.Null? {
      var conditions := Get(fields, "conditions");
      ConditionsAreValid(py, if conditions.Arr? then conditions.items else [], ps);
    } else {
      var f := ItemReader(py, ps);
      var rs := if raws.Arr? then raws.items else [];
      EachGives(rs, f);
      forall k | 0 <= k < |rs|
        ensures ValidItem(py, Each(rs, f).value[k], ps)
      {
        assert f(rs[k]) == Ok(Each(rs, f).value[k]);
        ItemIsValid(py, rs[k], ps);
      }
    }
  }

  lemma FilterIsValid(py: Python, raw: Json, ps: seq<Parameter>)
    requires NormalizeFilter(py, raw, ps).Ok? && NormalizeFilter(py, raw, ps).value.Some?
    ensures ValidFilter(py, NormalizeFilter(py, raw, ps).value.value, ps)
  {
    hide NormalizeItems, LogicOf, ValidItem;
    var logic := LogicOf(py, raw.fields).value;
    ItemsAreValid(py, raw.fields, logic, ps);
  }

  lemma GroupReadsBack(py: Python, logic: Logic, cs: seq<Condition>, ps: seq<Parameter>)
    requires Lawful(py) && ValidItem(py, Group(logic, cs), ps)
    ensures NormalizeGroup(py, ItemJson(Group(logic, cs)).fields, ps) == Ok(Group(logic, cs))
  {
    hide NormalizeCondition, ValidCondition, LogicOf, Each, ConditionFields, LogicName;
    var fields := ItemJson(Group(logic, cs)).fields;
    LogicReadsBack(py, logic, fields);
    var raws := fields["conditions"].items;
    var f := ConditionReader(py, ps);
    forall k | 0 <= k < |cs|
      ensures f(raws[k]) == Ok(cs[k])
    {
      ConditionReadsBack(py, cs[k], ps, ConditionFields(cs[k]));
    }
    EachReads(raws, f, cs);
  }

  lemma ItemReadsBack(py: Python, i: Item, ps: seq<Parameter>)
    requires Lawful(py) && ValidItem(py, i, ps)
    ensures NormalizeItem(py, ItemJson(i), ps) == Ok(i)
  {
    hide NormalizeCondition, NormalizeGroup, ValidCondition, Lower, Strip, TextOr;
    match i
    case One(c) =>
      LowerToken(py, "condition");
      ConditionReadsBack(py, c, ps, ItemJson(i).fields);
    case Group(logic, cs) =>
      LowerToken(py, "group");
      GroupReadsBack(py, logic, cs, ps);
  }

  lemma FilterReadsBack(py: Python, f: Filter, ps: seq<Parameter>)
    requires Lawful(py) && ValidFilter(py, f, ps)
    ensures NormalizeFilter(py, FilterJson(f), ps) == Ok(Some(f))
  {
    hide NormalizeItem, ValidItem, LogicOf, Each, ItemJson, LogicName, NormalizeLegacy;
    var fields := FilterJson(f).fields;
    LogicReadsBack(py, f.logic, fields);
    var raws := fields["items"].items;
    var g := ItemReader(py, ps);
    forall k | 0 <= k < |f.items|
      ensures g(raws[k]) == Ok(f.items[k])
    {
      ItemReadsBack(py, f.items[k], ps);
    }
    EachReads(raws, g, f.items);
  }

  // ---- the perimeter ----------------------------------------------------------------------------

  ghost predicate Valid(py: Python, p: Perimeter) {
    && ValidParameters(py, p.parameters) && (p.columns.Some? ==> ValidColumns(p.columns.value))
    && (p.filter.Some? ==> ValidFilter(py, p.filter.value, p.parameters))
    && (p.sort.Some? ==> forall k | 0 <= k < |p.sort.value| :: Stripped(p.sort.value[k].field))
  }

  lemma NormalizedIsValid(py: Python, raw: Json)
    requires Lawful(py) && Normalized(py, raw).Ok?
    ensures Valid(py, Normalized(py, raw).value)
  {
    hide NormalizeParametersFrom, NormalizeColumnsFrom, NormalizeFilter, NormalizeSortList, Lawful;
    hide ValidParameter, ValidFilter, Stripped;
    if raw.Obj? {
      var ps, cs, ss := Get(raw.fields, "parameters"), Get(raw.fields, "selected_columns"), Get(raw.fields, "sort");
      if ps.Arr? {
        ParametersAreValid(py, ps.items, []);
      }
      if cs.Arr? {
        ColumnsAreValid(py, cs.items, []);
      }
      var p := Normalized(py, raw).value;
      if p.filter.Some? {
        FilterIsValid(py, Get(raw.fields, "filter"), p.parameters);
      }
      SortsAreValid(py, ss);
    }
  }

  lemma SortsAreValid(py: Python, raw: Json)
    ensures var r := NormalizeSortList(py, raw);
            r.Ok? && r.value.Some? ==> forall k | 0 <= k < |r.value.value| :: Stripped(r.value.value[k].field)
  {
    hide NormalizeSortItem, Stripped;
    if raw.Arr? && Each(raw.items, SortReader(py)).Ok? {
      EachGives(raw.items, SortReader(py));
      var ss := Each(raw.items, SortReader(py)).value;
      forall k | 0 <= k < |ss|
        ensures Stripped(ss[k].field)
      {
        assert SortReader(py)(raw.items[k]) == Ok(ss[k]);
        SortIsValid(py, raw.items[k]);
      }
    }
  }

  lemma SortsReadBack(py: Python, ss: seq<Sort>)
    requires Lawful(py) && forall k | 0 <= k < |ss| :: Stripped(ss[k].field)
    ensures Each(SortsJson(ss), SortReader(py)) == Ok(ss)
  {
    hide NormalizeSortItem, Stripped, SortJson;
    var f := SortReader(py);
    forall k | 0 <= k < |ss|
      ensures f(SortsJson(ss)[k]) == Ok(ss[k])
    {
      SortReadsBack(py, ss[k]);
    }
    EachReads(SortsJson(ss), f, ss);
  }

  /** The four entries of the normalised dictionary. */
  lemma Entries(p: Perimeter)
    ensures var fields := PerimeterFields(p);
            && (fields == map[] <==> p == NO_PERIMETER)
            && Get(fields, "parameters") == (if p.parameters == [] then Null else Arr(ParametersJson(p.parameters)))
            && Get(fields, "selected_columns") == (if p.columns.None? then Null else Arr(Texts(p.columns.value)))
            && Get(fields, "filter") == (if p.filter.None? then Null else FilterJson(p.filter.value))
            && Get(fields, "sort") == (if p.sort.None? then Null else Arr(SortsJson(p.sort.value)))
  {
    hide ParametersJson, Texts, FilterJson, SortsJson;
    var fields := PerimeterFields(p);
    assert p.parameters != [] ==> "parameters" in fields;
    assert p.columns.Some? ==> "selected_columns" in fields;
    assert p.filter.Some? ==> "filter" in fields;
    assert p.sort.Some? ==> "sort" in fields;
  }

  lemma NoFilterReadsBack(py: Python, ps: seq<Parameter>)
    ensures NormalizeFilter(py, Null, ps) == Ok(None)
  {
  }

  lemma ValidReadsBack(py: Python, p: Perimeter)
    requires Lawful(py) && Valid(py, p)
    ensures Normalized(py, PerimeterJson(p)) == Ok(p)
  {
    hide NormalizeParametersFrom, NormalizeColumnsFrom, NormalizeFilter, NormalizeSortItem, Each, Lawful, PerimeterFields;
    hide ValidParameters, ValidFilter, ValidColumns, Stripped, ParametersJson, Texts, SortsJson, FilterJson;
    Entries(p);
    if p != NO_PERIMETER {
      if p.parameters != [] {
        assert [] + p.parameters == p.parameters;
        ParametersReadBack(py, [], p.parameters);
      }
      if p.columns.Some? {
        assert [] + p.columns.value == p.columns.value;
        ColumnsReadBack(py, [], p.columns.value);
      }
      if p.filter.Some? {
        FilterReadsBack(py, p.filter.value, p.parameters);
      } else {
        NoFilterReadsBack(py, p.parameters);
      }
      if p.sort.Some? {
        SortsReadBack(py, p.sort.value);
      }
    }
  }

  /** Normalisation is idempotent: whatever it returns, it returns again, with the parameter defaults
      coerced and printed once and the legacy filter rewritten once. */
  lemma NormalizeIsIdempotent(py: Python, raw: Json)
    requires Lawful(py) && Normalized(py, raw).Ok?
    ensures Normalized(py, PerimeterJson(Normalized(py, raw).value)) == Normalized(py, raw)
  {
    hide Normalized, PerimeterJson, Lawful, Valid;
    NormalizedIsValid(py, raw);
    ValidReadsBack(py, Normalized(py, raw).value);
  }
}
