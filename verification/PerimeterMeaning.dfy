/** What the words of a written perimeter mean: the logic and kind of its filter, the operators, the types,
    resolvers and directions, in any case and spacing, and what is meant when they are left out. */
module PerimeterMeaning {
  import opened PyText
  import opened Json
  import opened Perimeters
  import opened PerimeterIdempotence
  import opened PerimeterQueries

  // ---- the logic --------------------------------------------------------------------------------

  /** A key that is absent, or whose value counts as none. */
  predicate LeftOut(fields: map<string, Json>, k: string) { k !in fields || Falsy(fields[k]) }

  lemma WhatCountsAsNone(v: Json)
    ensures Falsy(v) <==>
            v == Null || v == Bool(false) || v == Int(0) || v == Float(0.0) || v == Str([]) || v == Arr([]) || v == Obj(map[])
  {
  }

  predicate Says(py: Python, fields: map<string, Json>, k: string, word: string) {
    !LeftOut(fields, k) && Spells(py.str(Plain(fields[k])), word)
  }

  /** The logic of a filter or group is OR when it says so, AND when it says so or says nothing, and an
      error otherwise. */
  lemma LogicIsRead(py: Python, fields: map<string, Json>)
    ensures LogicOf(py, fields) ==
            if Says(py, fields, "logic", "OR") then Some(Or)
            else if LeftOut(fields, "logic") || Says(py, fields, "logic", "AND") then Some(And)
            else None
  {
    hide Strip, Spells, Upper;
    UpperSpells("AND", "AND");
    AndIsStripped();
    if !LeftOut(fields, "logic") {
      UpperSpells(py.str(Plain(fields["logic"])), "AND");
      UpperSpells(py.str(Plain(fields["logic"])), "OR");
    }
  }

  lemma AndIsStripped()
    ensures Spells("AND", "AND")
  {
    StripKeeps("AND");
  }

  /** A list of conditions read as one is true exactly when all are, or under OR when one is. */
  predicate HoldsOf(any: bool, ts: seq<Truth>) {
    if any then exists k :: 0 <= k < |ts| && ts[k].True? else forall k | 0 <= k < |ts| :: ts[k].True?
  }

  lemma ReadingHolds(logic: Logic, ts: seq<Truth>)
    ensures Reading(logic, ts).True? <==> HoldsOf(logic.Or?, ts)
  {
    if logic.Or? && HoldsOf(true, ts) {
      var k :| 0 <= k < |ts| && ts[k].True?;
      assert True in ts;
    }
    if logic.And? {
      if forall k | 0 <= k < |ts| :: ts[k].True? {
      } else {
        var k :| 0 <= k < |ts| && !ts[k].True?;
        assert ts[k] in ts;
      }
    }
  }

  /** What is listed under a filter: its items, or in the old form its conditions. */
  function Listed(fields: map<string, Json>): seq<Json> {
    if "items" in fields && !fields["items"].Null? then ItemsOf(fields["items"])
    else if "conditions" in fields then ItemsOf(fields["conditions"]) else []
  }

  /** What the entries of a filter say of a row. */
  function ListedTruths(py: Python, cmp: Compare, row: Values, resolved: Values, fields: map<string, Json>): seq<Truth> {
    if "items" in fields && !fields["items"].Null? then ItemTruths(py, cmp, row, resolved, Listed(fields))
    else ConditionTruths(py, cmp, row, resolved, Listed(fields))
  }

  /** The compiled query keeps a row exactly when all entries of the written filter are true of it; when the
      filter says OR, exactly when one is. A filter without entries keeps every row. */
  lemma FilterHoldsExactly(py: Python, cmp: Compare, t: Table, row: Values, resolved: Values, raw: Json)
    requires raw.Obj? && Compiled(py, t, resolved, raw).Ok? && "filter" in raw.fields && raw.fields["filter"].Obj?
    ensures var f := raw.fields["filter"].fields;
            var ts := ListedTruths(py, cmp, row, resolved, f);
            && |ts| == |Listed(f)|
            && (WhereTruth(cmp, row, Compiled(py, t, resolved, raw).value).True? <==>
                  ts == [] || HoldsOf(Says(py, f, "logic", "OR"), ts))
  {
    hide Compiled, WhereTruth, ItemTruths, ConditionTruths, LogicOf, Reading, Says, HoldsOf;
    CompileKeepsMeaning(py, cmp, t, row, resolved, raw);
    var filter := raw.fields["filter"];
    TruthsAreListed(py, cmp, row, resolved, filter.fields);
    CompiledHasLogic(py, t, resolved, raw);
    LogicIsRead(py, filter.fields);
    ReadingHolds(LogicWritten(py, filter.fields), ListedTruths(py, cmp, row, resolved, filter.fields));
  }

  lemma TruthsAreListed(py: Python, cmp: Compare, row: Values, resolved: Values, fields: map<string, Json>)
    ensures |ListedTruths(py, cmp, row, resolved, fields)| == |Listed(fields)|
  {
  }

  lemma CompiledHasLogic(py: Python, t: Table, resolved: Values, raw: Json)
    requires raw.Obj? && Compiled(py, t, resolved, raw).Ok? && "filter" in raw.fields && raw.fields["filter"].Obj?
    ensures LogicOf(py, raw.fields["filter"].fields).Some?
  {
    hide LogicOf, NormalizeItems, NormalizeParameterList, NormalizeColumnList, NormalizeSortList, CompileNormalized;
  }

  /** A written entry is a group when its kind says so, and otherwise a condition. */
  lemma EntryIsRead(py: Python, cmp: Compare, row: Values, resolved: Values, fields: map<string, Json>)
    ensures var entry := ItemTruth(py, cmp, row, resolved, Obj(fields));
            if Says(py, fields, "kind", "group") then
              LogicOf(py, fields).Some? ==>
                var ts := ConditionTruths(py, cmp, row, resolved, ItemsOf(Get(fields, "conditions")));
                entry.True? <==> HoldsOf(Says(py, fields, "logic", "OR"), ts)
            else entry == ConditionTruth(py, cmp, row, resolved, Obj(fields))
  {
    hide Strip, Spells, Lower, ConditionTruth, ConditionTruths, Reading, HoldsOf, LogicOf;
    KindIsRead(py, fields);
    LogicIsRead(py, fields);
    ReadingHolds(LogicWritten(py, fields), ConditionTruths(py, cmp, row, resolved, ItemsOf(Get(fields, "conditions"))));
  }

  lemma KindIsRead(py: Python, fields: map<string, Json>)
    ensures var kind := Lower(Strip(TextOr(py, Get(fields, "kind"), "condition")));
            && (kind == "group" <==> Says(py, fields, "kind", "group"))
            && (kind == "condition" <==> LeftOut(fields, "kind") || Says(py, fields, "kind", "condition"))
  {
    hide Strip, Spells, Lower;
    LowerToCondition();
    if !LeftOut(fields, "kind") {
      LowerSpells(py.str(Plain(fields["kind"])), "group");
      LowerSpells(py.str(Plain(fields["kind"])), "condition");
    }
  }

  lemma LowerToCondition()
    ensures Lower(Strip("condition")) == "condition"
  {
    hide Lower;
    StripKeeps("condition");
    LowerSame("condition");
  }

  // ---- the operators ----------------------------------------------------------------------------

  /** The word of an operator. */
  ghost predicate IsWordOf(word: string, o: Operator) {
    || (word == "eq" && o.Eq?) || (word == "neq" && o.Neq?) || (word == "gt" && o.Gt?) || (word == "gte" && o.Gte?)
    || (word == "lt" && o.Lt?) || (word == "lte" && o.Lte?) || (word == "contains" && o.Contains?)
    || (word == "starts_with" && o.StartsWith?) || (word == "ends_with" && o.EndsWith?) || (word == "in" && o.In?)
    || (word == "not_in" && o.NotIn?) || (word == "is_null" && o.IsNull?) || (word == "is_not_null" && o.IsNotNull?)
  }

  lemma WordsAreNamed(s: string, o: Operator)
    ensures OperatorNamed(s) == Some(o) <==> IsWordOf(s, o)
  {
  }

  /** What a condition says of a row, by the word of its operator: a comparison of the cell with the value,
      which is of no known truth with null, and equality with null tests for null. */
  lemma ConditionIsRead(py: Python, cmp: Compare, row: Values, resolved: Values, fields: map<string, Json>, word: string, o: Operator)
    requires Says(py, fields, "operator", word) && IsWordOf(word, o) && "field" in fields && !Falsy(fields["field"])
    ensures var cell := Cell(row, Strip(py.str(Plain(fields["field"]))));
            var written := Get(fields, "value");
            var v := if IsReference(py, written) then Cell(resolved, ReferenceName(py, written)) else Plain(written);
            ConditionTruth(py, cmp, row, resolved, Obj(fields)) ==
            if o.IsNull? then FromBool(cell == Plain(Null))
            else if o.IsNotNull? then FromBool(cell != Plain(Null))
            else if o.In? then EqualsOne(cmp, cell, ItemsOf(written))
            else if o.NotIn? then Opposite(EqualsOne(cmp, cell, ItemsOf(written)))
            else if v == Plain(Null) && o.Eq? then FromBool(cell == Plain(Null))
            else if v == Plain(Null) && o.Neq? then FromBool(cell != Plain(Null))
            else if cell == Plain(Null) || v == Plain(Null) then Unknown
            else if cmp(o, cell, v) then True else False
  {
    hide Strip, Spells, Lower, IsReference, ReferenceName, EqualsOne;
    WordIsLower(word, o);
    LowerSpells(py.str(Plain(fields["operator"])), word);
    WordsAreNamed(word, o);
  }

  lemma WordIsLower(word: string, o: Operator)
    requires IsWordOf(word, o)
    ensures NoUpper(word)
  {
  }

  /** `v IN values`: true when one of them equals `v`. */
  lemma {:induction false} MembershipIsRead(cmp: Compare, v: Value, values: seq<Json>)
    requires v != Plain(Null) && forall i | 0 <= i < |values| :: !values[i].Null?
    ensures EqualsOne(cmp, v, values) == FromBool(exists i :: 0 <= i < |values| && cmp(Eq, v, Plain(values[i])))
    decreases |values|
  {
    if values == [] {
    } else {
      var rest := values[1..];
      assert forall i | 0 <= i < |rest| :: rest[i] == values[i + 1];
      MembershipIsRead(cmp, v, rest);
      if i :| 0 <= i < |rest| && cmp(Eq, v, Plain(rest[i])) {
        assert cmp(Eq, v, Plain(values[i + 1]));
      }
      if i :| 0 <= i < |values| && cmp(Eq, v, Plain(values[i])) {
        assert i == 0 || cmp(Eq, v, Plain(rest[i - 1]));
      }
    }
  }

  /** A value that is a reference names a parameter. */
  lemma ReferenceIsRead(py: Python, v: Json)
    ensures IsReference(py, v) <==> v.Obj? && Says(py, v.fields, "kind", "parameter")
    ensures v.Obj? && "name" in v.fields && !Falsy(v.fields["name"]) ==> ReferenceName(py, v) == Strip(py.str(Plain(v.fields["name"])))
  {
    hide Strip, Spells, Lower;
    EmptyToken();
    if v.Obj? && !LeftOut(v.fields, "kind") {
      LowerSpells(py.str(Plain(v.fields["kind"])), "parameter");
    }
  }

  lemma EmptyToken()
    ensures Lower(Strip([])) == []
  {
  }

  /** The operators that a parameter of a type may stand beside. */
  predicate Supports(t: ParamType, o: Operator) {
    match t
    case StringType => o in {Eq, Neq, Contains, StartsWith, EndsWith}
    case BooleanType => o in {Eq, Neq}
    case _ => o in {Eq, Neq, Gt, Gte, Lt, Lte}
  }

  lemma CompatibleIsSupported(t: ParamType, o: Operator)
    ensures Compatible(t, o) <==> Supports(t, o)
  {
  }

  /** Exactly which conditions are accepted: a field, a known operator and, unless it tests for null, a
      value: a reference to a parameter whose type fits, a list that is not empty for membership, a text
      for the text operators, and anything else for the others. */
  lemma ConditionAcceptedExactly(py: Python, fields: map<string, Json>, ps: seq<Parameter>)
    ensures NormalizeCondition(py, Obj(fields), ps).Ok? <==>
            && Token(py, Get(fields, "field")) != []
            && exists o :: OperatorNamed(Lower(Token(py, Get(fields, "operator")))) == Some(o) &&
                 (o.IsNull? || o.IsNotNull? || ("value" in fields && ValueFits(py, fields["value"], o, ps)))
  {
    hide Token, Lower, OperatorNamed, IsReference, Compatible, Supports, TypeIn;
    var named := OperatorNamed(Lower(Token(py, Get(fields, "operator"))));
    if named.Some? && "value" in fields {
      OperandAcceptedExactly(py, fields["value"], named.value, ps);
    }
  }

  predicate ValueFits(py: Python, v: Json, o: Operator, ps: seq<Parameter>) {
    if IsReference(py, v) then
      var name := Token(py, Get(v.fields, "name"));
      name != [] && o !in {In, NotIn} && TypeIn(ps, name).Some? && Supports(TypeIn(ps, name).value, o)
    else if o in {In, NotIn} then v.Arr? && v.items != []
    else if o in {Contains, StartsWith, EndsWith} then v.Str?
    else true
  }

  lemma OperandAcceptedExactly(py: Python, v: Json, o: Operator, ps: seq<Parameter>)
    ensures NormalizeOperand(py, v, o, ps).Ok? <==> ValueFits(py, v, o, ps)
  {
    hide Token, Lower, Compatible, Supports, TypeIn;
    if IsReference(py, v) && TypeIn(ps, Token(py, Get(v.fields, "name"))).Some? {
      CompatibleIsSupported(TypeIn(ps, Token(py, Get(v.fields, "name"))).value, o);
    }
  }

  // ---- parameters -------------------------------------------------------------------------------

  ghost predicate IsWordOfType(word: string, t: ParamType) {
    || (word == "string" && t.StringType?) || (word == "integer" && t.IntegerType?) || (word == "number" && t.NumberType?)
    || (word == "boolean" && t.BooleanType?) || (word == "date" && t.DateType?) || (word == "datetime" && t.DatetimeType?)
  }

  lemma TypesAreNamed(s: string, t: ParamType)
    ensures TypeNamed(s) == Some(t) <==> IsWordOfType(s, t)
  {
  }

  lemma WordOfTypeIsLower(word: string, t: ParamType)
    requires IsWordOfType(word, t)
    ensures NoUpper(word)
  {
  }

  /** A written parameter without default or binding, by its name and the word of its type. */
  lemma ParameterIsRead(py: Python, fields: map<string, Json>, word: string, t: ParamType)
    requires Says(py, fields, "type", word) && IsWordOfType(word, t)
    requires "name" in fields && !Falsy(fields["name"]) && Strip(py.str(Plain(fields["name"]))) != []
    requires "default_value" !in fields && ("default_binding" in fields ==> fields["default_binding"].Null?)
    requires LeftOut(fields, "description")
    ensures NormalizeParameter(py, Obj(fields)) == Ok(Parameter(Strip(py.str(Plain(fields["name"]))), t, None, NoDefault))
  {
    hide Strip, Spells, Lower;
    WordOfTypeIsLower(word, t);
    LowerSpells(py.str(Plain(fields["type"])), word);
    TypesAreNamed(word, t);
    StripNothing();
  }

  /** A written binding: the built-in resolvers are "$now" and "$today". */
  lemma BindingIsRead(py: Python, fields: map<string, Json>, resolver: string)
    requires Says(py, fields, "kind", "built_in")
    requires "resolver" in fields && !Falsy(fields["resolver"]) && Strip(py.str(Plain(fields["resolver"]))) == resolver
    ensures NormalizeBinding(py, Obj(fields)) ==
            if resolver == "$now" then Ok(DefaultBinding(Now))
            else if resolver == "$today" then Ok(DefaultBinding(Today))
            else Bad(Unsupported("resolver"))
  {
    hide Strip, Spells, Lower;
    LowerSpells(py.str(Plain(fields["kind"])), "built_in");
  }

  /** What a parameter without override is resolved to: null without a default, the default coerced to its
      type, and for a binding the instant or the day of the clock, in the type of the parameter. */
  lemma DefaultIsResolved(py: Python, clock: Clock, p: Parameter)
    ensures p.default.NoDefault? ==> ResolveDefault(py, clock, p) == Ok(Plain(Null))
    ensures p.default == DefaultBinding(Now) && p.kind.DatetimeType? ==> ResolveDefault(py, clock, p) == Ok(Datetime(clock.now))
    ensures p.default == DefaultBinding(Now) && p.kind.DateType? ==> ResolveDefault(py, clock, p) == Ok(Date(py.dateOf(clock.now)))
    ensures p.default == DefaultBinding(Today) && p.kind.DateType? ==> ResolveDefault(py, clock, p) == Ok(Date(clock.today))
    ensures p.default == DefaultBinding(Today) && p.kind.DatetimeType? ==>
              ResolveDefault(py, clock, p) == Ok(Datetime(py.midnight(clock.today)))
    ensures p.default.DefaultBinding? && p.kind.StringType? ==>
              ResolveDefault(py, clock, p) ==
              Ok(Plain(Str(py.str(if p.default.resolver.Now? then Datetime(clock.now) else Date(clock.today)))))
    ensures p.default.DefaultBinding? && p.kind in {IntegerType, NumberType, BooleanType} ==> ResolveDefault(py, clock, p).Bad?
    ensures p.default.DefaultValue? && p.default.value.Null? ==> ResolveDefault(py, clock, p) == Ok(Plain(Null))
    ensures p.default.DefaultValue? && !p.default.value.Null? ==>
              ResolveDefault(py, clock, p) ==
              match Coerce(py, p.kind, Plain(p.default.value)) case None => Bad(BadValue(p.name)) case Some(v) => Ok(v)
  {
    if p.default.DefaultValue? && !p.default.value.Null? {
      hide Coerce;
    }
  }

  // ---- values of a type -------------------------------------------------------------------------

  /** The text of an integer, with any space around it. */
  lemma IntegerTextIsRead(py: Python, s: string, n: nat)
    requires Strip(s) == Dec(n)
    ensures Coerce(py, IntegerType, Plain(Str(s))) == Some(Plain(Int(n)))
  {
    hide Strip, Dec, ParseNat;
    ParseDec(n);
  }

  lemma NegativeTextIsRead(py: Python, s: string, n: nat)
    requires Strip(s) == ['-'] + Dec(n)
    ensures Coerce(py, IntegerType, Plain(Str(s))) == Some(Plain(Int(0 - n)))
  {
    hide Strip, Dec, ParseNat;
    ParseDec(n);
    assert Strip(s)[1..] == Dec(n);
    assert !IsDigit('-');
  }

  /** The words for true and false, in any case and spacing, and no others. */
  lemma BooleanTextIsRead(py: Python, s: string)
    ensures Coerce(py, BooleanType, Plain(Str(s))) ==
            if Spells(s, "true") || Spells(s, "1") || Spells(s, "yes") then Some(Plain(Bool(true)))
            else if Spells(s, "false") || Spells(s, "0") || Spells(s, "no") then Some(Plain(Bool(false)))
            else None
  {
    hide Strip, Spells, Lower;
    LowerSpells(s, "true");
    LowerSpells(s, "1");
    LowerSpells(s, "yes");
    LowerSpells(s, "false");
    LowerSpells(s, "0");
    LowerSpells(s, "no");
  }

  /** Numbers of the other kinds: an integral float is an integer, 0 and 1 are booleans, and a boolean is
      no number. */
  lemma NumbersAreCoerced(py: Python, n: int, x: real, b: bool)
    ensures Coerce(py, IntegerType, Plain(Int(n))) == Coerce(py, NumberType, Plain(Int(n))) == Some(Plain(Int(n)))
    ensures Coerce(py, IntegerType, Plain(Float(n as real))) == Some(Plain(Int(n)))
    ensures x.Floor as real != x ==> Coerce(py, IntegerType, Plain(Float(x))).None?
    ensures Coerce(py, NumberType, Plain(Float(x))) == Some(Plain(Float(x)))
    ensures Coerce(py, BooleanType, Plain(Int(n))) == if n == 1 then Some(Plain(Bool(true))) else if n == 0 then Some(Plain(Bool(false))) else None
    ensures Coerce(py, IntegerType, Plain(Bool(b))).None? && Coerce(py, NumberType, Plain(Bool(b))).None?
    ensures Coerce(py, BooleanType, Plain(Bool(b))) == Some(Plain(Bool(b)))
  {
    assert (n as real).Floor == n;
  }

  /** The text of a number, with any space around it: an integer when it is integral. */
  lemma NumberTextIsRead(py: Python, s: string)
    ensures Coerce(py, NumberType, Plain(Str(s))) ==
            match py.parseFloat(Strip(s))
            case None => None
            case Some(x) => if exists n: int :: IsTheInteger(x, n) then Some(Plain(Int(x.Floor))) else Some(Plain(Float(x)))
  {
    hide Strip;
    var parsed := py.parseFloat(Strip(s));
    if parsed.Some? {
      var x := parsed.value;
      if x.Floor as real == x {
        assert IsTheInteger(x, x.Floor);
      }
      forall n: int | IsTheInteger(x, n)
        ensures x.Floor as real == x
      {
        assert (n as real).Floor == n;
      }
    }
  }

  predicate IsTheInteger(x: real, n: int) { x == n as real }

  /** A datetime text may end in "Z", for a zero offset. */
  lemma ZoneIsRead(py: Python, s: string, t: string)
    ensures Strip(s) == t + "Z" ==>
              Coerce(py, DatetimeType, Plain(Str(s))) ==
              match py.parseDatetime(t + "+00:00") case Some(i) => Some(Datetime(i)) case None => None
    ensures Strip(s) == t && (t == [] || t[|t| - 1] != 'Z') ==>
              Coerce(py, DatetimeType, Plain(Str(s))) ==
              match py.parseDatetime(t) case Some(i) => Some(Datetime(i)) case None => None
    ensures Strip(s) == t && py.parseDate(t).Some? ==> Coerce(py, DateType, Plain(Str(s))) == Some(Date(py.parseDate(t).value))
    ensures Strip(s) == t && py.parseDate(t).None? ==>
              Coerce(py, DateType, Plain(Str(s))) ==
              match Coerce(py, DatetimeType, Plain(Str(s))) case Some(Datetime(i)) => Some(Date(py.dateOf(i))) case _ => None
  {
    StripTwice(s);
    hide Strip;
    if Strip(s) == t + "Z" {
      assert Strip(s)[..|Strip(s)| - 1] == t;
    }
  }

  /** Dates and datetimes: what is printed is read back, a datetime has its day, a day its midnight. */
  lemma DatesAreCoerced(py: Python, d: int, t: int)
    requires Lawful(py)
    ensures Coerce(py, DateType, Date(d)) == Coerce(py, DateType, Plain(Str(py.printDate(d)))) == Some(Date(d))
    ensures Coerce(py, DateType, Datetime(t)) == Some(Date(py.dateOf(t)))
    ensures Coerce(py, DatetimeType, Datetime(t)) == Coerce(py, DatetimeType, Plain(Str(py.printDatetime(t)))) == Some(Datetime(t))
    ensures Coerce(py, DatetimeType, Date(d)) == Some(Datetime(py.midnight(d)))
  {
    hide Strip;
    assert py.parseDate(py.printDate(d)) == Some(d) && Strip(py.printDate(d)) == py.printDate(d);
    assert py.parseDatetime(py.printDatetime(t)) == Some(t) && Strip(py.printDatetime(t)) == py.printDatetime(t);
    assert !EndsInZ(py.printDatetime(t));
  }

  // ---- columns and order ------------------------------------------------------------------------

  /** A sort is ascending unless it says "desc". */
  lemma SortIsRead(py: Python, fields: map<string, Json>)
    ensures var r := NormalizeSortItem(py, Obj(fields));
            && (r.Ok? <==>
                  && "field" in fields && Token(py, fields["field"]) != []
                  && (LeftOut(fields, "direction") || Says(py, fields, "direction", "asc") || Says(py, fields, "direction", "desc")))
            && (r.Ok? ==> r.value == Sort(Token(py, fields["field"]), Says(py, fields, "direction", "desc")))
  {
    hide Strip, Spells, Lower;
    AscendingWord();
    NullToken(py);
    if !LeftOut(fields, "direction") {
      LowerSpells(py.str(Plain(fields["direction"])), "asc");
      LowerSpells(py.str(Plain(fields["direction"])), "desc");
    }
  }

  lemma NullToken(py: Python)
    ensures Token(py, Null) == []
  {
  }

  lemma AscendingWord()
    ensures Lower(Strip("asc")) == "asc"
  {
    hide Lower;
    StripKeeps("asc");
    LowerSame("asc");
  }

  /** The compiled query selects the columns of the perimeter, or all of the table when it names none, and
      is ordered by the sort of the perimeter. */
  lemma StatementIsRead(t: Table, resolved: Values, p: Perimeter)
    requires CompileNormalized(t, resolved, p).Ok?
    ensures var s := CompileNormalized(t, resolved, p).value;
            && (p.columns.Some? && p.columns.value != [] ==> s.columns == p.columns.value)
            && (p.columns.None? || p.columns.value == [] ==> s.columns == t.columns)
            && s.orderBy == (match p.sort case None => [] case Some(sorts) => sorts)
            && (forall i | 0 <= i < |s.columns| :: s.columns[i] in t.columns)
            && (forall i | 0 <= i < |s.orderBy| :: s.orderBy[i].field in t.columns)
  {
    hide CompileFilter;
    if p.sort.Some? {
      assert forall i | 0 <= i < |p.sort.value| :: SortFields(p)[i] == p.sort.value[i].field;
    }
  }

  // ---- the perimeter ----------------------------------------------------------------------------

  /** A key that is absent or null. */
  predicate IsMissing(fields: map<string, Json>, k: string) { k !in fields || fields[k].Null? }

  /** Where a perimeter is read from: each part under its own key, and nothing for a key that is missing. */
  lemma PerimeterIsRead(py: Python, fields: map<string, Json>)
    requires Normalized(py, Obj(fields)).Ok?
    ensures var p := Normalized(py, Obj(fields)).value;
            && (IsMissing(fields, "parameters") ==> p.parameters == [])
            && (!IsMissing(fields, "parameters") ==>
                  fields["parameters"].Arr? && NormalizeParametersFrom(py, fields["parameters"].items, []) == Ok(p.parameters))
            && (IsMissing(fields, "selected_columns") ==> p.columns.None?)
            && (!IsMissing(fields, "selected_columns") ==>
                  && fields["selected_columns"].Arr? && p.columns.Some?
                  && |p.columns.value| == |fields["selected_columns"].items|
                  && forall k | 0 <= k < |p.columns.value| :: p.columns.value[k] == Token(py, fields["selected_columns"].items[k]))
            && (IsMissing(fields, "filter") ==> p.filter.None?)
            && (!IsMissing(fields, "filter") ==> NormalizeFilter(py, fields["filter"], p.parameters) == Ok(p.filter))
            && (IsMissing(fields, "sort") ==> p.sort.None?)
            && (!IsMissing(fields, "sort") ==>
                  fields["sort"].Arr? && p.sort.Some? && Each(fields["sort"].items, SortReader(py)) == Ok(p.sort.value))
  {
    hide NormalizeParametersFrom, NormalizeFilter, Each, Token, NormalizeColumnsFrom;
    NothingIsNoFilter(py, Normalized(py, Obj(fields)).value.parameters);
    if !IsMissing(fields, "selected_columns") {
      ColumnsAreTheTexts(py, fields["selected_columns"].items, []);
    }
  }

  lemma NothingIsNoFilter(py: Python, ps: seq<Parameter>)
    ensures NormalizeFilter(py, Null, ps) == Ok(None)
  {
  }

  /** A written default: null stays, and any other value is coerced to the type and printed; a parameter may
      not have a binding as well. */
  lemma DefaultIsRead(py: Python, fields: map<string, Json>, word: string, t: ParamType)
    requires Says(py, fields, "type", word) && IsWordOfType(word, t)
    requires "name" in fields && !Falsy(fields["name"]) && Strip(py.str(Plain(fields["name"]))) != []
    requires "default_value" in fields
    ensures var r := NormalizeParameter(py, Obj(fields));
            var v := fields["default_value"];
            if !IsMissing(fields, "default_binding") then r == Bad(BothDefaults)
            else if v.Null? then r.Ok? && r.value.default == DefaultValue(Null)
            else match Coerce(py, t, Plain(v))
              case None => r == Bad(BadDefault)
              case Some(Plain(j)) => r.Ok? && r.value.default == DefaultValue(j)
              case Some(Date(d)) => r.Ok? && r.value.default == DefaultValue(Str(py.printDate(d)))
              case Some(Datetime(i)) => r.Ok? && r.value.default == DefaultValue(Str(py.printDatetime(i)))
  {
    hide Strip, Spells, Lower, Coerce;
    WordOfTypeIsLower(word, t);
    LowerSpells(py.str(Plain(fields["type"])), word);
    TypesAreNamed(word, t);
    StripNothing();
  }
}
