/** Exactly which written perimeters are accepted. */
module PerimeterAcceptance {
  import opened PyText
  import opened Json
  import opened Perimeters
  import opened PerimeterIdempotence
  import opened PerimeterMeaning

  // ---- lists ------------------------------------------------------------------------------------

  lemma {:induction false} EachAcceptedExactly<S, T>(raws: seq<S>, f: S -> Checked<T>)
    ensures Each(raws, f).Ok? <==> forall i | 0 <= i < |raws| :: f(raws[i]).Ok?
    decreases |raws|
  {
    if raws == [] {
    } else {
      EachAcceptedExactly(raws[1..], f);
      assert forall i | 0 < i < |raws| :: raws[i] == raws[1..][i - 1];
      assert forall i | 0 <= i < |raws[1..]| :: raws[1..][i] == raws[i + 1];
    }
  }

  /** A list, or what counts as none. */
  predicate IsList(fields: map<string, Json>, k: string) { LeftOut(fields, k) || fields[k].Arr? }

  function ListOf(fields: map<string, Json>, k: string): seq<Json> {
    if k in fields && fields[k].Arr? then fields[k].items else []
  }

  // ---- the filter -------------------------------------------------------------------------------

  predicate LogicFits(py: Python, fields: map<string, Json>) {
    LeftOut(fields, "logic") || Says(py, fields, "logic", "AND") || Says(py, fields, "logic", "OR")
  }

  ghost predicate ConditionFits(py: Python, raw: Json, ps: seq<Parameter>) {
    && raw.Obj? && Token(py, Get(raw.fields, "field")) != []
    && exists o :: OperatorNamed(Lower(Token(py, Get(raw.fields, "operator")))) == Some(o) &&
         (o.IsNull? || o.IsNotNull? || ("value" in raw.fields && ValueFits(py, raw.fields["value"], o, ps)))
  }

  ghost predicate ConditionsFit(py: Python, raws: seq<Json>, ps: seq<Parameter>) {
    forall i | 0 <= i < |raws| :: ConditionFits(py, raws[i], ps)
  }

  /** A group of conditions, or a single one. */
  ghost predicate EntryFits(py: Python, raw: Json, ps: seq<Parameter>) {
    && raw.Obj?
    && if Says(py, raw.fields, "kind", "group") then
         && LogicFits(py, raw.fields) && IsList(raw.fields, "conditions")
         && ListOf(raw.fields, "conditions") != [] && ConditionsFit(py, ListOf(raw.fields, "conditions"), ps)
       else (LeftOut(raw.fields, "kind") || Says(py, raw.fields, "kind", "condition")) && ConditionFits(py, raw, ps)
  }

  /** Items, or in the old form conditions, or neither. */
  ghost predicate FilterFits(py: Python, fields: map<string, Json>, ps: seq<Parameter>) {
    && LogicFits(py, fields)
    && if IsMissing(fields, "items") then
         IsList(fields, "conditions") && ConditionsFit(py, ListOf(fields, "conditions"), ps)
       else IsList(fields, "items") && forall i | 0 <= i < |ListOf(fields, "items")| :: EntryFits(py, ListOf(fields, "items")[i], ps)
  }

  lemma ConditionIsAccepted(py: Python, raw: Json, ps: seq<Parameter>)
    ensures NormalizeCondition(py, raw, ps).Ok? <==> ConditionFits(py, raw, ps)
  {
    hide Token, Lower, OperatorNamed, ValueFits;
    if raw.Obj? {
      ConditionAcceptedExactly(py, raw.fields, ps);
    }
  }

  lemma ConditionsAreAccepted(py: Python, raws: seq<Json>, ps: seq<Parameter>)
    ensures Each(raws, ConditionReader(py, ps)).Ok? <==> ConditionsFit(py, raws, ps)
    ensures Each(raws, ConditionReader(py, ps)).Ok? ==> |Each(raws, ConditionReader(py, ps)).value| == |raws|
  {
    hide NormalizeCondition, ConditionFits, Each;
    EachAcceptedExactly(raws, ConditionReader(py, ps));
    if Each(raws, ConditionReader(py, ps)).Ok? {
      EachGives(raws, ConditionReader(py, ps));
    }
    forall i | 0 <= i < |raws|
      ensures ConditionReader(py, ps)(raws[i]).Ok? <==> ConditionFits(py, raws[i], ps)
    {
      ConditionIsAccepted(py, raws[i], ps);
    }
  }

  lemma LogicIsAccepted(py: Python, fields: map<string, Json>)
    ensures LogicOf(py, fields).Some? <==> LogicFits(py, fields)
  {
    hide LogicOf, Says;
    LogicIsRead(py, fields);
  }

  lemma ListIsRead(fields: map<string, Json>, k: string)
    ensures var raws := Get(fields, k);
            && (!Falsy(raws) && !raws.Arr? <==> !IsList(fields, k))
            && (if raws.Arr? then raws.items else []) == ListOf(fields, k)
  {
  }

  lemma EntryIsAccepted(py: Python, raw: Json, ps: seq<Parameter>)
    ensures NormalizeItem(py, raw, ps).Ok? <==> EntryFits(py, raw, ps)
  {
    hide NormalizeCondition, ConditionFits, ConditionsFit, Each, LogicOf, LogicFits, IsList, ListOf, Says, LeftOut, Lower, Strip, TextOr;
    if raw.Obj? {
      KindIsRead(py, raw.fields);
      ConditionIsAccepted(py, raw, ps);
      LogicIsAccepted(py, raw.fields);
      ListIsRead(raw.fields, "conditions");
      ConditionsAreAccepted(py, ListOf(raw.fields, "conditions"), ps);
      NotBothKinds();
    }
  }

  lemma NotBothKinds()
    ensures "group" != "condition"
  {
    assert |"group"| != |"condition"|;
  }

  /** A filter is accepted exactly when its logic is a known word, its entries are lists, and every condition
      has a field, a known operator and a value that fits; groups may not be empty. */
  lemma FilterAcceptedExactly(py: Python, fields: map<string, Json>, ps: seq<Parameter>)
    ensures NormalizeFilter(py, Obj(fields), ps).Ok? <==> FilterFits(py, fields, ps)
  {
    hide NormalizeItem, EntryFits, ConditionsFit, Each, LogicOf, LogicFits, IsList, ListOf;
    LogicIsAccepted(py, fields);
    ListIsRead(fields, "items");
    ListIsRead(fields, "conditions");
    ConditionsAreAccepted(py, ListOf(fields, "conditions"), ps);
    EachAcceptedExactly(ListOf(fields, "items"), ItemReader(py, ps));
    forall i | 0 <= i < |ListOf(fields, "items")|
      ensures ItemReader(py, ps)(ListOf(fields, "items")[i]).Ok? <==> EntryFits(py, ListOf(fields, "items")[i], ps)
    {
      EntryIsAccepted(py, ListOf(fields, "items")[i], ps);
    }
  }

  // ---- parameters, columns and sort -------------------------------------------------------------

  /** A binding of a built-in resolver. */
  predicate BindingFits(py: Python, v: Json) {
    v.Obj? && Says(py, v.fields, "kind", "built_in") && Token(py, Get(v.fields, "resolver")) in {"$now", "$today"}
  }

  /** A name, a known type, and at most one of a default that can be coerced and a binding. */
  ghost predicate ParameterFits(py: Python, raw: Json) {
    && raw.Obj? && Token(py, Get(raw.fields, "name")) != []
    && exists t :: TypeNamed(Lower(Token(py, Get(raw.fields, "type")))) == Some(t) &&
         if "default_value" in raw.fields then
           IsMissing(raw.fields, "default_binding") &&
           (raw.fields["default_value"].Null? || Coerce(py, t, Plain(raw.fields["default_value"])).Some?)
         else IsMissing(raw.fields, "default_binding") || BindingFits(py, raw.fields["default_binding"])
  }

  lemma BindingIsAccepted(py: Python, v: Json)
    ensures NormalizeBinding(py, v).Ok? <==> BindingFits(py, v)
  {
    hide Strip, Spells, Lower;
    if v.Obj? {
      EmptyToken();
      if !LeftOut(v.fields, "kind") {
        LowerSpells(py.str(Plain(v.fields["kind"])), "built_in");
      }
    }
  }

  lemma ParameterAcceptedExactly(py: Python, raw: Json)
    ensures NormalizeParameter(py, raw).Ok? <==> ParameterFits(py, raw)
  {
    hide Token, Lower, TypeNamed, Coerce, NormalizeBinding, BindingFits;
    if raw.Obj? && "default_binding" in raw.fields {
      BindingIsAccepted(py, raw.fields["default_binding"]);
    }
  }

  /** The written name of a parameter. */
  function NameOf(py: Python, raw: Json): string { if raw.Obj? then Token(py, Get(raw.fields, "name")) else [] }

  lemma NameIsRead(py: Python, raw: Json)
    requires NormalizeParameter(py, raw).Ok?
    ensures NormalizeParameter(py, raw).value.name == NameOf(py, raw)
  {
    hide Token, Lower, TypeNamed, NormalizeDefault;
  }

  predicate HasName(ps: seq<Parameter>, name: string) { exists i :: 0 <= i < |ps| && ps[i].name == name }

  lemma {:induction false} TypeInNamed(ps: seq<Parameter>, name: string)
    ensures TypeIn(ps, name).Some? <==> HasName(ps, name)
    decreases |ps|
  {
    if ps == [] {
    } else {
      TypeInNamed(ps[1..], name);
      assert forall i | 0 < i < |ps| :: ps[i] == ps[1..][i - 1];
      assert forall i | 0 <= i < |ps[1..]| :: ps[1..][i] == ps[i + 1];
    }
  }

  ghost predicate ParametersFit(py: Python, raws: seq<Json>, done: seq<Parameter>) {
    && (forall i | 0 <= i < |raws| :: ParameterFits(py, raws[i]) && !HasName(done, NameOf(py, raws[i])))
    && forall i, j | 0 <= i < j < |raws| :: NameOf(py, raws[i]) != NameOf(py, raws[j])
  }

  lemma {:induction false} ParametersAreAccepted(py: Python, raws: seq<Json>, done: seq<Parameter>)
    ensures NormalizeParametersFrom(py, raws, done).Ok? <==> ParametersFit(py, raws, done)
    decreases |raws|
  {
    hide NormalizeParameter, ParameterFits, NameOf, TypeIn;
    if raws == [] {
    } else {
      ParameterAcceptedExactly(py, raws[0]);
      var p := NormalizeParameter(py, raws[0]);
      if p.Ok? {
        NameIsRead(py, raws[0]);
        TypeInNamed(done, p.value.name);
        ParametersAreAccepted(py, raws[1..], done + [p.value]);
        ParametersSplit(py, raws, done, p.value);
      }
    }
  }

  lemma ParametersSplit(py: Python, raws: seq<Json>, done: seq<Parameter>, p: Parameter)
    requires raws != [] && ParameterFits(py, raws[0]) && NameOf(py, raws[0]) == p.name
    ensures ParametersFit(py, raws, done) <==> !HasName(done, p.name) && ParametersFit(py, raws[1..], done + [p])
  {
    hide ParameterFits, NameOf;
    var rest, more := raws[1..], done + [p];
    forall name
      ensures HasName(more, name) <==> HasName(done, name) || name == p.name
    {
      assert more[|done|] == p && forall i | 0 <= i < |done| :: more[i] == done[i];
    }
    if ParametersFit(py, raws, done) {
      forall i | 0 <= i < |rest|
        ensures ParameterFits(py, rest[i]) && !HasName(more, NameOf(py, rest[i]))
      {
        assert rest[i] == raws[i + 1];
      }
      forall i, j | 0 <= i < j < |rest|
        ensures NameOf(py, rest[i]) != NameOf(py, rest[j])
      {
        assert rest[i] == raws[i + 1] && rest[j] == raws[j + 1];
      }
    }
    if !HasName(done, p.name) && ParametersFit(py, rest, more) {
      forall i | 0 <= i < |raws|
        ensures ParameterFits(py, raws[i]) && !HasName(done, NameOf(py, raws[i]))
      {
        assert i > 0 ==> raws[i] == rest[i - 1];
      }
      forall i, j | 0 <= i < j < |raws|
        ensures NameOf(py, raws[i]) != NameOf(py, raws[j])
      {
        assert raws[j] == rest[j - 1] && (i > 0 ==> raws[i] == rest[i - 1]);
      }
    }
  }

  ghost predicate ColumnsFit(py: Python, raws: seq<Json>, done: seq<string>) {
    && (forall i | 0 <= i < |raws| :: Token(py, raws[i]) != [] && Token(py, raws[i]) !in done)
    && forall i, j | 0 <= i < j < |raws| :: Token(py, raws[i]) != Token(py, raws[j])
  }

  lemma {:induction false} ColumnsAreAccepted(py: Python, raws: seq<Json>, done: seq<string>)
    ensures NormalizeColumnsFrom(py, raws, done).Ok? <==> ColumnsFit(py, raws, done)
    decreases |raws|
  {
    hide Token;
    if raws == [] {
    } else {
      var rest, more := raws[1..], done + [Token(py, raws[0])];
      ColumnsAreAccepted(py, rest, more);
      assert forall i | 0 <= i < |rest| :: rest[i] == raws[i + 1];
      assert forall i | 0 < i < |raws| :: raws[i] == rest[i - 1];
    }
  }

  ghost predicate SortFits(py: Python, raw: Json) {
    && raw.Obj? && "field" in raw.fields && Token(py, raw.fields["field"]) != []
    && (LeftOut(raw.fields, "direction") || Says(py, raw.fields, "direction", "asc") || Says(py, raw.fields, "direction", "desc"))
  }

  lemma SortsAreAccepted(py: Python, raws: seq<Json>)
    ensures Each(raws, SortReader(py)).Ok? <==> forall i | 0 <= i < |raws| :: SortFits(py, raws[i])
  {
    hide NormalizeSortItem, Token, Says, LeftOut, Each;
    EachAcceptedExactly(raws, SortReader(py));
    forall i | 0 <= i < |raws|
      ensures SortReader(py)(raws[i]).Ok? <==> SortFits(py, raws[i])
    {
      SortIsAccepted(py, raws[i]);
    }
  }

  lemma SortIsAccepted(py: Python, raw: Json)
    ensures NormalizeSortItem(py, raw).Ok? <==> SortFits(py, raw)
  {
    if raw.Obj? {
      hide NormalizeSortItem, Token, Says;
      SortIsRead(py, raw.fields);
    }
  }

  // ---- the perimeter ----------------------------------------------------------------------------

  /** Missing, or a list; nothing else counts as none here. */
  predicate IsArray(fields: map<string, Json>, k: string) { IsMissing(fields, k) || fields[k].Arr? }

  /** A perimeter is accepted exactly when each of its parts is: parameters that fit, with distinct names;
      columns with distinct names; a filter that fits the parameters; and sorts that fit. */
  lemma PerimeterAcceptedExactly(py: Python, fields: map<string, Json>)
    ensures Normalized(py, Obj(fields)).Ok? <==>
            && IsArray(fields, "parameters") && ParametersFit(py, ListOf(fields, "parameters"), [])
            && IsArray(fields, "selected_columns") && ColumnsFit(py, ListOf(fields, "selected_columns"), [])
            && (IsMissing(fields, "filter") ||
                (fields["filter"].Obj? && FilterFits(py, fields["filter"].fields, ParametersOf(py, fields))))
            && IsArray(fields, "sort") && forall i | 0 <= i < |ListOf(fields, "sort")| :: SortFits(py, ListOf(fields, "sort")[i])
  {
    hide NormalizeParameterList, NormalizeColumnList, NormalizeSortList, NormalizeFilter, ParametersFit, ColumnsFit, SortFits, ParametersOf,
         IsArray, ListOf, FilterFits;
    ParameterListIsAccepted(py, fields);
    ColumnListIsAccepted(py, fields);
    SortListIsAccepted(py, fields);
    FilterIsAccepted(py, fields);
  }

  lemma ParameterListIsAccepted(py: Python, fields: map<string, Json>)
    ensures var r := NormalizeParameterList(py, Get(fields, "parameters"));
            && (r.Ok? <==> IsArray(fields, "parameters") && ParametersFit(py, ListOf(fields, "parameters"), []))
            && (r.Ok? ==> r.value == ParametersOf(py, fields))
  {
    hide NormalizeParametersFrom, ParametersFit;
    ParametersAreAccepted(py, ListOf(fields, "parameters"), []);
    NothingFits(py);
    NothingIsRead(py);
  }

  lemma NothingIsRead(py: Python)
    ensures NormalizeParametersFrom(py, [], []) == Ok([])
  {
  }

  lemma ColumnListIsAccepted(py: Python, fields: map<string, Json>)
    ensures NormalizeColumnList(py, Get(fields, "selected_columns")).Ok? <==>
            IsArray(fields, "selected_columns") && ColumnsFit(py, ListOf(fields, "selected_columns"), [])
  {
    hide NormalizeColumnsFrom, ColumnsFit;
    ColumnsAreAccepted(py, ListOf(fields, "selected_columns"), []);
    NothingFits(py);
  }

  lemma SortListIsAccepted(py: Python, fields: map<string, Json>)
    ensures NormalizeSortList(py, Get(fields, "sort")).Ok? <==>
            IsArray(fields, "sort") && forall i | 0 <= i < |ListOf(fields, "sort")| :: SortFits(py, ListOf(fields, "sort")[i])
  {
    hide Each, SortFits;
    SortsAreAccepted(py, ListOf(fields, "sort"));
  }

  lemma FilterIsAccepted(py: Python, fields: map<string, Json>)
    ensures NormalizeFilter(py, Get(fields, "filter"), ParametersOf(py, fields)).Ok? <==>
            IsMissing(fields, "filter") ||
            (fields["filter"].Obj? && FilterFits(py, fields["filter"].fields, ParametersOf(py, fields)))
  {
    hide NormalizeFilter, ParametersOf, FilterFits;
    if IsMissing(fields, "filter") {
      NothingIsNoFilter(py, ParametersOf(py, fields));
    } else if fields["filter"].Obj? {
      FilterAcceptedExactly(py, fields["filter"].fields, ParametersOf(py, fields));
    } else {
      OtherIsNoFilter(py, fields["filter"], ParametersOf(py, fields));
    }
  }

  lemma OtherIsNoFilter(py: Python, v: Json, ps: seq<Parameter>)
    requires !v.Null? && !v.Obj?
    ensures NormalizeFilter(py, v, ps).Bad?
  {
  }

  lemma NothingFits(py: Python)
    ensures ParametersFit(py, [], []) && ColumnsFit(py, [], [])
  {
  }

  /** The parameters that the filter may refer to. */
  function ParametersOf(py: Python, fields: map<string, Json>): seq<Parameter> {
    match NormalizeParametersFrom(py, ListOf(fields, "parameters"), [])
    case Ok(ps) => ps
    case Bad(_) => []
  }
}
