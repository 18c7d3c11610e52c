/** Dataset perimeters: parameters with typed defaults, selected columns, a filter and a sort
    (dataset_perimeter_compiler.py, dataset_parameter_resolver.py). */
module Perimeters {
  import opened PyText
  import opened Json

  /** A Python value that a parameter can take: JSON, a date or a datetime. */
  datatype Value = Plain(json: Json) | Date(day: int) | Datetime(instant: int)

  /** Python's own conversions. Dates and datetimes are numbered; only printing and parsing matter. */
  datatype Python = Python(
    str: Value -> string, parseFloat: string -> Option<real>,
    parseDate: string -> Option<int>, printDate: int -> string,
    parseDatetime: string -> Option<int>, printDatetime: int -> string,
    dateOf: int -> int, midnight: int -> int)

  /** `str(s)` is `s`, and what `isoformat` prints, `fromisoformat` reads back as it was. */
  ghost predicate Lawful(py: Python) {
    && (forall s :: py.str(Plain(Str(s))) == s)
    && (forall d :: py.parseDate(py.printDate(d)) == Some(d) && Strip(py.printDate(d)) == py.printDate(d))
    && forall t :: py.parseDatetime(py.printDatetime(t)) == Some(t) && Strip(py.printDatetime(t)) == py.printDatetime(t)
                   && !EndsInZ(py.printDatetime(t))
  }

  predicate EndsInZ(s: string) { s != [] && s[|s| - 1] == 'Z' }

  datatype Checked<+T> = Ok(value: T) | Bad(error: PerimeterError)

  datatype PerimeterError =
    | NotAnObject | NotAnArray | Required(what: string) | Unsupported(what: string) | Duplicate(name: string)
    | BothDefaults | BadDefault | UnknownParameter(name: string) | Incompatible(name: string)
    | EmptyGroup | EmptyList | NotText | BadValue(name: string) | MissingColumn(name: string) | Refused

  // ---- the normalised perimeter -----------------------------------------------------------------

  datatype ParamType = StringType | IntegerType | NumberType | BooleanType | DateType | DatetimeType

  datatype Resolver = Now | Today

  datatype Default = NoDefault | DefaultValue(value: Json) | DefaultBinding(resolver: Resolver)

  datatype Parameter = Parameter(name: string, kind: ParamType, description: Option<string>, default: Default)

  datatype Operator = Eq | Neq | Gt | Gte | Lt | Lte | Contains | StartsWith | EndsWith | In | NotIn | IsNull | IsNotNull

  datatype Operand = NoOperand | Literal(json: Json) | ParameterRef(name: string)

  datatype Condition = Condition(field: string, operator: Operator, operand: Operand)

  datatype Logic = And | Or

  datatype Item = One(condition: Condition) | Group(logic: Logic, conditions: seq<Condition>)

  datatype Filter = Filter(logic: Logic, items: seq<Item>)

  datatype Sort = Sort(field: string, descending: bool)

  datatype Perimeter = Perimeter(parameters: seq<Parameter>, columns: Option<seq<string>>, filter: Option<Filter>,
                                 sort: Option<seq<Sort>>)

  const NO_PERIMETER := Perimeter([], None, None, None)

  function TypeName(t: ParamType): string {
    match t
    case StringType => "string"
    case IntegerType => "integer"
    case NumberType => "number"
    case BooleanType => "boolean"
    case DateType => "date"
    case DatetimeType => "datetime"
  }

  function TypeNamed(s: string): Option<ParamType> {
    if s == "string" then Some(StringType) else if s == "integer" then Some(IntegerType)
    else if s == "number" then Some(NumberType) else if s == "boolean" then Some(BooleanType)
    else if s == "date" then Some(DateType) else if s == "datetime" then Some(DatetimeType) else None
  }

  function OperatorName(o: Operator): string {
    match o
    case Eq => "eq"
    case Neq => "neq"
    case Gt => "gt"
    case Gte => "gte"
    case Lt => "lt"
    case Lte => "lte"
    case Contains => "contains"
    case StartsWith => "starts_with"
    case EndsWith => "ends_with"
    case In => "in"
    case NotIn => "not_in"
    case IsNull => "is_null"
    case IsNotNull => "is_not_null"
  }

  function OperatorNamed(s: string): Option<Operator> {
    if s == "eq" then Some(Eq) else if s == "neq" then Some(Neq) else if s == "gt" then Some(Gt)
    else if s == "gte" then Some(Gte) else if s == "lt" then Some(Lt) else if s == "lte" then Some(Lte)
    else if s == "contains" then Some(Contains) else if s == "starts_with" then Some(StartsWith)
    else if s == "ends_with" then Some(EndsWith) else if s == "in" then Some(In)
    else if s == "not_in" then Some(NotIn) else if s == "is_null" then Some(IsNull)
    else if s == "is_not_null" then Some(IsNotNull) else None
  }

  function ResolverName(r: Resolver): string { if r.Now? then "$now" else "$today" }

  function ResolverNamed(s: string): Option<Resolver> {
    if s == "$now" then Some(Now) else if s == "$today" then Some(Today) else None
  }

  function LogicName(l: Logic): string { if l.And? then "AND" else "OR" }

  function LogicNamed(s: string): Option<Logic> { if s == "AND" then Some(And) else if s == "OR" then Some(Or) else None }

  // ---- reading JSON -----------------------------------------------------------------------------

  function Get(fields: map<string, Json>, k: string): Json { if k in fields then fields[k] else Null }

  /** `not v`. */
  predicate Falsy(v: Json) {
    match v
    case Null => true
    case Bool(b) => !b
    case Int(n) => n == 0
    case Float(x) => x == 0.0
    case Str(s) => s == []
    case Arr(items) => items == []
    case Obj(fields) => fields == map[]
  }

  /** `str(v or default)`. */
  function TextOr(py: Python, v: Json, default: string): string { if Falsy(v) then default else py.str(Plain(v)) }

  /** `str(v or "").strip()`. */
  function Token(py: Python, v: Json): string { Strip(TextOr(py, v, [])) }

  /** `f` on each element in turn, up to the first error. */
  function Each<S, T>(raws: seq<S>, f: S -> Checked<T>): Checked<seq<T>> {
    if raws == [] then Ok([])
    else match f(raws[0])
      case Bad(e) => Bad(e)
      case Ok(x) =>
        match Each(raws[1..], f)
        case Bad(e) => Bad(e)
        case Ok(xs) => Ok([x] + xs)
  }

  // ---- values of a type -------------------------------------------------------------------------

  /** `raw.lstrip("-").isdigit()` and then `int(raw)`, which takes one sign. */
  function IntegerText(s: string): Option<int> {
    if IsDigits(s) then Some(ParseNat(s))
    else if s != [] && s[0] == '-' && IsDigits(s[1..]) then
      Some(0 - (ParseNat(s[1..]) as int))
    else None
  }

  function CoerceInteger(v: Value): Option<Value> {
    match v
    case Plain(Int(_)) => Some(v)
    case Plain(Float(x)) => if x.Floor as real == x then Some(Plain(Int(x.Floor))) else None
    case Plain(Str(s)) => (match IntegerText(Strip(s)) case Some(n) => Some(Plain(Int(n))) case None => None)
    case _ => None
  }

  function CoerceNumber(py: Python, v: Value): Option<Value> {
    match v
    case Plain(Int(_)) => Some(v)
    case Plain(Float(_)) => Some(v)
    case Plain(Str(s)) =>
      (match py.parseFloat(Strip(s))
       case Some(x) => Some(Plain(if x.Floor as real == x then Int(x.Floor) else Float(x)))
       case None => None)
    case _ => None
  }

  function CoerceBoolean(v: Value): Option<Value> {
    match v
    case Plain(Bool(_)) => Some(v)
    case Plain(Str(s)) =>
      var t := Lower(Strip(s));
      if t == "true" || t == "1" || t == "yes" then Some(Plain(Bool(true)))
      else if t == "false" || t == "0" || t == "no" then Some(Plain(Bool(false)))
      else None
    case Plain(Int(n)) => if n == 0 || n == 1 then Some(Plain(Bool(n == 1))) else None
    case _ => None
  }

  function DatetimeText(py: Python, raw: string): Option<int> {
    py.parseDatetime(if EndsInZ(raw) then raw[..|raw| - 1] + "+00:00" else raw)
  }

  function CoerceDate(py: Python, v: Value): Option<Value> {
    match v
    case Datetime(t) => Some(Date(py.dateOf(t)))
    case Date(_) => Some(v)
    case Plain(Str(s)) =>
      var raw := Strip(s);
      if py.parseDate(raw).Some? then Some(Date(py.parseDate(raw).value))
      else (match DatetimeText(py, Strip(raw)) case Some(t) => Some(Date(py.dateOf(t))) case None => None)
    case _ => None
  }

  function CoerceDatetime(py: Python, v: Value): Option<Value> {
    match v
    case Datetime(_) => Some(v)
    case Date(d) => Some(Datetime(py.midnight(d)))
    case Plain(Str(s)) => (match DatetimeText(py, Strip(s)) case Some(t) => Some(Datetime(t)) case None => None)
    case _ => None
  }

  /** `coerce_value`; `None` is the raised error. */
  function Coerce(py: Python, t: ParamType, v: Value): Option<Value> {
    if v == Plain(Null) then Some(v)
    else match t
      case StringType => Some(Plain(Str(py.str(v))))
      case IntegerType => CoerceInteger(v)
      case NumberType => CoerceNumber(py, v)
      case BooleanType => CoerceBoolean(v)
      case DateType => CoerceDate(py, v)
      case DatetimeType => CoerceDatetime(py, v)
  }

  /** `_serialize_parameter_default_value`. */
  function Serialized(py: Python, v: Value): Json {
    match v
    case Plain(j) => j
    case Date(d) => Str(py.printDate(d))
    case Datetime(t) => Str(py.printDatetime(t))
  }

  /** `is_operator_compatible`. */
  predicate Compatible(t: ParamType, o: Operator) {
    match o
    case Eq => true
    case Neq => true
    case Gt => t in {IntegerType, NumberType, DateType, DatetimeType}
    case Gte => t in {IntegerType, NumberType, DateType, DatetimeType}
    case Lt => t in {IntegerType, NumberType, DateType, DatetimeType}
    case Lte => t in {IntegerType, NumberType, DateType, DatetimeType}
    case Contains => t == StringType
    case StartsWith => t == StringType
    case EndsWith => t == StringType
    case _ => false
  }

  // ---- parameters -------------------------------------------------------------------------------

  function NormalizeBinding(py: Python, raw: Json): Checked<Default> {
    if !raw.Obj? then Bad(NotAnObject)
    else if Lower(Token(py, Get(raw.fields, "kind"))) != "built_in" then Bad(Unsupported("kind"))
    else match ResolverNamed(Token(py, Get(raw.fields, "resolver")))
      case None => Bad(Unsupported("resolver"))
      case Some(r) => Ok(DefaultBinding(r))
  }

  function NormalizeDefault(py: Python, fields: map<string, Json>, t: ParamType): Checked<Default> {
    if "default_value" in fields then
      var v := fields["default_value"];
      if v.Null? then Ok(DefaultValue(Null))
      else match Coerce(py, t, Plain(v))
        case None => Bad(BadDefault)
        case Some(c) => Ok(DefaultValue(Serialized(py, c)))
    else if !Get(fields, "default_binding").Null? then NormalizeBinding(py, Get(fields, "default_binding"))
    else Ok(NoDefault)
  }

  function Described(s: string): Option<string> { if s == [] then None else Some(s) }

  /** `_normalize_parameter_definition`. */
  function NormalizeParameter(py: Python, raw: Json): Checked<Parameter> {
    if !raw.Obj? then Bad(NotAnObject)
    else
      var fields := raw.fields;
      var name := Token(py, Get(fields, "name"));
      var kind := TypeNamed(Lower(Token(py, Get(fields, "type"))));
      if name == [] then Bad(Required("name"))
      else if kind.None? then Bad(Unsupported("type"))
      else if "default_value" in fields && !Get(fields, "default_binding").Null? then Bad(BothDefaults)
      else match NormalizeDefault(py, fields, kind.value)
        case Bad(e) => Bad(e)
        case Ok(d) => Ok(Parameter(name, kind.value, Described(Token(py, Get(fields, "description"))), d))
  }

  /** The type of the parameter of that name. */
  function TypeIn(parameters: seq<Parameter>, name: string): Option<ParamType> {
    if parameters == [] then None
    else if parameters[0].name == name then Some(parameters[0].kind)
    else TypeIn(parameters[1..], name)
  }

  /** The loop over the parameters, from the ones already taken. */
  function NormalizeParametersFrom(py: Python, raws: seq<Json>, done: seq<Parameter>): Checked<seq<Parameter>>
    decreases |raws|
  {
    if raws == [] then Ok(done)
    else match NormalizeParameter(py, raws[0])
      case Bad(e) => Bad(e)
      case Ok(p) =>
        if TypeIn(done, p.name).Some? then Bad(Duplicate(p.name))
        else NormalizeParametersFrom(py, raws[1..], done + [p])
  }

  method NormalizeParameters(py: Python, raws: seq<Json>) returns (r: Checked<seq<Parameter>>)
    ensures r == NormalizeParametersFrom(py, raws, [])
  {
    hide NormalizeParameter, TypeIn;
    var done: seq<Parameter> := [];
    for i := 0 to |raws|
      invariant NormalizeParametersFrom(py, raws, []) == NormalizeParametersFrom(py, raws[i..], done)
    {
      assert raws[i..][0] == raws[i] && raws[i..][1..] == raws[i + 1..];
      var p := NormalizeParameter(py, raws[i]);
      if p.Bad? {
        return Bad(p.error);
      }
      if TypeIn(done, p.value.name).Some? {
        return Bad(Duplicate(p.value.name));
      }
      done := done + [p.value];
    }
    r := Ok(done);
  }

  // ---- columns and sort -------------------------------------------------------------------------

  function NormalizeColumnsFrom(py: Python, raws: seq<Json>, done: seq<string>): Checked<seq<string>>
    decreases |raws|
  {
    if raws == [] then Ok(done)
    else
      var name := Token(py, raws[0]);
      if name == [] then Bad(Required("column"))
      else if name in done then Bad(Duplicate(name))
      else NormalizeColumnsFrom(py, raws[1..], done + [name])
  }

  method NormalizeColumns(py: Python, raws: seq<Json>) returns (r: Checked<seq<string>>)
    ensures r == NormalizeColumnsFrom(py, raws, [])
  {
    hide Token;
    var done: seq<string> := [];
    for i := 0 to |raws|
      invariant NormalizeColumnsFrom(py, raws, []) == NormalizeColumnsFrom(py, raws[i..], done)
    {
      assert raws[i..][0] == raws[i] && raws[i..][1..] == raws[i + 1..];
      var name := Token(py, raws[i]);
      if name == [] {
        return Bad(Required("column"));
      }
      if name in done {
        return Bad(Duplicate(name));
      }
      done := done + [name];
    }
    r := Ok(done);
  }

  function NormalizeSortItem(py: Python, raw: Json): Checked<Sort> {
    if !raw.Obj? then Bad(NotAnObject)
    else
      var field := Token(py, Get(raw.fields, "field"));
      var direction := Lower(Strip(TextOr(py, Get(raw.fields, "direction"), "asc")));
      if field == [] then Bad(Required("field"))
      else if direction != "asc" && direction != "desc" then Bad(Unsupported("direction"))
      else Ok(Sort(field, direction == "desc"))
  }

  function SortReader(py: Python): Json -> Checked<Sort> { r => NormalizeSortItem(py, r) }

  // ---- the filter -------------------------------------------------------------------------------

  predicate IsReference(py: Python, v: Json) { v.Obj? && Lower(Token(py, Get(v.fields, "kind"))) == "parameter" }

  /** `_normalize_filter_value`. */
  function NormalizeOperand(py: Python, raw: Json, o: Operator, parameters: seq<Parameter>): Checked<Operand> {
    if IsReference(py, raw) then
      var name := Token(py, Get(raw.fields, "name"));
      if name == [] then Bad(Required("name"))
      else if TypeIn(parameters, name).None? then Bad(UnknownParameter(name))
      else if o.In? || o.NotIn? then Bad(Unsupported("reference"))
      else if !Compatible(TypeIn(parameters, name).value, o) then Bad(Incompatible(name))
      else Ok(ParameterRef(name))
    else if (o.In? || o.NotIn?) && (!raw.Arr? || raw.items == []) then Bad(EmptyList)
    else if (o.Contains? || o.StartsWith? || o.EndsWith?) && !raw.Str? then Bad(NotText)
    else Ok(Literal(raw))
  }

  /** `_normalize_filter_condition`. */
  function NormalizeCondition(py: Python, raw: Json, parameters: seq<Parameter>): Checked<Condition> {
    if !raw.Obj? then Bad(NotAnObject)
    else
      var field := Token(py, Get(raw.fields, "field"));
      var o := OperatorNamed(Lower(Token(py, Get(raw.fields, "operator"))));
      if field == [] then Bad(Required("field"))
      else if o.None? then Bad(Unsupported("operator"))
      else if o.value.IsNull? || o.value.IsNotNull? then Ok(Condition(field, o.value, NoOperand))
      else if "value" !in raw.fields then Bad(Required("value"))
      else match NormalizeOperand(py, raw.fields["value"], o.value, parameters)
        case Bad(e) => Bad(e)
        case Ok(v) => Ok(Condition(field, o.value, v))
  }

  function ConditionReader(py: Python, parameters: seq<Parameter>): Json -> Checked<Condition> {
    r => NormalizeCondition(py, r, parameters)
  }

  function LogicOf(py: Python, fields: map<string, Json>): Option<Logic> {
    LogicNamed(Upper(Strip(TextOr(py, Get(fields, "logic"), "AND"))))
  }

  /** `_normalize_filter_item`. */
  function NormalizeItem(py: Python, raw: Json, parameters: seq<Parameter>): Checked<Item> {
    if !raw.Obj? then Bad(NotAnObject)
    else
      var kind := Lower(Strip(TextOr(py, Get(raw.fields, "kind"), "condition")));
      if kind == "group" then NormalizeGroup(py, raw.fields, parameters)
      else if kind != "condition" then Bad(Unsupported("kind"))
      else match NormalizeCondition(py, raw, parameters)
        case Bad(e) => Bad(e)
        case Ok(c) => Ok(One(c))
  }

  function NormalizeGroup(py: Python, fields: map<string, Json>, parameters: seq<Parameter>): Checked<Item> {
    var logic := LogicOf(py, fields);
    var raws := Get(fields, "conditions");
    if logic.None? then Bad(Unsupported("logic"))
    else if !Falsy(raws) && !raws.Arr? then Bad(NotAnArray)
    else match Each(if raws.Arr? then raws.items else [], ConditionReader(py, parameters))
      case Bad(e) => Bad(e)
      case Ok(cs) => if cs == [] then Bad(EmptyGroup) else Ok(Group(logic.value, cs))
  }

  function ItemReader(py: Python, parameters: seq<Parameter>): Json -> Checked<Item> {
    r => NormalizeItem(py, r, parameters)
  }

  /** The legacy form: `conditions` directly under the filter become one group. */
  function NormalizeLegacy(py: Python, fields: map<string, Json>, logic: Logic, parameters: seq<Parameter>): Checked<seq<Item>> {
    var raws := Get(fields, "conditions");
    if !Falsy(raws) && !raws.Arr? then Bad(NotAnArray)
    else match Each(if raws.Arr? then raws.items else [], ConditionReader(py, parameters))
      case Bad(e) => Bad(e)
      case Ok(cs) => Ok(if cs == [] then [] else [Group(logic, cs)])
  }

  function NormalizeItems(py: Python, fields: map<string, Json>, logic: Logic, parameters: seq<Parameter>): Checked<seq<Item>> {
    var raws := Get(fields, "items");
    if raws.Null? then NormalizeLegacy(py, fields, logic, parameters)
    else if !Falsy(raws) && !raws.Arr? then Bad(NotAnArray)
    else Each(if raws.Arr? then raws.items else [], ItemReader(py, parameters))
  }

  function NormalizeFilter(py: Python, raw: Json, parameters: seq<Parameter>): Checked<Option<Filter>> {
    if raw.Null? then Ok(None)
    else if !raw.Obj? then Bad(NotAnObject)
    else
      var logic := LogicOf(py, raw.fields);
      if logic.None? then Bad(Unsupported("logic"))
      else match NormalizeItems(py, raw.fields, logic.value, parameters)
        case Bad(e) => Bad(e)
        case Ok(items) => Ok(if items == [] then None else Some(Filter(logic.value, items)))
  }

  // ---- the perimeter ----------------------------------------------------------------------------

  function NormalizeParameterList(py: Python, raw: Json): Checked<seq<Parameter>> {
    if raw.Null? then Ok([])
    else if !raw.Arr? then Bad(NotAnArray)
    else NormalizeParametersFrom(py, raw.items, [])
  }

  function NormalizeColumnList(py: Python, raw: Json): Checked<Option<seq<string>>> {
    if raw.Null? then Ok(None)
    else if !raw.Arr? then Bad(NotAnArray)
    else match NormalizeColumnsFrom(py, raw.items, [])
      case Bad(e) => Bad(e)
      case Ok(cs) => Ok(Some(cs))
  }

  function NormalizeSortList(py: Python, raw: Json): Checked<Option<seq<Sort>>> {
    if raw.Null? then Ok(None)
    else if !raw.Arr? then Bad(NotAnArray)
    else match Each(raw.items, SortReader(py))
      case Bad(e) => Bad(e)
      case Ok(ss) => Ok(Some(ss))
  }

  /** `normalize`; the result `None` stands for the perimeter that restricts nothing. */
  function Normalized(py: Python, raw: Json): Checked<Perimeter> {
    if raw.Null? then Ok(NO_PERIMETER)
    else if !raw.Obj? then Bad(NotAnObject)
    else match NormalizeParameterList(py, Get(raw.fields, "parameters"))
      case Bad(e) => Bad(e)
      case Ok(ps) =>
        match NormalizeColumnList(py, Get(raw.fields, "selected_columns"))
        case Bad(e) => Bad(e)
        case Ok(columns) =>
          match NormalizeFilter(py, Get(raw.fields, "filter"), ps)
          case Bad(e) => Bad(e)
          case Ok(filter) =>
            match NormalizeSortList(py, Get(raw.fields, "sort"))
            case Bad(e) => Bad(e)
            case Ok(sort) => Ok(Perimeter(ps, columns, filter, sort))
  }

  method Normalize(py: Python, raw: Json) returns (r: Checked<Perimeter>)
    ensures r == Normalized(py, raw)
  {
    hide NormalizeParametersFrom, NormalizeColumnsFrom, NormalizeFilter, NormalizeSortItem, Each;
    if raw.Null? {
      return Ok(NO_PERIMETER);
    }
    if !raw.Obj? {
      return Bad(NotAnObject);
    }
    var parameters: seq<Parameter> := [];
    var rawParameters := Get(raw.fields, "parameters");
    if !rawParameters.Null? {
      if !rawParameters.Arr? {
        return Bad(NotAnArray);
      }
      var ps := NormalizeParameters(py, rawParameters.items);
      if ps.Bad? {
        return Bad(ps.error);
      }
      parameters := ps.value;
    }
    var columns: Option<seq<string>> := None;
    var rawColumns := Get(raw.fields, "selected_columns");
    if !rawColumns.Null? {
      if !rawColumns.Arr? {
        return Bad(NotAnArray);
      }
      var cs := NormalizeColumns(py, rawColumns.items);
      if cs.Bad? {
        return Bad(cs.error);
      }
      columns := Some(cs.value);
    }
    var filter := NormalizeFilter(py, Get(raw.fields, "filter"), parameters);
    if filter.Bad? {
      return Bad(filter.error);
    }
    var rawSort := Get(raw.fields, "sort");
    var sort: Option<seq<Sort>> := None;
    if !rawSort.Null? {
      if !rawSort.Arr? {
        return Bad(NotAnArray);
      }
      var ss := Each(rawSort.items, SortReader(py));
      if ss.Bad? {
        return Bad(ss.error);
      }
      sort := Some(ss.value);
    }
    r := Ok(Perimeter(parameters, columns, filter.value, sort));
  }

  // ---- the normalised dictionary ----------------------------------------------------------------

  function ParameterJson(p: Parameter): Json {
    var base := map["name" := Str(p.name), "type" := Str(TypeName(p.kind)),
                    "description" := match p.description case None => Null case Some(d) => Str(d)];
    Obj(match p.default
        case NoDefault => base
        case DefaultValue(v) => base["default_value" := v]
        case DefaultBinding(r) =>
          base["default_binding" := Obj(map["kind" := Str("built_in"), "resolver" := Str(ResolverName(r))])])
  }

  function OperandJson(v: Operand): Json {
    match v
    case NoOperand => Null
    case Literal(j) => j
    case ParameterRef(name) => Obj(map["kind" := Str("parameter"), "name" := Str(name)])
  }

  function ConditionFields(c: Condition): map<string, Json> {
    var base := map["field" := Str(c.field), "operator" := Str(OperatorName(c.operator))];
    if c.operand.NoOperand? then base else base["value" := OperandJson(c.operand)]
  }

  function ItemJson(i: Item): Json {
    match i
    case One(c) => Obj(ConditionFields(c)["kind" := Str("condition")])
    case Group(logic, cs) =>
      Obj(map["kind" := Str("group"), "logic" := Str(LogicName(logic)),
              "conditions" := Arr(seq(|cs|, k requires 0 <= k < |cs| => Obj(ConditionFields(cs[k]))))])
  }

  function FilterJson(f: Filter): Json {
    Obj(map["logic" := Str(LogicName(f.logic)), "items" := Arr(seq(|f.items|, k requires 0 <= k < |f.items| => ItemJson(f.items[k])))])
  }

  function SortJson(s: Sort): Json {
    Obj(map["field" := Str(s.field), "direction" := Str(if s.descending then "desc" else "asc")])
  }

  function ParametersJson(ps: seq<Parameter>): seq<Json> {
    seq(|ps|, k requires 0 <= k < |ps| => ParameterJson(ps[k]))
  }

  function Texts(cs: seq<string>): seq<Json> { seq(|cs|, k requires 0 <= k < |cs| => Str(cs[k])) }

  function SortsJson(ss: seq<Sort>): seq<Json> { seq(|ss|, k requires 0 <= k < |ss| => SortJson(ss[k])) }

  function With(fields: map<string, Json>, present: bool, k: string, v: Json): map<string, Json> {
    if present then fields[k := v] else fields
  }

  function PerimeterFields(p: Perimeter): map<string, Json> {
    var ps := With(map[], p.parameters != [], "parameters", Arr(ParametersJson(p.parameters)));
    var cs := With(ps, p.columns.Some?, "selected_columns", if p.columns.Some? then Arr(Texts(p.columns.value)) else Null);
    var fs := With(cs, p.filter.Some?, "filter", if p.filter.Some? then FilterJson(p.filter.value) else Null);
    With(fs, p.sort.Some?, "sort", if p.sort.Some? then Arr(SortsJson(p.sort.value)) else Null)
  }

  /** The dictionary that `normalize` returns; `normalized or None` turns the empty one into `None`. */
  function PerimeterJson(p: Perimeter): Json {
    if PerimeterFields(p) == map[] then Null else Obj(PerimeterFields(p))
  }
}
