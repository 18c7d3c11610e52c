/** HTTP input trees: coercing plain data to input nodes, and serialising them again
    (configuration_command_dto.py). */
module HttpInputTree {
  import opened PyText

  /** A validated `HttpInputNode`: the fields that its kind uses. */
  datatype Node =
    | Literal(value: Data)
    | RuntimeValue(definitionId: string, fieldPath: Option<string>)
    | Source(sourceCode: string)
    | BuiltIn(resolver: string)

  /** Plain data in which nodes may already occur. */
  datatype Data =
    | Null
    | Bool(b: bool)
    | Int(n: int)
    | Float(x: real)
    | Str(s: string)
    | Arr(items: seq<Data>)
    | Obj(fields: map<string, Data>)
    | NodeOf(node: Node)

  datatype Coerced<+T> = Ok(value: T) | Invalid

  predicate IsKind(s: string) { s == "literal" || s == "runtimeValue" || s == "source" || s == "builtIn" }

  function Get(fields: map<string, Data>, k: string): Data { if k in fields then fields[k] else Null }

  /** `_normalize_token(value.get("kind"))` when it is a kind: only text can be. */
  function KindOf(fields: map<string, Data>): Option<string> {
    match Get(fields, "kind")
    case Str(s) => if IsKind(Strip(s)) then Some(Strip(s)) else None
    case _ => None
  }

  predicate Blank(v: Data) { v.Null? || (v.Str? && Strip(v.s) == []) }

  /** `_first_non_empty`. */
  function FirstFilled(fields: map<string, Data>, k: string, l: string): Data {
    if !Blank(Get(fields, k)) then Get(fields, k)
    else if !Blank(Get(fields, l)) then Get(fields, l)
    else Null
  }

  /** A field of type `str | None` followed by `_normalize_token`. */
  function Token(v: Data): Coerced<string> {
    match v
    case Null => Ok([])
    case Str(s) => Ok(Strip(s))
    case _ => Invalid
  }

  predicate IsResolver(s: string) { s == "now" || s == "today" }

  /** `HttpInputNode(...)` with `validate_node`. */
  function MakeNode(kind: string, value: Data, definitionId: Data, fieldPath: Data, sourceCode: Data, resolver: Data): Coerced<Node> {
    match (Token(definitionId), Token(fieldPath), Token(sourceCode), Token(resolver))
    case (Ok(d), Ok(f), Ok(c), Ok(r)) =>
      if kind == "literal" then Ok(Literal(value))
      else if kind == "runtimeValue" then
        if d == [] then Invalid else Ok(RuntimeValue(d, if f == [] then None else Some(f)))
      else if kind == "source" then
        if c == [] then Invalid else Ok(Source(c))
      else if IsResolver(r) then Ok(BuiltIn(r)) else Invalid
    case _ => Invalid
  }

  function NodeFrom(fields: map<string, Data>, kind: string): Coerced<Node> {
    MakeNode(kind, Get(fields, "value"), FirstFilled(fields, "definitionId", "definition_id"),
             FirstFilled(fields, "fieldPath", "field_path"), FirstFilled(fields, "sourceCode", "source_code"),
             Get(fields, "resolver"))
  }

  /** `_coerce_http_input_tree`. */
  function CoerceTree(v: Data): Coerced<Data>
    decreases v, 1
  {
    match v
    case Null => Ok(Null)
    case NodeOf(_) => Ok(v)
    case Obj(fields) =>
      var kind := KindOf(fields);
      if kind.Some? then
        match NodeFrom(fields, kind.value)
        case Ok(n) => Ok(NodeOf(n))
        case Invalid => Invalid
      else CoerceFields(v)
    case Arr(_) => CoerceItems(v)
    case _ => Ok(NodeOf(Literal(v)))
  }

  function CoerceFields(v: Data): Coerced<Data>
    requires v.Obj?
    decreases v, 0
  {
    if forall k | k in v.fields :: CoerceTree(v.fields[k]).Ok?
    then Ok(Obj(map k | k in v.fields :: CoerceTree(v.fields[k]).value))
    else Invalid
  }

  function CoerceItems(v: Data): Coerced<Data>
    requires v.Arr?
    decreases v, 0
  {
    if forall i | 0 <= i < |v.items| :: CoerceTree(v.items[i]).Ok?
    then Ok(Arr(seq(|v.items|, i requires 0 <= i < |v.items| => CoerceTree(v.items[i]).value)))
    else Invalid
  }

  lemma FieldsCoerceTo(v: Data, fields: map<string, Data>)
    requires v.Obj? && v.fields.Keys == fields.Keys && forall k | k in fields :: CoerceTree(v.fields[k]) == Ok(fields[k])
    ensures CoerceFields(v) == Ok(Obj(fields))
  {
    hide CoerceTree;
    assert (map k | k in v.fields :: CoerceTree(v.fields[k]).value) == fields;
  }

  lemma ItemsCoerceTo(v: Data, items: seq<Data>)
    requires v.Arr? && |v.items| == |items| && forall i | 0 <= i < |items| :: CoerceTree(v.items[i]) == Ok(items[i])
    ensures CoerceItems(v) == Ok(Arr(items))
  {
    hide CoerceTree;
    assert seq(|v.items|, i requires 0 <= i < |v.items| => CoerceTree(v.items[i]).value) == items;
  }

  function SerializeNode(n: Node): map<string, Data> {
    match n
    case Literal(value) => map["kind" := Str("literal"), "value" := value]
    case RuntimeValue(id, None) => map["kind" := Str("runtimeValue"), "definitionId" := Str(id)]
    case RuntimeValue(id, Some(f)) =>
      if f == [] then map["kind" := Str("runtimeValue"), "definitionId" := Str(id)]
      else map["kind" := Str("runtimeValue"), "definitionId" := Str(id), "fieldPath" := Str(f)]
    case Source(code) => map["kind" := Str("source"), "sourceCode" := Str(code)]
    case BuiltIn(r) => map["kind" := Str("builtIn"), "resolver" := Str(r)]
  }

  /** `_serialize_http_input_node`. */
  function SerializeTree(v: Data): Data {
    match v
    case NodeOf(n) => Obj(SerializeNode(n))
    case Obj(fields) => Obj(map k | k in fields :: SerializeTree(fields[k]))
    case Arr(items) => Arr(seq(|items|, i requires 0 <= i < |items| => SerializeTree(items[i])))
    case _ => v
  }

  // ---- coerced trees ----------------------------------------------------------------------------

  predicate ValidNode(n: Node) {
    match n
    case Literal(_) => true
    case RuntimeValue(id, f) => id != [] && Strip(id) == id && (f.Some? ==> f.value != [] && Strip(f.value) == f.value)
    case Source(code) => code != [] && Strip(code) == code
    case BuiltIn(r) => IsResolver(r)
  }

  /** The nodes in the input are validated ones. */
  predicate ValidInput(v: Data) {
    match v
    case NodeOf(n) => ValidNode(n)
    case Obj(fields) => forall k | k in fields :: ValidInput(fields[k])
    case Arr(items) => forall i | 0 <= i < |items| :: ValidInput(items[i])
    case _ => true
  }

  /** The shape of a coerced tree: every scalar has become a node. */
  predicate IsTree(v: Data) {
    match v
    case Null => true
    case NodeOf(n) => ValidNode(n)
    case Obj(fields) => forall k | k in fields :: IsTree(fields[k])
    case Arr(items) => forall i | 0 <= i < |items| :: IsTree(items[i])
    case _ => false
  }

  lemma TokenIsStripped(v: Data)
    requires Token(v).Ok?
    ensures Strip(Token(v).value) == Token(v).value
  {
    hide Strip;
    if v.Str? {
      StripTwice(v.s);
    } else {
      StripNothing();
    }
  }

  lemma MadeNodeIsValid(kind: string, value: Data, definitionId: Data, fieldPath: Data, sourceCode: Data, resolver: Data)
    requires MakeNode(kind, value, definitionId, fieldPath, sourceCode, resolver).Ok?
    ensures ValidNode(MakeNode(kind, value, definitionId, fieldPath, sourceCode, resolver).value)
  {
    hide Strip, Token;
    TokenIsStripped(definitionId);
    TokenIsStripped(fieldPath);
    TokenIsStripped(sourceCode);
  }

  /** Coercion yields trees. */
  lemma {:induction false} CoercedIsTree(v: Data)
    requires ValidInput(v) && CoerceTree(v).Ok?
    ensures IsTree(CoerceTree(v).value)
    decreases v
  {
    hide Strip, KindOf, MakeNode, ValidNode;
    match v
    case Obj(fields) =>
      var kind := KindOf(fields);
      if kind.Some? {
        MadeNodeIsValid(kind.value, Get(fields, "value"), FirstFilled(fields, "definitionId", "definition_id"),
                        FirstFilled(fields, "fieldPath", "field_path"),
                        FirstFilled(fields, "sourceCode", "source_code"), Get(fields, "resolver"));
      } else {
        forall k | k in fields { CoercedIsTree(fields[k]); }
      }
    case Arr(items) =>
      forall i | 0 <= i < |items| { CoercedIsTree(items[i]); }
    case NodeOf(_) =>
    case Null =>
    case _ => LiteralIsValid(v);
  }

  lemma LiteralIsValid(v: Data)
    ensures ValidNode(Literal(v))
  {
  }

  /** In a tree, no object is a node in disguise: its `kind` entry is not text. */
  lemma TreeHasNoKind(fields: map<string, Data>)
    requires IsTree(Obj(fields))
    ensures KindOf(fields) == None
  {
    hide ValidNode, Strip;
    if "kind" in fields {
      assert IsTree(fields["kind"]);
    }
  }

  /** Coercing a tree gives the same tree. */
  lemma {:induction false} TreeIsFixed(t: Data)
    requires IsTree(t)
    ensures CoerceTree(t) == Ok(t)
    decreases t
  {
    hide Strip, KindOf, NodeFrom, ValidNode, CoerceFields, CoerceItems;
    match t
    case Obj(fields) =>
      TreeHasNoKind(fields);
      forall k | k in fields { TreeIsFixed(fields[k]); }
      FieldsCoerceTo(t, fields);
    case Arr(items) =>
      forall i | 0 <= i < |items| { TreeIsFixed(items[i]); }
      ItemsCoerceTo(t, items);
    case _ =>
  }

  /** Coercion is idempotent. */
  lemma CoercionIsIdempotent(v: Data)
    requires ValidInput(v) && CoerceTree(v).Ok?
    ensures CoerceTree(CoerceTree(v).value) == CoerceTree(v)
  {
    hide CoerceTree, IsTree, ValidInput;
    CoercedIsTree(v);
    TreeIsFixed(CoerceTree(v).value);
  }

  // ---- round trip -------------------------------------------------------------------------------

  /** A serialised node is read back as that node. */
  lemma NodeRoundTrip(n: Node)
    requires ValidNode(n)
    ensures CoerceTree(Obj(SerializeNode(n))) == Ok(NodeOf(n))
  {
    hide Strip, NodeFrom, CoerceFields, CoerceItems, SerializeNode, IsKind, ValidNode;
    NodeKind(n);
    NodeFieldsRoundTrip(n);
  }

  function KindText(n: Node): string {
    match n
    case Literal(_) => "literal"
    case RuntimeValue(_, _) => "runtimeValue"
    case Source(_) => "source"
    case BuiltIn(_) => "builtIn"
  }

  lemma NodeKind(n: Node)
    ensures KindOf(SerializeNode(n)) == Some(KindText(n))
  {
    hide Strip;
    StripKinds();
  }

  lemma NodeFieldsRoundTrip(n: Node)
    requires ValidNode(n)
    ensures NodeFrom(SerializeNode(n), KindText(n)) == Ok(n)
  {
    hide Strip, NodeFrom, SerializeNode, ValidNode;
    match n
    case RuntimeValue(id, path) => RuntimeValueRoundTrip(id, path);
    case _ => OtherNodeRoundTrip(n);
  }

  lemma OtherNodeRoundTrip(n: Node)
    requires ValidNode(n) && !n.RuntimeValue?
    ensures NodeFrom(SerializeNode(n), KindText(n)) == Ok(n)
  {
    hide Strip;
    if n.BuiltIn? {
      StripKeeps(n.resolver);
    }
  }

  lemma RuntimeValueRoundTrip(id: string, path: Option<string>)
    requires ValidNode(RuntimeValue(id, path))
    ensures NodeFrom(SerializeNode(RuntimeValue(id, path)), "runtimeValue") == Ok(RuntimeValue(id, path))
  {
    hide Strip;
    var fields := SerializeNode(RuntimeValue(id, path));
    assert FirstFilled(fields, "definitionId", "definition_id") == Str(id);
    assert FirstFilled(fields, "fieldPath", "field_path") == if path.Some? then Str(path.value) else Null;
  }

  lemma StripKinds()
    ensures Strip("literal") == "literal" && Strip("runtimeValue") == "runtimeValue"
    ensures Strip("source") == "source" && Strip("builtIn") == "builtIn"
  {
    hide Strip;
    StripKeeps("literal");
    StripKeeps("runtimeValue");
    StripKeeps("source");
    StripKeeps("builtIn");
  }

  /** Serialising a tree never yields bare text, so no serialised object is taken for a node. */
  lemma SerializedIsNotText(t: Data)
    requires IsTree(t)
    ensures !SerializeTree(t).Str?
  {
  }

  lemma SerializedHasNoKind(fields: map<string, Data>)
    requires IsTree(Obj(fields))
    ensures KindOf(SerializeTree(Obj(fields)).fields) == None
  {
    hide ValidNode, Strip;
    if "kind" in fields {
      SerializedIsNotText(fields["kind"]);
    }
  }

  /** Round trip: coercing what a tree serialises to gives that tree back. */
  lemma {:induction false} TreeRoundTrip(t: Data)
    requires IsTree(t)
    ensures CoerceTree(SerializeTree(t)) == Ok(t)
    decreases t
  {
    hide Strip, KindOf, NodeFrom, ValidNode, SerializeNode, CoerceFields, CoerceItems;
    match t
    case NodeOf(n) => NodeRoundTrip(n);
    case Obj(fields) =>
      SerializedHasNoKind(fields);
      var out := SerializeTree(t);
      forall k | k in fields
        ensures CoerceTree(out.fields[k]) == Ok(fields[k])
      {
        TreeRoundTrip(fields[k]);
      }
      FieldsCoerceTo(out, fields);
    case Arr(items) =>
      var out := SerializeTree(t);
      forall i | 0 <= i < |items|
        ensures CoerceTree(out.items[i]) == Ok(items[i])
      {
        TreeRoundTrip(items[i]);
      }
      ItemsCoerceTo(out, items);
    case _ =>
  }

  /** What was coerced from any input survives being stored and read back. */
  lemma StoredTreeIsReadBack(v: Data)
    requires ValidInput(v) && CoerceTree(v).Ok?
    ensures CoerceTree(SerializeTree(CoerceTree(v).value)) == CoerceTree(v)
  {
    hide CoerceTree, IsTree, ValidInput, SerializeTree;
    CoercedIsTree(v);
    TreeRoundTrip(CoerceTree(v).value);
  }
}
