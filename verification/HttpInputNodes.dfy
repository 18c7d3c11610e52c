/** Which written objects are input nodes, and what each kind of node takes from them. */
module HttpInputNodes {
  import opened PyText
  import opened HttpInputTree

  /** The written kind, without the space around it. */
  predicate HasKind(fields: map<string, Data>, kind: string) {
    "kind" in fields && fields["kind"].Str? && Strip(fields["kind"].s) == kind
  }

  /** The text that the field holds under either of its names, the first that is not blank. */
  predicate Gives(fields: map<string, Data>, k: string, l: string, text: string) {
    || (k in fields && fields[k].Str? && Strip(fields[k].s) == text && text != [])
    || (IsBlankAt(fields, k) && l in fields && fields[l].Str? && Strip(fields[l].s) == text && text != [])
  }

  predicate IsBlankAt(fields: map<string, Data>, k: string) {
    k !in fields || fields[k].Null? || (fields[k].Str? && Strip(fields[k].s) == [])
  }

  predicate GivesNothing(fields: map<string, Data>, k: string, l: string) { IsBlankAt(fields, k) && IsBlankAt(fields, l) }

  /** Text or nothing under both names. */
  ghost predicate IsText(fields: map<string, Data>, k: string, l: string) {
    || GivesNothing(fields, k, l) || (exists text :: Gives(fields, k, l, text))
  }

  predicate ResolverText(fields: map<string, Data>) {
    "resolver" !in fields || fields["resolver"].Null? || fields["resolver"].Str?
  }

  ghost predicate FieldsAreTexts(fields: map<string, Data>) {
    && IsText(fields, "definitionId", "definition_id") && IsText(fields, "fieldPath", "field_path")
    && IsText(fields, "sourceCode", "source_code") && ResolverText(fields)
  }

  lemma FilledIsRead(fields: map<string, Data>, k: string, l: string, text: string)
    ensures Gives(fields, k, l, text) ==> Token(FirstFilled(fields, k, l)) == Ok(text)
    ensures GivesNothing(fields, k, l) ==> Token(FirstFilled(fields, k, l)) == Ok([])
  {
    hide Strip;
  }

  lemma TextsAreRead(fields: map<string, Data>)
    requires FieldsAreTexts(fields)
    ensures Token(FirstFilled(fields, "definitionId", "definition_id")).Ok?
    ensures Token(FirstFilled(fields, "fieldPath", "field_path")).Ok?
    ensures Token(FirstFilled(fields, "sourceCode", "source_code")).Ok? && Token(Get(fields, "resolver")).Ok?
  {
    hide FirstFilled, Token, IsText;
    TextIsRead(fields, "definitionId", "definition_id");
    TextIsRead(fields, "fieldPath", "field_path");
    TextIsRead(fields, "sourceCode", "source_code");
    ResolverIsText(fields);
  }

  lemma TextIsRead(fields: map<string, Data>, k: string, l: string)
    requires IsText(fields, k, l)
    ensures Token(FirstFilled(fields, k, l)).Ok?
  {
    hide Strip, Gives, GivesNothing, FirstFilled, Token;
    FilledIsRead(fields, k, l, []);
    if !GivesNothing(fields, k, l) {
      var text :| Gives(fields, k, l, text);
      FilledIsRead(fields, k, l, text);
    }
  }

  lemma ResolverIsText(fields: map<string, Data>)
    requires ResolverText(fields)
    ensures Token(Get(fields, "resolver")).Ok?
  {
    hide Strip;
  }

  /** A node whose kind is "literal" holds the value as it is written, or null. */
  lemma LiteralIsRead(fields: map<string, Data>)
    requires HasKind(fields, "literal") && FieldsAreTexts(fields)
    ensures CoerceTree(Obj(fields)) == Ok(NodeOf(Literal(if "value" in fields then fields["value"] else Null)))
  {
    hide Strip, FirstFilled, Token, FieldsAreTexts;
    TextsAreRead(fields);
  }

  /** A runtime value needs a definition, and may have a field path. */
  lemma RuntimeValueIsRead(fields: map<string, Data>, id: string, path: string)
    requires HasKind(fields, "runtimeValue") && FieldsAreTexts(fields)
    ensures GivesNothing(fields, "definitionId", "definition_id") ==> CoerceTree(Obj(fields)).Invalid?
    ensures Gives(fields, "definitionId", "definition_id", id) && Gives(fields, "fieldPath", "field_path", path) ==>
              CoerceTree(Obj(fields)) == Ok(NodeOf(RuntimeValue(id, Some(path))))
    ensures Gives(fields, "definitionId", "definition_id", id) && GivesNothing(fields, "fieldPath", "field_path") ==>
              CoerceTree(Obj(fields)) == Ok(NodeOf(RuntimeValue(id, None)))
  {
    hide Strip, FirstFilled, Token, FieldsAreTexts, Gives, GivesNothing;
    TextsAreRead(fields);
    FilledIsRead(fields, "definitionId", "definition_id", id);
    FilledIsRead(fields, "fieldPath", "field_path", path);
    FilledHasText(fields, "definitionId", "definition_id", id);
    FilledHasText(fields, "fieldPath", "field_path", path);
  }

  lemma FilledHasText(fields: map<string, Data>, k: string, l: string, text: string)
    ensures Gives(fields, k, l, text) ==> text != []
  {
    hide Strip;
  }

  /** A source needs its code, and a built-in value one of the two resolvers. */
  lemma SourceIsRead(fields: map<string, Data>, code: string)
    requires FieldsAreTexts(fields)
    ensures HasKind(fields, "source") && GivesNothing(fields, "sourceCode", "source_code") ==> CoerceTree(Obj(fields)).Invalid?
    ensures HasKind(fields, "source") && Gives(fields, "sourceCode", "source_code", code) ==>
              CoerceTree(Obj(fields)) == Ok(NodeOf(Source(code)))
    ensures HasKind(fields, "builtIn") && "resolver" in fields && fields["resolver"].Str? && Strip(fields["resolver"].s) == code ==>
              CoerceTree(Obj(fields)) == if code == "now" || code == "today" then Ok(NodeOf(BuiltIn(code))) else Invalid
    ensures HasKind(fields, "builtIn") && ("resolver" !in fields || fields["resolver"].Null?) ==> CoerceTree(Obj(fields)).Invalid?
  {
    hide Strip, FirstFilled, FieldsAreTexts, Gives, GivesNothing;
    TextsAreRead(fields);
    FilledIsRead(fields, "sourceCode", "source_code", code);
    FilledHasText(fields, "sourceCode", "source_code", code);
  }

  /** A node with a field that should be text and is not is refused. */
  lemma OtherFieldsAreRefused(fields: map<string, Data>, kind: string)
    requires HasKind(fields, kind) && kind in {"literal", "runtimeValue", "source", "builtIn"}
    requires "resolver" in fields && !fields["resolver"].Null? && !fields["resolver"].Str?
    ensures CoerceTree(Obj(fields)).Invalid?
  {
    hide Strip, FirstFilled;
  }

  lemma NoKind(fields: map<string, Data>)
    ensures match KindOf(fields)
            case None => forall kind | kind in {"literal", "runtimeValue", "source", "builtIn"} :: !HasKind(fields, kind)
            case Some(kind) => HasKind(fields, kind) && kind in {"literal", "runtimeValue", "source", "builtIn"}
  {
    hide Strip;
  }

  /** An object of no such kind is plain data: its fields are coerced one by one. */
  lemma PlainObjectIsRead(fields: map<string, Data>)
    requires forall kind | kind in {"literal", "runtimeValue", "source", "builtIn"} :: !HasKind(fields, kind)
    ensures CoerceTree(Obj(fields)).Ok? <==> forall k | k in fields :: CoerceTree(fields[k]).Ok?
    ensures CoerceTree(Obj(fields)).Ok? ==>
              var v := CoerceTree(Obj(fields)).value;
              v.Obj? && v.fields.Keys == fields.Keys && forall k | k in fields :: v.fields[k] == CoerceTree(fields[k]).value
  {
    hide Strip;
    NoKind(fields);
  }

  /** Lists are coerced item by item, null stays null, and every other scalar becomes a literal. */
  lemma OtherDataIsRead(items: seq<Data>, s: string, n: int, x: real, b: bool)
    ensures CoerceTree(Arr(items)).Ok? <==> forall i | 0 <= i < |items| :: CoerceTree(items[i]).Ok?
    ensures CoerceTree(Arr(items)).Ok? ==>
              var v := CoerceTree(Arr(items)).value;
              v.Arr? && |v.items| == |items| && forall i | 0 <= i < |items| :: v.items[i] == CoerceTree(items[i]).value
    ensures CoerceTree(Null) == Ok(Null) && CoerceTree(Str(s)) == Ok(NodeOf(Literal(Str(s))))
    ensures CoerceTree(Int(n)) == Ok(NodeOf(Literal(Int(n)))) && CoerceTree(Float(x)) == Ok(NodeOf(Literal(Float(x))))
    ensures CoerceTree(Bool(b)) == Ok(NodeOf(Literal(Bool(b))))
  {
  }

  /** How a node is written: its kind and what it holds, and nothing else. */
  lemma NodeIsWritten(n: Node)
    ensures n.Literal? ==> SerializeTree(NodeOf(n)) == Obj(map["kind" := Str("literal"), "value" := n.value])
    ensures n.RuntimeValue? ==>
              SerializeTree(NodeOf(n)) ==
              Obj(map["kind" := Str("runtimeValue"), "definitionId" := Str(n.definitionId)]
                  + if n.fieldPath in {None, Some([])} then map[] else map["fieldPath" := Str(n.fieldPath.value)])
    ensures n.Source? ==> SerializeTree(NodeOf(n)) == Obj(map["kind" := Str("source"), "sourceCode" := Str(n.sourceCode)])
    ensures n.BuiltIn? ==> SerializeTree(NodeOf(n)) == Obj(map["kind" := Str("builtIn"), "resolver" := Str(n.resolver)])
  {
    if n.RuntimeValue? && n.fieldPath.Some? {
      var whole := map["kind" := Str("runtimeValue"), "definitionId" := Str(n.definitionId)];
      assert whole + map[] == whole;
      assert whole + map["fieldPath" := Str(n.fieldPath.value)] == whole["fieldPath" := Str(n.fieldPath.value)];
    }
  }
}
