/** The two path tokenisers: the one of the writer (run_context.py) and the one of the resolver
    (run_context_resolver.py), and the texts on which they agree. */
module PathText {
  import opened PyText
  import opened ObjectHeap

  // ---- the writer -------------------------------------------------------------------------------

  /** `_normalize_target_path`; `None` is the raised error. */
  function NormalizeTargetPath(path: string): Option<string> {
    var s := Strip(path);
    if s == [] then None
    else if "$." <= s then Some(s[2..])
    else if "$" <= s then Some(if "." <= s[1..] then s[2..] else s[1..])
    else Some(s)
  }

  /** Appends a token, unless it is empty. */
  function Push(tokens: seq<string>, token: string): seq<string> {
    if token == [] then tokens else tokens + [token]
  }

  /** The scan of `_segment_tokens` over what is left of the segment. */
  function ScanSegment(s: string, buffer: string, indexMode: bool, tokens: seq<string>): seq<string>
    decreases |s|
  {
    if s == [] then Push(tokens, if indexMode then Strip(buffer) else buffer)
    else if s[0] == '[' then ScanSegment(s[1..], [], true, Push(tokens, buffer))
    else if s[0] == ']' then ScanSegment(s[1..], [], false, Push(tokens, Strip(buffer)))
    else ScanSegment(s[1..], buffer + [s[0]], indexMode, tokens)
  }

  method SegmentTokens(segment: string) returns (tokens: seq<string>)
    ensures tokens == ScanSegment(Strip(segment), [], false, [])
  {
    hide Strip;
    var source := Strip(segment);
    tokens := [];
    var buffer, indexMode := [], false;
    for i := 0 to |source|
      invariant ScanSegment(source, [], false, []) == ScanSegment(source[i..], buffer, indexMode, tokens)
    {
      assert source[i..][0] == source[i] && source[i..][1..] == source[i + 1..];
      if source[i] == '[' {
        tokens, buffer, indexMode := Push(tokens, buffer), [], true;
      } else if source[i] == ']' {
        tokens, buffer, indexMode := Push(tokens, Strip(buffer)), [], false;
      } else {
        buffer := buffer + [source[i]];
      }
    }
    assert source[|source|..] == [];
    tokens := Push(tokens, if indexMode then Strip(buffer) else buffer);
  }

  /** `[part for part in path.split(".") if part]`. */
  function DotParts(s: string, buffer: string, parts: seq<string>): seq<string>
    decreases |s|
  {
    if s == [] then Push(parts, buffer)
    else if s[0] == '.' then DotParts(s[1..], [], Push(parts, buffer))
    else DotParts(s[1..], buffer + [s[0]], parts)
  }

  /** `_to_index`: any token made of digits is a list position to the writer. */
  function TokenKey(token: string): Key {
    var raw := Strip(token);
    if IsDigits(raw) then Index(ParseNat(raw)) else Prop(token)
  }

  function TokenKeys(tokens: seq<string>): seq<Key> {
    if tokens == [] then [] else [TokenKey(tokens[0])] + TokenKeys(tokens[1..])
  }

  function PartsKeys(parts: seq<string>): seq<Key> {
    if parts == [] then []
    else TokenKeys(ScanSegment(Strip(parts[0]), [], false, [])) + PartsKeys(parts[1..])
  }

  /** `_path_tokens`, each token taken as the key it stands for. */
  function PathKeys(path: string): Option<seq<Key>> {
    match NormalizeTargetPath(path)
    case None => None
    case Some(s) => Some(PartsKeys(DotParts(s, [], [])))
  }

  // ---- the resolver -----------------------------------------------------------------------------

  function Level(c: char, level: nat): nat {
    if c == '[' then level + 1 else if c == ']' && level > 0 then level - 1 else level
  }

  /** `_split_path`: a dot inside brackets does not separate. */
  function SplitPath(s: string, buffer: string, level: nat, parts: seq<string>): seq<string>
    decreases |s|
  {
    if s == [] then Push(parts, buffer)
    else if s[0] == '.' && level == 0 then SplitPath(s[1..], [], 0, Push(parts, buffer))
    else SplitPath(s[1..], buffer + [s[0]], Level(s[0], level), parts)
  }

  method SplitRef(path: string) returns (parts: seq<string>)
    ensures parts == SplitPath(path, [], 0, [])
  {
    parts := [];
    var buffer, level: nat := [], 0;
    for i := 0 to |path|
      invariant SplitPath(path, [], 0, []) == SplitPath(path[i..], buffer, level, parts)
    {
      assert path[i..][0] == path[i] && path[i..][1..] == path[i + 1..];
      if path[i] == '.' && level == 0 {
        parts, buffer := Push(parts, buffer), [];
      } else {
        if path[i] == '[' {
          level := level + 1;
        } else if path[i] == ']' && level > 0 {
          level := level - 1;
        }
        buffer := buffer + [path[i]];
      }
    }
    assert path[|path|..] == [];
    parts := Push(parts, buffer);
  }

  /** `s.find(c)`, with the length of `s` for "not found". */
  function Find(s: string, c: char): (i: nat)
    ensures i <= |s| && (i < |s| ==> s[i] == c)
  {
    if s == [] || s[0] == c then 0 else 1 + Find(s[1..], c)
  }

  /** The resolver's `_segment_tokens`; `None` is the raised error. */
  function RefKeys(s: string): Option<seq<Key>>
    decreases |s|
  {
    if s == [] then Some([])
    else if s[0] == '[' then
      var closing := Find(s, ']');
      if closing == |s| || !IsDigits(Strip(s[1..closing])) then None
      else match RefKeys(s[closing + 1..])
        case None => None
        case Some(rest) => Some([Index(ParseNat(Strip(s[1..closing])))] + rest)
    else
      var opening := Find(s, '[');
      match RefKeys(s[opening..])
      case None => None
      case Some(rest) => Some([Prop(s[..opening])] + rest)
  }

  datatype Lookup = Found(value: Val) | Missing | Invalid

  function LookupSegments(h: Heap, v: Val, segments: seq<string>): Lookup
    decreases |segments|
  {
    if segments == [] then Found(v)
    else match RefKeys(segments[0])
      case None => Invalid
      case Some(keys) =>
        match Resolve(h, v, keys)
        case None => Missing
        case Some(w) => LookupSegments(h, w, segments[1..])
  }

  /** `_resolve_ref`: an invalid segment raises only when the cursor gets to it. */
  function ResolveRef(h: Heap, scope: Val, expression: string): Lookup {
    var ref := Strip(expression);
    if ref == "$" then Found(scope)
    else if !("$." <= ref) then Invalid
    else LookupSegments(h, scope, SplitPath(ref[2..], [], 0, []))
  }

  method ResolveReference(h: Heap, scope: Val, expression: string) returns (r: Lookup)
    ensures r == ResolveRef(h, scope, expression)
  {
    var ref := Strip(expression);
    if ref == "$" {
      return Found(scope);
    }
    if !("$." <= ref) {
      return Invalid;
    }
    var segments := SplitRef(ref[2..]);
    var current := scope;
    for i := 0 to |segments|
      invariant ResolveRef(h, scope, expression) == LookupSegments(h, current, segments[i..])
    {
      assert segments[i..][0] == segments[i] && segments[i..][1..] == segments[i + 1..];
      var keys := RefKeys(segments[i]);
      if keys == None {
        return Invalid;
      }
      var next := ResolveKeys(h, current, keys.value);
      if next == None {
        return Missing;
      }
      current := next.value;
    }
    r := Found(current);
  }

  // ---- canonical paths --------------------------------------------------------------------------

  /** `name[i][j]...`, each index written with digits only. */
  datatype Segment = Segment(name: string, indexes: seq<string>)

  predicate PlainChar(c: char) { c != '.' && c != '[' && c != ']' && !IsSpace(c) }

  predicate Plain(s: string) { forall i | 0 <= i < |s| :: PlainChar(s[i]) }

  predicate AllDigits(indexes: seq<string>) { forall i | 0 <= i < |indexes| :: IsDigits(indexes[i]) }

  /** A name that is one property to both tokenisers. */
  predicate SimpleName(s: string) { s != [] && Plain(s) && !IsDigits(s) }

  lemma XIsSimple()
    ensures SimpleName("x")
  {
    assert !IsDigit("x"[0]);
  }

  predicate SimpleSegment(s: Segment) { SimpleName(s.name) && AllDigits(s.indexes) }

  predicate Canonical(segments: seq<Segment>) { forall i | 0 <= i < |segments| :: SimpleSegment(segments[i]) }

  /** The text of the brackets, followed by `rest`. */
  function RenderIndexes(indexes: seq<string>, rest: string): string {
    if indexes == [] then rest else ['['] + (indexes[0] + ([']'] + RenderIndexes(indexes[1..], rest)))
  }

  function RenderSegment(s: Segment): string { s.name + RenderIndexes(s.indexes, []) }

  function RenderPath(segments: seq<Segment>): string {
    if segments == [] then []
    else
      var more := RenderPath(segments[1..]);
      segments[0].name + RenderIndexes(segments[0].indexes, if |segments| == 1 then [] else ['.'] + more)
  }

  function RenderMore(segments: seq<Segment>): string {
    if segments == [] then [] else ['.'] + RenderPath(segments)
  }

  /** The text `$.name[i]...name[j]...` of a path. */
  function RefText(segments: seq<Segment>): string { ['$', '.'] + RenderPath(segments) }

  function IndexKey(d: string): Key
    requires IsDigits(d)
  {
    Index(ParseNat(d))
  }

  function IndexKeys(indexes: seq<string>): seq<Key>
    requires AllDigits(indexes)
  {
    if indexes == [] then [] else [IndexKey(indexes[0])] + IndexKeys(indexes[1..])
  }

  function SegmentKeys(s: Segment): seq<Key>
    requires SimpleSegment(s)
  {
    [Prop(s.name)] + IndexKeys(s.indexes)
  }

  function KeysOf(segments: seq<Segment>): seq<Key>
    requires Canonical(segments)
  {
    if segments == [] then [] else SegmentKeys(segments[0]) + KeysOf(segments[1..])
  }

  function Texts(segments: seq<Segment>): seq<string> {
    if segments == [] then [] else [RenderSegment(segments[0])] + Texts(segments[1..])
  }

  lemma Uncons(c: char, t: string)
    ensures ([c] + t)[0] == c && ([c] + t)[1..] == t && [c] + t != []
  {
  }

  lemma Unappend(s: string, rest: string)
    requires s != []
    ensures (s + rest)[0] == s[0] && (s + rest)[1..] == s[1..] + rest
  {
  }

  lemma Reassociate(buffer: string, s: string)
    requires s != []
    ensures buffer + [s[0]] + s[1..] == buffer + s
  {
  }

  lemma BracketsAppend(buffer: string, d: string, more: string)
    ensures buffer + ['['] + d + [']'] + more == buffer + (['['] + (d + ([']'] + more)))
  {
  }

  lemma AppendAssociates<T>(a: seq<T>, b: seq<T>, c: seq<T>)
    ensures a + b + c == a + (b + c)
  {
  }

  lemma AppendNothing<T>(a: seq<T>)
    ensures a + [] == a && [] + a == a
  {
  }

  /** Digits are neither separators nor blanks. */
  lemma DigitsArePlain(d: string)
    requires IsDigits(d)
    ensures Plain(d)
  {
    forall i | 0 <= i < |d|
      ensures PlainChar(d[i])
    {
      assert IsDigit(d[i]);
    }
  }

  lemma StripDigits(d: string)
    requires IsDigits(d)
    ensures Strip(d) == d
  {
    StripKeeps(d);
  }

  lemma DigitsKey(d: string)
    requires IsDigits(d)
    ensures TokenKey(d) == IndexKey(d)
  {
    StripDigits(d);
  }

  // How the scanners pass over one piece of a rendered path.

  lemma {:induction false} DotPartsPlain(s: string, rest: string, buffer: string, parts: seq<string>)
    requires Plain(s)
    ensures DotParts(s + rest, buffer, parts) == DotParts(rest, buffer + s, parts)
    decreases |s|
  {
    if s == [] {
      AppendNothing(rest);
      AppendNothing(buffer);
    } else {
      assert PlainChar(s[0]);
      Unappend(s, rest);
      Reassociate(buffer, s);
      DotPartsPlain(s[1..], rest, buffer + [s[0]], parts);
    }
  }

  lemma DotPartsIndex(d: string, more: string, buffer: string, parts: seq<string>)
    requires IsDigits(d)
    ensures DotParts(['['] + (d + ([']'] + more)), buffer, parts)
         == DotParts(more, buffer + ['['] + d + [']'], parts)
  {
    DigitsArePlain(d);
    Uncons('[', d + ([']'] + more));
    DotPartsPlain(d, [']'] + more, buffer + ['['], parts);
    Uncons(']', more);
  }

  lemma {:induction false} DotPartsIndexes(indexes: seq<string>, rest: string, buffer: string, parts: seq<string>)
    requires AllDigits(indexes)
    ensures DotParts(RenderIndexes(indexes, rest), buffer, parts)
         == DotParts(rest, buffer + RenderIndexes(indexes, []), parts)
    decreases |indexes|
  {
    if indexes == [] {
      AppendNothing(buffer);
    } else {
      var d, more := indexes[0], RenderIndexes(indexes[1..], rest);
      DotPartsIndex(d, more, buffer, parts);
      DotPartsIndexes(indexes[1..], rest, buffer + ['['] + d + [']'], parts);
      BracketsAppend(buffer, d, RenderIndexes(indexes[1..], []));
    }
  }

  lemma {:induction false} SplitPlain(s: string, rest: string, buffer: string, level: nat, parts: seq<string>)
    requires Plain(s)
    ensures SplitPath(s + rest, buffer, level, parts) == SplitPath(rest, buffer + s, level, parts)
    decreases |s|
  {
    if s == [] {
      AppendNothing(rest);
      AppendNothing(buffer);
    } else {
      assert PlainChar(s[0]);
      Unappend(s, rest);
      Reassociate(buffer, s);
      SplitPlain(s[1..], rest, buffer + [s[0]], level, parts);
    }
  }

  lemma SplitIndex(d: string, more: string, buffer: string, parts: seq<string>)
    requires IsDigits(d)
    ensures SplitPath(['['] + (d + ([']'] + more)), buffer, 0, parts)
         == SplitPath(more, buffer + ['['] + d + [']'], 0, parts)
  {
    DigitsArePlain(d);
    Uncons('[', d + ([']'] + more));
    SplitPlain(d, [']'] + more, buffer + ['['], 1, parts);
    Uncons(']', more);
  }

  lemma {:induction false} SplitIndexes(indexes: seq<string>, rest: string, buffer: string, parts: seq<string>)
    requires AllDigits(indexes)
    ensures SplitPath(RenderIndexes(indexes, rest), buffer, 0, parts)
         == SplitPath(rest, buffer + RenderIndexes(indexes, []), 0, parts)
    decreases |indexes|
  {
    if indexes == [] {
      AppendNothing(buffer);
    } else {
      var d, more := indexes[0], RenderIndexes(indexes[1..], rest);
      SplitIndex(d, more, buffer, parts);
      SplitIndexes(indexes[1..], rest, buffer + ['['] + d + [']'], parts);
      BracketsAppend(buffer, d, RenderIndexes(indexes[1..], []));
    }
  }

  lemma {:induction false} ScanPlain(s: string, rest: string, buffer: string, indexMode: bool, tokens: seq<string>)
    requires Plain(s)
    ensures ScanSegment(s + rest, buffer, indexMode, tokens) == ScanSegment(rest, buffer + s, indexMode, tokens)
    decreases |s|
  {
    if s == [] {
      AppendNothing(rest);
      AppendNothing(buffer);
    } else {
      assert PlainChar(s[0]);
      Unappend(s, rest);
      Reassociate(buffer, s);
      ScanPlain(s[1..], rest, buffer + [s[0]], indexMode, tokens);
    }
  }

  lemma ScanIndex(d: string, more: string, buffer: string, tokens: seq<string>)
    requires IsDigits(d)
    ensures ScanSegment(['['] + (d + ([']'] + more)), buffer, false, tokens)
         == ScanSegment(more, [], false, Push(tokens, buffer) + [d])
  {
    DigitsArePlain(d);
    StripDigits(d);
    Uncons('[', d + ([']'] + more));
    ScanPlain(d, [']'] + more, [], true, Push(tokens, buffer));
    AppendNothing(d);
    Uncons(']', more);
  }

  lemma {:induction false} ScanIndexes(indexes: seq<string>, buffer: string, tokens: seq<string>)
    requires AllDigits(indexes)
    ensures ScanSegment(RenderIndexes(indexes, []), buffer, false, tokens) == Push(tokens, buffer) + indexes
    decreases |indexes|
  {
    if indexes == [] {
      AppendNothing(Push(tokens, buffer));
    } else {
      var d, more := indexes[0], RenderIndexes(indexes[1..], []);
      ScanIndex(d, more, buffer, tokens);
      var pushed := Push(tokens, buffer) + [d];
      ScanIndexes(indexes[1..], [], pushed);
      assert indexes == [d] + indexes[1..];
      AppendAssociates(Push(tokens, buffer), [d], indexes[1..]);
    }
  }

  // One segment.

  lemma {:induction false} IndexTokenKeys(indexes: seq<string>)
    requires AllDigits(indexes)
    ensures TokenKeys(indexes) == IndexKeys(indexes)
    decreases |indexes|
  {
    if indexes == [] {
    } else {
      DigitsKey(indexes[0]);
      IndexTokenKeys(indexes[1..]);
    }
  }

  lemma {:induction false} IndexesEnd(indexes: seq<string>)
    requires indexes != []
    ensures var t := RenderIndexes(indexes, []); t != [] && t[|t| - 1] == ']'
    decreases |indexes|
  {
    if |indexes| <= 1 {
    } else {
      IndexesEnd(indexes[1..]);
    }
  }

  lemma SegmentEnds(s: Segment)
    requires SimpleSegment(s)
    ensures var t := RenderSegment(s); t != [] && !IsSpace(t[0]) && !IsSpace(t[|t| - 1])
  {
    assert PlainChar(s.name[0]) && PlainChar(s.name[|s.name| - 1]);
    if s.indexes != [] {
      IndexesEnd(s.indexes);
    }
  }

  lemma SimpleNameKey(name: string)
    requires SimpleName(name)
    ensures TokenKey(name) == Prop(name)
  {
    assert PlainChar(name[0]) && PlainChar(name[|name| - 1]);
    StripKeeps(name);
  }

  lemma StripSegment(s: Segment)
    requires SimpleSegment(s)
    ensures Strip(RenderSegment(s)) == RenderSegment(s)
  {
    SegmentEnds(s);
    StripKeeps(RenderSegment(s));
  }

  lemma SegmentTokenKeys(s: Segment)
    requires SimpleSegment(s)
    ensures TokenKeys(ScanSegment(Strip(RenderSegment(s)), [], false, [])) == SegmentKeys(s)
  {
    StripSegment(s);
    ScanPlain(s.name, RenderIndexes(s.indexes, []), [], false, []);
    AppendNothing(s.name);
    ScanIndexes(s.indexes, s.name, []);
    SimpleNameKey(s.name);
    IndexTokenKeys(s.indexes);
    NamedTokenKeys(s.name, s.indexes);
  }

  lemma NamedTokenKeys(name: string, indexes: seq<string>)
    requires name != []
    ensures TokenKeys(Push([], name) + indexes) == [TokenKey(name)] + TokenKeys(indexes)
  {
    assert ([name] + indexes)[1..] == indexes;
  }

  lemma {:induction false} FindAfterPlain(s: string, rest: string, c: char)
    requires Plain(s) && (c == '[' || c == ']') && (rest == [] || rest[0] == c)
    ensures Find(s + rest, c) == |s|
    decreases |s|
  {
    if s == [] {
      AppendNothing(rest);
    } else {
      assert PlainChar(s[0]);
      Unappend(s, rest);
      FindAfterPlain(s[1..], rest, c);
    }
  }

  lemma RefIndex(d: string, rest: string)
    requires IsDigits(d) && RefKeys(rest).Some?
    ensures RefKeys(['['] + (d + ([']'] + rest))) == Some([IndexKey(d)] + RefKeys(rest).value)
  {
    var s := ['['] + (d + ([']'] + rest));
    hide Strip;
    DigitsArePlain(d);
    StripDigits(d);
    Uncons('[', d + ([']'] + rest));
    FindAfterPlain(d, [']'] + rest, ']');
    assert Find(s, ']') == 1 + |d|;
    assert s[1..1 + |d|] == d && s[1 + |d| + 1..] == rest;
  }

  lemma {:induction false} RefKeysOfIndexes(indexes: seq<string>)
    requires AllDigits(indexes)
    ensures RefKeys(RenderIndexes(indexes, [])) == Some(IndexKeys(indexes))
    decreases |indexes|
  {
    if indexes == [] {
    } else {
      RefKeysOfIndexes(indexes[1..]);
      RefIndex(indexes[0], RenderIndexes(indexes[1..], []));
    }
  }

  lemma SegmentRefKeys(s: Segment)
    requires SimpleSegment(s)
    ensures RefKeys(RenderSegment(s)) == Some(SegmentKeys(s))
  {
    var t := RenderIndexes(s.indexes, []);
    RefKeysOfIndexes(s.indexes);
    assert PlainChar(s.name[0]);
    FindAfterPlain(s.name, t, '[');
    Unappend(s.name, t);
    assert (s.name + t)[..|s.name|] == s.name && (s.name + t)[|s.name|..] == t;
  }

  // Whole paths.

  lemma {:induction false} IndexesKeepEnd(indexes: seq<string>, rest: string)
    requires rest != [] && !IsSpace(rest[|rest| - 1])
    ensures var t := RenderIndexes(indexes, rest); t != [] && !IsSpace(t[|t| - 1])
    decreases |indexes|
  {
    if indexes == [] {
    } else {
      IndexesKeepEnd(indexes[1..], rest);
    }
  }

  lemma {:induction false} PathEnds(segments: seq<Segment>)
    requires Canonical(segments) && segments != []
    ensures var s := RenderPath(segments); s != [] && !IsSpace(s[|s| - 1])
    decreases |segments|
  {
    var s, rest := segments[0], RenderMore(segments[1..]);
    if |segments| == 1 {
      SegmentEnds(s);
    } else {
      PathEnds(segments[1..]);
      IndexesKeepEnd(s.indexes, rest);
    }
  }

  lemma RefTextShape(segments: seq<Segment>)
    requires Canonical(segments) && segments != []
    ensures var t := RefText(segments); "$." <= t && t[2..] == RenderPath(segments) && |t| > 1
  {
    PathEnds(segments);
  }

  lemma StripRefText(segments: seq<Segment>)
    requires Canonical(segments) && segments != []
    ensures Strip(RefText(segments)) == RefText(segments)
  {
    PathEnds(segments);
    DollarTextEnd(RenderPath(segments));
    StripKeeps(RefText(segments));
  }

  lemma DollarTextEnd(p: string)
    requires p != []
    ensures var t := ['$', '.'] + p; t[0] == '$' && t[|t| - 1] == p[|p| - 1]
  {
  }

  lemma {:induction false} DotPartsOfPath(segments: seq<Segment>, parts: seq<string>)
    requires Canonical(segments)
    ensures DotParts(RenderPath(segments), [], parts) == parts + Texts(segments)
    decreases |segments|
  {
    if segments == [] {
      AppendNothing(parts);
    } else {
      var s, rest := segments[0], RenderMore(segments[1..]);
      SegmentEnds(s);
      DotPartsPlain(s.name, RenderIndexes(s.indexes, rest), [], parts);
      AppendNothing(s.name);
      DotPartsIndexes(s.indexes, rest, s.name, parts);
      AppendAssociates(parts, [RenderSegment(s)], Texts(segments[1..]));
      if |segments| > 1 {
        Uncons('.', RenderPath(segments[1..]));
        DotPartsOfPath(segments[1..], parts + [RenderSegment(s)]);
      } else {
        AppendNothing(parts + [RenderSegment(s)]);
      }
    }
  }

  /** One rendered segment passes the splitter whole. */
  lemma SplitOfSegment(s: Segment, rest: string, parts: seq<string>)
    requires SimpleSegment(s)
    ensures SplitPath(s.name + RenderIndexes(s.indexes, rest), [], 0, parts) == SplitPath(rest, RenderSegment(s), 0, parts)
  {
    hide SplitPath, RenderIndexes;
    SplitPlain(s.name, RenderIndexes(s.indexes, rest), [], 0, parts);
    assert [] + s.name == s.name;
    SplitIndexes(s.indexes, rest, s.name, parts);
  }

  lemma SplitAtDot(text: string, buffer: string, parts: seq<string>)
    requires buffer != [] && !IsSpace(buffer[0]) && !IsSpace(buffer[|buffer| - 1])
    ensures SplitPath(['.'] + text, buffer, 0, parts) == SplitPath(text, [], 0, parts + [buffer])
    ensures SplitPath([], buffer, 0, parts) == parts + [buffer]
  {
    hide Strip;
    StripKeeps(buffer);
    Uncons('.', text);
  }

  lemma {:induction false} SplitOfPath(segments: seq<Segment>, parts: seq<string>)
    requires Canonical(segments)
    ensures SplitPath(RenderPath(segments), [], 0, parts) == parts + Texts(segments)
    decreases |segments|
  {
    if segments == [] {
      NothingToSplit(parts);
    } else {
      hide SplitPath, RenderIndexes, RenderSegment, SimpleSegment;
      var s, rest := segments[0], RenderMore(segments[1..]);
      SegmentEnds(s);
      SplitOfSegment(s, rest, parts);
      AppendAssociates(parts, [RenderSegment(s)], Texts(segments[1..]));
      if |segments| > 1 {
        SplitAtDot(RenderPath(segments[1..]), RenderSegment(s), parts);
        SplitOfPath(segments[1..], parts + [RenderSegment(s)]);
      } else {
        SplitAtDot([], RenderSegment(s), parts);
        AppendNothing(parts + [RenderSegment(s)]);
      }
    }
  }

  lemma NothingToSplit(parts: seq<string>)
    ensures SplitPath([], [], 0, parts) == parts + Texts([])
  {
    AppendNothing(parts);
  }

  lemma {:induction false} TextsKeys(segments: seq<Segment>)
    requires Canonical(segments)
    ensures PartsKeys(Texts(segments)) == KeysOf(segments)
    decreases |segments|
  {
    if segments == [] {
    } else {
      SegmentTokenKeys(segments[0]);
      TextsKeys(segments[1..]);
      var t := Texts(segments);
      assert t[0] == RenderSegment(segments[0]) && t[1..] == Texts(segments[1..]);
    }
  }

  /** The writer reads a canonical path as its keys. */
  lemma WriterReadsCanonical(segments: seq<Segment>)
    requires Canonical(segments) && segments != []
    ensures PathKeys(RefText(segments)) == Some(KeysOf(segments))
  {
    RefTextShape(segments);
    StripRefText(segments);
    DotPartsOfPath(segments, []);
    AppendNothing(Texts(segments));
    TextsKeys(segments);
  }

  lemma {:induction false} LookupTexts(h: Heap, v: Val, segments: seq<Segment>)
    requires Canonical(segments)
    ensures LookupSegments(h, v, Texts(segments)) ==
            match Resolve(h, v, KeysOf(segments)) case None => Missing case Some(w) => Found(w)
    decreases |segments|
  {
    if segments == [] {
    } else {
      SegmentRefKeys(segments[0]);
      ResolveConcat(h, v, SegmentKeys(segments[0]), KeysOf(segments[1..]));
      var t := Texts(segments);
      assert t[0] == RenderSegment(segments[0]) && t[1..] == Texts(segments[1..]);
      if Resolve(h, v, SegmentKeys(segments[0])).Some? {
        LookupTexts(h, Resolve(h, v, SegmentKeys(segments[0])).value, segments[1..]);
      }
    }
  }

  /** The resolver reads a canonical path as the same keys. */
  lemma ResolverReadsCanonical(h: Heap, scope: Val, segments: seq<Segment>)
    requires Canonical(segments) && segments != []
    ensures ResolveRef(h, scope, RefText(segments)) ==
            match Resolve(h, scope, KeysOf(segments)) case None => Missing case Some(w) => Found(w)
  {
    RefTextShape(segments);
    StripRefText(segments);
    SplitOfPath(segments, []);
    AppendNothing(Texts(segments));
    LookupTexts(h, scope, segments);
  }
}
