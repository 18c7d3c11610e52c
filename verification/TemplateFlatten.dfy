/** Flattening a message value to dotted keys (send_message_template_service.py). */
module TemplateFlatten {
  import opened PyText

  /** A JSON value; dictionaries keep their order. */
  datatype Value = Scalar(text: string) | List(items: seq<Value>) | Dict(pairs: seq<Pair>)

  datatype Pair = Pair(key: string, value: Value)

  type Row = map<string, Value>

  function Join(prefix: string, key: string): string { if prefix == [] then key else prefix + ['.'] + key }

  /** `_flatten_template_value`. */
  function Flatten(v: Value, prefix: string): Row
    decreases v
  {
    (if prefix == [] then map[] else map[prefix := v])
    + (if v.Dict? then FlattenPairs(v.pairs, prefix) else map[])
  }

  /** The loop over the entries: blank keys are skipped, later entries win. */
  function FlattenPairs(pairs: seq<Pair>, prefix: string): Row
    decreases pairs
  {
    if pairs == [] then map[]
    else
      var last := pairs[|pairs| - 1];
      var rest := FlattenPairs(pairs[..|pairs| - 1], prefix);
      if Strip(last.key) == [] then rest else rest + Flatten(last.value, Join(prefix, Strip(last.key)))
  }

  method FlattenTemplateValue(v: Value, prefix: string) returns (result: Row)
    ensures result == Flatten(v, prefix)
    decreases v
  {
    hide Strip, Flatten;
    result := if prefix == [] then map[] else map[prefix := v];
    FlattenIs(v, prefix);
    if v.Dict? {
      ghost var before := result;
      NoPairs(prefix, before);
      for i := 0 to |v.pairs|
        invariant result == before + FlattenPairs(v.pairs[..i], prefix)
      {
        NextPair(v.pairs, i, prefix, before);
        var key := Strip(v.pairs[i].key);
        if key != [] {
          var child := FlattenTemplateValue(v.pairs[i].value, Join(prefix, key));
          result := result + child;
        }
      }
      assert v.pairs[..|v.pairs|] == v.pairs;
    }
  }

  lemma FlattenIs(v: Value, prefix: string)
    ensures Flatten(v, prefix) == (if prefix == [] then map[] else map[prefix := v])
                                  + (if v.Dict? then FlattenPairs(v.pairs, prefix) else map[])
    ensures !v.Dict? ==> Flatten(v, prefix) == if prefix == [] then map[] else map[prefix := v]
  {
    hide FlattenPairs;
  }

  lemma NoPairs(prefix: string, before: Row)
    ensures before + FlattenPairs([], prefix) == before
  {
  }

  lemma NextPair(pairs: seq<Pair>, i: nat, prefix: string, before: Row)
    requires i < |pairs|
    ensures var key := Strip(pairs[i].key);
            before + FlattenPairs(pairs[..i + 1], prefix) ==
            if key == [] then before + FlattenPairs(pairs[..i], prefix)
            else before + FlattenPairs(pairs[..i], prefix) + Flatten(pairs[i].value, Join(prefix, key))
  {
    hide Strip, Flatten;
    assert pairs[..i + 1][..i] == pairs[..i];
  }

  // ---- dotted paths -----------------------------------------------------------------------------

  /** The entry of a dictionary under a stripped key. */
  function Child(pairs: seq<Pair>, name: string): (r: Option<Value>)
    ensures r.Some? ==> exists i :: 0 <= i < |pairs| && pairs[i].value == r.value
  {
    if pairs == [] then None
    else if Strip(pairs[|pairs| - 1].key) == name then Some(pairs[|pairs| - 1].value)
    else
      var r := Child(pairs[..|pairs| - 1], name);
      if r.Some? then
        var i :| 0 <= i < |pairs| - 1 && pairs[..|pairs| - 1][i].value == r.value;
        assert pairs[i].value == r.value;
        r
      else r
  }

  /** The value at a path of keys. */
  function Lookup(v: Value, path: seq<string>): Option<Value>
    decreases |path|
  {
    if path == [] then Some(v)
    else if v.Dict? && path[0] != [] then
      match Child(v.pairs, path[0])
      case Some(c) => Lookup(c, path[1..])
      case None => None
    else None
  }

  /** The dotted text of a path below a prefix. */
  function Dotted(prefix: string, path: seq<string>): string
    decreases |path|
  {
    if path == [] then prefix else Dotted(Join(prefix, path[0]), path[1..])
  }

  predicate DotFree(s: string) { '.' !in s }

  predicate NamesDiffer(pairs: seq<Pair>) {
    forall i, j | 0 <= i < j < |pairs| && Strip(pairs[i].key) != [] :: Strip(pairs[i].key) != Strip(pairs[j].key)
  }

  /** Keys have no dots, and no two keys of a dictionary are the same once stripped. */
  predicate Clean(v: Value) {
    match v
    case Scalar(_) => true
    case List(_) => true
    case Dict(pairs) => CleanPairs(pairs)
  }

  predicate CleanPairs(pairs: seq<Pair>) {
    && NamesDiffer(pairs)
    && forall i | 0 <= i < |pairs| :: DotFree(Strip(pairs[i].key)) && Clean(pairs[i].value)
  }

  /** `s` is the prefix, or the prefix followed by a dot and more. */
  predicate Under(prefix: string, s: string) { prefix <= s && (|s| == |prefix| || s[|prefix|] == '.') }

  lemma {:induction false} DottedIsUnder(prefix: string, path: seq<string>)
    requires prefix != []
    ensures Under(prefix, Dotted(prefix, path))
    decreases |path|
  {
    if path == [] {
    } else {
      var p := Join(prefix, path[0]);
      DottedIsUnder(p, path[1..]);
      var d := Dotted(p, path[1..]);
      assert d[..|p|] == p && p[..|prefix|] == prefix && p[|prefix|] == '.';
      assert d[..|prefix|] == d[..|p|][..|prefix|];
      assert d[|prefix|] == d[..|p|][|prefix|];
    }
  }

  lemma CharUnder(prefix: string, key: string, s: string, k: nat)
    requires Under(Join(prefix, key), s) && k < |key|
    ensures |Join(prefix, key)| - |key| + k < |s| && s[|Join(prefix, key)| - |key| + k] == key[k]
  {
    var p := Join(prefix, key);
    assert s[..|p|] == p && p[|p| - |key|..] == key;
    assert s[|p| - |key| + k] == p[|p| - |key| + k] == key[k];
  }

  /** Texts under two different sibling prefixes are different. */
  lemma ShorterSibling(prefix: string, a: string, b: string, s: string)
    requires DotFree(b) && Under(Join(prefix, a), s) && Under(Join(prefix, b), s) && |a| <= |b|
    ensures a == b
  {
    forall k | 0 <= k < |a|
      ensures a[k] == b[k]
    {
      CharUnder(prefix, a, s, k);
      CharUnder(prefix, b, s, k);
    }
    if |a| < |b| {
      CharUnder(prefix, b, s, |a|);
    }
  }

  lemma SiblingsDiffer(prefix: string, a: string, b: string, s: string)
    requires DotFree(a) && DotFree(b) && Under(Join(prefix, a), s) && Under(Join(prefix, b), s)
    ensures a == b
  {
    hide Under, Join, DotFree;
    if |a| <= |b| {
      ShorterSibling(prefix, a, b, s);
    } else {
      ShorterSibling(prefix, b, a, s);
    }
  }

  /** Every key of a flattened value is under its prefix. */
  lemma {:induction false} FlattenUnder(v: Value, prefix: string, s: string)
    requires prefix != [] && s in Flatten(v, prefix)
    ensures Under(prefix, s)
    decreases v
  {
    hide Strip;
    if v.Dict? && s in FlattenPairs(v.pairs, prefix) {
      PairsUnder(v.pairs, prefix, s);
      var i: nat :| i < |v.pairs| && Strip(v.pairs[i].key) != [] && Under(Join(prefix, Strip(v.pairs[i].key)), s);
      UnderJoin(prefix, Strip(v.pairs[i].key), s);
    }
  }

  lemma UnderJoin(prefix: string, key: string, s: string)
    requires prefix != [] && Under(Join(prefix, key), s)
    ensures Under(prefix, s)
  {
    var p := Join(prefix, key);
    assert s[..|p|] == p;
    assert s[|prefix|] == p[|prefix|] == '.';
    assert s[..|prefix|] == p[..|prefix|] == prefix;
  }

  lemma {:induction false} PairsUnder(pairs: seq<Pair>, prefix: string, s: string)
    requires s in FlattenPairs(pairs, prefix)
    ensures exists i :: 0 <= i < |pairs| && Strip(pairs[i].key) != [] && Under(Join(prefix, Strip(pairs[i].key)), s)
    decreases pairs
  {
    hide Strip, Under, Flatten;
    var n := |pairs| - 1;
    var key := Strip(pairs[n].key);
    if key != [] && s in Flatten(pairs[n].value, Join(prefix, key)) {
      JoinIsFilled(prefix, key);
      FlattenUnder(pairs[n].value, Join(prefix, key), s);
    } else {
      PairsUnder(pairs[..n], prefix, s);
      var i :| 0 <= i < n && Strip(pairs[..n][i].key) != [] && Under(Join(prefix, Strip(pairs[..n][i].key)), s);
      assert pairs[..n][i] == pairs[i];
    }
  }

  lemma JoinIsFilled(prefix: string, key: string)
    requires key != []
    ensures Join(prefix, key) != []
  {
  }

  // ---- the entries ------------------------------------------------------------------------------

  /** `s` is the dotted text of a path at which `v` holds `x`. */
  ghost predicate EntryAt(v: Value, prefix: string, s: string, x: Value) {
    exists path :: (prefix != [] || path != []) && Lookup(v, path) == Some(x) && s == Dotted(prefix, path)
  }

  ghost predicate Holds(r: Row, s: string, x: Value) { s in r && r[s] == x }

  lemma {:induction false} ChildIs(pairs: seq<Pair>, i: nat)
    requires CleanPairs(pairs) && i < |pairs| && Strip(pairs[i].key) != []
    ensures Child(pairs, Strip(pairs[i].key)) == Some(pairs[i].value)
    decreases pairs
  {
    hide Strip, Clean;
    var n := |pairs| - 1;
    if i >= n {
    } else {
      InitIsClean(pairs);
      ChildIs(pairs[..n], i);
    }
  }

  lemma InitIsClean(pairs: seq<Pair>)
    requires CleanPairs(pairs) && pairs != []
    ensures CleanPairs(pairs[..|pairs| - 1])
  {
    hide Strip, Clean;
  }

  lemma {:induction false} NameOfChild(pairs: seq<Pair>, name: string)
    requires Child(pairs, name).Some?
    ensures exists i :: 0 <= i < |pairs| && Strip(pairs[i].key) == name && pairs[i].value == Child(pairs, name).value
    decreases pairs
  {
    hide Strip;
    var n := |pairs| - 1;
    if Strip(pairs[n].key) == name {
    } else {
      NameOfChild(pairs[..n], name);
      var i :| 0 <= i < n && Strip(pairs[..n][i].key) == name && pairs[..n][i].value == Child(pairs[..n], name).value;
      assert pairs[i] == pairs[..n][i];
    }
  }

  /** Some entry of the dictionary flattens to `s` holding `x`. */
  ghost predicate FromPair(pairs: seq<Pair>, prefix: string, s: string, x: Value) {
    exists i :: 0 <= i < |pairs| && Strip(pairs[i].key) != [] && Holds(Flatten(pairs[i].value, Join(prefix, Strip(pairs[i].key))), s, x)
  }

  lemma {:induction false} PairEntries(pairs: seq<Pair>, prefix: string, s: string, x: Value)
    requires CleanPairs(pairs)
    ensures Holds(FlattenPairs(pairs, prefix), s, x) <==> FromPair(pairs, prefix, s, x)
    decreases pairs
  {
    hide Strip, Flatten, Clean, DotFree;
    if pairs == [] {
    } else {
      var n := |pairs| - 1;
      var init, key := pairs[..n], Strip(pairs[n].key);
      InitIsClean(pairs);
      PairEntries(init, prefix, s, x);
      assert forall i | 0 <= i < n :: init[i] == pairs[i];
      assert FromPair(pairs, prefix, s, x) <==>
               (FromPair(init, prefix, s, x) || (key != [] && Holds(Flatten(pairs[n].value, Join(prefix, key)), s, x)));
      if key != [] && s in Flatten(pairs[n].value, Join(prefix, key)) && s in FlattenPairs(init, prefix) {
        OneSibling(pairs, prefix, s);
        assert false;
      }
    }
  }

  /** The last entry shares no flattened key with the earlier ones. */
  lemma OneSibling(pairs: seq<Pair>, prefix: string, s: string)
    requires CleanPairs(pairs) && pairs != [] && Strip(pairs[|pairs| - 1].key) != []
    requires s in Flatten(pairs[|pairs| - 1].value, Join(prefix, Strip(pairs[|pairs| - 1].key)))
    ensures s !in FlattenPairs(pairs[..|pairs| - 1], prefix)
  {
    hide Strip, Flatten, Clean, Under, DotFree;
    var n := |pairs| - 1;
    var init, key := pairs[..n], Strip(pairs[n].key);
    JoinIsFilled(prefix, key);
    FlattenUnder(pairs[n].value, Join(prefix, key), s);
    if s in FlattenPairs(init, prefix) {
      PairsUnder(init, prefix, s);
      var i :| 0 <= i < n && Strip(init[i].key) != [] && Under(Join(prefix, Strip(init[i].key)), s);
      assert init[i] == pairs[i];
      SiblingsDiffer(prefix, Strip(pairs[i].key), key, s);
    }
  }

  lemma PathStep(pairs: seq<Pair>, i: nat, prefix: string, path: seq<string>, x: Value)
    requires CleanPairs(pairs) && i < |pairs| && Strip(pairs[i].key) != [] && Lookup(pairs[i].value, path) == Some(x)
    ensures EntryAt(Dict(pairs), prefix, Dotted(Join(prefix, Strip(pairs[i].key)), path), x)
  {
    hide Strip, Clean;
    var name := Strip(pairs[i].key);
    ChildIs(pairs, i);
    var whole := [name] + path;
    assert whole[1..] == path;
    assert Lookup(Dict(pairs), whole) == Some(x) && Dotted(prefix, whole) == Dotted(Join(prefix, name), path);
  }

  lemma {:induction false} EntriesArePaths(v: Value, prefix: string, s: string, x: Value)
    requires Clean(v) && Holds(Flatten(v, prefix), s, x)
    ensures EntryAt(v, prefix, s, x)
    decreases v
  {
    hide Strip, FlattenPairs;
    if v.Dict? && s in FlattenPairs(v.pairs, prefix) {
      PairEntries(v.pairs, prefix, s, x);
      var i: nat :| i < |v.pairs| && Strip(v.pairs[i].key) != [] &&
                    Holds(Flatten(v.pairs[i].value, Join(prefix, Strip(v.pairs[i].key))), s, x);
      var p := Join(prefix, Strip(v.pairs[i].key));
      EntriesArePaths(v.pairs[i].value, p, s, x);
      var path :| Lookup(v.pairs[i].value, path) == Some(x) && s == Dotted(p, path);
      PathStep(v.pairs, i, prefix, path, x);
    } else {
      assert Lookup(v, []) == Some(v) && Dotted(prefix, []) == prefix;
    }
  }

  lemma {:induction false} PathsAreEntries(v: Value, prefix: string, path: seq<string>)
    requires Clean(v) && Lookup(v, path).Some? && (prefix != [] || path != [])
    ensures Holds(Flatten(v, prefix), Dotted(prefix, path), Lookup(v, path).value)
    decreases |path|
  {
    hide Strip, FlattenPairs;
    if path == [] {
      if v.Dict? {
        PrefixIsNotBelow(v.pairs, prefix);
      }
    } else {
      NameOfChild(v.pairs, path[0]);
      var i: nat :| i < |v.pairs| && Strip(v.pairs[i].key) == path[0] && v.pairs[i].value == Child(v.pairs, path[0]).value;
      var p := Join(prefix, path[0]);
      JoinIsFilled(prefix, path[0]);
      assert Clean(v.pairs[i].value);
      PathsAreEntries(v.pairs[i].value, p, path[1..]);
      var s, x := Dotted(prefix, path), Lookup(v, path).value;
      assert FromPair(v.pairs, prefix, s, x);
      PairEntries(v.pairs, prefix, s, x);
    }
  }

  lemma PrefixIsNotBelow(pairs: seq<Pair>, prefix: string)
    requires prefix != []
    ensures prefix !in FlattenPairs(pairs, prefix)
  {
    hide Strip, FlattenPairs;
    forall key | key != []
      ensures !Under(Join(prefix, key), prefix)
    {
    }
    hide Under, Join;
    if prefix in FlattenPairs(pairs, prefix) {
      PairsUnder(pairs, prefix, prefix);
    }
  }

  /** Flattening a clean value: its keys are exactly the dotted paths that lead somewhere, each with the
      value found there. */
  lemma FlattenIsPaths(v: Value, s: string, x: Value)
    requires Clean(v)
    ensures Holds(Flatten(v, []), s, x) <==> exists path :: path != [] && Lookup(v, path) == Some(x) && s == Dotted([], path)
  {
    hide Strip, FlattenPairs, Flatten, Clean;
    if Holds(Flatten(v, []), s, x) {
      EntriesArePaths(v, [], s, x);
    }
    if exists path :: path != [] && Lookup(v, path) == Some(x) && s == Dotted([], path) {
      var path :| path != [] && Lookup(v, path) == Some(x) && s == Dotted([], path);
      PathsAreEntries(v, [], path);
    }
  }

  /** Keys are joined by dots. */
  lemma JoinIsDotted(prefix: string, key: string)
    ensures Join([], key) == key && (prefix != [] ==> Join(prefix, key) == prefix + "." + key)
  {
  }
}
