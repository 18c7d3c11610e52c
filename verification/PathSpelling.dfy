/** The other ways of writing a path: without its dollar sign, without `constants`, and with the roots `vars`
    and `response`. */
module PathSpelling {
  import opened PyText
  import opened ObjectHeap
  import opened PathText
  import opened RunContexts
  import opened ContextPaths
  import opened ConstantStore
  import opened CommandListings
  import opened TargetWrites

  // ---- the dollar sign --------------------------------------------------------------------------

  /** The writer reads a path the same with "$.", with "$" and without either, and with space around it. */
  lemma SpellingsAgree(t: string, padded: string)
    requires t != [] && t[0] != '$' && t[0] != '.' && !IsSpace(t[0]) && !IsSpace(t[|t| - 1]) && Strip(padded) == t
    ensures PathKeys("$." + t) == PathKeys("$" + t) == PathKeys(t) == PathKeys(padded)
  {
    hide Strip, IsSpace, PartsKeys, DotParts;
    DollarIsNoSpace();
    StripKeeps(t);
    StripKeeps("$" + t);
    StripKeeps("$." + t);
    assert ("$." + t)[2..] == t && ("$" + t)[1..] == t;
    assert ("$" + t)[1] == t[0];
    assert !("." <= t) && !("$" <= t);
  }

  lemma DollarIsNoSpace()
    ensures !IsSpace('$')
  {
  }

  // ---- names without constants ------------------------------------------------------------------

  /** Canonical segments below a root, the first of which is a name of the user's. */
  predicate IsShort(rest: seq<Segment>) {
    rest != [] && Canonical(rest) && rest[0].name !in {"constants", "event", "run_id", "runEnvelope", "global"}
  }

  function Rooted(root: string, rest: seq<Segment>): seq<Segment> { [Segment(root, [])] + rest }

  lemma RootedKeys(root: string, rest: seq<Segment>)
    requires SimpleName(root) && rest != [] && Canonical(rest)
    ensures Canonical(Rooted(root, rest)) && KeysOf(rest) != [] && KeysOf(rest)[0] == Prop(rest[0].name)
    ensures KeysOf(Rooted(root, rest)) == [Prop(root)] + KeysOf(rest)
    ensures PathKeys(RefText(Rooted(root, rest))) == Some([Prop(root)] + KeysOf(rest))
  {
    hide PathKeys, RefText, SimpleName;
    var p := Rooted(root, rest);
    assert forall i | 0 < i < |p| :: p[i] == rest[i - 1];
    assert SegmentKeys(p[0]) == [Prop(root)] && p[1..] == rest;
    WriterReadsCanonical(p);
  }

  lemma RootNames()
    ensures SimpleName("runEnvelope") && SimpleName("global") && SimpleName("local") && SimpleName("result")
    ensures SimpleName("vars") && SimpleName("response") && SimpleName("constants")
  {
    hide SimpleName;
    ScopeNameIsSimple(RunEnvelopeScope);
    ScopeNameIsSimple(GlobalScope);
    ScopeNameIsSimple(LocalScope);
    ScopeNameIsSimple(ResultScope);
    ConstantsIsSimple();
    VarsIsSimple();
    ResponseIsSimple();
  }

  lemma VarsIsSimple()
    ensures SimpleName("vars")
  {
    assert !IsDigit("vars"[0]);
  }

  lemma ResponseIsSimple()
    ensures SimpleName("response")
  {
    assert !IsDigit("response"[0]);
  }

  lemma RootTexts()
    ensures Strip("runEnvelope") == "runEnvelope" && Strip("global") == "global" && Strip("local") == "local"
    ensures Strip("result") == "result" && Strip("vars") == "vars" && Strip("response") == "response"
  {
    hide Strip, SimpleName;
    RootNames();
    SimpleIsStripped("runEnvelope");
    SimpleIsStripped("global");
    SimpleIsStripped("local");
    SimpleIsStripped("result");
    SimpleIsStripped("vars");
    SimpleIsStripped("response");
  }

  lemma SimpleIsStripped(name: string)
    requires SimpleName(name)
    ensures Strip(name) == name
  {
    hide Strip;
    StripKeeps(name);
  }

  predicate HasConstants(root: string) { root == "runEnvelope" || root == "global" || root == "local" }

  lemma ConstantsAreBelow(rest: seq<Segment>)
    requires rest != [] && Canonical(rest)
    ensures Canonical(Rooted("constants", rest)) && KeysOf(Rooted("constants", rest)) == [Prop("constants")] + KeysOf(rest)
  {
    hide SimpleName, PathKeys, RefText;
    RootNames();
    RootedKeys("constants", rest);
  }

  /** A name below the envelope, the global or the local scope that is none of its own entries is that of a
      constant: writing and removing it is writing and removing below `constants`. */
  lemma ShortNamesAreConstants(c: Context, root: string, rest: seq<Segment>, value: Val)
    requires ScopesAreDicts(c) && HasConstants(root) && IsShort(rest)
    ensures WritePath(c, RefText(Rooted(root, rest)), value) == WritePath(c, RefText(Rooted(root, Rooted("constants", rest))), value)
    ensures RemovePath(c, RefText(Rooted(root, rest))) == RemovePath(c, RefText(Rooted(root, Rooted("constants", rest))))
  {
    hide PathKeys, RefText, SimpleName, KeysOf, Strip, WriteKeys, RemoveKeys, Canonical;
    RootNames();
    RootTexts();
    RootedKeys(root, rest);
    ConstantsAreBelow(rest);
    RootedKeys(root, Rooted("constants", rest));
    var keys := KeysOf(rest);
    assert ([Prop(root)] + keys)[1..] == keys;
    assert ([Prop(root)] + ([Prop("constants")] + keys))[1..] == [Prop("constants")] + keys;
  }

  // ---- vars and response ------------------------------------------------------------------------

  /** `$.vars` is another name for the constants of the global scope, for writing, removing and reading. */
  lemma VarsAreGlobalConstants(c: Context, rest: seq<Segment>, value: Val)
    requires Closed(c.heap) && ScopesAreDicts(c) && IsShort(rest)
    requires var constants := Get(c.heap, Ref(c.globalScope), Prop("constants")); constants.Some? && IsDict(c.heap, constants.value)
    ensures var long := RefText(Rooted("global", Rooted("constants", rest)));
            && WritePath(c, RefText(Rooted("vars", rest)), value) == WritePath(c, long, value)
            && RemovePath(c, RefText(Rooted("vars", rest))) == RemovePath(c, long)
            && ReadPath(c, RefText(Rooted("vars", rest))) == ReadPath(c, long)
  {
    hide PathKeys, RefText, SimpleName, KeysOf, Strip, WriteKeys, RemoveKeys, Canonical, ResolveRef, BuildScope;
    RootNames();
    RootTexts();
    ConstantsAreBelow(rest);
    RootedKeys("vars", rest);
    RootedKeys("global", Rooted("constants", rest));
    var keys := KeysOf(rest);
    assert ([Prop("vars")] + keys)[1..] == keys;
    assert ([Prop("global")] + ([Prop("constants")] + keys))[1..] == [Prop("constants")] + keys;
    var (h, scope) := BuildScope(c);
    ResolverReadsCanonical(h, scope, Rooted("vars", rest));
    ResolverReadsCanonical(h, scope, Rooted("global", Rooted("constants", rest)));
    ScopeEntries(c);
    var v := Get(c.heap, Ref(c.globalScope), Prop("constants")).value;
    ResolveStep(h, scope, Prop("vars"), v, keys);
    ResolveStep(h, scope, Prop("global"), Ref(c.globalScope), [Prop("constants")] + keys);
    ResolveStep(h, Ref(c.globalScope), Prop("constants"), v, keys);
  }

  lemma ResolveStep(h: Heap, v: Val, k: Key, w: Val, keys: seq<Key>)
    requires Get(h, v, k) == Some(w)
    ensures Resolve(h, v, [k] + keys) == Resolve(h, w, keys)
  {
    assert ([k] + keys)[1..] == keys;
  }

  lemma ScopeEntries(c: Context)
    requires ScopesAreDicts(c)
    requires var constants := Get(c.heap, Ref(c.globalScope), Prop("constants")); constants.Some? && IsDict(c.heap, constants.value)
    ensures var (h, scope) := BuildScope(c);
            var v := Get(c.heap, Ref(c.globalScope), Prop("constants"));
            && Get(h, scope, Prop("vars")) == v && Get(h, scope, Prop("global")) == Some(Ref(c.globalScope))
            && Get(h, Ref(c.globalScope), Prop("constants")) == v
  {
  }

  /** `$.response` is another name for the commands of the result scope. */
  lemma ResponseIsCommands(c: Context, rest: seq<Segment>, value: Val)
    requires ScopesAreDicts(c) && rest != [] && Canonical(rest)
    requires var commands := Get(c.heap, Ref(c.resultScope), Prop("commands")); commands.Some? && IsDict(c.heap, commands.value)
    ensures WritePath(c, RefText(Rooted("response", rest)), value) ==
            WritePath(c, RefText(Rooted("result", Rooted("commands", rest))), value)
  {
    hide PathKeys, RefText, SimpleName, KeysOf, Strip, Canonical, SetKey;
    RootNames();
    RootTexts();
    CommandsAreBelow(rest);
    RootedKeys("response", rest);
    RootedKeys("result", Rooted("commands", rest));
    var keys := KeysOf(rest);
    assert ([Prop("response")] + keys)[1..] == keys;
    assert ([Prop("result")] + ([Prop("commands")] + keys))[1..] == [Prop("commands")] + keys;
    var below := [Prop("commands")] + keys;
    assert below[1..] == keys;
    assert Descend(c.heap, Ref(c.resultScope), Prop("commands"), keys[0]) == c.heap;
  }

  lemma CommandsAreBelow(rest: seq<Segment>)
    requires rest != [] && Canonical(rest)
    ensures Canonical(Rooted("commands", rest)) && KeysOf(Rooted("commands", rest)) == [Prop("commands")] + KeysOf(rest)
  {
    hide PathKeys, RefText;
    assert SimpleName("commands") by {
      assert !IsDigit("commands"[0]);
    }
    RootedKeys("commands", rest);
  }

  /** A write under any other first name is refused, and a removal does nothing. */
  lemma OtherRootsAreRefused(c: Context, root: string, rest: seq<Segment>, value: Val)
    requires ScopesAreDicts(c) && SimpleName(root) && Strip(root) == root && rest != [] && Canonical(rest)
    requires root !in {"runEnvelope", "global", "local", "result", "vars", "response"}
    ensures WritePath(c, RefText(Rooted(root, rest)), value) == (c, Raised(UnsupportedRoot))
    ensures RemovePath(c, RefText(Rooted(root, rest))) == (c, Done)
  {
    hide PathKeys, RefText, SimpleName, KeysOf, Strip, Canonical;
    RootedKeys(root, rest);
  }

  // ---- the aim of a target ----------------------------------------------------------------------

  /** A target under `constants` aims at the constant that it names, in a test only in the local and the
      result scope; so does one through the alias. */
  lemma ConstantTargetsAim(inTest: bool, s: Scope, rest: seq<Segment>)
    requires rest != [] && Canonical(rest)
    ensures AimOf(inTest, RefText(Rooted(ScopeName(s), Rooted("constants", rest)))) ==
            if inTest && (s.GlobalScope? || s.RunEnvelopeScope?) then None else Some(OfConstant(Slot(s, rest[0].name)))
    ensures AimOf(inTest, RefText(Rooted("local", Rooted("global", Rooted("constants", rest))))) ==
            Some(OfConstant(Slot(GlobalScope, rest[0].name)))
  {
    hide PathKeys, RefText, SimpleName, KeysOf, Strip, Canonical;
    RootNames();
    RootTexts();
    ScopeNameIsSimple(s);
    ConstantsAreBelow(rest);
    RootedKeys("constants", rest);
    RootedKeys(ScopeName(s), Rooted("constants", rest));
    RootedKeys("global", Rooted("constants", rest));
    RootedKeys("local", Rooted("global", Rooted("constants", rest)));
    var keys := KeysOf(rest);
    FirstOfRest(rest);
    var below := [Prop("constants")] + keys;
    assert ([Prop(ScopeName(s))] + below)[1..] == below;
    assert ([Prop("local")] + ([Prop("global")] + below))[1..] == [Prop("global")] + below;
    assert below[1] == keys[0];
    AliasAim(below);
  }

  lemma AliasAim(below: seq<Key>)
    requires |below| > 1 && below[0] == Prop("constants") && below[1].Prop?
    ensures Aim(LocalScope, [Prop("global")] + below) == OfConstant(Slot(GlobalScope, below[1].name))
    ensures TargetKeys("local", [Prop("local")] + ([Prop("global")] + below)) == [Prop("global")] + below
  {
    assert ([Prop("global")] + below)[1..] == below;
    assert ([Prop("local")] + ([Prop("global")] + below))[1..] == [Prop("global")] + below;
    assert Aim(GlobalScope, below) == OfConstant(Slot(GlobalScope, below[1].name));
  }

  lemma FirstOfRest(rest: seq<Segment>)
    requires rest != [] && Canonical(rest)
    ensures KeysOf(rest) != [] && KeysOf(rest)[0] == Prop(rest[0].name)
  {
  }

  /** A target elsewhere in the result scope, and one under `response`, aims at no constant. */
  lemma OtherTargetsAreClear(inTest: bool, rest: seq<Segment>)
    requires rest != [] && Canonical(rest)
    ensures rest[0].name != "constants" ==> AimOf(inTest, RefText(Rooted("result", rest))) == Some(Clear)
    ensures AimOf(inTest, RefText(Rooted("response", rest))) == Some(Clear)
  {
    hide PathKeys, RefText, SimpleName, KeysOf, Strip, Canonical;
    RootNames();
    RootTexts();
    RootedKeys("result", rest);
    RootedKeys("response", rest);
    var keys := KeysOf(rest);
    FirstOfRest(rest);
    assert ([Prop("result")] + keys)[1..] == keys && ([Prop("response")] + keys)[1..] == keys;
  }
}
