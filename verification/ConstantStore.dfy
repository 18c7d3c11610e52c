/** The constants of the four scopes, as commands see them through `$.scope.constants.name`. */
module ConstantStore {
  import opened PyText
  import opened ObjectHeap
  import opened PathText
  import opened RunContexts
  import opened ContextPaths

  datatype Scope = RunEnvelopeScope | GlobalScope | LocalScope | ResultScope

  function ScopeName(s: Scope): (r: string)
    ensures IsScopeRoot(r)
  {
    match s
    case RunEnvelopeScope => "runEnvelope"
    case GlobalScope => "global"
    case LocalScope => "local"
    case ResultScope => "result"
  }

  function AddrOf(c: Context, s: Scope): nat {
    match s
    case RunEnvelopeScope => c.runEnvelope
    case GlobalScope => c.globalScope
    case LocalScope => c.localScope
    case ResultScope => c.resultScope
  }

  /** The text that `resolve_definition_path` builds. */
  function ConstantPath(s: Scope, name: string): string { "$." + ScopeName(s) + ".constants." + name }

  function ConstantSegments(s: Scope, name: string): seq<Segment> {
    [Segment(ScopeName(s), []), Segment("constants", []), Segment(name, [])]
  }

  /** The address of the constants dictionary of a scope. */
  function ConstantsOf(c: Context, s: Scope): (r: Option<nat>)
    ensures r.Some? ==> IsDict(c.heap, Ref(r.value))
  {
    match Get(c.heap, Ref(AddrOf(c, s)), Prop("constants"))
    case Some(v) => if IsDict(c.heap, v) then Some(v.addr) else None
    case None => None
  }

  /** Every scope is an object with its own constants dictionary. */
  ghost predicate Shaped(c: Context) {
    && Closed(c.heap) && ScopesAreDicts(c)
    && (forall s :: ConstantsOf(c, s).Some?)
    && (forall s, t :: ConstantsOf(c, s) != Some(AddrOf(c, t)))
    && (forall s, t | s != t :: ConstantsOf(c, s) != ConstantsOf(c, t))
  }

  /** The constants of a scope. */
  function Bindings(c: Context, s: Scope): map<string, Val> {
    match ConstantsOf(c, s)
    case Some(a) => c.heap[a].entries
    case None => map[]
  }

  /** The same scope objects and the same constants dictionaries; objects may have been added. */
  ghost predicate SameShape(c: Context, c': Context) {
    && |c.heap| <= |c'.heap| && c'.kind == c.kind && SameKinds(c.heap, c'.heap)
    && forall s :: AddrOf(c', s) == AddrOf(c, s) && ConstantsOf(c', s) == ConstantsOf(c, s)
  }

  lemma SameShapeReflexive(c: Context)
    ensures SameShape(c, c)
  {
  }

  lemma SameShapeSize(c: Context, c': Context)
    requires SameShape(c, c')
    ensures |c.heap| <= |c'.heap| && c'.kind == c.kind
  {
  }

  lemma SameShapeTransitive(c: Context, c': Context, c'': Context)
    requires SameShape(c, c') && SameShape(c', c'')
    ensures SameShape(c, c'')
  {
  }

  lemma BindingsInHeap(c: Context, s: Scope)
    requires Shaped(c)
    ensures forall n | n in Bindings(c, s) :: Bindings(c, s)[n].Ref? ==> Bindings(c, s)[n].addr < |c.heap|
    ensures ConstantsOf(c, s).Some?
  {
    var a := ConstantsOf(c, s).value;
    forall n | n in Bindings(c, s)
      ensures Bindings(c, s)[n].Ref? ==> Bindings(c, s)[n].addr < |c.heap|
    {
      assert Get(c.heap, Ref(a), Prop(n)) == Some(Bindings(c, s)[n]);
    }
  }

  /** `c` with the constants of one scope replaced. */
  function Rebound(c: Context, s: Scope, entries: map<string, Val>): Context
    requires ConstantsOf(c, s).Some?
  {
    c.(heap := c.heap[ConstantsOf(c, s).value := Dict(entries)])
  }

  lemma ReboundIsClosed(c: Context, s: Scope, entries: map<string, Val>)
    requires Closed(c.heap) && ConstantsOf(c, s).Some?
    requires forall n | n in entries :: entries[n].Ref? ==> entries[n].addr < |c.heap|
    ensures Closed(Rebound(c, s, entries).heap)
  {
    var a := ConstantsOf(c, s).value;
    var h' := c.heap[a := Dict(entries)];
    forall b: nat, k, v | b < |h'| && Get(h', Ref(b), k) == Some(v) && v.Ref?
      ensures v.addr < |h'|
    {
      if b != a {
        assert Get(c.heap, Ref(b), k) == Some(v);
      }
    }
  }

  lemma ReboundConstantsOf(c: Context, s: Scope, entries: map<string, Val>, t: Scope)
    requires ConstantsOf(c, s).Some? && ConstantsOf(c, t).Some? && ConstantsOf(c, s) != Some(AddrOf(c, t))
    ensures ConstantsOf(Rebound(c, s, entries), t) == ConstantsOf(c, t)
    ensures ConstantsOf(c, s) != ConstantsOf(c, t) ==> Bindings(Rebound(c, s, entries), t) == Bindings(c, t)
    ensures s == t ==> Bindings(Rebound(c, s, entries), s) == entries
  {
  }

  lemma ReboundShape(c: Context, s: Scope, entries: map<string, Val>)
    requires Shaped(c)
    requires forall n | n in entries :: entries[n].Ref? ==> entries[n].addr < |c.heap|
    ensures Shaped(Rebound(c, s, entries)) && SameShape(c, Rebound(c, s, entries))
    ensures Bindings(Rebound(c, s, entries), s) == entries
    ensures forall t | t != s :: Bindings(Rebound(c, s, entries), t) == Bindings(c, t)
  {
    hide ConstantsOf, Bindings, Closed;
    ReboundIsClosed(c, s, entries);
    var r := Rebound(c, s, entries);
    forall t
      ensures ConstantsOf(r, t) == ConstantsOf(c, t) && AddrOf(r, t) == AddrOf(c, t)
      ensures t != s ==> Bindings(r, t) == Bindings(c, t)
      ensures t == s ==> Bindings(r, t) == entries
    {
      ReboundConstantsOf(c, s, entries, t);
    }
  }

  lemma ConstantPathText(s: Scope, name: string)
    requires SimpleName(name)
    ensures PlainPath(ConstantSegments(s, name)) && Root(ConstantSegments(s, name)) == ScopeName(s)
    ensures Below(ConstantSegments(s, name)) == [Prop("constants"), Prop(name)]
    ensures ConstantPath(s, name) == RefText(ConstantSegments(s, name))
  {
    hide IsSpace;
    var p := ConstantSegments(s, name);
    ScopeNameIsSimple(s);
    ConstantsIsSimple();
    assert p[1..] == [p[1], p[2]] && p[2..] == [p[2]] && p[1..][1..] == [p[2]];
    ConstantKeys(name);
    ConstantText(ScopeName(s), name);
  }

  lemma ScopeNameIsSimple(s: Scope)
    ensures SimpleName(ScopeName(s))
  {
    assert !IsDigit(ScopeName(s)[0]);
  }

  lemma ConstantsIsSimple()
    ensures SimpleName("constants")
  {
    assert !IsDigit("constants"[0]);
  }

  lemma ConstantKeys(name: string)
    requires SimpleName(name) && SimpleName("constants")
    ensures Canonical([Segment("constants", []), Segment(name, [])])
    ensures KeysOf([Segment("constants", []), Segment(name, [])]) == [Prop("constants"), Prop(name)]
  {
    var last := [Segment(name, [])];
    assert [Segment("constants", []), Segment(name, [])][1..] == last;
    assert KeysOf(last) == [Prop(name)] + KeysOf(last[1..]);
  }

  lemma ConstantText(scope: string, name: string)
    ensures RefText([Segment(scope, []), Segment("constants", []), Segment(name, [])])
         == "$." + scope + ".constants." + name
  {
    var p := [Segment(scope, []), Segment("constants", []), Segment(name, [])];
    var q := [Segment("constants", []), Segment(name, [])];
    var r := [Segment(name, [])];
    assert p[1..] == q && q[1..] == r && r[1..] == [];
    assert RenderPath(r) == name + [];
    assert RenderPath(q) == "constants" + (['.'] + RenderPath(r));
    assert RenderPath(p) == scope + (['.'] + RenderPath(q));
  }

  lemma ScopeAddrOf(c: Context, s: Scope)
    ensures ScopeAddr(c, ScopeName(s)) == AddrOf(c, s)
  {
  }

  lemma {:induction false} AssignTwo(h: Heap, v: Val, w: Val, k: Key, name: string, value: Val)
    requires Accepts(h, v, k) && k.Prop? && Get(h, v, k) == Some(w) && IsDict(h, w)
    ensures Assign(h, v, [k, Prop(name)], value) ==
            Written(h[w.addr := Dict(h[w.addr].entries[name := value])], true)
  {
    var keys := [k, Prop(name)];
    assert keys[1..] == [Prop(name)];
    assert Descend(h, v, k, Prop(name)) == h;
  }

  lemma {:induction false} RemoveTwo(h: Heap, v: Val, w: Val, k: Key, name: string)
    requires k.Prop? && Get(h, v, k) == Some(w) && IsDict(h, w)
    ensures Remove(h, v, [k, Prop(name)]) == h[w.addr := Dict(h[w.addr].entries - {name})]
  {
    var keys, last := [k, Prop(name)], [Prop(name)];
    assert keys[1..] == last;
    if name !in h[w.addr].entries {
      assert h[w.addr].entries - {name} == h[w.addr].entries;
      assert h[w.addr] == Dict(h[w.addr].entries) && h[w.addr := h[w.addr]] == h;
    }
  }

  lemma {:induction false} ResolveTwo(h: Heap, v: Val, w: Val, k: Key, name: string)
    requires Get(h, v, k) == Some(w)
    ensures Resolve(h, v, [k, Prop(name)]) == Get(h, w, Prop(name))
  {
    var keys, last := [k, Prop(name)], [Prop(name)];
    assert keys[1..] == last && last[1..] == [];
    assert Resolve(h, v, keys) == Resolve(h, w, last);
    var x := Get(h, w, last[0]);
    assert Resolve(h, w, last) == match x case None => None case Some(y) => Resolve(h, y, last[1..]);
  }

  /** A scope that the item kind may write. */
  predicate MayWrite(kind: ItemKind, s: Scope) { kind.TestItem? ==> !s.GlobalScope? && !s.RunEnvelopeScope? }

  lemma GuardOfScope(kind: ItemKind, s: Scope)
    ensures Guard(kind, ScopeName(s)).None? <==> MayWrite(kind, s)
  {
  }

  /** Writing `$.scope.constants.name` binds that constant and nothing else. */
  lemma WriteConstant(c: Context, s: Scope, name: string, value: Val)
    requires Shaped(c) && SimpleName(name) && MayWrite(c.kind, s)
    ensures WritePath(c, ConstantPath(s, name), value) == (Rebound(c, s, Bindings(c, s)[name := value]), Done)
  {
    hide WritePath, ConstantPath, ConstantSegments, Assign;
    ConstantPathText(s, name);
    WritePlainPath(c, ConstantSegments(s, name), value);
    GuardOfScope(c.kind, s);
    ScopeAddrOf(c, s);
    AssignTwo(c.heap, Ref(AddrOf(c, s)), Ref(ConstantsOf(c, s).value), Prop("constants"), name, value);
  }

  lemma RemoveConstant(c: Context, s: Scope, name: string)
    requires Shaped(c) && SimpleName(name) && MayWrite(c.kind, s)
    ensures RemovePath(c, ConstantPath(s, name)) == (Rebound(c, s, Bindings(c, s) - {name}), Done)
  {
    hide RemovePath, ConstantPath, ConstantSegments, Remove;
    ConstantPathText(s, name);
    RemovePlainPath(c, ConstantSegments(s, name));
    GuardOfScope(c.kind, s);
    ScopeAddrOf(c, s);
    RemoveTwo(c.heap, Ref(AddrOf(c, s)), Ref(ConstantsOf(c, s).value), Prop("constants"), name);
  }

  lemma ReadConstant(c: Context, s: Scope, name: string)
    requires Shaped(c) && SimpleName(name)
    ensures ReadPath(c, ConstantPath(s, name)) ==
            if name in Bindings(c, s) then Found(Bindings(c, s)[name]) else Missing
  {
    hide ReadPath, ConstantPath, ConstantSegments, Resolve;
    ConstantPathText(s, name);
    ReadPlainPath(c, ConstantSegments(s, name));
    ScopeAddrOf(c, s);
    ResolveTwo(c.heap, Ref(AddrOf(c, s)), Ref(ConstantsOf(c, s).value), Prop("constants"), name);
  }
}
