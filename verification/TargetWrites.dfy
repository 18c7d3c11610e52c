/** Writes to the `target` of receiveQueue and queryDatabase, a path of the user's choosing: which of them
    leave the constants and the scope objects alone. */
module TargetWrites {
  import opened PyText
  import opened ObjectHeap
  import opened PathText
  import opened RunContexts
  import opened ContextPaths
  import opened ConstantStore
  import opened ConstantPlanner
  import opened CommandListings

  // ---- writes into objects that are not the context's own ---------------------------------------

  /** No object outside `own` holds one of `own`. */
  ghost predicate Enclosed(h: Heap, own: set<nat>) {
    && Closed(h) && (forall a <- own :: a < |h|)
    && forall a: nat, k, v :: a < |h| && a !in own && Get(h, Ref(a), k) == Some(v) && v.Ref? ==> v.addr !in own
  }

  ghost predicate IsFree(h: Heap, own: set<nat>, v: Val) { v.Ref? ==> v.addr < |h| && v.addr !in own }

  ghost predicate SameOwn(h: Heap, h': Heap, own: set<nat>) {
    |h| <= |h'| && forall a: nat | a in own && a < |h| :: h'[a] == h[a]
  }

  lemma SetFree(h: Heap, own: set<nat>, v: Val, k: Key, value: Val)
    requires Enclosed(h, own) && Accepts(h, v, k) && (k.Index? ==> k.pos < |h[v.addr].items|)
    requires v.addr !in own && IsFree(h, own, value)
    ensures Enclosed(SetKey(h, v, k, value), own) && SameOwn(h, SetKey(h, v, k, value), own)
  {
    hide SetKey;
    var r := SetKey(h, v, k, value);
    forall a: nat, j, x | a < |r| && Get(r, Ref(a), j) == Some(x) && x.Ref?
      ensures x.addr < |r| && (a !in own ==> x.addr !in own)
    {
      if a != v.addr || j != k {
        assert Get(h, Ref(a), j) == Some(x);
      }
    }
  }

  lemma ExtendFree(h: Heap, own: set<nat>, cell: Cell)
    requires Enclosed(h, own) && (cell == Dict(map[]) || cell == List([]))
    ensures Enclosed(h + [cell], own) && SameOwn(h, h + [cell], own)
  {
    var r := h + [cell];
    forall a: nat, j, x | a < |r| && Get(r, Ref(a), j) == Some(x) && x.Ref?
      ensures x.addr < |r| && (a !in own ==> x.addr !in own)
    {
      assert a < |h| && Get(h, Ref(a), j) == Some(x);
    }
  }

  lemma {:induction false} PadFree(h: Heap, own: set<nat>, a: nat, idx: nat)
    requires Enclosed(h, own) && a < |h| && h[a].List? && a !in own
    ensures Enclosed(Pad(h, a, idx), own) && SameOwn(h, Pad(h, a, idx), own)
    decreases idx + 1 - |h[a].items|
  {
    if idx < |h[a].items| {
    } else {
      var items := h[a].items;
      var h1 := h[a := List(items + [Ref(|h|)])] + [Dict(map[])];
      forall b: nat, j, x | b < |h1| && Get(h1, Ref(b), j) == Some(x) && x.Ref?
        ensures x.addr < |h1| && (b !in own ==> x.addr !in own)
      {
        if b < |h| && (b != a || j.pos < |items|) {
          assert Get(h, Ref(b), j) == Some(x);
        }
      }
      PadFree(h1, own, a, idx);
    }
  }

  lemma DescendFree(h: Heap, own: set<nat>, v: Val, k: Key, next: Key)
    requires Enclosed(h, own) && Accepts(h, v, k) && v.addr !in own
    ensures Enclosed(Descend(h, v, k, next), own) && SameOwn(h, Descend(h, v, k, next), own)
    ensures IsFree(Descend(h, v, k, next), own, Get(Descend(h, v, k, next), v, k).value)
  {
    hide SetKey, Pad;
    if k.Index? {
      PadFree(h, own, v.addr, k.pos);
    }
    var h1 := PadFor(h, v, k);
    if Get(h1, v, k) in {None, Some(Null)} {
      var cell := if next.Index? then List([]) else Dict(map[]);
      ExtendFree(h1, own, cell);
      SetFree(h1 + [cell], own, v, k, Ref(|h1|));
      SetThenExtend(h1, v, k, Ref(|h1|), cell);
    }
  }

  lemma {:induction false} AssignFree(h: Heap, own: set<nat>, v: Val, keys: seq<Key>, value: Val)
    requires Enclosed(h, own) && IsFree(h, own, v) && IsFree(h, own, value)
    ensures Enclosed(Assign(h, v, keys, value).heap, own) && SameOwn(h, Assign(h, v, keys, value).heap, own)
    decreases |keys|
  {
    hide SetKey, Descend, Pad, Enclosed;
    if keys == [] || !Accepts(h, v, keys[0]) {
    } else if |keys| == 1 {
      if keys[0].Index? {
        PadFree(h, own, v.addr, keys[0].pos);
      }
      SetFree(PadFor(h, v, keys[0]), own, v, keys[0], value);
    } else {
      var h1 := Descend(h, v, keys[0], keys[1]);
      DescendFree(h, own, v, keys[0], keys[1]);
      AssignFree(h1, own, Get(h1, v, keys[0]).value, keys[1..], value);
    }
  }

  // ---- the context's own dictionaries -----------------------------------------------------------

  /** The entries of the scope objects that hold one of the context's own dictionaries. */
  ghost predicate ScopeEdge(c: Context, a: nat, k: Key, d: nat) {
    || (k == Prop("constants") && exists s :: a == AddrOf(c, s))
    || (a == c.localScope && k == Prop("global") && d == c.globalScope)
    || (a == c.globalScope && k == Prop("runEnvelope") && d == c.runEnvelope)
  }

  /** `own` are the scope objects and the constants dictionaries, past and present: nothing else holds
      them. */
  ghost predicate KeptApart(c: Context, own: set<nat>) {
    && (forall a <- own :: a < |c.heap|)
    && (forall s :: AddrOf(c, s) in own) && (forall s :: ConstantsOf(c, s).Some? ==> ConstantsOf(c, s).value in own)
    && forall a: nat, k, v :: a < |c.heap| && Get(c.heap, Ref(a), k) == Some(v) && v.Ref? && v.addr in own ==>
         ScopeEdge(c, a, k, v.addr)
  }

  /** Where a write aims: at nothing of the context's own, at one constant, or at more. */
  datatype Reach = Clear | OfConstant(slot: Slot) | Unsafe

  /** The aim of a write below a scope object, with the aliases followed. */
  function Aim(s: Scope, keys: seq<Key>): Reach
    decreases |keys|
  {
    if keys == [] then Unsafe
    else if keys[0] == Prop("constants") then
      if |keys| > 1 && keys[1].Prop? then OfConstant(Slot(s, keys[1].name)) else Unsafe
    else if |keys| > 1 && s.LocalScope? && keys[0] == Prop("global") then Aim(GlobalScope, keys[1..])
    else if |keys| > 1 && s.GlobalScope? && keys[0] == Prop("runEnvelope") then Aim(RunEnvelopeScope, keys[1..])
    else Clear
  }

  /** The constants are as before, except the one aimed at. */
  ghost predicate SameConstants(c: Context, c': Context, reach: Reach) {
    forall t, n | reach != OfConstant(Slot(t, n)) ::
      && (n in Bindings(c', t) <==> n in Bindings(c, t))
      && (n in Bindings(c, t) ==> Bindings(c', t)[n] == Bindings(c, t)[n])
  }

  ghost predicate Spared(c: Context, c': Context, own: set<nat>, reach: Reach) {
    Shaped(c') && KeptApart(c', own) && SameShape(c, c') && SameConstants(c, c', reach)
  }

  lemma ApartIsEnclosed(c: Context, own: set<nat>)
    requires Shaped(c) && KeptApart(c, own)
    ensures Enclosed(c.heap, own)
  {
    forall a: nat, k, v | a < |c.heap| && a !in own && Get(c.heap, Ref(a), k) == Some(v) && v.Ref?
      ensures v.addr !in own
    {
      assert AddrOf(c, LocalScope) == c.localScope && AddrOf(c, GlobalScope) == c.globalScope;
    }
  }

  lemma ShapedScopes(c: Context)
    requires Shaped(c)
    ensures ScopesAreDicts(c) && forall s :: ConstantsOf(c, s).Some? && IsDict(c.heap, Ref(AddrOf(c, s)))
  {
    assert forall s :: ConstantsOf(c, s).Some?;
  }

  /** Changes outside the context's own dictionaries. */
  lemma OwnUntouched(c: Context, h: Heap, own: set<nat>)
    requires Shaped(c) && KeptApart(c, own) && Enclosed(h, own) && SameOwn(c.heap, h, own) && SameKinds(c.heap, h)
    ensures Spared(c, c.(heap := h), own, Clear)
  {
    hide Closed;
    ShapedScopes(c);
    var c' := c.(heap := h);
    forall s
      ensures AddrOf(c', s) == AddrOf(c, s) && ConstantsOf(c', s) == ConstantsOf(c, s) && Bindings(c', s) == Bindings(c, s)
    {
    }
    forall a: nat, k, v | a < |h| && Get(h, Ref(a), k) == Some(v) && v.Ref? && v.addr in own
      ensures ScopeEdge(c', a, k, v.addr)
    {
      assert a in own;
      assert Get(c.heap, Ref(a), k) == Some(v);
      assert ScopeEdge(c, a, k, v.addr);
    }
    assert Closed(h);
  }

  lemma SparedTransitive(c: Context, c1: Context, c2: Context, own: set<nat>, reach: Reach)
    requires Spared(c, c1, own, reach) && (Spared(c1, c2, own, Clear) || Spared(c1, c2, own, reach))
    ensures Spared(c, c2, own, reach)
  {
    hide Shaped, KeptApart, Bindings;
    SameShapeTransitive(c, c1, c2);
  }

  lemma SparedReflexive(c: Context, own: set<nat>, reach: Reach)
    requires Shaped(c) && KeptApart(c, own)
    ensures Spared(c, c, own, reach)
  {
    hide Shaped, KeptApart, Bindings;
    SameShapeReflexive(c);
  }

  lemma SparedMore(c: Context, c': Context, own: set<nat>, reach: Reach)
    requires Spared(c, c', own, Clear)
    ensures Spared(c, c', own, reach)
  {
    hide Shaped, KeptApart, Bindings, SameShape;
  }

  lemma ReboundIsApart(c: Context, own: set<nat>, s: Scope, entries: map<string, Val>)
    requires Shaped(c) && KeptApart(c, own) && forall n | n in entries :: IsFree(c.heap, own, entries[n])
    ensures ConstantsOf(c, s).Some? && KeptApart(Rebound(c, s, entries), own)
  {
    hide Closed;
    ShapedScopes(c);
    ReboundShape(c, s, entries);
    var r := Rebound(c, s, entries);
    forall a: nat, k, v | a < |r.heap| && Get(r.heap, Ref(a), k) == Some(v) && v.Ref? && v.addr in own
      ensures ScopeEdge(r, a, k, v.addr)
    {
      assert Get(c.heap, Ref(a), k) == Some(v);
      assert ScopeEdge(c, a, k, v.addr);
      SameScopeEdge(c, r, a, k, v.addr);
    }
  }

  lemma SameScopeEdge(c: Context, c': Context, a: nat, k: Key, d: nat)
    requires forall s :: AddrOf(c', s) == AddrOf(c, s)
    requires ScopeEdge(c, a, k, d)
    ensures ScopeEdge(c', a, k, d)
  {
    assert AddrOf(c', LocalScope) == c'.localScope && AddrOf(c', GlobalScope) == c'.globalScope;
    assert AddrOf(c, LocalScope) == c.localScope && AddrOf(c, GlobalScope) == c.globalScope;
    assert AddrOf(c', RunEnvelopeScope) == c'.runEnvelope && AddrOf(c, RunEnvelopeScope) == c.runEnvelope;
    if k == Prop("constants") && exists s :: a == AddrOf(c, s) {
      var s :| a == AddrOf(c, s);
      assert a == AddrOf(c', s);
    }
  }

  /** The values of the constants are no dictionaries of the context's own. */
  lemma BindingsAreFree(c: Context, own: set<nat>, s: Scope)
    requires Shaped(c) && KeptApart(c, own)
    ensures forall n | n in Bindings(c, s) :: IsFree(c.heap, own, Bindings(c, s)[n])
  {
    ShapedScopes(c);
    BindingsInHeap(c, s);
    var d := ConstantsOf(c, s).value;
    forall n | n in Bindings(c, s)
      ensures IsFree(c.heap, own, Bindings(c, s)[n])
    {
      assert Get(c.heap, Ref(d), Prop(n)) == Some(Bindings(c, s)[n]);
      assert AddrOf(c, LocalScope) == c.localScope && AddrOf(c, GlobalScope) == c.globalScope;
    }
  }

  // ---- a write below a scope object -------------------------------------------------------------

  /** A new empty container that nothing holds yet. */
  lemma ExtendSpares(c: Context, own: set<nat>, cell: Cell)
    requires Shaped(c) && KeptApart(c, own) && (cell == Dict(map[]) || cell == List([]))
    ensures Spared(c, c.(heap := c.heap + [cell]), own, Clear)
  {
    ApartIsEnclosed(c, own);
    ExtendFree(c.heap, own, cell);
    ExtendKeepsShape(c.heap, cell);
    OwnUntouched(c, c.heap + [cell], own);
  }

  /** An entry of a scope object other than its constants. */
  lemma ScopeEntrySpares(c: Context, own: set<nat>, s: Scope, name: string, value: Val)
    requires Shaped(c) && KeptApart(c, own) && IsFree(c.heap, own, value) && name != "constants"
    ensures IsDict(c.heap, Ref(AddrOf(c, s)))
    ensures Spared(c, c.(heap := SetKey(c.heap, Ref(AddrOf(c, s)), Prop(name), value)), own, Clear)
  {
    hide SetKey, Closed;
    ShapedScopes(c);
    var v, k := Ref(AddrOf(c, s)), Prop(name);
    var c' := c.(heap := SetKey(c.heap, v, k, value));
    SetKeepsShape(c.heap, v, k, value);
    ScopeEntryConstants(c, s, name, value);
    forall a: nat, j, x | a < |c'.heap| && Get(c'.heap, Ref(a), j) == Some(x) && x.Ref? && x.addr in own
      ensures ScopeEdge(c', a, j, x.addr)
    {
      assert a != v.addr || j != k;
      assert Get(c.heap, Ref(a), j) == Some(x);
      SameScopeEdge(c, c', a, j, x.addr);
    }
  }

  lemma ScopeEntryConstants(c: Context, s: Scope, name: string, value: Val)
    requires Shaped(c) && name != "constants"
    ensures IsDict(c.heap, Ref(AddrOf(c, s)))
    ensures var c' := c.(heap := SetKey(c.heap, Ref(AddrOf(c, s)), Prop(name), value));
            forall t :: AddrOf(c', t) == AddrOf(c, t) && ConstantsOf(c', t) == ConstantsOf(c, t) && Bindings(c', t) == Bindings(c, t)
  {
    hide SetKey, Closed;
    ShapedScopes(c);
    var c' := c.(heap := SetKey(c.heap, Ref(AddrOf(c, s)), Prop(name), value));
    forall t
      ensures AddrOf(c', t) == AddrOf(c, t) && ConstantsOf(c', t) == ConstantsOf(c, t) && Bindings(c', t) == Bindings(c, t)
    {
      assert ConstantsOf(c, t) != Some(AddrOf(c, s));
      assert Get(c'.heap, Ref(AddrOf(c, t)), Prop("constants")) == Get(c.heap, Ref(AddrOf(c, t)), Prop("constants"));
    }
  }

  /** The container that a write descends into below a scope object, made when it is missing. */
  lemma ScopeDescend(c: Context, own: set<nat>, s: Scope, name: string, next: Key)
    requires Shaped(c) && KeptApart(c, own) && name != "constants"
    ensures IsDict(c.heap, Ref(AddrOf(c, s)))
    ensures Spared(c, c.(heap := Descend(c.heap, Ref(AddrOf(c, s)), Prop(name), next)), own, Clear)
  {
    hide SetKey, Closed, Shaped, KeptApart, Spared;
    ShapedScopes(c);
    var v, k := Ref(AddrOf(c, s)), Prop(name);
    SparedReflexive(c, own, Clear);
    if Get(c.heap, v, k) in {None, Some(Null)} {
      var cell := if next.Index? then List([]) else Dict(map[]);
      ExtendSpares(c, own, cell);
      var c1 := c.(heap := c.heap + [cell]);
      SparedParts(c, c1, own, Clear);
      NewIsFree(c, own);
      ScopeEntrySpares(c1, own, s, name, Ref(|c.heap|));
      SetThenExtend(c.heap, v, k, Ref(|c.heap|), cell);
      SparedTransitive(c, c1, c1.(heap := SetKey(c1.heap, v, k, Ref(|c.heap|))), own, Clear);
    }
  }

  lemma NewIsFree(c: Context, own: set<nat>)
    requires KeptApart(c, own)
    ensures |c.heap| !in own
  {
  }

  lemma SparedParts(c: Context, c': Context, own: set<nat>, reach: Reach)
    requires Spared(c, c', own, reach)
    ensures Shaped(c') && KeptApart(c', own) && |c.heap| <= |c'.heap| && c'.kind == c.kind
    ensures SameShape(c, c')
    ensures forall s :: AddrOf(c', s) == AddrOf(c, s)
  {
  }

  /** What an entry of a scope object other than its constants holds. */
  lemma ScopeEntryValue(c: Context, own: set<nat>, s: Scope, name: string, x: Val)
    requires Shaped(c) && KeptApart(c, own) && name != "constants"
    requires Get(c.heap, Ref(AddrOf(c, s)), Prop(name)) == Some(x)
    ensures || IsFree(c.heap, own, x)
            || (s.LocalScope? && name == "global" && x == Ref(c.globalScope))
            || (s.GlobalScope? && name == "runEnvelope" && x == Ref(c.runEnvelope))
  {
    hide Closed;
    ShapedScopes(c);
    assert Closed(c.heap);
    EntryInHeap(c.heap, AddrOf(c, s), Prop(name), x);
    if x.Ref? && x.addr in own {
      assert ScopeEdge(c, AddrOf(c, s), Prop(name), x.addr);
      AddressesDiffer(c);
      assert AddrOf(c, LocalScope) == c.localScope && AddrOf(c, GlobalScope) == c.globalScope;
    }
  }

  lemma EntryInHeap(h: Heap, a: nat, k: Key, x: Val)
    requires Closed(h) && a < |h| && Get(h, Ref(a), k) == Some(x)
    ensures x.Ref? ==> x.addr < |h|
  {
  }

  /** Different scopes are different objects, since they have different constants. */
  lemma AddressesDiffer(c: Context)
    requires Shaped(c)
    ensures forall s, t | AddrOf(c, s) == AddrOf(c, t) :: s == t
  {
    forall s, t | AddrOf(c, s) == AddrOf(c, t)
      ensures s == t
    {
      assert ConstantsOf(c, s) == ConstantsOf(c, t);
    }
  }

  lemma AssignSpares(c: Context, own: set<nat>, v: Val, keys: seq<Key>, value: Val)
    requires Shaped(c) && KeptApart(c, own) && IsFree(c.heap, own, v) && IsFree(c.heap, own, value)
    ensures Spared(c, c.(heap := Assign(c.heap, v, keys, value).heap), own, Clear)
  {
    ApartIsEnclosed(c, own);
    AssignFree(c.heap, own, v, keys, value);
    AssignKeepsShape(c.heap, v, keys, value);
    OwnUntouched(c, Assign(c.heap, v, keys, value).heap, own);
  }

  /** A constant of the scope is bound to a new value. */
  lemma BindSpares(c: Context, own: set<nat>, s: Scope, name: string, value: Val)
    requires Shaped(c) && KeptApart(c, own) && IsFree(c.heap, own, value)
    ensures ConstantsOf(c, s).Some?
    ensures Spared(c, Rebound(c, s, Bindings(c, s)[name := value]), own, OfConstant(Slot(s, name)))
  {
    hide Shaped, KeptApart, Rebound, Bindings;
    BindingsInHeap(c, s);
    BindingsAreFree(c, own, s);
    var entries := Bindings(c, s)[name := value];
    ReboundShape(c, s, entries);
    ReboundIsApart(c, own, s, entries);
  }

  lemma ConstantsCell(c: Context, s: Scope, name: string, value: Val)
    requires ConstantsOf(c, s).Some?
    ensures var d := Ref(ConstantsOf(c, s).value);
            c.(heap := SetKey(c.heap, d, Prop(name), value)) == Rebound(c, s, Bindings(c, s)[name := value])
            && Get(c.heap, d, Prop(name)) == if name in Bindings(c, s) then Some(Bindings(c, s)[name]) else None
  {
  }

  /** A write into the value of a constant, which is made when it is missing. */
  lemma ConstantDescend(c: Context, own: set<nat>, s: Scope, name: string, next: Key)
    requires Shaped(c) && KeptApart(c, own)
    ensures ConstantsOf(c, s).Some?
    ensures var d := Ref(ConstantsOf(c, s).value);
            var c' := c.(heap := Descend(c.heap, d, Prop(name), next));
            Spared(c, c', own, OfConstant(Slot(s, name))) && IsFree(c'.heap, own, Get(c'.heap, d, Prop(name)).value)
  {
    hide SetKey, Closed, Shaped, KeptApart, Spared, Rebound, Bindings;
    ShapedScopes(c);
    var d, k := Ref(ConstantsOf(c, s).value), Prop(name);
    ConstantsCell(c, s, name, Null);
    BindingsAreFree(c, own, s);
    SparedReflexive(c, own, OfConstant(Slot(s, name)));
    if Get(c.heap, d, k) in {None, Some(Null)} {
      var cell := if next.Index? then List([]) else Dict(map[]);
      ExtendSpares(c, own, cell);
      var c1 := c.(heap := c.heap + [cell]);
      SparedParts(c, c1, own, Clear);
      SparedConstants(c, c1, own, Clear, s);
      SparedMore(c, c1, own, OfConstant(Slot(s, name)));
      NewIsFree(c, own);
      BindSpares(c1, own, s, name, Ref(|c.heap|));
      ConstantsCell(c1, s, name, Ref(|c.heap|));
      SetThenExtend(c.heap, d, k, Ref(|c.heap|), cell);
      SparedTransitive(c, c1, Rebound(c1, s, Bindings(c1, s)[name := Ref(|c.heap|)]), own, OfConstant(Slot(s, name)));
    }
  }

  lemma SparedConstants(c: Context, c': Context, own: set<nat>, reach: Reach, s: Scope)
    requires Spared(c, c', own, reach)
    ensures ConstantsOf(c', s) == ConstantsOf(c, s)
  {
  }

  /** A write below the constants of a scope changes no constant but the one it names. */
  lemma ConstantsAssign(c: Context, own: set<nat>, s: Scope, keys: seq<Key>, value: Val)
    requires Shaped(c) && KeptApart(c, own) && IsFree(c.heap, own, value)
    requires |keys| > 1 && keys[0] == Prop("constants") && keys[1].Prop?
    ensures Spared(c, c.(heap := Assign(c.heap, Ref(AddrOf(c, s)), keys, value).heap), own, OfConstant(Slot(s, keys[1].name)))
  {
    hide SetKey, Shaped, KeptApart, Spared, Rebound, Bindings;
    ShapedScopes(c);
    var a, d, name := Ref(AddrOf(c, s)), Ref(ConstantsOf(c, s).value), keys[1].name;
    var reach := OfConstant(Slot(s, name));
    assert Assign(c.heap, a, keys, value) == Assign(c.heap, d, keys[1..], value) by {
      assert Descend(c.heap, a, keys[0], keys[1]) == c.heap;
    }
    var rest := keys[1..];
    if |rest| == 1 {
      BindSpares(c, own, s, name, value);
      ConstantsCell(c, s, name, value);
    } else {
      ConstantDescend(c, own, s, name, rest[1]);
      var c1 := c.(heap := Descend(c.heap, d, rest[0], rest[1]));
      SparedParts(c, c1, own, reach);
      var x := Get(c1.heap, d, rest[0]).value;
      AssignSpares(c1, own, x, rest[1..], value);
      SparedTransitive(c, c1, c1.(heap := Assign(c1.heap, x, rest[1..], value).heap), own, reach);
    }
  }

  /** A write below a scope object changes no more than it aims at. */
  lemma {:induction false} AimedAssign(c: Context, own: set<nat>, s: Scope, keys: seq<Key>, value: Val)
    requires Shaped(c) && KeptApart(c, own) && IsFree(c.heap, own, value) && !Aim(s, keys).Unsafe?
    ensures Spared(c, c.(heap := Assign(c.heap, Ref(AddrOf(c, s)), keys, value).heap), own, Aim(s, keys))
    decreases |keys|
  {
    hide SetKey, Shaped, KeptApart, Spared, Descend;
    ShapedScopes(c);
    var a, reach := Ref(AddrOf(c, s)), Aim(s, keys);
    if keys[0] == Prop("constants") {
      ConstantsAssign(c, own, s, keys, value);
    } else if keys[0].Index? {
      SparedReflexive(c, own, reach);
    } else if |keys| == 1 {
      ScopeEntrySpares(c, own, s, keys[0].name, value);
      SparedMore(c, c.(heap := SetKey(c.heap, a, keys[0], value)), own, reach);
    } else {
      ScopeDescend(c, own, s, keys[0].name, keys[1]);
      var c1 := c.(heap := Descend(c.heap, a, keys[0], keys[1]));
      SparedParts(c, c1, own, Clear);
      SparedMore(c, c1, own, reach);
      var x := Get(c1.heap, a, keys[0]).value;
      ScopeEntryValue(c1, own, s, keys[0].name, x);
      if IsFree(c1.heap, own, x) {
        AssignSpares(c1, own, x, keys[1..], value);
        SparedTransitive(c, c1, c1.(heap := Assign(c1.heap, x, keys[1..], value).heap), own, reach);
      } else {
        var t := if s.LocalScope? then GlobalScope else RunEnvelopeScope;
        assert x == Ref(AddrOf(c1, t)) && reach == Aim(t, keys[1..]);
        AimedAssign(c1, own, t, keys[1..], value);
        SparedTransitive(c, c1, c1.(heap := Assign(c1.heap, x, keys[1..], value).heap), own, reach);
      }
    }
  }

  // ---- a target ---------------------------------------------------------------------------------

  function ScopeNamed(root: string): Scope {
    if root == "runEnvelope" then RunEnvelopeScope
    else if root == "global" then GlobalScope
    else if root == "local" then LocalScope
    else ResultScope
  }

  /** The aim of a target path; `None` when the path has no root, or a root that a test may not write. */
  function AimOf(inTest: bool, path: string): Option<Reach> {
    match PathKeys(path)
    case None => None
    case Some(keys) =>
      match ContextRoot(keys)
      case None => None
      case Some(root) =>
        if inTest && (root == "global" || root == "runEnvelope") then None
        else if root == "response" then Some(Clear)
        else Some(Aim(ScopeNamed(root), TargetKeys(root, keys)))
  }

  /** No definition that commands may refer to has the slot. */
  ghost predicate IsUnplanned(table: Table, slot: Slot) {
    forall id | id in table.rows && id !in table.loose :: table.rows[id] != slot
  }

  /** A target outside the constants of the scopes, or a constant that is no planned one. */
  ghost predicate Harmless(inTest: bool, table: Table, path: string) {
    match AimOf(inTest, path)
    case Some(Clear) => true
    case Some(OfConstant(slot)) => IsUnplanned(table, slot)
    case _ => false
  }

  ghost predicate TargetsAreHarmless(table: Table, section: Section, cmds: seq<Command>) {
    forall cmd | cmd in cmds && TargetOf(cmd).Some? :: Harmless(section.TestSection?, table, TargetOf(cmd).value)
  }

  /** What a write may raise once its path has been accepted. */
  predicate IsShapeError(o: Outcome) { o.Raised? && (o.error.BadSegment? || o.error.RootNeedsObject?) }

  lemma ScopeNamedAddr(c: Context, root: string)
    requires IsScopeRoot(root)
    ensures ScopeAddr(c, root) == AddrOf(c, ScopeNamed(root))
  {
  }

  lemma ScopeWriteSpares(c: Context, own: set<nat>, root: string, keys: seq<Key>, value: Val)
    requires Shaped(c) && KeptApart(c, own) && IsFree(c.heap, own, value) && IsScopeRoot(root)
    requires !Aim(ScopeNamed(root), keys).Unsafe?
    ensures ScopesAreDicts(c)
    ensures var (c', o) := WriteKeys(c, root, keys, value);
            Spared(c, c', own, Aim(ScopeNamed(root), keys)) && (o == Done || IsShapeError(o))
  {
    hide Shaped, KeptApart, Spared, Assign;
    ShapedScopes(c);
    ScopeNamedAddr(c, root);
    AimedAssign(c, own, ScopeNamed(root), keys, value);
  }

  lemma ReplaceSpares(c: Context, own: set<nat>, a: nat, value: Val)
    requires Shaped(c) && KeptApart(c, own) && a < |c.heap| && a !in own && c.heap[a].Dict?
    requires IsDict(c.heap, value) && value.addr !in own
    ensures Spared(c, c.(heap := ReplaceAll(c.heap, a, value)), own, Clear)
  {
    ApartIsEnclosed(c, own);
    var r := ReplaceAll(c.heap, a, value);
    forall b: nat, j, x | b < |r| && Get(r, Ref(b), j) == Some(x) && x.Ref?
      ensures x.addr < |r| && (b !in own ==> x.addr !in own)
    {
      assert Get(c.heap, if b == a then value else Ref(b), j) == Some(x);
    }
    OwnUntouched(c, r, own);
  }

  lemma ResponseTarget(c: Context, own: set<nat>)
    requires Shaped(c) && KeptApart(c, own)
    ensures ScopesAreDicts(c)
    ensures var (h, target) := TargetFromRoot(c, "response");
            Spared(c, c.(heap := h), own, Clear) && IsFree(h, own, target) && IsDict(h, target)
  {
    hide SetKey, Shaped, KeptApart, Spared, Closed;
    ShapedScopes(c);
    SparedReflexive(c, own, Clear);
    var commands := Get(c.heap, Ref(c.resultScope), Prop("commands"));
    assert AddrOf(c, ResultScope) == c.resultScope;
    if commands.Some? && IsDict(c.heap, commands.value) {
      ScopeEntryValue(c, own, ResultScope, "commands", commands.value);
    } else {
      ExtendSpares(c, own, Dict(map[]));
      var c1 := c.(heap := c.heap + [Dict(map[])]);
      SparedParts(c, c1, own, Clear);
      NewIsFree(c, own);
      ScopeEntrySpares(c1, own, ResultScope, "commands", Ref(|c.heap|));
      SetThenExtend(c.heap, Ref(c.resultScope), Prop("commands"), Ref(|c.heap|), Dict(map[]));
      SparedTransitive(c, c1, c1.(heap := SetKey(c1.heap, Ref(c.resultScope), Prop("commands"), Ref(|c.heap|))), own, Clear);
    }
  }

  lemma ResponseWriteSpares(c: Context, own: set<nat>, keys: seq<Key>, value: Val)
    requires Shaped(c) && KeptApart(c, own) && IsFree(c.heap, own, value)
    ensures ScopesAreDicts(c)
    ensures var (c', o) := WriteKeys(c, "response", keys, value);
            Spared(c, c', own, Clear) && (o == Done || IsShapeError(o))
  {
    hide Shaped, KeptApart, Spared, Assign, TargetFromRoot, ReplaceAll;
    ShapedScopes(c);
    ResponseTarget(c, own);
    var (h, target) := TargetFromRoot(c, "response");
    var c1 := c.(heap := h);
    SparedParts(c, c1, own, Clear);
    if keys == [] {
      if IsDict(h, value) {
        ReplaceSpares(c1, own, target.addr, value);
        SparedTransitive(c, c1, c1.(heap := ReplaceAll(h, target.addr, value)), own, Clear);
      }
    } else {
      AssignSpares(c1, own, target, keys, value);
      SparedTransitive(c, c1, c1.(heap := Assign(h, target, keys, value).heap), own, Clear);
    }
  }

  /** A write to a target changes no constant but the one it aims at, keeps the scope objects, and can
      only fail on the shape of what it meets. */
  lemma TargetWriteSpares(c: Context, own: set<nat>, inTest: bool, path: string, value: Val)
    requires Shaped(c) && KeptApart(c, own) && IsFree(c.heap, own, value)
    requires (c.kind.TestItem? ==> inTest) && AimOf(inTest, path).Some? && !AimOf(inTest, path).value.Unsafe?
    ensures ScopesAreDicts(c)
    ensures var (c', o) := WritePath(c, path, value);
            Spared(c, c', own, AimOf(inTest, path).value) && (o == Done || IsShapeError(o))
  {
    hide Shaped, KeptApart, Spared, WriteKeys, PathKeys, ContextRoot, TargetKeys, Aim;
    ShapedScopes(c);
    var keys := PathKeys(path).value;
    var root := ContextRoot(keys).value;
    if root == "response" {
      ResponseWriteSpares(c, own, TargetKeys(root, keys), value);
    } else {
      ScopeWriteSpares(c, own, root, TargetKeys(root, keys), value);
    }
  }
}
