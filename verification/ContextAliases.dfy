/** The alias `local.global`: new contexts satisfy the conditions of the path and immutability results,
    and a write through the alias is exactly a write to the global scope, whatever the item kind. */
module ContextAliases {
  import opened PyText
  import opened ObjectHeap
  import opened ForestPaths
  import opened PathText
  import opened RunContexts
  import opened ContextPaths
  import opened ItemImmutability
  import opened ConstantStore
  import opened TargetWrites
  import opened ContextHandover

  /** The addresses below `n`. */
  function AddressesBelow(n: nat): (r: set<nat>)
    ensures forall a: nat :: a in r <==> a < n
  {
    if n == 0 then {} else AddressesBelow(n - 1) + {n - 1}
  }

  /** Which object the value at key `k` of the `i`-th new scope cell is. */
  ghost predicate NewEdge(n: nat, event: Val, vars: Val, i: nat, k: Key, v: Val) {
    || (i == 0 && k == Prop("event") && v == event) || (i == 0 && k == Prop("constants") && v == vars)
    || (i == 2 && k == Prop("runEnvelope") && v == Ref(n)) || (i == 2 && k == Prop("constants") && v == Ref(n + 1))
    || (i == 4 && k == Prop("global") && v == Ref(n + 2)) || (i == 4 && k == Prop("constants") && v == Ref(n + 3))
    || (i == 8 && k == Prop("artifacts") && v == Ref(n + 5))
    || (i == 8 && k == Prop("commands") && v == Ref(n + 6)) || (i == 8 && k == Prop("constants") && v == Ref(n + 7))
  }

  lemma NewScopesEdges(n: nat, runId: string, event: Val, vars: Val, i: nat, k: Key)
    requires i < 9
    ensures var w := GetCell(NewScopes(n, runId, event, vars)[i], k);
            w.Some? && w.value.Ref? ==> NewEdge(n, event, vars, i, k, w.value)
  {
  }

  lemma CreatedHeap(h: Heap, runId: string, event: Val, vars: Val)
    requires IsDict(h, event) && IsDict(h, vars)
    ensures CreateContext(h, runId, event, vars).heap == h + NewScopes(|h|, Strip(runId), event, vars)
  {
    hide Strip, NewScopes;
  }

  lemma CreatedRefs(h: Heap, runId: string, event: Val, vars: Val, i: nat, k: Key)
    requires IsDict(h, event) && IsDict(h, vars) && i < 9
    ensures var w := Get(CreateContext(h, runId, event, vars).heap, Ref(|h| + i), k);
            w.Some? && w.value.Ref? ==> NewEdge(|h|, event, vars, i, k, w.value)
  {
    hide Strip, NewScopes, CreateContext, NewEdge, GetCell;
    CreatedHeap(h, runId, event, vars);
    NewScopesEdges(|h|, Strip(runId), event, vars, i, k);
    var made := NewScopes(|h|, Strip(runId), event, vars);
    assert (h + made)[|h| + i] == made[i];
  }

  /** Where the edges of a new context lead: the old ones stay, and only the local scope holds a scope
      object of the other colour. */
  lemma CreatedEdge(h: Heap, runId: string, event: Val, vars: Val, a: nat, k: Key)
    requires Closed(h) && IsDict(h, event) && IsDict(h, vars) && a < |h| + 9
    requires Get(CreateContext(h, runId, event, vars).heap, Ref(a), k).Some?
    ensures var v, n := Get(CreateContext(h, runId, event, vars).heap, Ref(a), k).value, |h|;
            v.Ref? ==>
              && v.addr < n + 9 && v.addr != n + 4 && (a < n + 3 ==> v.addr < n + 3)
              && (a >= n + 3 && !(a == n + 4 && k == Prop("global")) ==> v.addr >= n + 3)
  {
    hide Strip, NewScopes, CreateContext;
    CreatedCells(h, runId, event, vars);
    var c, n := CreateContext(h, runId, event, vars), |h|;
    if a < n {
      assert c.heap[a] == h[a];
      assert Get(h, Ref(a), k) == Get(c.heap, Ref(a), k);
    } else {
      CreatedRefs(h, runId, event, vars, a - n, k);
    }
  }

  /** Edges that never leave the addresses below `n`, and enter them only from the alias, colour a heap. */
  lemma ColouredByAddress(h: Heap, n: nat, local: nat, frozen: set<nat>)
    requires n <= local < |h| && Closed(h) && forall a: nat :: a in frozen <==> a < n
    requires forall a: nat, k | a < |h| && Get(h, Ref(a), k).Some? && Get(h, Ref(a), k).value.Ref? ::
               var v := Get(h, Ref(a), k).value;
               && v.addr != local && (a < n ==> v.addr < n)
               && (a >= n && !(a == local && k == Prop("global")) ==> v.addr >= n)
    ensures Coloured(h, local, frozen)
  {
    hide Get, Closed;
  }

  lemma SealedOverDicts(h: Heap, runId: string, event: Val, vars: Val)
    requires Closed(h) && IsDict(h, event) && IsDict(h, vars)
    ensures Sealed(CreateContext(h, runId, event, vars), AddressesBelow(CreateContext(h, runId, event, vars).globalScope + 1))
  {
    hide Strip, NewScopes, CreateContext, Get, Closed, Coloured, EnvelopeCell, GlobalCell, LocalCell;
    var c := CreateContext(h, runId, event, vars);
    CreatedCells(h, runId, event, vars);
    CreatedIsClosed(h, runId, event, vars);
    forall a: nat, k | a < |c.heap| && Get(c.heap, Ref(a), k).Some? && Get(c.heap, Ref(a), k).value.Ref?
      ensures var v := Get(c.heap, Ref(a), k).value;
              && v.addr != c.localScope && (a < |h| + 3 ==> v.addr < |h| + 3)
              && (a >= |h| + 3 && !(a == c.localScope && k == Prop("global")) ==> v.addr >= |h| + 3)
    {
      CreatedEdge(h, runId, event, vars, a, k);
    }
    ColouredByAddress(c.heap, |h| + 3, c.localScope, AddressesBelow(|h| + 3));
  }

  /** A new context is sealed by everything that existed before it, its envelope and its global scope,
      whatever event and variables it is given. */
  lemma CreatedIsSealed(h: Heap, runId: string, event: Val, vars: Val)
    requires Closed(h)
    ensures var c := CreateContext(h, runId, event, vars);
            |h| <= c.globalScope && Sealed(c, AddressesBelow(c.globalScope + 1))
  {
    hide CreateContext, Sealed, EnvelopeCell, GlobalCell, LocalCell;
    var h', e, v := CreatedOverDicts(h, runId, event, vars);
    CreatedCells(h', runId, e, v);
    SealedOverDicts(h', runId, e, v);
  }

  // ---- the objects of a new context -------------------------------------------------------------

  ghost predicate IsHeld(h: Heap, v: Val) { exists a: nat, k :: a < |h| && Get(h, Ref(a), k) == Some(v) }

  /** Of the new scope cells, only the scope objects hold one of them or the variables. */
  lemma NewEdgeIsScope(c: Context, n: nat, event: Val, vars: Val, i: nat, k: Key, v: Val)
    requires c.runEnvelope == n && c.globalScope == n + 2 && c.localScope == n + 4 && c.resultScope == n + 8
    requires event.Ref? && event.addr < n && vars.Ref? && vars != event
    requires NewEdge(n, event, vars, i, k, v) && v.Ref?
    ensures ScopeEdge(c, n + i, k, v.addr) || v == event || v.addr in {n + 5, n + 6}
  {
    assert AddrOf(c, RunEnvelopeScope) == n && AddrOf(c, GlobalScope) == n + 2;
    assert AddrOf(c, LocalScope) == n + 4 && AddrOf(c, ResultScope) == n + 8;
  }

  lemma OldEdge(h: Heap, h': Heap, a: nat, k: Key, v: Val)
    requires Closed(h) && h <= h' && a < |h| && Get(h', Ref(a), k) == Some(v) && v.Ref?
    ensures v.addr < |h| && IsHeld(h, v)
  {
    assert Get(h, Ref(a), k) == Some(v);
  }

  lemma ApartOverDicts(h: Heap, runId: string, event: Val, vars: Val) returns (own: set<nat>)
    requires Closed(h) && IsDict(h, event) && IsDict(h, vars) && vars != event && !IsHeld(h, vars)
    ensures KeptApart(CreateContext(h, runId, event, vars), own)
    ensures forall a | a in own :: a >= |h| || vars == Ref(a)
  {
    hide Strip, NewScopes, CreateContext, EnvelopeCell, GlobalCell, LocalCell, Get, NewEdge, ScopeEdge, ConstantsOf;
    var c, n := CreateContext(h, runId, event, vars), |h|;
    CreatedCells(h, runId, event, vars);
    CreatedConstants(h, runId, event, vars);
    own := {vars.addr, n, n + 1, n + 2, n + 3, n + 4, n + 7, n + 8};
    forall s
      ensures AddrOf(c, s) in own && (ConstantsOf(c, s).Some? ==> ConstantsOf(c, s).value in own)
    {
    }
    forall a: nat, k, v | a < |c.heap| && Get(c.heap, Ref(a), k) == Some(v) && v.Ref? && v.addr in own
      ensures ScopeEdge(c, a, k, v.addr)
    {
      if a < n {
        OldEdge(h, c.heap, a, k, v);
      } else {
        CreatedRefs(h, runId, event, vars, a - n, k);
        NewEdgeIsScope(c, n, event, vars, a - n, k, v);
      }
    }
  }

  /** What takes the place of a missing event or missing variables is held by nothing. */
  lemma FreshIsUnheld(h: Heap, v: Val)
    requires Closed(h)
    ensures var (h', w) := DictOrFresh(h, Some(v));
            && Closed(h') && IsDict(h', w) && (forall x :: IsHeld(h', x) ==> IsHeld(h, x)) && h <= h'
            && (if IsDict(h, v) then w == v && h' == h else w == Ref(|h|) && !IsHeld(h', w))
  {
    ExtendKeepsShape(h, Dict(map[]));
    var h' := h + [Dict(map[])];
    forall x | IsHeld(h', x)
      ensures IsHeld(h, x)
    {
      var a: nat, k :| a < |h'| && Get(h', Ref(a), k) == Some(x);
      assert a < |h| && Get(h, Ref(a), k) == Some(x);
    }
  }

  lemma CreatedOverFresh(h: Heap, runId: string, event: Val, vars: Val)
    ensures var (h1, e) := DictOrFresh(h, Some(event));
            var (h2, v) := DictOrFresh(h1, Some(vars));
            IsDict(h2, e) && IsDict(h2, v) && CreateContext(h, runId, event, vars) == CreateContext(h2, runId, e, v)
  {
    hide Strip, NewScopes;
  }

  /** In a new context the scope objects and the constants are held by nothing else, when the variables
      are not held elsewhere; a missing or unfit event or variables are no obstacle. */
  lemma CreatedIsApart(h: Heap, runId: string, event: Val, vars: Val) returns (own: set<nat>)
    requires Closed(h) && (vars.Ref? ==> vars.addr < |h|) && (IsDict(h, vars) ==> vars != event && !IsHeld(h, vars))
    ensures Shaped(CreateContext(h, runId, event, vars)) && KeptApart(CreateContext(h, runId, event, vars), own)
    ensures forall a | a in own :: a >= |h| || vars == Ref(a)
  {
    hide KeptApart, Shaped, Closed, Strip, NewScopes, IsHeld, CreateContext, DictOrFresh;
    var event' := CreatedIsStandard(h, runId, event, vars);
    FreshIsUnheld(h, event);
    var (h1, e) := DictOrFresh(h, Some(event));
    FreshIsUnheld(h1, vars);
    var (h2, v) := DictOrFresh(h1, Some(vars));
    own := ApartOverDicts(h2, runId, e, v);
    CreatedOverFresh(h, runId, event, vars);
  }

  /** The place of the run envelope, reached from the local scope. */
  const ENVELOPE_PLACE: Path := [Prop("local"), Prop("global"), Prop("runEnvelope")]

  const EVENT_PLACE: Path := ENVELOPE_PLACE + [Prop("event")]
  const VARIABLES_PLACE: Path := ENVELOPE_PLACE + [Prop("constants")]

  function ScopePlaces(): (r: seq<Path>)
    ensures |r| == 9
  {
    var global, result := [Prop("local"), Prop("global")], [Prop("result")];
    [ENVELOPE_PLACE, global + [Prop("constants")], global, [Prop("local"), Prop("constants")], [Prop("local")],
     result + [Prop("artifacts")], result + [Prop("commands")], result + [Prop("constants")], result]
  }

  lemma PlacesFit()
    ensures var p := ScopePlaces();
            && p[0] == ENVELOPE_PLACE && p[0] == p[2] + [Prop("runEnvelope")] && p[1] == p[2] + [Prop("constants")]
            && p[2] == p[4] + [Prop("global")] && p[3] == p[4] + [Prop("constants")]
            && p[5] == p[8] + [Prop("artifacts")] && p[6] == p[8] + [Prop("commands")] && p[7] == p[8] + [Prop("constants")]
  {
  }

  lemma ForestOverDicts(h: Heap, lab: seq<Path>, runId: string, event: Val, vars: Val)
    requires Forest(h, lab) && IsDict(h, event) && IsDict(h, vars)
    requires lab[event.addr] == EVENT_PLACE && lab[vars.addr] == VARIABLES_PLACE
    ensures Forest(CreateContext(h, runId, event, vars).heap, lab + ScopePlaces())
  {
    hide Strip, NewScopes, CreateContext, ScopePlaces, Get;
    var c, n := CreateContext(h, runId, event, vars), |h|;
    CreatedCells(h, runId, event, vars);
    var lab' := lab + ScopePlaces();
    forall a: nat, k, v | a < |c.heap| && Get(c.heap, Ref(a), k) == Some(v) && v.Ref?
      ensures v.addr < |c.heap| && lab'[v.addr] == lab'[a] + [k]
    {
      if a < n {
        GetKept(h, c.heap, a, k);
      } else {
        NewPlace(h, lab, runId, event, vars, a - n, k);
      }
    }
  }

  lemma ForestWithNew(h: Heap, lab: seq<Path>, place: Path)
    requires Forest(h, lab)
    ensures Forest(h + [Dict(map[])], lab + [place])
  {
    var h' := h + [Dict(map[])];
    forall a: nat, k, v | a < |h'| && Get(h', Ref(a), k) == Some(v) && v.Ref?
      ensures v.addr < |h'| && (lab + [place])[v.addr] == (lab + [place])[a] + [k]
    {
      assert a < |h| && Get(h, Ref(a), k) == Some(v);
    }
  }

  /** The event or the variables, at their place: as given, or a new dictionary. */
  lemma PlacedDict(h: Heap, lab: seq<Path>, v: Val, place: Path) returns (lab': seq<Path>)
    requires Forest(h, lab) && (IsDict(h, v) ==> lab[v.addr] == place)
    ensures var (h', w) := DictOrFresh(h, Some(v));
            && lab <= lab' && Forest(h', lab') && IsDict(h', w) && lab'[w.addr] == place
            && (IsDict(h, v) ==> lab' == lab && w == v) && h <= h'
  {
    lab' := lab;
    if !IsDict(h, v) {
      ForestWithNew(h, lab, place);
      lab' := lab + [place];
    }
  }

  /** A new context is a forest when the event and the variables were one: every object has one place,
      and the aliased scopes are named as seen from the local scope. A missing event or missing variables
      get a place of their own. */
  lemma CreatedIsForest(h: Heap, lab: seq<Path>, runId: string, event: Val, vars: Val) returns (lab': seq<Path>)
    requires Forest(h, lab) && (vars.Ref? ==> vars.addr < |h|)
    requires IsDict(h, event) ==> lab[event.addr] == EVENT_PLACE
    requires IsDict(h, vars) ==> lab[vars.addr] == VARIABLES_PLACE
    ensures lab <= lab' && Forest(CreateContext(h, runId, event, vars).heap, lab')
    ensures var c := CreateContext(h, runId, event, vars);
            c.localScope < |lab'| && lab'[c.localScope] == [Prop("local")]
  {
    hide Forest, Strip, NewScopes, CreateContext, DictOrFresh, ScopePlaces;
    ForestSize(h, lab);
    var lab1 := PlacedDict(h, lab, event, EVENT_PLACE);
    var (h1, e) := DictOrFresh(h, Some(event));
    var lab2 := PlacedDict(h1, lab1, vars, VARIABLES_PLACE);
    var (h2, v) := DictOrFresh(h1, Some(vars));
    assert lab2[e.addr] == lab1[e.addr];
    ForestOverDicts(h2, lab2, runId, e, v);
    lab' := lab2 + ScopePlaces();
    CreatedCells(h2, runId, e, v);
    ForestSize(h2, lab2);
    Appended(lab2, ScopePlaces());
    CreatedOverFresh(h, runId, event, vars);
    assert ScopePlaces()[4] == [Prop("local")] by {
      LocalPlace();
    }
  }

  lemma LocalPlace()
    ensures ScopePlaces()[4] == [Prop("local")]
  {
  }

  lemma ForestSize(h: Heap, lab: seq<Path>)
    requires Forest(h, lab)
    ensures |lab| == |h|
  {
  }

  lemma GetKept(h: Heap, h': Heap, a: nat, k: Key)
    requires h <= h' && a < |h|
    ensures Get(h', Ref(a), k) == Get(h, Ref(a), k)
  {
  }

  /** The values at the key of one new scope cell have that cell's place extended by the key. */
  lemma NewPlace(h: Heap, lab: seq<Path>, runId: string, event: Val, vars: Val, i: nat, k: Key)
    requires |lab| == |h| && IsDict(h, event) && IsDict(h, vars) && i < 9
    requires lab[event.addr] == EVENT_PLACE && lab[vars.addr] == VARIABLES_PLACE
    requires Get(CreateContext(h, runId, event, vars).heap, Ref(|h| + i), k).Some?
    ensures var v := Get(CreateContext(h, runId, event, vars).heap, Ref(|h| + i), k).value;
            v.Ref? ==> v.addr < |h| + 9 && (lab + ScopePlaces())[v.addr] == (lab + ScopePlaces())[|h| + i] + [k]
  {
    hide Strip, NewScopes, CreateContext, ScopePlaces, Get;
    CreatedRefs(h, runId, event, vars, i, k);
    PlacesFit();
    Appended(lab, ScopePlaces());
  }

  lemma Appended(lab: seq<Path>, places: seq<Path>)
    ensures forall a | 0 <= a < |lab| :: (lab + places)[a] == lab[a]
    ensures forall j | 0 <= j < |places| :: (lab + places)[|lab| + j] == places[j]
  {
  }

  /** `p` seen from the local scope: `$.global...` becomes `$.local.global...`. */
  function ThroughLocal(p: seq<Segment>): seq<Segment> { [Segment("local", [])] + p }

  lemma ThroughLocalKeys(p: seq<Segment>)
    requires PlainPath(p) && Root(p) == "global"
    ensures PlainPath(ThroughLocal(p)) && Root(ThroughLocal(p)) == "local"
    ensures Below(ThroughLocal(p)) == [Prop("global")] + Below(p)
  {
    var q := ThroughLocal(p);
    assert q[1..] == p;
    assert SimpleName("local") by {
      assert !IsDigit("local"[0]);
    }
    forall i | 0 <= i < |q|
      ensures SimpleSegment(q[i])
    {
      assert i == 0 || q[i] == p[i - 1];
    }
    FirstKeys(p);
  }

  /** Every successful write through the alias is what the global path then resolves to, in a test item
      too: the guard on `$.global` does not see it. */
  lemma AliasWritesReachGlobal(c: Context, lab: seq<Path>, p: seq<Segment>, value: Val)
    requires Forest(c.heap, lab) && ScopesAreDicts(c) && PlainPath(p) && Root(p) == "global"
    requires Get(c.heap, Ref(c.localScope), Prop("global")) == Some(Ref(c.globalScope))
    requires value.Ref? ==> value.addr < |c.heap|
    ensures ScopesAreDicts(WritePath(c, RefText(ThroughLocal(p)), value).0)
    ensures WritePath(c, RefText(ThroughLocal(p)), value).1 == Done ==>
              ReadPath(WritePath(c, RefText(ThroughLocal(p)), value).0, RefText(p)) == Found(value)
  {
    hide WritePath, ReadPath, RefText, ThroughLocal;
    var q := ThroughLocal(p);
    ThroughLocalKeys(p);
    WritePlainPath(c, q, value);
    ForestIsClosed(c.heap, lab);
    AssignKeepsShape(c.heap, Ref(c.localScope), Below(q), value);
    var w := Assign(c.heap, Ref(c.localScope), Below(q), value);
    if w.ok {
      ReadAfterWrite(c.heap, lab, c.localScope, Below(q), value);
      assert |lab[c.localScope] + [Prop("global")]| < |lab[c.localScope] + Below(q)|;
      AssignKeepsEntry(c.heap, lab, c.localScope, Below(q), value, c.localScope, Prop("global"), Ref(c.globalScope));
      assert Below(q)[0] == Prop("global") && Below(q)[1..] == Below(p);
      ReadPlainPath(c.(heap := w.heap), p);
    }
  }

  /** Writing `$.global...` itself in a test item changes nothing. */
  lemma GlobalWriteIsBlocked(c: Context, p: seq<Segment>, value: Val)
    requires ScopesAreDicts(c) && c.kind == TestItem && PlainPath(p) && Root(p) == "global"
    ensures WritePath(c, RefText(p), value) == (c, Raised(GlobalImmutable))
  {
    hide WritePath, RefText;
    WritePlainPath(c, p, value);
  }
}
