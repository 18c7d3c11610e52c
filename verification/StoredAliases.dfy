/** A command may store an object that it has read from a frozen scope. Such an object is then held in
    two places, and a test item can change it below the place where it was stored. */
module StoredAliases {
  import opened PyText
  import opened ObjectHeap
  import opened ForestPaths
  import opened PathText
  import opened RunContexts
  import opened ContextPaths
  import opened ItemImmutability

  // ---- one step further down --------------------------------------------------------------------

  /** `p.name`, or `p[pos]`. */
  function Deeper(p: seq<Segment>, k: Key): seq<Segment>
    requires p != []
  {
    match k
    case Prop(name) => p + [Segment(name, [])]
    case Index(pos) => p[..|p| - 1] + [p[|p| - 1].(indexes := p[|p| - 1].indexes + [Dec(pos)])]
  }

  lemma {:induction false} KeysOfAppend(a: seq<Segment>, b: seq<Segment>)
    requires Canonical(a) && Canonical(b)
    ensures Canonical(a + b) && KeysOf(a + b) == KeysOf(a) + KeysOf(b)
    decreases |a|
  {
    hide SimpleSegment, SegmentKeys;
    assert forall i | 0 <= i < |a + b| :: SimpleSegment((a + b)[i]);
    if a == [] {
      assert a + b == b;
    } else {
      KeysOfAppend(a[1..], b);
      assert (a + b)[0] == a[0] && (a + b)[1..] == a[1..] + b;
    }
  }

  lemma {:induction false} IndexKeysAppend(indexes: seq<string>, pos: nat)
    requires AllDigits(indexes)
    ensures AllDigits(indexes + [Dec(pos)]) && IndexKeys(indexes + [Dec(pos)]) == IndexKeys(indexes) + [Index(pos)]
    decreases |indexes|
  {
    hide Dec, ParseNat;
    var more := indexes + [Dec(pos)];
    assert forall i | 0 <= i < |more| :: IsDigits(more[i]);
    if indexes == [] {
      ParseDec(pos);
      assert more[1..] == [];
    } else {
      IndexKeysAppend(indexes[1..], pos);
      assert more[1..] == indexes[1..] + [Dec(pos)];
    }
  }

  lemma OneSegment(s: Segment)
    requires SimpleSegment(s)
    ensures Canonical([s]) && KeysOf([s]) == SegmentKeys(s)
  {
    assert [s][1..] == [];
  }

  lemma NameKeys(name: string)
    requires SimpleName(name)
    ensures SegmentKeys(Segment(name, [])) == [Prop(name)]
  {
  }

  /** A key that a path text can name. */
  predicate SimpleKey(k: Key) { k.Prop? ==> SimpleName(k.name) }

  lemma DeeperKeys(p: seq<Segment>, k: Key)
    requires PlainPath(p) && SimpleKey(k)
    ensures PlainPath(Deeper(p, k)) && Root(Deeper(p, k)) == Root(p) && Below(Deeper(p, k)) == Below(p) + [k]
  {
    hide SimpleName, IndexKeys, Dec;
    var q := Deeper(p, k);
    if k.Prop? {
      OneSegment(Segment(k.name, []));
      KeysOfAppend(p[1..], [Segment(k.name, [])]);
      assert q[1..] == p[1..] + [Segment(k.name, [])];
      NameKeys(k.name);
      assert forall i | 0 <= i < |q| :: SimpleSegment(q[i]);
    } else {
      var last, init := p[|p| - 1], p[1..|p| - 1];
      var last' := last.(indexes := last.indexes + [Dec(k.pos)]);
      IndexKeysAppend(last.indexes, k.pos);
      OneSegment(last);
      OneSegment(last');
      assert Canonical(init);
      KeysOfAppend(init, [last]);
      KeysOfAppend(init, [last']);
      assert p[1..] == init + [last] && q[1..] == init + [last'];
      assert forall i | 0 <= i < |q| :: SimpleSegment(q[i]);
    }
  }

  /** Where a path leads to a container, assigning one step further down changes that container. */
  lemma {:induction false} AssignAlong(h: Heap, t: Val, keys: seq<Key>, v: Val, k: Key, w: Val)
    requires Resolve(h, t, keys) == Some(v) && Accepts(h, v, k)
    ensures Assign(h, t, keys + [k], w) == Written(SetKey(PadFor(h, v, k), v, k, w), true)
    decreases |keys|
  {
    hide SetKey;
    var all := keys + [k];
    if keys == [] {
      assert all == [k];
    } else {
      var x := Get(h, t, keys[0]).value;
      assert all[0] == keys[0] && all[1..] == keys[1..] + [k];
      assert Resolve(h, x, keys[1..]) == Some(v);
      assert x.Ref? by {
        if |keys| == 1 {
          assert keys[1..] == [];
        } else {
          assert Get(h, x, keys[1..][0]).Some?;
        }
      }
      assert Descend(h, t, keys[0], all[1]) == h;
      AssignAlong(h, x, keys[1..], v, k, w);
    }
  }

  // ---- a stored object of the global scope ------------------------------------------------------

  /** A path to `v` is still one after a write elsewhere and a change of `v` itself. */
  lemma {:induction false} StillReached(h: Heap, lab: seq<Path>, a: nat, keys: Path, value: Val, h2: Heap,
                                        b: nat, q: Path, v: Val)
    requires Forest(h, lab) && a < |h| && b < |h| && Resolve(h, Ref(b), q) == Some(v) && v.Ref?
    requires !Comparable(lab[a] + keys, lab[b] + q)
    requires var h1 := Assign(h, Ref(a), keys, value).heap;
             |h| <= |h1| <= |h2| && forall d: nat | d < |h| && d != v.addr :: h2[d] == h1[d]
    ensures Resolve(h2, Ref(b), q) == Some(v)
    decreases |q|
  {
    hide Assign;
    if q == [] {
    } else {
      var x := Get(h, Ref(b), q[0]).value;
      assert x.Ref? by {
        if |q| == 1 {
          assert q[1..] == [];
        } else {
          assert Get(h, x, q[1..][0]).Some?;
        }
      }
      PlaceOfResolved(h, lab, b, q);
      assert |lab[v.addr]| == |lab[b]| + |q|;
      assert lab[b] + [q[0]] + q[1..] == lab[b] + q;
      AssignKeepsEntry(h, lab, a, keys, value, b, q[0], x);
      StillReached(h, lab, a, keys, value, h2, x.addr, q[1..], v);
    }
  }

  /** In a test item, an object of the global scope that a command has stored below the result or the
      local scope is changed at its global path by a write below the stored place, although that write
      steps through no alias key and `$.global` is guarded. */
  lemma StoredObjectIsShared(c: Context, lab: seq<Path>, g: seq<Segment>, p: seq<Segment>, v: Val, name: string, w: Val)
    requires Forest(c.heap, lab) && ScopesAreDicts(c) && c.kind == TestItem
    requires PlainPath(g) && Root(g) == "global" && ReadPath(c, RefText(g)) == Found(v) && IsDict(c.heap, v)
    requires PlainPath(p) && (Root(p) == "result" || Root(p) == "local") && !Comparable(Place(c, lab, p), Place(c, lab, g))
    requires SimpleName(name) && (w.Ref? ==> w.addr < |c.heap|)
    ensures ScopesAreDicts(WritePath(c, RefText(p), v).0)
    ensures WritePath(c, RefText(p), v).1 == Done ==>
              var (c2, outcome) := WritePath(WritePath(c, RefText(p), v).0, RefText(Deeper(p, Prop(name))), w);
              outcome == Done && ReadPath(c2, RefText(Deeper(g, Prop(name)))) == Found(w)
  {
    hide WritePath, ReadPath, RefText, Deeper, Assign, SimpleName, Closed, KeysOf;
    var a, b, k := ScopeAddr(c, Root(p)), ScopeAddr(c, Root(g)), Prop(name);
    ForestIsClosed(c.heap, lab);
    ReadPlainPath(c, g);
    WritePlainPath(c, p, v);
    var first := Assign(c.heap, Ref(a), Below(p), v);
    AssignKeepsShape(c.heap, Ref(a), Below(p), v);
    if first.ok {
      var h2 := StoredThenChanged(c.heap, lab, a, Below(p), b, Below(g), v, name, w);
      DeeperKeys(p, k);
      DeeperKeys(g, k);
      WritePlainPath(c.(heap := first.heap), Deeper(p, k), w);
      ReadPlainPath(c.(heap := h2), Deeper(g, k));
    }
  }

  /** The same on the heap. */
  lemma StoredThenChanged(h: Heap, lab: seq<Path>, a: nat, keys: Path, b: nat, q: Path, v: Val, name: string, w: Val)
    returns (h2: Heap)
    requires Forest(h, lab) && a < |h| && b < |h| && Resolve(h, Ref(b), q) == Some(v) && IsDict(h, v)
    requires !Comparable(lab[a] + keys, lab[b] + q) && Assign(h, Ref(a), keys, v).ok && (w.Ref? ==> w.addr < |h|)
    ensures Assign(Assign(h, Ref(a), keys, v).heap, Ref(a), keys + [Prop(name)], w) == Written(h2, true)
    ensures Closed(h2) && SameKinds(h, h2) && Resolve(h2, Ref(b), q + [Prop(name)]) == Some(w)
  {
    hide Assign, SetKey;
    var k := Prop(name);
    var h1 := Assign(h, Ref(a), keys, v).heap;
    ForestIsClosed(h, lab);
    AssignKeepsShape(h, Ref(a), keys, v);
    ReadAfterWrite(h, lab, a, keys, v);
    AssignAlong(h1, Ref(a), keys, v, k, w);
    SetKeepsShape(h1, v, k, w);
    h2 := SetKey(h1, v, k, w);
    StillReached(h, lab, a, keys, v, h2, b, q, v);
    ResolveConcat(h2, Ref(b), q, [k]);
    assert [k][1..] == [];
  }

  // ---- exactly which stored values are harmless -------------------------------------------------

  /** A value that an entry of a container does not have yet. */
  function Other(h: Heap, v: Val, k: Key): Val { if Get(h, v, k) == Some(Num(0)) then Num(1) else Num(0) }

  lemma AvoidsByKeys(p: seq<Segment>)
    requires PlainPath(p)
    ensures AvoidsAlias(RefText(p)) <==> Root(p) != "local" || Below(p)[0] != Prop("global")
  {
    hide PathKeys, RefText, KeysOf, ContextRoot;
    PlainPathKeys(p);
  }

  lemma OneStep(c: Context, frozen: set<nat>, s: Step)
    requires ScopesAreDicts(c)
    ensures Run(c, [s]) == Exec(c, s).0 && (Allowed(c, frozen, s) ==> AllAllowed(c, frozen, [s]))
  {
    hide Exec, Allowed;
    assert [s][1..] == [];
  }

  /** An allowed step that changes the container at a path. */
  lemma ChangeBelow(c: Context, frozen: set<nat>, p: seq<Segment>, v: Val) returns (s: Step)
    requires ScopesAreDicts(c) && Closed(c.heap) && PlainPath(p) && Guard(c.kind, Root(p)).None? && AvoidsAlias(RefText(p))
    requires Resolve(c.heap, Ref(ScopeAddr(c, Root(p))), Below(p)) == Some(v) && v.Ref? && v.addr < |c.heap|
    ensures Allowed(c, frozen, s)
    ensures v.addr < |Exec(c, s).0.heap| && Exec(c, s).0.heap[v.addr] != c.heap[v.addr]
  {
    hide WritePath, RefText, Deeper, Assign, PathKeys, SimpleName, SetKey;
    var k := if c.heap[v.addr].Dict? then Prop("x") else Index(0);
    assert SimpleName("x") by {
      XIsSimple();
    }
    DeeperKeys(p, k);
    var q, w := Deeper(p, k), Other(c.heap, v, k);
    s := Write(RefText(q), [], w);
    AvoidsByKeys(p);
    AvoidsByKeys(q);
    assert c.heap + [] == c.heap;
    WritePlainPath(c, q, w);
    AssignAlong(c.heap, Ref(ScopeAddr(c, Root(p))), Below(p), v, k, w);
    var h2 := SetKey(PadFor(c.heap, v, k), v, k, w);
    assert Get(h2, v, k) == Some(w) && Get(c.heap, v, k) != Some(w);
  }

  // ---- new objects in a heap --------------------------------------------------------------------

  /** The cells from `n` on are `made`. */
  function Fill(b: Heap, n: nat, made: seq<Cell>): Heap
    requires n + |made| <= |b|
  {
    b[..n] + made + b[n + |made|..]
  }

  /** No object holds one of the `m` cells from `n` on. */
  ghost predicate Unheld(b: Heap, n: nat, m: nat) {
    forall a: nat, k, x :: a < |b| && Get(b, Ref(a), k) == Some(x) && x.Ref? ==> x.addr < n || n + m <= x.addr
  }

  predicate Outside(v: Val, n: nat, m: nat) { v.Ref? ==> v.addr < n || n + m <= v.addr }

  lemma FillAt(b: Heap, n: nat, made: seq<Cell>, i: nat)
    requires n + |made| <= |b| && i < |b|
    ensures |Fill(b, n, made)| == |b|
    ensures Fill(b, n, made)[i] == if n <= i < n + |made| then made[i - n] else b[i]
  {
  }

  lemma FillGet(b: Heap, n: nat, made: seq<Cell>, v: Val, k: Key)
    requires n + |made| <= |b| && Outside(v, n, |made|)
    ensures Get(Fill(b, n, made), v, k) == Get(b, v, k) && Accepts(Fill(b, n, made), v, k) == Accepts(b, v, k)
  {
    if v.Ref? && v.addr < |b| {
      FillAt(b, n, made, v.addr);
    }
  }

  lemma FillSet(b: Heap, n: nat, made: seq<Cell>, v: Val, k: Key, w: Val)
    requires n + |made| <= |b| && Outside(v, n, |made|) && Accepts(b, v, k) && (k.Index? ==> k.pos < |b[v.addr].items|)
    ensures var f := Fill(b, n, made);
            Accepts(f, v, k) && (k.Index? ==> k.pos < |f[v.addr].items|) &&
            SetKey(f, v, k, w) == Fill(SetKey(b, v, k, w), n, made)
  {
    hide SetKey;
    FillGet(b, n, made, v, k);
    FillAt(b, n, made, v.addr);
    var f, b' := Fill(b, n, made), SetKey(b, v, k, w);
    forall i: nat | i < |b|
      ensures SetKey(f, v, k, w)[i] == Fill(b', n, made)[i]
    {
      FillAt(b, n, made, i);
      FillAt(b', n, made, i);
      if i == v.addr {
        SetCell(f, b, v, k, w);
      }
    }
    assert |Fill(b', n, made)| == |b|;
  }

  lemma SetCell(f: Heap, b: Heap, v: Val, k: Key, w: Val)
    requires Accepts(b, v, k) && (k.Index? ==> k.pos < |b[v.addr].items|) && v.addr < |f| && f[v.addr] == b[v.addr]
    ensures SetKey(f, v, k, w)[v.addr] == SetKey(b, v, k, w)[v.addr]
  {
  }

  lemma FillExtend(b: Heap, n: nat, made: seq<Cell>, cell: Cell)
    requires n + |made| <= |b|
    ensures Fill(b, n, made) + [cell] == Fill(b + [cell], n, made)
  {
    assert (b + [cell])[n + |made|..] == b[n + |made|..] + [cell];
  }

  lemma {:induction false} FillPad(b: Heap, n: nat, made: seq<Cell>, a: nat, idx: nat)
    requires n + |made| <= |b| && a < |b| && b[a].List? && (a < n || n + |made| <= a)
    ensures |Fill(b, n, made)| == |b| && Fill(b, n, made)[a] == b[a]
    ensures Pad(Fill(b, n, made), a, idx) == Fill(Pad(b, a, idx), n, made)
    decreases idx + 1 - |b[a].items|
  {
    hide Fill;
    FillAt(b, n, made, a);
    if idx < |b[a].items| {
    } else {
      var cell := List(b[a].items + [Ref(|b|)]);
      var b1 := b[a := cell];
      FillReplace(b, n, made, a, cell);
      FillExtend(b1, n, made, Dict(map[]));
      FillPad(b1 + [Dict(map[])], n, made, a, idx);
    }
  }

  lemma FillReplace(b: Heap, n: nat, made: seq<Cell>, a: nat, cell: Cell)
    requires n + |made| <= |b| && a < |b| && (a < n || n + |made| <= a)
    ensures |Fill(b, n, made)| == |b| && Fill(b, n, made)[a := cell] == Fill(b[a := cell], n, made)
  {
    var f, b' := Fill(b, n, made), b[a := cell];
    forall i: nat | i < |b|
      ensures f[a := cell][i] == Fill(b', n, made)[i]
    {
      FillAt(b, n, made, i);
      FillAt(b', n, made, i);
    }
  }

  lemma FillPadFor(b: Heap, n: nat, made: seq<Cell>, v: Val, k: Key)
    requires n + |made| <= |b| && Outside(v, n, |made|) && Accepts(b, v, k)
    ensures Accepts(Fill(b, n, made), v, k) && PadFor(Fill(b, n, made), v, k) == Fill(PadFor(b, v, k), n, made)
  {
    hide Pad, Fill;
    FillGet(b, n, made, v, k);
    if k.Index? {
      FillPad(b, n, made, v.addr, k.pos);
    }
  }

  lemma {:induction false} PadUnheld(b: Heap, n: nat, m: nat, a: nat, idx: nat)
    requires Unheld(b, n, m) && n + m <= |b| && a < |b| && b[a].List?
    ensures Unheld(Pad(b, a, idx), n, m)
    decreases idx + 1 - |b[a].items|
  {
    if idx < |b[a].items| {
    } else {
      var b1 := b[a := List(b[a].items + [Ref(|b|)])] + [Dict(map[])];
      forall c: nat, j, x | c < |b1| && Get(b1, Ref(c), j) == Some(x) && x.Ref?
        ensures x.addr < n || n + m <= x.addr
      {
        if c < |b| && (c != a || j.pos < |b[a].items|) {
          assert Get(b, Ref(c), j) == Some(x);
        }
      }
      PadUnheld(b1, n, m, a, idx);
    }
  }

  lemma FillDescend(b: Heap, n: nat, made: seq<Cell>, v: Val, k: Key, next: Key)
    requires n + |made| <= |b| && Outside(v, n, |made|) && Accepts(b, v, k) && Unheld(b, n, |made|)
    ensures Accepts(Fill(b, n, made), v, k) && Descend(Fill(b, n, made), v, k, next) == Fill(Descend(b, v, k, next), n, made)
    ensures Unheld(Descend(b, v, k, next), n, |made|) && |b| <= |Descend(b, v, k, next)|
  {
    hide SetKey, Fill, Pad;
    FillPadFor(b, n, made, v, k);
    var b1 := PadFor(b, v, k);
    FillGet(b1, n, made, v, k);
    if k.Index? {
      PadUnheld(b, n, |made|, v.addr, k.pos);
    }
    if Get(b1, v, k) in {None, Some(Null)} {
      var cell := if next.Index? then List([]) else Dict(map[]);
      FillAt(b1, n, made, v.addr);
      FillSet(b1, n, made, v, k, Ref(|b1|));
      var b2 := SetKey(b1, v, k, Ref(|b1|));
      FillExtend(b2, n, made, cell);
      forall c: nat, j, x | c < |b2 + [cell]| && Get(b2 + [cell], Ref(c), j) == Some(x) && x.Ref?
        ensures x.addr < n || n + |made| <= x.addr
      {
        assert c < |b2| && Get(b2, Ref(c), j) == Some(x);
        if c != v.addr || j != k {
          assert Get(b1, Ref(c), j) == Some(x);
        }
      }
    }
  }

  /** A write does not look at objects that nothing holds yet. */
  lemma {:induction false} FillAssign(b: Heap, n: nat, made: seq<Cell>, v: Val, keys: seq<Key>, value: Val)
    requires n + |made| <= |b| && Outside(v, n, |made|) && Unheld(b, n, |made|)
    ensures var w := Assign(b, v, keys, value);
            |b| <= |w.heap| && Assign(Fill(b, n, made), v, keys, value) == Written(Fill(w.heap, n, made), w.ok)
    decreases |keys|
  {
    hide SetKey, Fill, Descend, PadFor, Unheld;
    if keys == [] {
    } else {
      FillGet(b, n, made, v, keys[0]);
      if !Accepts(b, v, keys[0]) {
      } else if |keys| == 1 {
        FillPadFor(b, n, made, v, keys[0]);
        FillSet(PadFor(b, v, keys[0]), n, made, v, keys[0], value);
      } else {
        FillDescend(b, n, made, v, keys[0], keys[1]);
        var b1 := Descend(b, v, keys[0], keys[1]);
        FillGet(b1, n, made, v, keys[0]);
        UnheldGet(b1, n, |made|, v, keys[0]);
        FillAssign(b1, n, made, Get(b1, v, keys[0]).value, keys[1..], value);
      }
    }
  }

  lemma UnheldGet(b: Heap, n: nat, m: nat, v: Val, k: Key)
    requires Unheld(b, n, m) && Get(b, v, k).Some?
    ensures Outside(Get(b, v, k).value, n, m)
  {
  }

  /** What is reached while the new objects are empty is reached when they are filled. */
  lemma {:induction false} FillResolve(b: Heap, n: nat, made: seq<Cell>, t: Val, keys: seq<Key>, v: Val)
    requires n + |made| <= |b| && Outside(t, n, |made|) && Resolve(b, t, keys) == Some(v)
    requires forall i: nat | n <= i < n + |made| :: b[i] == Dict(map[])
    ensures Resolve(Fill(b, n, made), t, keys) == Some(v)
    decreases |keys|
  {
    hide Fill;
    if keys == [] {
    } else {
      FillGet(b, n, made, t, keys[0]);
      var x := Get(b, t, keys[0]).value;
      if keys[1..] == [] {
      } else if Outside(x, n, |made|) {
        FillResolve(b, n, made, x, keys[1..], v);
      }
    }
  }

  /** From an old object only old ones are reached. */
  lemma {:induction false} OldStaysOld(h: Heap, made: seq<Cell>, v: Val, keys: seq<Key>)
    requires Closed(h) && v.Ref? && v.addr < |h| && Resolve(h + made, v, keys).Some?
    ensures Outside(Resolve(h + made, v, keys).value, |h|, |made|)
    decreases |keys|
  {
    if keys == [] {
    } else {
      var x := Get(h + made, v, keys[0]).value;
      assert Get(h, v, keys[0]) == Some(x);
      if x.Ref? {
        OldStaysOld(h, made, x, keys[1..]);
      }
    }
  }

  /** What is reached among the new objects is reached there after a write. */
  lemma {:induction false} MadeResolve(h: Heap, made: seq<Cell>, b: Heap, v: Val, keys: seq<Key>, i: nat)
    requires Closed(h) && |h| + |made| <= |b| && v.Ref? && v.addr < |h| + |made| && i < |made|
    requires Resolve(h + made, v, keys) == Some(Ref(|h| + i))
    ensures Resolve(Fill(b, |h|, made), v, keys) == Some(Ref(|h| + i))
    decreases |keys|
  {
    hide Fill;
    if keys == [] {
    } else {
      if v.addr < |h| {
        OldStaysOld(h, made, v, keys);
      } else {
        FillAt(b, |h|, made, v.addr);
        var x := Get(h + made, v, keys[0]).value;
        assert Get(Fill(b, |h|, made), v, keys[0]) == Some(x);
        RefOnTheWay(h + made, x, keys[1..], Ref(|h| + i));
        MadeResolve(h, made, b, x, keys[1..], i);
      }
    }
  }

  lemma RefOnTheWay(h: Heap, x: Val, keys: seq<Key>, v: Val)
    requires Resolve(h, x, keys) == Some(v) && v.Ref? && v.addr < |h|
    ensures x.Ref? && x.addr < |h|
  {
    if keys == [] {
    } else {
      assert Get(h, x, keys[0]).Some?;
    }
  }

  predicate SimpleKeys(keys: seq<Key>) { forall i | 0 <= i < |keys| :: SimpleKey(keys[i]) }

  function DeeperBy(p: seq<Segment>, keys: seq<Key>): seq<Segment>
    requires p != []
    decreases |keys|
  {
    if keys == [] then p else DeeperBy(Deeper(p, keys[0]), keys[1..])
  }

  lemma {:induction false} DeeperByKeys(p: seq<Segment>, keys: seq<Key>)
    requires PlainPath(p) && SimpleKeys(keys)
    ensures var q := DeeperBy(p, keys); PlainPath(q) && Root(q) == Root(p) && Below(q) == Below(p) + keys
    decreases |keys|
  {
    hide Deeper, SimpleKey, KeysOf;
    if keys == [] {
    } else {
      DeeperKeys(p, keys[0]);
      DeeperByKeys(Deeper(p, keys[0]), keys[1..]);
      assert [keys[0]] + keys[1..] == keys;
    }
  }

  /** Another value than the local scope, when `m` new cells follow the heap. */
  predicate FitsIn(c: Context, m: nat, x: Val) { x.Ref? ==> x.addr < |c.heap| + m && x.addr != c.localScope }

  /** A value to store: an object, old or new, of which all the new ones are part, under keys that a
      path text can name. */
  ghost predicate Storable(c: Context, made: seq<Cell>, v: Val) {
    && v.Ref? && FitsIn(c, |made|, v)
    && (forall i: nat, k | i < |made| && GetCell(made[i], k).Some? :: SimpleKey(k))
    && (forall i: nat, k | i < |made| && GetCell(made[i], k).Some? :: FitsIn(c, |made|, GetCell(made[i], k).value))
    && forall i: nat | i < |made| :: IsReached(c.heap, made, v, i)
  }

  ghost predicate IsReached(h: Heap, made: seq<Cell>, v: Val, i: nat) {
    exists keys :: SimpleKeys(keys) && Resolve(h + made, v, keys) == Some(Ref(|h| + i))
  }

  /** The value is no frozen object and holds none. */
  ghost predicate HoldsNoFrozen(made: seq<Cell>, v: Val, frozen: set<nat>) {
    && (v.Ref? ==> v.addr !in frozen)
    && forall i: nat, k | i < |made| && GetCell(made[i], k).Some? ::
         GetCell(made[i], k).value.Ref? ==> GetCell(made[i], k).value.addr !in frozen
  }

  function Blank(m: nat): (s: seq<Cell>)
    ensures |s| == m && forall i | 0 <= i < m :: s[i] == Dict(map[])
  {
    seq(m, i => Dict(map[]))
  }

  lemma MadeIsClosed(h: Heap, made: seq<Cell>)
    requires Closed(h)
    requires forall i: nat, k | i < |made| && GetCell(made[i], k).Some? ::
               GetCell(made[i], k).value.Ref? ==> GetCell(made[i], k).value.addr < |h| + |made|
    ensures Closed(h + made)
  {
    var r := h + made;
    forall a: nat, k, x | a < |r| && Get(r, Ref(a), k) == Some(x) && x.Ref?
      ensures x.addr < |r|
    {
      if a < |h| {
        assert Get(h, Ref(a), k) == Some(x);
      } else {
        assert GetCell(made[a - |h|], k) == Some(x);
      }
    }
  }

  lemma BlankHeap(h: Heap, lab: seq<Path>, made: seq<Cell>)
    requires Forest(h, lab)
    ensures var b := h + Blank(|made|);
            && Forest(b, lab + seq(|made|, i => [])) && Unheld(b, |h|, |made|) && Fill(b, |h|, made) == h + made
  {
    var b := h + Blank(|made|);
    forall a: nat, k, x | a < |b| && Get(b, Ref(a), k) == Some(x) && x.Ref?
      ensures a < |h| && Get(h, Ref(a), k) == Some(x)
    {
    }
  }

  /** The write leaves the blank cells blank. */
  lemma BlankStays(h: Heap, lab: seq<Path>, made: seq<Cell>, a: nat, keys: seq<Key>, v: Val)
    requires Forest(h, lab) && a < |h|
    ensures var b := h + Blank(|made|);
            var w := Assign(b, Ref(a), keys, v);
            |b| <= |w.heap| && forall j: nat | |h| <= j < |h| + |made| :: w.heap[j] == Dict(map[])
  {
    hide Assign, Unheld, Fill;
    var b, blank := h + Blank(|made|), Blank(|made|);
    BlankHeap(h, lab, made);
    assert Fill(b, |h|, blank) == b by {
      BlankHeap(h, lab, blank);
    }
    FillAssign(b, |h|, blank, Ref(a), keys, v);
    var w := Assign(b, Ref(a), keys, v);
    forall j: nat | |h| <= j < |h| + |made|
      ensures w.heap[j] == Dict(map[])
    {
      FillAt(w.heap, |h|, blank, j);
    }
  }

  /** The write on the heap with blank cells, which is a forest. */
  lemma WriteOverBlanks(h: Heap, lab: seq<Path>, made: seq<Cell>, a: nat, keys: seq<Key>, v: Val) returns (b: Heap)
    requires Forest(h, lab) && a < |h| && Assign(h + made, Ref(a), keys, v).ok
    ensures |h| + |made| <= |b| && Assign(h + made, Ref(a), keys, v).heap == Fill(b, |h|, made)
    ensures Resolve(b, Ref(a), keys) == Some(v)
    ensures forall j: nat | |h| <= j < |h| + |made| :: b[j] == Dict(map[])
  {
    hide Assign, Forest, Unheld, Fill, Resolve;
    var before := h + Blank(|made|);
    BlankHeap(h, lab, made);
    FillAssign(before, |h|, made, Ref(a), keys, v);
    ReadAfterWrite(before, lab + seq(|made|, i => []), a, keys, v);
    BlankStays(h, lab, made, a, keys, v);
    b := Assign(before, Ref(a), keys, v).heap;
  }

  /** After the write, the stored value is at its path. */
  lemma StoredIsThere(h: Heap, lab: seq<Path>, made: seq<Cell>, a: nat, keys: seq<Key>, v: Val)
    requires Forest(h, lab) && a < |h| && Assign(h + made, Ref(a), keys, v).ok
    ensures Resolve(Assign(h + made, Ref(a), keys, v).heap, Ref(a), keys) == Some(v)
  {
    hide Assign, Forest, Fill, Resolve;
    var b := WriteOverBlanks(h, lab, made, a, keys, v);
    FillResolve(b, |h|, made, Ref(a), keys, v);
  }

  /** And its new parts are below it. */
  lemma PartIsThere(h: Heap, lab: seq<Path>, made: seq<Cell>, a: nat, keys: seq<Key>, v: Val, rest: seq<Key>, i: nat)
    requires Forest(h, lab) && a < |h| && v.Ref? && v.addr < |h| + |made| && Assign(h + made, Ref(a), keys, v).ok
    requires i < |made| && Resolve(h + made, v, rest) == Some(Ref(|h| + i))
    ensures var h1 := Assign(h + made, Ref(a), keys, v).heap;
            && Resolve(h1, Ref(a), keys + rest) == Some(Ref(|h| + i)) && |h| + i < |h1| && h1[|h| + i] == made[i]
  {
    hide Assign, Forest, Fill, Resolve;
    StoredIsThere(h, lab, made, a, keys, v);
    ForestIsClosed(h, lab);
    var b := WriteOverBlanks(h, lab, made, a, keys, v);
    MadeResolve(h, made, b, v, rest, i);
    ResolveConcat(Fill(b, |h|, made), Ref(a), keys, rest);
    FillAt(b, |h|, made, |h| + i);
  }

  /** The path of a frozen object below the stored value. */
  lemma FrozenIsReached(c: Context, lab: seq<Path>, frozen: set<nat>, a: nat, below: seq<Key>, made: seq<Cell>, v: Val)
    returns (keys: seq<Key>, f: nat)
    requires Forest(c.heap, lab) && a < |c.heap| && Storable(c, made, v)
    requires Assign(c.heap + made, Ref(a), below, v).ok && !HoldsNoFrozen(made, v, frozen)
    ensures f in frozen && SimpleKeys(keys)
    ensures Resolve(Assign(c.heap + made, Ref(a), below, v).heap, Ref(a), below + keys) == Some(Ref(f))
  {
    hide Assign, Resolve, SimpleKey, Forest;
    if v.addr in frozen {
      keys, f := [], v.addr;
      StoredIsThere(c.heap, lab, made, a, below, v);
      assert below + [] == below;
    } else {
      var i: nat, k :| i < |made| && GetCell(made[i], k).Some? &&
                       GetCell(made[i], k).value.Ref? && GetCell(made[i], k).value.addr in frozen;
      assert IsReached(c.heap, made, v, i);
      var rest :| SimpleKeys(rest) && Resolve(c.heap + made, v, rest) == Some(Ref(|c.heap| + i));
      PartIsThere(c.heap, lab, made, a, below, v, rest, i);
      keys, f := rest + [k], GetCell(made[i], k).value.addr;
      var h1 := Assign(c.heap + made, Ref(a), below, v).heap;
      OneMore(h1, Ref(a), below + rest, Ref(|c.heap| + i), k);
      assert below + keys == below + rest + [k];
    }
  }

  lemma OneMore(h: Heap, t: Val, keys: seq<Key>, v: Val, k: Key)
    requires Resolve(h, t, keys) == Some(v) && Get(h, v, k).Some?
    ensures Resolve(h, t, keys + [k]) == Get(h, v, k)
  {
    ResolveConcat(h, t, keys, [k]);
    assert [k][1..] == [];
  }

  /** An allowed step changes a frozen object below the stored value. */
  lemma FrozenIsChanged(c: Context, lab: seq<Path>, frozen: set<nat>, p: seq<Segment>, made: seq<Cell>, v: Val) returns (s: Step)
    requires Forest(c.heap, lab) && Sealed(c, frozen) && c.kind == TestItem
    requires PlainPath(p) && AvoidsAlias(RefText(p)) && Guard(c.kind, Root(p)).None? && Storable(c, made, v)
    requires Assign(c.heap + made, Ref(ScopeAddr(c, Root(p))), Below(p), v).ok && !HoldsNoFrozen(made, v, frozen)
    ensures var c1 := c.(heap := Assign(c.heap + made, Ref(ScopeAddr(c, Root(p))), Below(p), v).heap);
            && ScopesAreDicts(c1) && Allowed(c1, frozen, s) && !SameOn(c1.heap, Exec(c1, s).0.heap, frozen)
  {
    hide Assign, Coloured, AvoidsAlias, RefText, PathKeys, KeysOf, SimpleKeys, Allowed, Exec, Resolve, Forest, HoldsNoFrozen,
         Deeper, DeeperBy;
    var a := ScopeAddr(c, Root(p));
    ForestIsClosed(c.heap, lab);
    MadeIsClosed(c.heap, made);
    AssignKeepsShape(c.heap + made, Ref(a), Below(p), v);
    var c1 := c.(heap := Assign(c.heap + made, Ref(a), Below(p), v).heap);
    var keys, f := FrozenIsReached(c, lab, frozen, a, Below(p), made, v);
    FrozenInHeap(c, frozen, f);
    DeeperByKeys(p, keys);
    DeeperAvoids(p, DeeperBy(p, keys), keys);
    s := ChangeBelow(c1, frozen, DeeperBy(p, keys), Ref(f));
  }

  lemma FrozenInHeap(c: Context, frozen: set<nat>, f: nat)
    requires Sealed(c, frozen) && f in frozen
    ensures f < |c.heap|
  {
  }

  lemma DeeperAvoids(p: seq<Segment>, q: seq<Segment>, keys: seq<Key>)
    requires PlainPath(p) && PlainPath(q) && Root(q) == Root(p) && Below(q) == Below(p) + keys && AvoidsAlias(RefText(p))
    ensures AvoidsAlias(RefText(q))
  {
    hide AvoidsAlias, RefText, KeysOf;
    AvoidsByKeys(p);
    AvoidsByKeys(q);
  }

  /** The condition on stored values is exact: after a test item has stored an object, existing or newly
      made, every run of allowed steps leaves the frozen scopes as they are if and only if the object is
      not theirs and none of its new parts holds an object of theirs. */
  lemma StoredValuesDecide(c: Context, lab: seq<Path>, frozen: set<nat>, p: seq<Segment>, made: seq<Cell>, v: Val)
    requires Forest(c.heap, lab) && Sealed(c, frozen) && c.kind == TestItem
    requires PlainPath(p) && AvoidsAlias(RefText(p)) && Storable(c, made, v)
    requires Exec(c, Write(RefText(p), made, v)).1 == Done
    ensures var c1 := Exec(c, Write(RefText(p), made, v)).0;
            && ScopesAreDicts(c1)
            && ((forall steps | AllAllowed(c1, frozen, steps) :: SameOn(c1.heap, Run(c1, steps).heap, frozen))
                <==> HoldsNoFrozen(made, v, frozen))
  {
    hide WritePath, RefText, Assign, Coloured, AvoidsAlias, Run, AllAllowed, KeysOf, Allowed, IsReached;
    var step := Write(RefText(p), made, v);
    var c1 := Exec(c, step).0;
    WritePlainPath(c.(heap := c.heap + made), p, v);
    if HoldsNoFrozen(made, v, frozen) {
      StoringIsAllowed(c, frozen, p, made, v);
      StepKeepsFrozen(c, frozen, step);
      forall steps | AllAllowed(c1, frozen, steps)
        ensures SameOn(c1.heap, Run(c1, steps).heap, frozen)
      {
        TestItemImmutability(c1, frozen, steps, []);
      }
    } else {
      var s := FrozenIsChanged(c, lab, frozen, p, made, v);
      OneStep(c1, frozen, s);
      assert !SameOn(c1.heap, Run(c1, [s]).heap, frozen);
    }
  }

  lemma StoringIsAllowed(c: Context, frozen: set<nat>, p: seq<Segment>, made: seq<Cell>, v: Val)
    requires AvoidsAlias(RefText(p)) && Storable(c, made, v) && HoldsNoFrozen(made, v, frozen)
    ensures Allowed(c, frozen, Write(RefText(p), made, v))
  {
    hide AvoidsAlias, RefText, IsReached, SimpleKey;
  }
}
