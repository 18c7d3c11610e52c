/** What writes, removals and reads by path guarantee about one another. */
module ContextPaths {
  import opened PyText
  import opened ObjectHeap
  import opened ForestPaths
  import opened PathText
  import opened RunContexts

  /** No reference leaves the heap. */
  ghost predicate Closed(h: Heap) {
    forall a: nat, k, v :: a < |h| && Get(h, Ref(a), k) == Some(v) && v.Ref? ==> v.addr < |h|
  }

  lemma ForestIsClosed(h: Heap, lab: seq<Path>)
    requires Forest(h, lab)
    ensures Closed(h)
  {
  }

  /** `$.root.name...` where both tokenisers and the writer's default agree: the first step below
      `runEnvelope`, `global` and `local` is one of the reserved names. */
  predicate PlainPath(segments: seq<Segment>) {
    && Canonical(segments) && |segments| > 1
    && segments[0].indexes == [] && IsScopeRoot(segments[0].name)
    && (segments[0].name == "result" || ReservedName(segments[1].name))
  }

  function Root(segments: seq<Segment>): string
    requires PlainPath(segments)
  {
    segments[0].name
  }

  function Below(segments: seq<Segment>): (keys: seq<Key>)
    requires PlainPath(segments)
    ensures keys != []
  {
    KeysOf(segments[1..])
  }

  /** Where a path leads when the aliases `local.global` and `global.runEnvelope` are followed back. */
  ghost function Place(c: Context, lab: seq<Path>, segments: seq<Segment>): Path
    requires PlainPath(segments) && Forest(c.heap, lab) && ScopesAreDicts(c)
  {
    lab[ScopeAddr(c, Root(segments))] + Below(segments)
  }

  lemma StripScopeRoot(root: string)
    requires IsScopeRoot(root)
    ensures Strip(root) == root
  {
    StripKeeps(root);
  }

  lemma PlainPathKeys(segments: seq<Segment>)
    requires PlainPath(segments)
    ensures KeysOf(segments) == [Prop(Root(segments))] + Below(segments)
    ensures PathKeys(RefText(segments)) == Some(KeysOf(segments))
    ensures ContextRoot(KeysOf(segments)) == Some(Root(segments))
    ensures TargetKeys(Root(segments), KeysOf(segments)) == Below(segments)
  {
    hide KeysOf, PathKeys, RefText, Strip;
    WriterReadsCanonical(segments);
    StripScopeRoot(Root(segments));
    FirstKeys(segments);
  }

  lemma FirstKeys(segments: seq<Segment>)
    requires PlainPath(segments)
    ensures KeysOf(segments) == [Prop(Root(segments))] + Below(segments)
    ensures Below(segments)[0] == Prop(segments[1].name)
  {
    assert SegmentKeys(segments[0]) == [Prop(segments[0].name)];
    assert segments[1..][0] == segments[1];
  }

  lemma {:induction false} ResolveInExtension(h: Heap, h': Heap, v: Val, keys: seq<Key>)
    requires Closed(h) && h <= h' && (v.Ref? ==> v.addr < |h|)
    ensures Resolve(h', v, keys) == Resolve(h, v, keys)
    decreases |keys|
  {
    if keys == [] {
    } else {
      assert Get(h', v, keys[0]) == Get(h, v, keys[0]);
      if Get(h, v, keys[0]).Some? {
        ResolveInExtension(h, h', Get(h, v, keys[0]).value, keys[1..]);
      }
    }
  }

  lemma BuildScopeShape(c: Context)
    ensures var (h, scope) := BuildScope(c);
            && c.heap <= h
            && Get(h, scope, Prop("runEnvelope")) == Some(Ref(c.runEnvelope))
            && Get(h, scope, Prop("global")) == Some(Ref(c.globalScope))
            && Get(h, scope, Prop("local")) == Some(Ref(c.localScope))
            && Get(h, scope, Prop("result")) == Some(Ref(c.resultScope))
  {
  }

  /** Reading a plain path is following its keys from the scope object. */
  lemma ReadPlainPath(c: Context, segments: seq<Segment>)
    requires Closed(c.heap) && ScopesAreDicts(c) && PlainPath(segments)
    ensures ReadPath(c, RefText(segments)) ==
            match Resolve(c.heap, Ref(ScopeAddr(c, Root(segments))), Below(segments))
            case None => Missing case Some(v) => Found(v)
  {
    hide RefText, ResolveRef, BuildScope;
    var (h, scope) := BuildScope(c);
    BuildScopeShape(c);
    ResolverReadsCanonical(h, scope, segments);
    FirstKeys(segments);
    var keys := KeysOf(segments);
    assert keys[0] == Prop(Root(segments)) && keys[1..] == Below(segments);
    ResolveInExtension(c.heap, h, Ref(ScopeAddr(c, Root(segments))), Below(segments));
  }

  /** A write to a plain path, once past the guard, is an assignment below the scope object. */
  lemma WritePlainPath(c: Context, segments: seq<Segment>, value: Val)
    requires ScopesAreDicts(c) && PlainPath(segments)
    ensures WritePath(c, RefText(segments), value) ==
            if Guard(c.kind, Root(segments)).Some? then (c, Raised(Guard(c.kind, Root(segments)).value))
            else
              var w := Assign(c.heap, Ref(ScopeAddr(c, Root(segments))), Below(segments), value);
              (c.(heap := w.heap), if w.ok then Done else Raised(BadSegment))
  {
    hide KeysOf, PathKeys, RefText, Strip;
    PlainPathKeys(segments);
  }

  lemma RemovePlainPath(c: Context, segments: seq<Segment>)
    requires ScopesAreDicts(c) && PlainPath(segments)
    ensures RemovePath(c, RefText(segments)) ==
            if Guard(c.kind, Root(segments)).Some? then (c, Raised(Guard(c.kind, Root(segments)).value))
            else (c.(heap := Remove(c.heap, Ref(ScopeAddr(c, Root(segments))), Below(segments))), Done)
  {
    hide KeysOf, PathKeys, RefText, Strip;
    PlainPathKeys(segments);
  }

  lemma {:induction false} AssignKeepsShape(h: Heap, v: Val, keys: seq<Key>, value: Val)
    requires Closed(h) && (value.Ref? ==> value.addr < |h|)
    ensures Closed(Assign(h, v, keys, value).heap) && SameKinds(h, Assign(h, v, keys, value).heap)
    decreases |keys|
  {
    hide PadFor, Descend, SetKey;
    if keys == [] || !Accepts(h, v, keys[0]) {
    } else {
      if |keys| > 1 {
        DescendKeepsShape(h, v, keys[0], keys[1]);
        var h1 := Descend(h, v, keys[0], keys[1]);
        AssignKeepsShape(h1, Get(h1, v, keys[0]).value, keys[1..], value);
      } else {
        PadKeepsShape(h, v, keys[0]);
        SetKeepsShape(PadFor(h, v, keys[0]), v, keys[0], value);
      }
    }
  }

  /** Objects stay objects and lists stay lists. */
  ghost predicate SameKinds(h: Heap, h': Heap) {
    |h| <= |h'| && forall a: nat | a < |h| :: h'[a].Dict? == h[a].Dict?
  }

  lemma DescendKeepsShape(h: Heap, v: Val, k: Key, next: Key)
    requires Closed(h) && Accepts(h, v, k)
    ensures Closed(Descend(h, v, k, next)) && SameKinds(h, Descend(h, v, k, next))
  {
    hide PadFor, SetKey;
    PadKeepsShape(h, v, k);
    var h1 := PadFor(h, v, k);
    if Get(h1, v, k) in {None, Some(Null)} {
      var cell := if next.Index? then List([]) else Dict(map[]);
      ExtendKeepsShape(h1, cell);
      SetKeepsShape(h1 + [cell], v, k, Ref(|h1|));
      assert Descend(h, v, k, next) == SetKey(h1 + [cell], v, k, Ref(|h1|)) by {
        SetThenExtend(h1, v, k, Ref(|h1|), cell);
      }
    }
  }

  lemma SetThenExtend(h: Heap, v: Val, k: Key, value: Val, cell: Cell)
    requires Accepts(h, v, k) && (k.Index? ==> k.pos < |h[v.addr].items|)
    ensures SetKey(h, v, k, value) + [cell] == SetKey(h + [cell], v, k, value)
  {
  }

  lemma ExtendKeepsShape(h: Heap, cell: Cell)
    requires Closed(h) && (cell == Dict(map[]) || cell == List([]))
    ensures Closed(h + [cell]) && SameKinds(h, h + [cell])
  {
    forall a: nat, k, x | a < |h + [cell]| && Get(h + [cell], Ref(a), k) == Some(x) && x.Ref?
      ensures x.addr < |h + [cell]|
    {
      assert a < |h| && Get(h, Ref(a), k) == Some(x);
    }
  }

  lemma PadKeepsShape(h: Heap, v: Val, k: Key)
    requires Closed(h) && Accepts(h, v, k)
    ensures Closed(PadFor(h, v, k)) && SameKinds(h, PadFor(h, v, k))
  {
    if k.Index? {
      PadListKeepsClosed(h, v.addr, k.pos);
    }
  }

  lemma {:induction false} PadListKeepsClosed(h: Heap, a: nat, idx: nat)
    requires Closed(h) && a < |h| && h[a].List?
    ensures Closed(Pad(h, a, idx))
    decreases idx + 1 - |h[a].items|
  {
    if idx < |h[a].items| {
    } else {
      var h1 := h[a := List(h[a].items + [Ref(|h|)])] + [Dict(map[])];
      forall b: nat, k, v | b < |h1| && Get(h1, Ref(b), k) == Some(v) && v.Ref?
        ensures v.addr < |h1|
      {
        if b < |h| && (b != a || k.pos < |h[a].items|) {
          assert Get(h, Ref(b), k) == Some(v);
        }
      }
      PadListKeepsClosed(h1, a, idx);
    }
  }

  lemma SetKeepsShape(h: Heap, v: Val, k: Key, value: Val)
    requires Accepts(h, v, k) && (k.Index? ==> k.pos < |h[v.addr].items|) && (value.Ref? ==> value.addr < |h|)
    requires Closed(h)
    ensures Closed(SetKey(h, v, k, value)) && SameKinds(h, SetKey(h, v, k, value))
  {
    var r := SetKey(h, v, k, value);
    forall a: nat, j, x | a < |r| && Get(r, Ref(a), j) == Some(x) && x.Ref?
      ensures x.addr < |r|
    {
      if a != v.addr || j != k {
        assert Get(h, Ref(a), j) == Some(x);
      }
    }
  }

  /** Read after write, across the two tokenisers: a successful write to `$.root.constants.name...`
      is what the same path then resolves to. */
  lemma WriteThenRead(c: Context, lab: seq<Path>, p: seq<Segment>, value: Val)
    requires Forest(c.heap, lab) && ScopesAreDicts(c) && PlainPath(p) && (value.Ref? ==> value.addr < |c.heap|)
    ensures ScopesAreDicts(WritePath(c, RefText(p), value).0)
    ensures WritePath(c, RefText(p), value).1 == Done ==>
              ReadPath(WritePath(c, RefText(p), value).0, RefText(p)) == Found(value)
  {
    hide WritePath, ReadPath, RemovePath, RefText;
    WritePlainPath(c, p, value);
    ForestIsClosed(c.heap, lab);
    if Guard(c.kind, Root(p)).None? {
      var a := ScopeAddr(c, Root(p));
      AssignKeepsShape(c.heap, Ref(a), Below(p), value);
      var w := Assign(c.heap, Ref(a), Below(p), value);
      if w.ok {
        ReadAfterWrite(c.heap, lab, a, Below(p), value);
        ReadPlainPath(c.(heap := w.heap), p);
      }
    }
  }

  /** A write, failed or not, keeps every path that resolved before and whose place is comparable with
      the written place in neither direction, list padding included. */
  lemma WriteKeepsOtherReads(c: Context, lab: seq<Path>, p: seq<Segment>, value: Val, q: seq<Segment>)
    requires Forest(c.heap, lab) && ScopesAreDicts(c) && PlainPath(p) && (value.Ref? ==> value.addr < |c.heap|)
    requires PlainPath(q) && ReadPath(c, RefText(q)).Found?
    requires !Comparable(Place(c, lab, p), Place(c, lab, q))
    ensures ReadPath(WritePath(c, RefText(p), value).0, RefText(q)) == ReadPath(c, RefText(q))
  {
    hide WritePath, ReadPath, RemovePath, RefText;
    WritePlainPath(c, p, value);
    ForestIsClosed(c.heap, lab);
    ReadPlainPath(c, q);
    if Guard(c.kind, Root(p)).None? {
      var a := ScopeAddr(c, Root(p));
      AssignKeepsShape(c.heap, Ref(a), Below(p), value);
      WriteKeepsIncomparable(c.heap, lab, a, Below(p), value, ScopeAddr(c, Root(q)), Below(q));
      ReadPlainPath(c.(heap := Assign(c.heap, Ref(a), Below(p), value).heap), q);
    }
  }

  /** A removal makes exactly the named subtree missing: a path at or below the removed one is
      missing, and a path that leads elsewhere reads what it read before, found or missing. */
  lemma RemoveThenRead(c: Context, lab: seq<Path>, p: seq<Segment>, q: seq<Segment>)
    requires Forest(c.heap, lab) && ScopesAreDicts(c) && PlainPath(p) && p[|p| - 1].indexes == []
    requires Guard(c.kind, Root(p)).None? && PlainPath(q)
    ensures RemovePath(c, RefText(p)).1 == Done && ScopesAreDicts(RemovePath(c, RefText(p)).0)
    ensures Root(q) == Root(p) && Below(p) <= Below(q) ==> ReadPath(RemovePath(c, RefText(p)).0, RefText(q)) == Missing
    ensures !(Place(c, lab, p) <= Place(c, lab, q)) ==>
              ReadPath(RemovePath(c, RefText(p)).0, RefText(q)) == ReadPath(c, RefText(q))
  {
    hide WritePath, ReadPath, RemovePath, RefText, Resolve, Remove, KeysOf, Comparable;
    var a, keys := ScopeAddr(c, Root(p)), Below(p);
    RemovePlainPath(c, p);
    LastKeyIsProperty(p[1..]);
    ForestIsClosed(c.heap, lab);
    RemoveKeepsShape(c.heap, Ref(a), keys);
    ReadPlainPath(c.(heap := Remove(c.heap, Ref(a), keys)), q);
    ReadPlainPath(c, q);
    if Root(q) == Root(p) && Below(p) <= Below(q) {
      RemoveIsExact(c.heap, lab, a, keys, a, Below(q));
    }
    if !(Place(c, lab, p) <= Place(c, lab, q)) {
      RemoveIsExact(c.heap, lab, a, keys, ScopeAddr(c, Root(q)), Below(q));
    }
  }

  lemma {:induction false} LastKeyIsProperty(segments: seq<Segment>)
    requires Canonical(segments) && segments != [] && segments[|segments| - 1].indexes == []
    ensures var keys := KeysOf(segments); keys != [] && keys[|keys| - 1].Prop?
    decreases |segments|
  {
    if |segments| > 1 {
      LastKeyIsProperty(segments[1..]);
    } else {
      assert KeysOf(segments) == [Prop(segments[0].name)];
    }
  }

  lemma {:induction false} RemoveKeepsShape(h: Heap, v: Val, keys: seq<Key>)
    requires Closed(h)
    ensures Closed(Remove(h, v, keys)) && SameKinds(h, Remove(h, v, keys)) && |Remove(h, v, keys)| == |h|
    decreases |keys|
  {
    if keys == [] || Get(h, v, keys[0]).None? {
    } else {
      if |keys| == 1 {
        var r := DeleteKey(h, v, keys[0]);
        forall a: nat, k, x | a < |r| && Get(r, Ref(a), k) == Some(x) && x.Ref?
          ensures x.addr < |r|
        {
          var k' := if a != v.addr || keys[0].Prop? then k
                    else Index(if k.pos < keys[0].pos then k.pos else k.pos + 1);
          assert Get(h, Ref(a), k') == Some(x);
        }
      } else {
        RemoveKeepsShape(h, Get(h, v, keys[0]).value, keys[1..]);
      }
    }
  }
}
