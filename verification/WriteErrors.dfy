/** When a write through the run context succeeds: what the path meets must be of the kind that the next
    key asks for, or missing. */
module WriteErrors {
  import opened PyText
  import opened ObjectHeap
  import opened PathText
  import opened RunContexts
  import opened ContextPaths

  /** The `i`-th key can be followed. A container of the right kind is there; or a null, or nothing, and one
      is made. What is made to fill up a list is always a dictionary, so a second position right after a
      missing one cannot be followed. */
  predicate StepFits(h: Heap, v: Val, keys: seq<Key>, i: nat)
    requires i < |keys|
  {
    match Resolve(h, v, keys[..i])
    case None => i > 0 && !(keys[i - 1].Index? && keys[i].Index?)
    case Some(x) => if x.Null? && i > 0 then true else Accepts(h, x, keys[i])
  }

  ghost predicate PathFits(h: Heap, v: Val, keys: seq<Key>) {
    keys != [] && forall i | 0 <= i < |keys| :: StepFits(h, v, keys, i)
  }

  /** No position follows a position. */
  predicate NoDoublePositions(keys: seq<Key>) { forall i | 0 < i < |keys| :: !(keys[i - 1].Index? && keys[i].Index?) }

  lemma DoubleInRest(keys: seq<Key>)
    requires |keys| > 1
    ensures NoDoublePositions(keys) <==> !(keys[0].Index? && keys[1].Index?) && NoDoublePositions(keys[1..])
  {
    var rest := keys[1..];
    assert forall i | 0 < i < |rest| :: rest[i - 1] == keys[i] && rest[i] == keys[i + 1];
    if NoDoublePositions(rest) && !(keys[0].Index? && keys[1].Index?) {
      forall i | 0 < i < |keys|
        ensures !(keys[i - 1].Index? && keys[i].Index?)
      {
        if i > 1 {
          assert rest[i - 2] == keys[i - 1] && rest[i - 1] == keys[i];
        }
      }
    }
  }

  /** Below a new empty container of the right kind. */
  lemma {:induction false} FreshAssign(h: Heap, v: Val, keys: seq<Key>, value: Val)
    requires keys != [] && Accepts(h, v, keys[0]) && (h[v.addr] == Dict(map[]) || h[v.addr] == List([]))
    ensures Assign(h, v, keys, value).ok <==> NoDoublePositions(keys)
    decreases |keys|
  {
    hide SetKey, Pad;
    if |keys| == 1 {
    } else {
      var k, rest := keys[0], keys[1..];
      var h1 := Descend(h, v, k, rest[0]);
      DoubleInRest(keys);
      FreshDescend(h, v, k, rest[0]);
      if !(k.Index? && rest[0].Index?) {
        FreshAssign(h1, Get(h1, v, k).value, rest, value);
      }
    }
  }

  /** What is made below such a container: a dictionary in a list, and otherwise what the next key asks for. */
  lemma FreshDescend(h: Heap, v: Val, k: Key, next: Key)
    requires Accepts(h, v, k) && (h[v.addr] == Dict(map[]) || h[v.addr] == List([]))
    ensures var h1 := Descend(h, v, k, next);
            var c := Get(h1, v, k).value;
            && c.Ref? && c.addr < |h1|
            && h1[c.addr] == if next.Index? && k.Prop? then List([]) else Dict(map[])
  {
    hide SetKey, Pad;
    if k.Index? {
      PaddedIsDict(h, v.addr, k.pos);
    }
  }

  /** The positions that padding adds hold new dictionaries. */
  lemma {:induction false} PaddedIsDict(h: Heap, a: nat, idx: nat)
    requires a < |h| && h[a].List? && |h[a].items| <= idx
    ensures var r := Pad(h, a, idx);
            var c := r[a].items[idx];
            c.Ref? && |h| <= c.addr < |r| && r[c.addr] == Dict(map[])
    decreases idx - |h[a].items|
  {
    var h1 := h[a := List(h[a].items + [Ref(|h|)])] + [Dict(map[])];
    if idx < |h1[a].items| {
      assert Pad(h1, a, idx) == h1;
    } else {
      PaddedIsDict(h1, a, idx);
    }
  }

  lemma StepOfRest(h: Heap, v: Val, keys: seq<Key>, x: Val, i: nat)
    requires 0 < i < |keys| && Get(h, v, keys[0]) == Some(x) && !x.Null?
    ensures StepFits(h, v, keys, i) <==> StepFits(h, x, keys[1..], i - 1)
  {
    assert keys[..i][0] == keys[0] && keys[..i][1..] == keys[1..][..i - 1];
    assert keys[1..][i - 1] == keys[i] && (i > 1 ==> keys[1..][i - 2] == keys[i - 1]);
    assert Resolve(h, v, keys[..i]) == Resolve(h, x, keys[1..][..i - 1]);
    if i == 1 {
      assert keys[1..][..0] == [];
    }
  }

  lemma NothingBelow(h: Heap, v: Val, keys: seq<Key>, i: nat)
    requires 1 < i < |keys| && Get(h, v, keys[0]) in {None, Some(Null)}
    ensures Resolve(h, v, keys[..i]).None?
  {
    assert keys[..i][0] == keys[0] && keys[..i][1..][0] == keys[1];
  }

  lemma FirstStep(h: Heap, v: Val, keys: seq<Key>)
    requires keys != []
    ensures StepFits(h, v, keys, 0) <==> Accepts(h, v, keys[0])
    ensures |keys| > 1 && Get(h, v, keys[0]).None? ==> (StepFits(h, v, keys, 1) <==> !(keys[0].Index? && keys[1].Index?))
    ensures |keys| > 1 && Get(h, v, keys[0]) == Some(Null) ==> StepFits(h, v, keys, 1)
  {
    assert keys[..0] == [];
    if |keys| > 1 {
      assert keys[..1] == [keys[0]] && [keys[0]][1..] == [];
      assert Get(h, v, keys[0]).Some? ==> Resolve(h, Get(h, v, keys[0]).value, []) == Get(h, v, keys[0]);
      assert Resolve(h, v, [keys[0]]) == Get(h, v, keys[0]);
    }
  }

  /** A write succeeds exactly when its path fits what is there. */
  lemma {:induction false} WriteSucceedsExactly(h: Heap, v: Val, keys: seq<Key>, value: Val)
    ensures Assign(h, v, keys, value).ok <==> PathFits(h, v, keys)
    decreases |keys|
  {
    hide StepFits, Descend, PadFor, SetKey;
    if keys == [] {
    } else {
      FirstStep(h, v, keys);
      if !Accepts(h, v, keys[0]) || |keys| == 1 {
      } else {
        var found := Get(h, v, keys[0]);
        if found in {None, Some(Null)} {
          MadeBelow(h, v, keys, value);
        } else {
          var x, rest := found.value, keys[1..];
          FoundBelow(h, v, keys[0], keys[1]);
          WriteSucceedsExactly(h, x, rest, value);
          forall i: nat | 0 < i < |keys|
            ensures StepFits(h, v, keys, i) <==> StepFits(h, x, rest, i - 1)
          {
            StepOfRest(h, v, keys, x, i);
          }
          if PathFits(h, v, keys) {
            forall i | 0 <= i < |rest|
              ensures StepFits(h, x, rest, i)
            {
              assert StepFits(h, v, keys, i + 1);
            }
          }
        }
      }
    }
  }

  lemma FoundBelow(h: Heap, v: Val, k: Key, next: Key)
    requires Accepts(h, v, k) && Get(h, v, k) !in {None, Some(Null)}
    ensures Descend(h, v, k, next) == h
  {
  }

  /** Where nothing is there, or null, the rest of the path is made. */
  lemma MadeBelow(h: Heap, v: Val, keys: seq<Key>, value: Val)
    requires |keys| > 1 && Accepts(h, v, keys[0]) && Get(h, v, keys[0]) in {None, Some(Null)}
    ensures Assign(h, v, keys, value).ok <==> PathFits(h, v, keys)
  {
    hide StepFits, SetKey, Pad;
    var k, rest := keys[0], keys[1..];
    var h1 := Descend(h, v, k, rest[0]);
    var c := Get(h1, v, k).value;
    FirstStep(h, v, keys);
    MadeContainer(h, v, k, rest[0]);
    forall i | 1 < i < |keys|
      ensures StepFits(h, v, keys, i) <==> !(keys[i - 1].Index? && keys[i].Index?)
    {
      NothingBelow(h, v, keys, i);
      StepIntoNothing(h, v, keys, i);
    }
    assert NoDoublePositions(rest) <==> forall i | 1 < i < |keys| :: StepFits(h, v, keys, i) by {
      assert forall i | 0 < i < |rest| :: rest[i - 1] == keys[i] && rest[i] == keys[i + 1];
      if NoDoublePositions(rest) {
        forall i | 1 < i < |keys|
          ensures StepFits(h, v, keys, i)
        {
          assert keys[i - 1] == rest[i - 2] && keys[i] == rest[i - 1];
        }
      }
      if forall i | 1 < i < |keys| :: StepFits(h, v, keys, i) {
        forall i | 0 < i < |rest|
          ensures !(rest[i - 1].Index? && rest[i].Index?)
        {
          assert StepFits(h, v, keys, i + 1);
        }
      }
    }
    assert PathFits(h, v, keys) <==> StepFits(h, v, keys, 1) && NoDoublePositions(rest);
    if Accepts(h1, c, rest[0]) {
      FreshAssign(h1, c, rest, value);
    }
  }

  lemma StepIntoNothing(h: Heap, v: Val, keys: seq<Key>, i: nat)
    requires 0 < i < |keys| && Resolve(h, v, keys[..i]).None?
    ensures StepFits(h, v, keys, i) <==> !(keys[i - 1].Index? && keys[i].Index?)
  {
  }

  lemma MadeContainer(h: Heap, v: Val, k: Key, next: Key)
    requires Accepts(h, v, k) && Get(h, v, k) in {None, Some(Null)}
    ensures var h1 := Descend(h, v, k, next);
            var c := Get(h1, v, k).value;
            && c.Ref? && c.addr < |h1| && (h1[c.addr] == Dict(map[]) || h1[c.addr] == List([]))
            && (Accepts(h1, c, next) <==> Get(h, v, k) == Some(Null) || !(k.Index? && next.Index?))
  {
    hide SetKey, Pad;
    if k.Index? && Get(h, v, k).None? {
      PaddedIsDict(h, v.addr, k.pos);
    } else if k.Index? {
      assert PadFor(h, v, k) == h by {
        NotPadded(h, v.addr, k.pos);
      }
    }
  }

  lemma NotPadded(h: Heap, a: nat, idx: nat)
    requires a < |h| && h[a].List? && idx < |h[a].items|
    ensures Pad(h, a, idx) == h
  {
  }

  /** A write to a canonical path succeeds exactly when its scope may be written and the path fits what the
      scope object holds; otherwise it raises the error of the guard, or of a segment that does not fit. */
  lemma WriteIsDoneExactly(c: Context, p: seq<Segment>, value: Val)
    requires ScopesAreDicts(c) && PlainPath(p)
    ensures var outcome := WritePath(c, RefText(p), value).1;
            outcome ==
            if c.kind.TestItem? && Root(p) == "global" then Raised(GlobalImmutable)
            else if c.kind.TestItem? && Root(p) == "runEnvelope" then Raised(EnvelopeImmutable)
            else if PathFits(c.heap, Ref(ScopeAddr(c, Root(p))), Below(p)) then Done
            else Raised(BadSegment)
  {
    hide WritePath, RefText, Assign, PathFits;
    WritePlainPath(c, p, value);
    WriteSucceedsExactly(c.heap, Ref(ScopeAddr(c, Root(p))), Below(p), value);
  }

  // ---- removals and whole scopes ----------------------------------------------------------------

  lemma {:induction false} RemoveAt(h: Heap, t: Val, keys: seq<Key>, v: Val, k: Key)
    requires Resolve(h, t, keys) == Some(v) && Get(h, v, k).Some?
    ensures Remove(h, t, keys + [k]) == DeleteKey(h, v, k)
    decreases |keys|
  {
    hide DeleteKey;
    if keys == [] {
      assert [] + [k] == [k];
    } else {
      assert (keys + [k])[0] == keys[0] && (keys + [k])[1..] == keys[1..] + [k];
      RemoveAt(h, Get(h, t, keys[0]).value, keys[1..], v, k);
    }
  }

  /** Removing a position of a list moves the later items up, and removing a name takes it out of its
      dictionary; nothing else changes. */
  lemma RemovalIsExact(h: Heap, t: Val, keys: seq<Key>, v: Val, k: Key)
    requires Resolve(h, t, keys) == Some(v) && Get(h, v, k).Some?
    ensures v.Ref? && v.addr < |h|
    ensures Remove(h, t, keys + [k]) ==
            h[v.addr := match k
                        case Prop(name) => Dict(h[v.addr].entries - {name})
                        case Index(pos) => List(h[v.addr].items[..pos] + h[v.addr].items[pos + 1..])]
  {
    RemoveAt(h, t, keys, v, k);
  }

  /** A write to a scope itself replaces its entries by those of the value, an object; a scope written to
      itself is emptied. */
  lemma WholeScopeIsReplaced(c: Context, root: string, value: Val)
    requires ScopesAreDicts(c) && IsScopeRoot(root)
    ensures var (c', outcome) := WriteKeys(c, root, [], value);
            if IsDict(c.heap, value) then
              && outcome == Done
              && c'.heap == c.heap[ScopeAddr(c, root) := if value == Ref(ScopeAddr(c, root)) then Dict(map[]) else c.heap[value.addr]]
            else c' == c && outcome == Raised(RootNeedsObject)
  {
  }
}
