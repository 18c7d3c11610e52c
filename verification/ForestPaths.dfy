/** Reading after writing, and the frame of a write, on heaps where every object has one place. */
module ForestPaths {
  import opened PyText
  import opened ObjectHeap

  type Path = seq<Key>

  /** `lab` names the place of every cell: a cell held at key `k` of cell `a` is named `lab[a] + [k]`.
      Such a heap has no sharing and no cycle below any of its cells. */
  ghost predicate Forest(h: Heap, lab: seq<Path>) {
    && |lab| == |h|
    && forall a: nat, k, v :: a < |h| && Get(h, Ref(a), k) == Some(v) && v.Ref? ==>
         v.addr < |h| && lab[v.addr] == lab[a] + [k]
  }

  predicate Comparable(p: Path, q: Path) { p <= q || q <= p }

  lemma {:induction false} PlaceOfResolved(h: Heap, lab: seq<Path>, a: nat, keys: Path)
    requires Forest(h, lab) && a < |h| && Resolve(h, Ref(a), keys).Some?
    ensures var v := Resolve(h, Ref(a), keys).value;
            v.Ref? ==> v.addr < |h| && lab[v.addr] == lab[a] + keys
    decreases |keys|
  {
    if keys == [] {
      assert lab[a] + keys == lab[a];
    } else {
      var v := Get(h, Ref(a), keys[0]).value;
      if v.Ref? {
        PlaceOfResolved(h, lab, v.addr, keys[1..]);
        assert lab[a] + [keys[0]] + keys[1..] == lab[a] + keys;
      }
    }
  }

  /** What one step of a descending write does to the forest. */
  lemma PadForForest(h: Heap, lab: seq<Path>, a: nat, k: Key) returns (lab': seq<Path>)
    requires Forest(h, lab) && Accepts(h, Ref(a), k)
    ensures Forest(PadFor(h, Ref(a), k), lab') && lab <= lab'
    ensures forall b: nat | b < |h| && b != a :: PadFor(h, Ref(a), k)[b] == h[b]
    ensures forall j, x | Get(h, Ref(a), j) == Some(x) :: Get(PadFor(h, Ref(a), k), Ref(a), j) == Some(x)
  {
    if k.Prop? {
      lab' := lab;
    } else {
      lab' := PadForest(h, lab, a, k.pos);
    }
  }

  lemma {:induction false} PadForest(h: Heap, lab: seq<Path>, a: nat, idx: nat) returns (lab': seq<Path>)
    requires Forest(h, lab) && a < |h| && h[a].List?
    ensures Forest(Pad(h, a, idx), lab') && lab <= lab'
    decreases idx + 1 - |h[a].items|
  {
    if idx < |h[a].items| {
      lab' := lab;
    } else {
      var h1 := h[a := List(h[a].items + [Ref(|h|)])] + [Dict(map[])];
      var lab1 := lab + [lab[a] + [Index(|h[a].items|)]];
      forall b: nat, k, v | b < |h1| && Get(h1, Ref(b), k) == Some(v) && v.Ref?
        ensures v.addr < |h1| && lab1[v.addr] == lab1[b] + [k]
      {
        if b < |h| && (b != a || k.pos < |h[a].items|) {
          assert Get(h, Ref(b), k) == Some(v);
        }
      }
      lab' := PadForest(h1, lab1, a, idx);
    }
  }

  lemma DescendForest(h: Heap, lab: seq<Path>, a: nat, k: Key, next: Key) returns (lab': seq<Path>)
    requires Forest(h, lab) && Accepts(h, Ref(a), k)
    ensures var r := Descend(h, Ref(a), k, next);
            && Forest(r, lab') && lab <= lab'
            && (forall b: nat | b < |h| && b != a :: r[b] == h[b])
            && (forall j, x | Get(h, Ref(a), j) == Some(x) && (j != k || x != Null) :: Get(r, Ref(a), j) == Some(x))
  {
    var h1 := PadFor(h, Ref(a), k);
    lab' := PadForForest(h, lab, a, k);
    if Get(h1, Ref(a), k) in {None, Some(Null)} {
      var lab1 := lab';
      lab' := lab1 + [lab1[a] + [k]];
      var r := Descend(h, Ref(a), k, next);
      var set1 := SetKey(h1, Ref(a), k, Ref(|h1|));
      assert r == set1 + [if next.Index? then List([]) else Dict(map[])];
      forall b: nat, j, v | b < |r| && Get(r, Ref(b), j) == Some(v) && v.Ref?
        ensures v.addr < |r| && lab'[v.addr] == lab'[b] + [j]
      {
        if b < |h1| && !(b == a && j == k) {
          assert Get(set1, Ref(b), j) == Some(v);
          assert Get(h1, Ref(b), j) == Some(v);
        } else if b < |h1| {
          assert Get(set1, Ref(a), k) == Some(Ref(|h1|));
        }
      }
    }
  }

  /** Frame of a write, successful or not: an entry that held `x` before still does unless it is the
      written place itself, or a null on the way to it. */
  lemma {:induction false} AssignKeepsEntry(h: Heap, lab: seq<Path>, a: nat, keys: Path, value: Val, b: nat, k: Key, x: Val)
    requires Forest(h, lab) && a < |h| && b < |h| && Get(h, Ref(b), k) == Some(x)
    requires lab[b] + [k] != lab[a] + keys
    requires x != Null || !(lab[b] + [k] <= lab[a] + keys)
    ensures Get(Assign(h, Ref(a), keys, value).heap, Ref(b), k) == Some(x)
    decreases |keys|
  {
    hide Descend, SetKey, PadFor;
    if keys == [] || !Accepts(h, Ref(a), keys[0]) {
    } else {
      if |keys| == 1 {
        var _ := PadForForest(h, lab, a, keys[0]);
        assert keys == [keys[0]];
      } else {
        var h1 := Descend(h, Ref(a), keys[0], keys[1]);
        var lab1 := DescendForest(h, lab, a, keys[0], keys[1]);
        assert lab[a] + [keys[0]] + keys[1..] == lab[a] + keys;
        if b == a && k == keys[0] {
          assert lab[b] + [k] <= lab[a] + keys;
        }
        assert Get(h1, Ref(b), k) == Some(x);
        var c := Get(h1, Ref(a), keys[0]).value;
        if c.Ref? {
          AssignKeepsEntry(h1, lab1, c.addr, keys[1..], value, b, k, x);
        }
      }
    }
  }

  /** A write leaves alone every cell whose place is not on the written path. */
  lemma {:induction false} AssignKeepsCell(h: Heap, lab: seq<Path>, a: nat, keys: Path, value: Val, b: nat)
    requires Forest(h, lab) && a < |h| && b < |h|
    requires forall i | 0 <= i < |keys| :: lab[b] != lab[a] + keys[..i]
    ensures b < |Assign(h, Ref(a), keys, value).heap| && Assign(h, Ref(a), keys, value).heap[b] == h[b]
    decreases |keys|
  {
    hide Descend, SetKey, PadFor;
    if keys == [] || !Accepts(h, Ref(a), keys[0]) {
    } else {
      assert lab[a] + keys[..0] == lab[a];
      if |keys| > 1 {
        var h1 := Descend(h, Ref(a), keys[0], keys[1]);
        var lab1 := DescendForest(h, lab, a, keys[0], keys[1]);
        var c := Get(h1, Ref(a), keys[0]).value;
        if c.Ref? {
          forall i | 0 <= i < |keys[1..]|
            ensures lab1[b] != lab1[c.addr] + keys[1..][..i]
          {
            assert lab[a] + [keys[0]] + keys[1..][..i] == lab[a] + keys[..i + 1];
          }
          AssignKeepsCell(h1, lab1, c.addr, keys[1..], value, b);
        }
      } else {
        var _ := PadForForest(h, lab, a, keys[0]);
      }
    }
  }

  /** Reading a path after a successful write to it gives the written value. */
  lemma {:induction false} ReadAfterWrite(h: Heap, lab: seq<Path>, a: nat, keys: Path, value: Val)
    requires Forest(h, lab) && a < |h| && Assign(h, Ref(a), keys, value).ok
    ensures Resolve(Assign(h, Ref(a), keys, value).heap, Ref(a), keys) == Some(value)
    decreases |keys|
  {
    hide Descend, SetKey, PadFor;
    if |keys| == 1 {
      var _ := PadForForest(h, lab, a, keys[0]);
    } else {
      var h1 := Descend(h, Ref(a), keys[0], keys[1]);
      var lab1 := DescendForest(h, lab, a, keys[0], keys[1]);
      var c := Get(h1, Ref(a), keys[0]).value;
      if c.Ref? {
        ReadAfterWrite(h1, lab1, c.addr, keys[1..], value);
        assert |lab1[a] + [keys[0]]| < |lab1[c.addr] + keys[1..]|;
        AssignKeepsEntry(h1, lab1, c.addr, keys[1..], value, a, keys[0], c);
      }
    }
  }

  /** A path that resolved before the write, and is comparable with the written place in neither
      direction, resolves to the same value after it, even when the write fails halfway. */
  lemma {:induction false} WriteKeepsIncomparable(h: Heap, lab: seq<Path>, a: nat, keys: Path, value: Val, r: nat, q: Path)
    requires Forest(h, lab) && a < |h| && r < |h| && Resolve(h, Ref(r), q).Some?
    requires !Comparable(lab[a] + keys, lab[r] + q)
    ensures Resolve(Assign(h, Ref(a), keys, value).heap, Ref(r), q) == Resolve(h, Ref(r), q)
    decreases |q|
  {
    if q == [] {
    } else {
      var x := Get(h, Ref(r), q[0]).value;
      assert lab[r] + [q[0]] + q[1..] == lab[r] + q;
      if |q| > 1 {
        assert x.Ref?;
        AssignKeepsEntry(h, lab, a, keys, value, r, q[0], x);
        WriteKeepsIncomparable(h, lab, a, keys, value, x.addr, q[1..]);
      } else {
        assert q == [q[0]];
        AssignKeepsEntry(h, lab, a, keys, value, r, q[0], x);
      }
    }
  }

  /** Removing a property never touches another entry. */
  lemma {:induction false} RemoveKeepsEntry(h: Heap, lab: seq<Path>, a: nat, keys: Path, b: nat, k: Key)
    requires Forest(h, lab) && a < |h| && b < |h|
    requires keys != [] ==> keys[|keys| - 1].Prop?
    requires lab[b] + [k] != lab[a] + keys
    ensures |Remove(h, Ref(a), keys)| == |h|
    ensures Get(Remove(h, Ref(a), keys), Ref(b), k) == Get(h, Ref(b), k)
    decreases |keys|
  {
    if keys == [] || Get(h, Ref(a), keys[0]).None? {
    } else {
      if |keys| == 1 {
        assert keys == [keys[0]];
      } else {
        var c := Get(h, Ref(a), keys[0]).value;
        if c.Ref? {
          assert lab[a] + [keys[0]] + keys[1..] == lab[a] + keys;
          RemoveKeepsEntry(h, lab, c.addr, keys[1..], b, k);
        }
      }
    }
  }

  /** Removing a property path makes exactly that subtree missing: the path and everything below it
      are missing, and every other path reads what it read, found or missing. */
  lemma {:induction false} RemoveIsExact(h: Heap, lab: seq<Path>, a: nat, keys: Path, r: nat, q: Path)
    requires Forest(h, lab) && a < |h| && r < |h|
    requires keys != [] && keys[|keys| - 1].Prop?
    ensures keys <= q ==> Resolve(Remove(h, Ref(a), keys), Ref(a), q) == None
    ensures !(lab[a] + keys <= lab[r] + q) ==>
              Resolve(Remove(h, Ref(a), keys), Ref(r), q) == Resolve(h, Ref(r), q)
  {
    if keys <= q {
      RemovedIsMissing(h, lab, a, keys, q);
    }
    if !(lab[a] + keys <= lab[r] + q) {
      RemoveKeepsOthers(h, lab, a, keys, r, q);
    }
  }

  lemma {:induction false} RemovedIsMissing(h: Heap, lab: seq<Path>, a: nat, keys: Path, q: Path)
    requires Forest(h, lab) && a < |h| && keys != [] && keys[|keys| - 1].Prop? && keys <= q
    ensures Resolve(Remove(h, Ref(a), keys), Ref(a), q) == None
    decreases |keys|
  {
    if Get(h, Ref(a), keys[0]).None? || |keys| <= 1 {
    } else {
      var c := Get(h, Ref(a), keys[0]).value;
      assert lab[a] + keys == lab[a] + [keys[0]] + keys[1..];
      RemoveKeepsEntry(h, lab, a, keys, a, keys[0]);
      if c.Ref? {
        RemovedIsMissing(h, lab, c.addr, keys[1..], q[1..]);
      }
    }
  }

  lemma {:induction false} RemoveKeepsOthers(h: Heap, lab: seq<Path>, a: nat, keys: Path, r: nat, q: Path)
    requires Forest(h, lab) && a < |h| && r < |h| && keys != [] && keys[|keys| - 1].Prop?
    requires !(lab[a] + keys <= lab[r] + q)
    ensures Resolve(Remove(h, Ref(a), keys), Ref(r), q) == Resolve(h, Ref(r), q)
    decreases |q|
  {
    if q == [] {
    } else {
      assert lab[r] + q == lab[r] + [q[0]] + q[1..];
      RemoveKeepsEntry(h, lab, a, keys, r, q[0]);
      if Get(h, Ref(r), q[0]).Some? {
        var x := Get(h, Ref(r), q[0]).value;
        if x.Ref? {
          RemoveKeepsOthers(h, lab, a, keys, x.addr, q[1..]);
        }
      }
    }
  }

  /** A write keeps the heap a forest when the written object is named after the place it goes to. */
  lemma {:induction false} AssignKeepsForest(h: Heap, lab: seq<Path>, a: nat, keys: Path, value: Val) returns (lab': seq<Path>)
    requires Forest(h, lab) && a < |h|
    requires value.Ref? ==> value.addr < |h| && lab[value.addr] == lab[a] + keys
    ensures Forest(Assign(h, Ref(a), keys, value).heap, lab') && lab <= lab'
    decreases |keys|
  {
    hide Descend, SetKey, PadFor;
    lab' := lab;
    if keys == [] || !Accepts(h, Ref(a), keys[0]) {
    } else {
      if |keys| == 1 {
        lab' := PadForForest(h, lab, a, keys[0]);
        assert keys == [keys[0]];
        SetKeepsForest(PadFor(h, Ref(a), keys[0]), lab', a, keys[0], value);
      } else {
        var h1 := Descend(h, Ref(a), keys[0], keys[1]);
        lab' := DescendForest(h, lab, a, keys[0], keys[1]);
        assert lab[a] + [keys[0]] + keys[1..] == lab[a] + keys;
        var c := Get(h1, Ref(a), keys[0]).value;
        if c.Ref? {
          lab' := AssignKeepsForest(h1, lab', c.addr, keys[1..], value);
        }
      }
    }
  }

  lemma SetKeepsForest(h: Heap, lab: seq<Path>, a: nat, k: Key, value: Val)
    requires Forest(h, lab) && Accepts(h, Ref(a), k) && (k.Index? ==> k.pos < |h[a].items|)
    requires value.Ref? ==> value.addr < |h| && lab[value.addr] == lab[a] + [k]
    ensures Forest(SetKey(h, Ref(a), k, value), lab)
  {
    hide SetKey;
    var r := SetKey(h, Ref(a), k, value);
    forall b: nat, j, v | b < |r| && Get(r, Ref(b), j) == Some(v) && v.Ref?
      ensures v.addr < |r| && lab[v.addr] == lab[b] + [j]
    {
      if b != a || j != k {
        assert Get(h, Ref(b), j) == Some(v);
      }
    }
  }

  /** Removing a property keeps the forest, names and all. */
  lemma {:induction false} RemoveKeepsForest(h: Heap, lab: seq<Path>, a: nat, keys: Path)
    requires Forest(h, lab) && a < |h| && keys != [] && keys[|keys| - 1].Prop?
    ensures Forest(Remove(h, Ref(a), keys), lab)
    decreases |keys|
  {
    hide DeleteKey;
    if Get(h, Ref(a), keys[0]).None? {
    } else {
      if |keys| == 1 {
        var r := DeleteKey(h, Ref(a), keys[0]);
        forall b: nat, j, v | b < |r| && Get(r, Ref(b), j) == Some(v) && v.Ref?
          ensures v.addr < |r| && lab[v.addr] == lab[b] + [j]
        {
          assert Get(h, Ref(b), j) == Some(v);
        }
      } else {
        var c := Get(h, Ref(a), keys[0]).value;
        if c.Ref? {
          RemoveKeepsForest(h, lab, c.addr, keys[1..]);
        }
      }
    }
  }
}
