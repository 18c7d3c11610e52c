/** While a test item runs, the contents of the global scope and of the run envelope do not change,
    as long as no path steps through the alias `local.global`. */
module ItemImmutability {
  import opened PyText
  import opened ObjectHeap
  import opened PathText
  import opened RunContexts
  import opened ContextPaths

  /** `frozen` is closed under containment, and is entered from outside only by `local.global`; no
      object holds the local scope itself. */
  ghost predicate Coloured(h: Heap, local: nat, frozen: set<nat>) {
    && local < |h| && local !in frozen && Closed(h)
    && (forall a <- frozen :: a < |h|)
    && forall a: nat, k, v :: a < |h| && Get(h, Ref(a), k) == Some(v) && v.Ref? ==>
         && v.addr != local
         && (a in frozen ==> v.addr in frozen)
         && (a !in frozen && !(a == local && k == Prop("global")) ==> v.addr !in frozen)
  }

  ghost predicate Sealed(c: Context, frozen: set<nat>) {
    && ScopesAreDicts(c) && Coloured(c.heap, c.localScope, frozen)
    && c.globalScope in frozen && c.runEnvelope in frozen && c.resultScope !in frozen
    && c.resultScope != c.localScope
  }

  /** A value that a command may store: nothing of the frozen scopes, and not the local scope. */
  ghost predicate Free(h: Heap, local: nat, frozen: set<nat>, v: Val) {
    v.Ref? ==> v.addr < |h| && v.addr !in frozen && v.addr != local
  }

  ghost predicate SameOn(h: Heap, h': Heap, frozen: set<nat>) {
    |h| <= |h'| && forall a: nat | a in frozen && a < |h| :: h'[a] == h[a]
  }

  lemma SetKeepsColours(h: Heap, local: nat, frozen: set<nat>, v: Val, k: Key, value: Val)
    requires Coloured(h, local, frozen) && Accepts(h, v, k) && (k.Index? ==> k.pos < |h[v.addr].items|)
    requires v.addr !in frozen && Free(h, local, frozen, value)
    ensures Coloured(SetKey(h, v, k, value), local, frozen) && SameOn(h, SetKey(h, v, k, value), frozen)
  {
    hide SetKey;
    var r := SetKey(h, v, k, value);
    forall a: nat, j, x | a < |r| && Get(r, Ref(a), j) == Some(x) && x.Ref?
      ensures x.addr < |r| && x.addr != local && (a in frozen ==> x.addr in frozen)
      ensures a !in frozen && !(a == local && j == Prop("global")) ==> x.addr !in frozen
    {
      if a != v.addr || j != k {
        assert Get(h, Ref(a), j) == Some(x);
      }
    }
  }

  lemma ExtendKeepsColours(h: Heap, local: nat, frozen: set<nat>, cells: seq<Cell>)
    requires Coloured(h, local, frozen)
    requires forall i: nat, k, v :: i < |cells| && GetCell(cells[i], k) == Some(v) ==> Free(h + cells, local, frozen, v)
    ensures Coloured(h + cells, local, frozen) && SameOn(h, h + cells, frozen)
  {
    var r := h + cells;
    forall a: nat, j, x | a < |r| && Get(r, Ref(a), j) == Some(x) && x.Ref?
      ensures x.addr < |r| && x.addr != local && (a in frozen ==> x.addr in frozen)
      ensures a !in frozen && !(a == local && j == Prop("global")) ==> x.addr !in frozen
    {
      if a < |h| {
        assert Get(h, Ref(a), j) == Some(x);
      } else {
        assert GetCell(cells[a - |h|], j) == Some(x);
      }
    }
  }

  lemma {:induction false} PadKeepsColours(h: Heap, local: nat, frozen: set<nat>, a: nat, idx: nat)
    requires Coloured(h, local, frozen) && a < |h| && h[a].List? && a !in frozen
    ensures Coloured(Pad(h, a, idx), local, frozen) && SameOn(h, Pad(h, a, idx), frozen)
    decreases idx + 1 - |h[a].items|
  {
    if idx < |h[a].items| {
    } else {
      var items := h[a].items;
      var h1 := h + [Dict(map[])];
      var h2 := h1[a := List(items + [Ref(|h|)])];
      ExtendKeepsColours(h, local, frozen, [Dict(map[])]);
      assert h2 == h[a := List(items + [Ref(|h|)])] + [Dict(map[])];
      forall b: nat, j, x | b < |h2| && Get(h2, Ref(b), j) == Some(x) && x.Ref?
        ensures x.addr < |h2| && x.addr != local && (b in frozen ==> x.addr in frozen)
        ensures b !in frozen && !(b == local && j == Prop("global")) ==> x.addr !in frozen
      {
        if b != a || j.pos < |items| {
          assert Get(h1, Ref(b), j) == Some(x);
        }
      }
      PadKeepsColours(h2, local, frozen, a, idx);
    }
  }

  lemma DescendKeepsColours(h: Heap, local: nat, frozen: set<nat>, v: Val, k: Key, next: Key)
    requires Coloured(h, local, frozen) && Accepts(h, v, k) && v.addr !in frozen
    ensures Coloured(Descend(h, v, k, next), local, frozen) && SameOn(h, Descend(h, v, k, next), frozen)
  {
    hide SetKey, Pad;
    if k.Index? {
      PadKeepsColours(h, local, frozen, v.addr, k.pos);
    }
    var h1 := PadFor(h, v, k);
    if Get(h1, v, k) in {None, Some(Null)} {
      var cell := if next.Index? then List([]) else Dict(map[]);
      ExtendKeepsColours(h1, local, frozen, [cell]);
      SetKeepsColours(h1 + [cell], local, frozen, v, k, Ref(|h1|));
      SetThenExtend(h1, v, k, Ref(|h1|), cell);
    }
  }

  lemma {:induction false} AssignKeepsColours(h: Heap, local: nat, frozen: set<nat>, v: Val, keys: seq<Key>, value: Val)
    requires Coloured(h, local, frozen) && Free(h, local, frozen, value)
    requires v.Ref? ==> v.addr < |h| && v.addr !in frozen
    requires v == Ref(local) && keys != [] ==> keys[0] != Prop("global")
    ensures Coloured(Assign(h, v, keys, value).heap, local, frozen)
    ensures SameOn(h, Assign(h, v, keys, value).heap, frozen)
    decreases |keys|
  {
    hide SetKey, Descend, PadFor, Coloured;
    if keys == [] || !Accepts(h, v, keys[0]) {
    } else {
      if |keys| > 1 {
        var h1 := Descend(h, v, keys[0], keys[1]);
        DescendKeepsColours(h, local, frozen, v, keys[0], keys[1]);
        StepStaysFree(h1, local, frozen, v, keys[0]);
        AssignKeepsColours(h1, local, frozen, Get(h1, v, keys[0]).value, keys[1..], value);
      } else {
        PadForKeepsColours(h, local, frozen, v, keys[0]);
        SetKeepsColours(PadFor(h, v, keys[0]), local, frozen, v, keys[0], value);
      }
    }
  }

  lemma PadForKeepsColours(h: Heap, local: nat, frozen: set<nat>, v: Val, k: Key)
    requires Coloured(h, local, frozen) && Accepts(h, v, k) && v.addr !in frozen
    ensures Coloured(PadFor(h, v, k), local, frozen) && SameOn(h, PadFor(h, v, k), frozen)
  {
    hide Pad;
    if k.Index? {
      PadKeepsColours(h, local, frozen, v.addr, k.pos);
    }
  }

  lemma StepStaysFree(h: Heap, local: nat, frozen: set<nat>, v: Val, k: Key)
    requires Coloured(h, local, frozen) && v.Ref? && v.addr !in frozen && Get(h, v, k).Some?
    requires !(v == Ref(local) && k == Prop("global"))
    ensures Free(h, local, frozen, Get(h, v, k).value)
  {
  }

  lemma {:induction false} RemoveKeepsColours(h: Heap, local: nat, frozen: set<nat>, v: Val, keys: seq<Key>)
    requires Coloured(h, local, frozen)
    requires v.Ref? ==> v.addr < |h| && v.addr !in frozen
    requires v == Ref(local) && keys != [] ==> keys[0] != Prop("global")
    ensures Coloured(Remove(h, v, keys), local, frozen) && SameOn(h, Remove(h, v, keys), frozen)
    decreases |keys|
  {
    hide DeleteKey, Coloured;
    if keys == [] || Get(h, v, keys[0]).None? {
    } else {
      if |keys| > 1 {
        StepStaysFree(h, local, frozen, v, keys[0]);
        RemoveKeepsColours(h, local, frozen, Get(h, v, keys[0]).value, keys[1..]);
      } else {
        DeleteKeepsColours(h, local, frozen, v, keys[0]);
      }
    }
  }

  lemma DeleteKeepsColours(h: Heap, local: nat, frozen: set<nat>, v: Val, k: Key)
    requires Coloured(h, local, frozen) && Get(h, v, k).Some? && v.addr !in frozen
    ensures Coloured(DeleteKey(h, v, k), local, frozen) && SameOn(h, DeleteKey(h, v, k), frozen)
  {
    hide DeleteKey;
    var r := DeleteKey(h, v, k);
    forall a: nat, j, x | a < |r| && Get(r, Ref(a), j) == Some(x) && x.Ref?
      ensures x.addr < |r| && x.addr != local && (a in frozen ==> x.addr in frozen)
      ensures a !in frozen && !(a == local && j == Prop("global")) ==> x.addr !in frozen
    {
      assert j == if j.Prop? then Prop(j.name) else Index(j.pos);
      var j' := if a != v.addr || k.Prop? || j.Prop? then j else Index(if j.pos < k.pos then j.pos else j.pos + 1);
      assert Get(h, Ref(a), j') == Some(x);
    }
  }

  // ---- runs of a test item ----------------------------------------------------------------------

  /** One step of a test item: a write of newly made or free objects, or a removal. */
  datatype Step = Write(path: string, made: seq<Cell>, value: Val) | Delete(path: string)

  function Exec(c: Context, s: Step): (Context, Outcome)
    requires ScopesAreDicts(c)
  {
    match s
    case Write(path, made, value) => WritePath(c.(heap := c.heap + made), path, value)
    case Delete(path) => RemovePath(c, path)
  }

  /** The path does not step from the local scope into its `global` entry. */
  predicate AvoidsAlias(path: string) {
    var keys := PathKeys(path);
    keys.Some? && ContextRoot(keys.value) == Some("local") ==>
      var below := TargetKeys("local", keys.value);
      below == [] || below[0] != Prop("global")
  }

  ghost predicate Allowed(c: Context, frozen: set<nat>, s: Step) {
    && AvoidsAlias(s.path)
    && (s.Write? ==>
          var h := c.heap + s.made;
          && Free(h, c.localScope, frozen, s.value)
          && forall i: nat, k, v :: i < |s.made| && GetCell(s.made[i], k) == Some(v) ==> Free(h, c.localScope, frozen, v))
  }

  ghost predicate SameScopes(c: Context, c': Context) {
    && c'.runEnvelope == c.runEnvelope && c'.globalScope == c.globalScope && c'.localScope == c.localScope
    && c'.resultScope == c.resultScope && c'.kind == c.kind
  }

  /** In `TargetFromRoot` under the guard, the target is never frozen. */
  lemma TargetIsFree(c: Context, frozen: set<nat>, root: string)
    requires Sealed(c, frozen) && (root == "local" || root == "result" || root == "response")
    ensures var (h, target) := TargetFromRoot(c, root);
            && Coloured(h, c.localScope, frozen) && SameOn(c.heap, h, frozen) && SameKinds(c.heap, h)
            && IsDict(h, target) && target.addr !in frozen
            && (target == Ref(c.localScope) ==> root == "local")
  {
    hide SetKey;
    if root == "response" {
      var commands := Get(c.heap, Ref(c.resultScope), Prop("commands"));
      if !(commands.Some? && IsDict(c.heap, commands.value)) {
        ExtendKeepsColours(c.heap, c.localScope, frozen, [Dict(map[])]);
        var h1 := c.heap + [Dict(map[])];
        SetKeepsColours(h1, c.localScope, frozen, Ref(c.resultScope), Prop("commands"), Ref(|c.heap|));
        SetKeepsShape(h1, Ref(c.resultScope), Prop("commands"), Ref(|c.heap|));
        SetThenExtend(c.heap, Ref(c.resultScope), Prop("commands"), Ref(|c.heap|), Dict(map[]));
      }
    }
  }

  lemma ReplaceKeepsColours(h: Heap, local: nat, frozen: set<nat>, a: nat, value: Val)
    requires Coloured(h, local, frozen) && a < |h| && h[a].Dict? && a !in frozen
    requires IsDict(h, value) && Free(h, local, frozen, value)
    ensures Coloured(ReplaceAll(h, a, value), local, frozen) && SameOn(h, ReplaceAll(h, a, value), frozen)
    ensures SameKinds(h, ReplaceAll(h, a, value))
  {
    var r := ReplaceAll(h, a, value);
    forall b: nat, j, x | b < |r| && Get(r, Ref(b), j) == Some(x) && x.Ref?
      ensures x.addr < |r| && x.addr != local && (b in frozen ==> x.addr in frozen)
      ensures b !in frozen && !(b == local && j == Prop("global")) ==> x.addr !in frozen
    {
      assert Get(h, if b == a then value else Ref(b), j) == Some(x);
    }
  }

  lemma WriteKeysKeepFrozen(c: Context, frozen: set<nat>, root: string, keys: seq<Key>, value: Val)
    requires Sealed(c, frozen) && (root == "local" || root == "result" || root == "response")
    requires Free(c.heap, c.localScope, frozen, value)
    requires root == "local" && keys != [] ==> keys[0] != Prop("global")
    ensures var c' := WriteKeys(c, root, keys, value).0;
            Sealed(c', frozen) && SameScopes(c, c') && SameOn(c.heap, c'.heap, frozen)
  {
    hide TargetFromRoot, ReplaceAll, Coloured;
    var (h, target) := TargetFromRoot(c, root);
    TargetIsFree(c, frozen, root);
    if keys == [] {
      if IsDict(h, value) {
        ReplaceKeepsColours(h, c.localScope, frozen, target.addr, value);
      }
    } else {
      AssignKeepsColours(h, c.localScope, frozen, target, keys, value);
      ColouredIsClosed(h, c.localScope, frozen);
      AssignKeepsShape(h, target, keys, value);
    }
  }

  lemma ColouredIsClosed(h: Heap, local: nat, frozen: set<nat>)
    requires Coloured(h, local, frozen)
    ensures Closed(h)
  {
  }

  lemma RemoveKeysKeepFrozen(c: Context, frozen: set<nat>, root: string, keys: seq<Key>)
    requires Sealed(c, frozen) && (root == "local" || root == "result" || root == "response")
    requires root == "local" && keys != [] ==> keys[0] != Prop("global")
    ensures var c' := RemoveKeys(c, root, keys);
            Sealed(c', frozen) && SameScopes(c, c') && SameOn(c.heap, c'.heap, frozen)
  {
    hide TargetFromRoot, Coloured;
    var (h, target) := TargetFromRoot(c, root);
    TargetIsFree(c, frozen, root);
    RemoveKeepsColours(h, c.localScope, frozen, target, keys);
    ColouredIsClosed(h, c.localScope, frozen);
    RemoveKeepsShape(h, target, keys);
  }

  lemma WriteKeepsFrozen(c: Context, frozen: set<nat>, path: string, value: Val)
    requires Sealed(c, frozen) && c.kind == TestItem && AvoidsAlias(path) && Free(c.heap, c.localScope, frozen, value)
    ensures var c' := WritePath(c, path, value).0;
            Sealed(c', frozen) && SameScopes(c, c') && SameOn(c.heap, c'.heap, frozen)
  {
    hide PathKeys, ContextRoot, TargetKeys, WriteKeys, Coloured;
    var keys := PathKeys(path);
    if keys.Some? && ContextRoot(keys.value).Some? {
      var root := ContextRoot(keys.value).value;
      if Guard(c.kind, root).None? {
        WriteKeysKeepFrozen(c, frozen, root, TargetKeys(root, keys.value), value);
      }
    }
  }

  lemma DeleteKeepsFrozen(c: Context, frozen: set<nat>, path: string)
    requires Sealed(c, frozen) && c.kind == TestItem && AvoidsAlias(path)
    ensures var c' := RemovePath(c, path).0;
            Sealed(c', frozen) && SameScopes(c, c') && SameOn(c.heap, c'.heap, frozen)
  {
    hide PathKeys, ContextRoot, TargetKeys, RemoveKeys, Coloured;
    var keys := PathKeys(path);
    if keys.Some? && ContextRoot(keys.value).Some? {
      var root := ContextRoot(keys.value).value;
      if Guard(c.kind, root).None? {
        RemoveKeysKeepFrozen(c, frozen, root, TargetKeys(root, keys.value));
      }
    }
  }

  /** One step of a test item leaves every frozen object as it is. */
  lemma StepKeepsFrozen(c: Context, frozen: set<nat>, s: Step)
    requires Sealed(c, frozen) && c.kind == TestItem && Allowed(c, frozen, s)
    ensures var c' := Exec(c, s).0;
            Sealed(c', frozen) && SameScopes(c, c') && SameOn(c.heap, c'.heap, frozen)
  {
    hide WritePath, RemovePath, Coloured, AvoidsAlias;
    if s.Write? {
      ExtendKeepsColours(c.heap, c.localScope, frozen, s.made);
      WriteKeepsFrozen(c.(heap := c.heap + s.made), frozen, s.path, s.value);
    } else {
      DeleteKeepsFrozen(c, frozen, s.path);
    }
  }

  function Run(c: Context, steps: seq<Step>): Context
    requires ScopesAreDicts(c)
    decreases |steps|
  {
    if steps == [] then c
    else
      var c' := Exec(c, steps[0]).0;
      if ScopesAreDicts(c') then Run(c', steps[1..]) else c'
  }

  ghost predicate AllAllowed(c: Context, frozen: set<nat>, steps: seq<Step>)
    requires ScopesAreDicts(c)
    decreases |steps|
  {
    steps != [] ==>
      && Allowed(c, frozen, steps[0])
      && var c' := Exec(c, steps[0]).0;
         ScopesAreDicts(c') ==> AllAllowed(c', frozen, steps[1..])
  }

  lemma {:induction false} FrozenReadsSame(h: Heap, h': Heap, local: nat, frozen: set<nat>, v: Val, keys: seq<Key>)
    requires Coloured(h, local, frozen) && SameOn(h, h', frozen) && (v.Ref? ==> v.addr in frozen)
    ensures Resolve(h', v, keys) == Resolve(h, v, keys)
    decreases |keys|
  {
    if keys == [] || !v.Ref? {
    } else {
      assert Get(h', v, keys[0]) == Get(h, v, keys[0]);
      if Get(h, v, keys[0]).Some? {
        FrozenReadsSame(h, h', local, frozen, Get(h, v, keys[0]).value, keys[1..]);
      }
    }
  }

  /** Test-item immutability: over any run of writes and removals of a test item, every path below the
      global scope and below the run envelope reads exactly what it read before the run. */
  lemma {:induction false} TestItemImmutability(c: Context, frozen: set<nat>, steps: seq<Step>, keys: seq<Key>)
    requires Sealed(c, frozen) && c.kind == TestItem && AllAllowed(c, frozen, steps)
    ensures var c' := Run(c, steps);
            && SameScopes(c, c') && SameOn(c.heap, c'.heap, frozen)
            && Resolve(c'.heap, Ref(c.globalScope), keys) == Resolve(c.heap, Ref(c.globalScope), keys)
            && Resolve(c'.heap, Ref(c.runEnvelope), keys) == Resolve(c.heap, Ref(c.runEnvelope), keys)
    decreases |steps|
  {
    hide Exec;
    if steps == [] {
    } else {
      StepKeepsFrozen(c, frozen, steps[0]);
      var c1 := Exec(c, steps[0]).0;
      TestItemImmutability(c1, frozen, steps[1..], keys);
    }
    FrozenReadsSame(c.heap, Run(c, steps).heap, c.localScope, frozen, Ref(c.globalScope), keys);
    FrozenReadsSame(c.heap, Run(c, steps).heap, c.localScope, frozen, Ref(c.runEnvelope), keys);
  }
}
