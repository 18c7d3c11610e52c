/** Python's dictionaries and lists as cells of an explicit heap, so that sharing of one object
    between two places is part of the model. */
module ObjectHeap {
  import opened PyText

  datatype Val = Null | Bool(b: bool) | Num(n: int) | Str(s: string) | Ref(addr: nat)

  datatype Cell = Dict(entries: map<string, Val>) | List(items: seq<Val>)

  /** An address is an index; allocating an object appends a cell. */
  type Heap = seq<Cell>

  /** One step of a path: a property of a dictionary or a position of a list. */
  datatype Key = Prop(name: string) | Index(pos: nat)

  predicate IsDict(h: Heap, v: Val) { v.Ref? && v.addr < |h| && h[v.addr].Dict? }

  predicate IsList(h: Heap, v: Val) { v.Ref? && v.addr < |h| && h[v.addr].List? }

  /** Does `v` hold the kind of container that `k` steps into? */
  predicate Accepts(h: Heap, v: Val, k: Key) { if k.Prop? then IsDict(h, v) else IsList(h, v) }

  function GetCell(c: Cell, k: Key): Option<Val> {
    match (c, k)
    case (Dict(entries), Prop(name)) => if name in entries then Some(entries[name]) else None
    case (List(items), Index(pos)) => if pos < |items| then Some(items[pos]) else None
    case _ => None
  }

  function Get(h: Heap, v: Val, k: Key): Option<Val> {
    if v.Ref? && v.addr < |h| then GetCell(h[v.addr], k) else None
  }

  /** What following `keys` from `v` reaches; `None` is the resolver's missing marker. */
  function Resolve(h: Heap, v: Val, keys: seq<Key>): Option<Val>
    decreases |keys|
  {
    if keys == [] then Some(v)
    else match Get(h, v, keys[0])
      case None => None
      case Some(w) => Resolve(h, w, keys[1..])
  }

  /** `while len(items) <= idx: items.append({})`, each padding object being a new one. */
  function Pad(h: Heap, a: nat, idx: nat): (r: Heap)
    requires a < |h| && h[a].List?
    ensures |h| <= |r|
    ensures r[a].List? && idx < |r[a].items| && h[a].items <= r[a].items
    ensures forall b | 0 <= b < |h| && b != a :: r[b] == h[b]
    ensures forall b | |h| <= b < |r| :: r[b] == Dict(map[])
    decreases idx + 1 - |h[a].items|
  {
    if idx < |h[a].items| then h
    else Pad(h[a := List(h[a].items + [Ref(|h|)])] + [Dict(map[])], a, idx)
  }

  function PadFor(h: Heap, v: Val, k: Key): (r: Heap)
    requires Accepts(h, v, k)
    ensures |h| <= |r| && Accepts(r, v, k) && (k.Index? ==> k.pos < |r[v.addr].items|)
  {
    if k.Prop? then h else Pad(h, v.addr, k.pos)
  }

  /** `current[token] = value` on a container that has room for it. */
  function SetKey(h: Heap, v: Val, k: Key, value: Val): (r: Heap)
    requires Accepts(h, v, k) && (k.Index? ==> k.pos < |h[v.addr].items|)
    ensures |r| == |h| && forall b | 0 <= b < |h| && b != v.addr :: r[b] == h[b]
    ensures Get(r, v, k) == Some(value)
    ensures forall k' | k' != k :: Get(r, v, k') == Get(h, v, k')
  {
    match k
    case Prop(name) => h[v.addr := Dict(h[v.addr].entries[name := value])]
    case Index(pos) => h[v.addr := List(h[v.addr].items[pos := value])]
  }

  /** Makes the step `k` possible when more of the path follows: pads a list, and puts a new
      container where the entry is missing or null. */
  function Descend(h: Heap, v: Val, k: Key, next: Key): (r: Heap)
    requires Accepts(h, v, k)
    ensures Accepts(r, v, k) && Get(r, v, k).Some?
  {
    var h1 := PadFor(h, v, k);
    if Get(h1, v, k) in {None, Some(Null)} then
      SetKey(h1, v, k, Ref(|h1|)) + [if next.Index? then List([]) else Dict(map[])]
    else h1
  }

  /** The outcome of a write: Python leaves the containers made so far even when it raises. */
  datatype Written = Written(heap: Heap, ok: bool)

  function Assign(h: Heap, v: Val, keys: seq<Key>, value: Val): Written
    decreases |keys|
  {
    if keys == [] || !Accepts(h, v, keys[0]) then Written(h, false)
    else if |keys| == 1 then Written(SetKey(PadFor(h, v, keys[0]), v, keys[0], value), true)
    else
      var h1 := Descend(h, v, keys[0], keys[1]);
      Assign(h1, Get(h1, v, keys[0]).value, keys[1..], value)
  }

  /** `_assign_nested_value`: the cursor walks down while containers are created. */
  method AssignNestedValue(heap: Heap, target: Val, keys: seq<Key>, value: Val) returns (w: Written)
    ensures w == Assign(heap, target, keys, value)
  {
    var h, current := heap, target;
    var i := 0;
    while i < |keys|
      invariant 0 <= i <= |keys| && (i == |keys| ==> keys == [])
      invariant Assign(heap, target, keys, value) == Assign(h, current, keys[i..], value)
    {
      var token := keys[i];
      assert keys[i..][0] == token && keys[i..][1..] == keys[i + 1..];
      if !Accepts(h, current, token) {
        return Written(h, false);
      }
      if i == |keys| - 1 {
        return Written(SetKey(PadFor(h, current, token), current, token, value), true);
      }
      h := Descend(h, current, token, keys[i + 1]);
      current := Get(h, current, token).value;
      i := i + 1;
    }
    return Written(h, false);
  }

  function DeleteKey(h: Heap, v: Val, k: Key): (r: Heap)
    requires Get(h, v, k).Some?
    ensures |r| == |h| && forall b | 0 <= b < |h| && b != v.addr :: r[b] == h[b]
    ensures k.Prop? ==> Get(r, v, k) == None && forall k' | k' != k :: Get(r, v, k') == Get(h, v, k')
    ensures k.Index? ==> forall j: nat :: Get(r, v, Index(j)) == Get(h, v, Index(if j < k.pos then j else j + 1))
    ensures k.Index? ==> forall name :: Get(r, v, Prop(name)) == None
  {
    match k
    case Prop(name) => h[v.addr := Dict(h[v.addr].entries - {name})]
    case Index(pos) =>
      var items := h[v.addr].items;
      h[v.addr := List(items[..pos] + items[pos + 1..])]
  }

  /** Removing what is not there does nothing. */
  function Remove(h: Heap, v: Val, keys: seq<Key>): Heap
    decreases |keys|
  {
    if keys == [] then h
    else match Get(h, v, keys[0])
      case None => h
      case Some(w) => if |keys| == 1 then DeleteKey(h, v, keys[0]) else Remove(h, w, keys[1..])
  }

  /** `_remove_nested_value`. */
  method RemoveNestedValue(heap: Heap, target: Val, keys: seq<Key>) returns (h: Heap)
    ensures h == Remove(heap, target, keys)
  {
    h := heap;
    var current := target;
    var i := 0;
    while i < |keys|
      invariant 0 <= i <= |keys| && (i == |keys| ==> keys == [])
      invariant Remove(heap, target, keys) == Remove(heap, current, keys[i..])
    {
      assert keys[i..][0] == keys[i] && keys[i..][1..] == keys[i + 1..];
      var found := Get(h, current, keys[i]);
      if found == None {
        return;
      }
      if i == |keys| - 1 {
        h := DeleteKey(h, current, keys[i]);
        return;
      }
      current := found.value;
      i := i + 1;
    }
  }

  /** The cursor loop of `_resolve_ref`. */
  method ResolveKeys(heap: Heap, scope: Val, keys: seq<Key>) returns (found: Option<Val>)
    ensures found == Resolve(heap, scope, keys)
  {
    var current := scope;
    for i := 0 to |keys|
      invariant Resolve(heap, scope, keys) == Resolve(heap, current, keys[i..])
    {
      assert keys[i..][0] == keys[i] && keys[i..][1..] == keys[i + 1..];
      var next := Get(heap, current, keys[i]);
      if next == None {
        return None;
      }
      current := next.value;
    }
    found := Some(current);
  }

  lemma {:induction false} ResolveConcat(h: Heap, v: Val, p: seq<Key>, q: seq<Key>)
    ensures Resolve(h, v, p + q) ==
            match Resolve(h, v, p) case None => None case Some(w) => Resolve(h, w, q)
    decreases |p|
  {
    if p == [] {
      assert p + q == q;
    } else {
      assert (p + q)[0] == p[0] && (p + q)[1..] == p[1..] + q;
      if Get(h, v, p[0]).Some? {
        ResolveConcat(h, Get(h, v, p[0]).value, p[1..], q);
      }
    }
  }
}
