/** Rows and payloads of a message template (send_message_template_service.py). */
module TemplateRows {
  import opened PyText
  import opened TemplateFlatten
  import opened TemplatePaths

  // ---- extraction -------------------------------------------------------------------------------

  /** `segment_name in current` and `current.get(segment_name)`, on keys as they are. */
  function Get(v: Value, name: string): Option<Value> {
    if v.Dict? then Find(v.pairs, name) else None
  }

  function Find(pairs: seq<Pair>, name: string): (r: Option<Value>)
    ensures r.Some? ==> exists i :: 0 <= i < |pairs| && pairs[i].value == r.value
  {
    if pairs == [] then None
    else if pairs[0].key == name then Some(pairs[0].value)
    else
      var r := Find(pairs[1..], name);
      if r.Some? then
        var i :| 0 <= i < |pairs[1..]| && pairs[1..][i].value == r.value;
        assert pairs[i + 1].value == r.value;
        r
      else r
  }

  /** A leaf over its ancestors: the leaf's own fields win. */
  function LeafRow(leaf: Value, ancestors: Row): Row
    requires !leaf.List?
  {
    if leaf.Dict? then ancestors + Flatten(leaf, []) else ancestors["value" := leaf]
  }

  /** `_append_match`: nested lists are opened. */
  function Leaves(v: Value, ancestors: Row): seq<Row>
    decreases v, 1
  {
    match v
    case List(items) => LeavesOf(items, ancestors)
    case _ => [LeafRow(v, ancestors)]
  }

  function LeavesOf(items: seq<Value>, ancestors: Row): seq<Row>
    decreases items, 0
  {
    if items == [] then [] else Leaves(items[0], ancestors) + LeavesOf(items[1..], ancestors)
  }

  /** The ancestors after stepping to `v`: captured unless it is the last step. */
  function Captured(ancestors: Row, v: Value, prefix: string, last: bool): Row {
    if last then ancestors else ancestors + Flatten(v, prefix)
  }

  /** `walk`. */
  function Walk(v: Value, path: seq<Segment>, ancestors: Row, prefix: string): seq<Row>
    decreases |path|, 1
  {
    if path == [] then Leaves(v, ancestors)
    else
      match Get(v, path[0].name)
      case None => []
      case Some(next) =>
        var p := Join(prefix, path[0].name);
        if !path[0].each then Walk(next, path[1..], Captured(ancestors, next, p, |path| == 1), p)
        else if next.List? then WalkEach(next.items, path, ancestors, p)
        else []
  }

  function WalkEach(items: seq<Value>, path: seq<Segment>, ancestors: Row, p: string): seq<Row>
    requires path != []
    decreases |path|, 0, |items|
  {
    if items == [] then []
    else Walk(items[0], path[1..], Captured(ancestors, items[0], p, |path| == 1), p)
         + WalkEach(items[1..], path, ancestors, p)
  }

  method AppendMatch(matches: seq<Row>, v: Value, ancestors: Row) returns (r: seq<Row>)
    ensures r == matches + Leaves(v, ancestors)
    decreases v
  {
    hide Flatten;
    r := matches;
    match v {
      case List(items) =>
        for i := 0 to |items|
          invariant matches + LeavesOf(items, ancestors) == r + LeavesOf(items[i..], ancestors)
        {
          assert items[i..][0] == items[i] && items[i..][1..] == items[i + 1..];
          Regroup(r, Leaves(items[i], ancestors), LeavesOf(items[i + 1..], ancestors));
          r := AppendMatch(r, items[i], ancestors);
        }
      case _ => r := r + [LeafRow(v, ancestors)];
    }
  }

  lemma Regroup<T>(a: seq<T>, b: seq<T>, c: seq<T>)
    ensures a + (b + c) == (a + b) + c
  {
  }

  method WalkFrom(matches: seq<Row>, v: Value, path: seq<Segment>, ancestors: Row, prefix: string) returns (r: seq<Row>)
    ensures r == matches + Walk(v, path, ancestors, prefix)
    decreases |path|
  {
    hide Leaves, Flatten, Join, Find;
    if path == [] {
      r := AppendMatch(matches, v, ancestors);
      return;
    }
    var next := Get(v, path[0].name);
    if next.None? {
      return matches;
    }
    var p := Join(prefix, path[0].name);
    if !path[0].each {
      r := WalkFrom(matches, next.value, path[1..], Captured(ancestors, next.value, p, |path| == 1), p);
    } else if !next.value.List? {
      r := matches;
    } else {
      var items := next.value.items;
      r := matches;
      for i := 0 to |items|
        invariant matches + WalkEach(items, path, ancestors, p) == r + WalkEach(items[i..], path, ancestors, p)
      {
        assert items[i..][0] == items[i] && items[i..][1..] == items[i + 1..];
        var kept := Captured(ancestors, items[i], p, |path| == 1);
        Regroup(r, Walk(items[i], path[1..], kept, p), WalkEach(items[i + 1..], path, ancestors, p));
        r := WalkFrom(r, items[i], path[1..], kept, p);
      }
    }
  }

  /** `_extract_template_matches`. */
  function Extract(root: Value, forEach: string): seq<Row> { Walk(root, TemplatePath(forEach), map[], []) }

  // ---- one row per leaf -------------------------------------------------------------------------

  /** The row of the leaf at list positions `pos`, if the positions lead to a leaf. */
  function LeafAt(v: Value, ancestors: Row, pos: seq<nat>): Option<Row>
    decreases |pos|
  {
    match v
    case List(items) =>
      if pos != [] && pos[0] < |items| then LeafAt(items[pos[0]], ancestors, pos[1..]) else None
    case _ => if pos == [] then Some(LeafRow(v, ancestors)) else None
  }

  /** The same below a path: each `[*]` step takes one position. */
  function RowAt(v: Value, path: seq<Segment>, ancestors: Row, prefix: string, pos: seq<nat>): Option<Row>
    decreases |path|
  {
    if path == [] then LeafAt(v, ancestors, pos)
    else
      match Get(v, path[0].name)
      case None => None
      case Some(next) =>
        var p := Join(prefix, path[0].name);
        if !path[0].each then RowAt(next, path[1..], Captured(ancestors, next, p, |path| == 1), p, pos)
        else if next.List? && pos != [] && pos[0] < |next.items| then
          RowAt(next.items[pos[0]], path[1..], Captured(ancestors, next.items[pos[0]], p, |path| == 1), p, pos[1..])
        else None
  }

  /** Document order of positions. */
  predicate Before(a: seq<nat>, b: seq<nat>) {
    a != [] && b != [] && (a[0] < b[0] || (a[0] == b[0] && Before(a[1..], b[1..])))
  }

  ghost predicate InOrder(ps: seq<seq<nat>>) { forall i, j | 0 <= i < j < |ps| :: Before(ps[i], ps[j]) }

  /** `k` put in front of every position. */
  function Under(k: nat, ps: seq<seq<nat>>): (r: seq<seq<nat>>)
    ensures |r| == |ps| && forall i | 0 <= i < |ps| :: r[i] == [k] + ps[i]
  {
    seq(|ps|, i requires 0 <= i < |ps| => [k] + ps[i])
  }

  function LeafPositions(v: Value): seq<seq<nat>>
    decreases v, 1
  {
    match v
    case List(items) => LeafPositionsOf(items, 0)
    case _ => [[]]
  }

  function LeafPositionsOf(items: seq<Value>, from: nat): seq<seq<nat>>
    decreases items, 0
  {
    if items == [] then [] else Under(from, LeafPositions(items[0])) + LeafPositionsOf(items[1..], from + 1)
  }

  /** Where the leaves are, in document order. */
  function Positions(v: Value, path: seq<Segment>): seq<seq<nat>>
    decreases |path|, 1
  {
    if path == [] then LeafPositions(v)
    else
      match Get(v, path[0].name)
      case None => []
      case Some(next) =>
        if !path[0].each then Positions(next, path[1..])
        else if next.List? then PositionsEach(next.items, path, 0)
        else []
  }

  function PositionsEach(items: seq<Value>, path: seq<Segment>, from: nat): seq<seq<nat>>
    requires path != []
    decreases |path|, 0, |items|
  {
    if items == [] then [] else Under(from, Positions(items[0], path[1..])) + PositionsEach(items[1..], path, from + 1)
  }

  lemma InOrderUnder(k: nat, ps: seq<seq<nat>>)
    requires InOrder(ps)
    ensures InOrder(Under(k, ps))
  {
    var r := Under(k, ps);
    forall i, j | 0 <= i < j < |r|
      ensures Before(r[i], r[j])
    {
      assert r[i][1..] == ps[i] && r[j][1..] == ps[j];
    }
  }

  lemma InOrderAppend(a: seq<seq<nat>>, b: seq<seq<nat>>, k: nat)
    requires InOrder(a) && InOrder(b)
    requires (forall i | 0 <= i < |a| :: a[i] != [] && a[i][0] == k) && forall i | 0 <= i < |b| :: b[i] != [] && b[i][0] > k
    ensures InOrder(a + b)
  {
  }

  lemma {:induction false} LeafOrder(v: Value)
    ensures InOrder(LeafPositions(v))
    decreases v, 1
  {
    if v.List? {
      LeafOrderOf(v.items, 0);
    }
  }

  lemma {:induction false} LeafOrderOf(items: seq<Value>, from: nat)
    ensures InOrder(LeafPositionsOf(items, from))
    ensures forall i | 0 <= i < |LeafPositionsOf(items, from)| ::
              LeafPositionsOf(items, from)[i] != [] && LeafPositionsOf(items, from)[i][0] >= from
    decreases items, 0
  {
    hide InOrder, LeafPositions;
    if items == [] {
      NoneInOrder();
    } else {
      LeafOrder(items[0]);
      LeafOrderOf(items[1..], from + 1);
      InOrderUnder(from, LeafPositions(items[0]));
      InOrderAppend(Under(from, LeafPositions(items[0])), LeafPositionsOf(items[1..], from + 1), from);
    }
  }

  lemma NoneInOrder()
    ensures InOrder([])
  {
  }

  lemma {:induction false} PositionsOrder(v: Value, path: seq<Segment>)
    ensures InOrder(Positions(v, path))
    decreases |path|, 1
  {
    hide InOrder, LeafPositions, Get;
    NoneInOrder();
    if path == [] {
      LeafOrder(v);
    } else {
      var next := Get(v, path[0].name);
      if next.Some? {
        if !path[0].each {
          PositionsOrder(next.value, path[1..]);
        } else if next.value.List? {
          PositionsOrderEach(next.value.items, path, 0);
        }
      }
    }
  }

  lemma {:induction false} PositionsOrderEach(items: seq<Value>, path: seq<Segment>, from: nat)
    requires path != []
    ensures InOrder(PositionsEach(items, path, from))
    ensures forall i | 0 <= i < |PositionsEach(items, path, from)| ::
              PositionsEach(items, path, from)[i] != [] && PositionsEach(items, path, from)[i][0] >= from
    decreases |path|, 0, |items|
  {
    hide InOrder, Positions;
    if items == [] {
      NoneInOrder();
    } else {
      PositionsOrder(items[0], path[1..]);
      PositionsOrderEach(items[1..], path, from + 1);
      InOrderUnder(from, Positions(items[0], path[1..]));
      InOrderAppend(Under(from, Positions(items[0], path[1..])), PositionsEach(items[1..], path, from + 1), from);
    }
  }

  // ---- rows and positions -----------------------------------------------------------------------

  lemma {:induction false} LeafRows(v: Value, ancestors: Row)
    ensures var rows, ps := Leaves(v, ancestors), LeafPositions(v);
            |rows| == |ps| && forall k | 0 <= k < |rows| :: LeafAt(v, ancestors, ps[k]) == Some(rows[k])
    decreases v, 1
  {
    hide LeafRow;
    if v.List? {
      LeafRowsOf(v.items, v.items, 0, ancestors);
    }
  }

  lemma {:induction false} LeafRowsOf(all: seq<Value>, items: seq<Value>, from: nat, ancestors: Row)
    requires from + |items| == |all| && items == all[from..]
    ensures var rows, ps := LeavesOf(items, ancestors), LeafPositionsOf(items, from);
            |rows| == |ps| && forall k | 0 <= k < |rows| :: LeafAt(List(all), ancestors, ps[k]) == Some(rows[k])
    decreases items, 0
  {
    hide LeafRow, Leaves, LeafPositions;
    if items == [] {
    } else {
      LeafRows(items[0], ancestors);
      LeafRowsOf(all, items[1..], from + 1, ancestors);
      var ps := LeafPositions(items[0]);
      forall k | 0 <= k < |ps|
        ensures LeafAt(List(all), ancestors, Under(from, ps)[k]) == Some(Leaves(items[0], ancestors)[k])
      {
        assert ([from] + ps[k])[1..] == ps[k] && all[from] == items[0];
      }
    }
  }

  lemma {:induction false} WalkRows(v: Value, path: seq<Segment>, ancestors: Row, prefix: string)
    ensures var rows, ps := Walk(v, path, ancestors, prefix), Positions(v, path);
            |rows| == |ps| && forall k | 0 <= k < |rows| :: RowAt(v, path, ancestors, prefix, ps[k]) == Some(rows[k])
    decreases |path|, 1
  {
    hide Captured, Join, Leaves, LeafPositions, LeafAt, Get;
    if path == [] {
      LeafRows(v, ancestors);
    } else {
      var next := Get(v, path[0].name);
      if next.Some? {
        var p := Join(prefix, path[0].name);
        if !path[0].each {
          WalkRows(next.value, path[1..], Captured(ancestors, next.value, p, |path| == 1), p);
        } else if next.value.List? {
          WalkRowsEach(v, next.value.items, next.value.items, path, 0, ancestors, prefix);
        }
      }
    }
  }

  lemma {:induction false} WalkRowsEach(v: Value, all: seq<Value>, items: seq<Value>, path: seq<Segment>, from: nat,
                                        ancestors: Row, prefix: string)
    requires path != [] && path[0].each && Get(v, path[0].name) == Some(List(all))
    requires from + |items| == |all| && items == all[from..]
    ensures var rows, ps := WalkEach(items, path, ancestors, Join(prefix, path[0].name)), PositionsEach(items, path, from);
            |rows| == |ps| && forall k | 0 <= k < |rows| :: RowAt(v, path, ancestors, prefix, ps[k]) == Some(rows[k])
    decreases |path|, 0, |items|
  {
    hide Captured, Join, Positions, Walk, Get;
    if items == [] {
    } else {
      var p := Join(prefix, path[0].name);
      var kept := Captured(ancestors, items[0], p, |path| == 1);
      WalkRows(items[0], path[1..], kept, p);
      WalkRowsEach(v, all, items[1..], path, from + 1, ancestors, prefix);
      var ps := Positions(items[0], path[1..]);
      forall k | 0 <= k < |ps|
        ensures RowAt(v, path, ancestors, prefix, Under(from, ps)[k]) == Some(Walk(items[0], path[1..], kept, p)[k])
      {
        assert ([from] + ps[k])[1..] == ps[k] && all[from] == items[0];
      }
    }
  }

  lemma {:induction false} LeafIsListed(v: Value, ancestors: Row, pos: seq<nat>)
    requires LeafAt(v, ancestors, pos).Some?
    ensures pos in LeafPositions(v)
    decreases |pos|
  {
    hide LeafRow;
    if !v.List? {
    } else {
      LeafIsListed(v.items[pos[0]], ancestors, pos[1..]);
      ListedOf(v.items, 0, pos[0], pos[1..]);
      assert [pos[0]] + pos[1..] == pos;
    }
  }

  lemma {:induction false} ListedOf(items: seq<Value>, from: nat, k: nat, rest: seq<nat>)
    requires k < |items| && rest in LeafPositions(items[k])
    ensures [from + k] + rest in LeafPositionsOf(items, from)
    decreases k
  {
    hide LeafPositions;
    if k == 0 {
      var ps := LeafPositions(items[0]);
      var j :| 0 <= j < |ps| && ps[j] == rest;
      assert Under(from, ps)[j] == [from] + rest;
    } else {
      ListedOf(items[1..], from + 1, k - 1, rest);
    }
  }

  lemma {:induction false} RowIsListed(v: Value, path: seq<Segment>, ancestors: Row, prefix: string, pos: seq<nat>)
    requires RowAt(v, path, ancestors, prefix, pos).Some?
    ensures pos in Positions(v, path)
    decreases |path|
  {
    hide Captured, Join, LeafAt, LeafPositions, Get;
    if path == [] {
      LeafIsListed(v, ancestors, pos);
    } else {
      var next := Get(v, path[0].name).value;
      var p := Join(prefix, path[0].name);
      if !path[0].each {
        RowIsListed(next, path[1..], Captured(ancestors, next, p, |path| == 1), p, pos);
      } else {
        var item := next.items[pos[0]];
        RowIsListed(item, path[1..], Captured(ancestors, item, p, |path| == 1), p, pos[1..]);
        ListedEach(next.items, path, 0, pos[0], pos[1..]);
        assert [pos[0]] + pos[1..] == pos;
      }
    }
  }

  lemma {:induction false} ListedEach(items: seq<Value>, path: seq<Segment>, from: nat, k: nat, rest: seq<nat>)
    requires path != [] && k < |items| && rest in Positions(items[k], path[1..])
    ensures [from + k] + rest in PositionsEach(items, path, from)
    decreases k
  {
    hide Positions;
    if k == 0 {
      var ps := Positions(items[0], path[1..]);
      var j :| 0 <= j < |ps| && ps[j] == rest;
      assert Under(from, ps)[j] == [from] + rest;
    } else {
      ListedEach(items[1..], path, from + 1, k - 1, rest);
    }
  }

  /** One row for each leaf that the path of the text reaches, and no other, in document order. */
  lemma OneRowPerLeaf(root: Value, forEach: string)
    ensures var path := TemplatePath(forEach);
            var rows, ps := Extract(root, forEach), Positions(root, path);
            && |rows| == |ps| && InOrder(ps)
            && (forall k | 0 <= k < |rows| :: RowAt(root, path, map[], [], ps[k]) == Some(rows[k]))
            && forall pos :: RowAt(root, path, map[], [], pos).Some? <==> pos in ps
  {
    hide Walk, Positions, RowAt, InOrder, TemplatePath;
    var path := TemplatePath(forEach);
    WalkRows(root, path, map[], []);
    PositionsOrder(root, path);
    var ps := Positions(root, path);
    forall pos
      ensures RowAt(root, path, map[], [], pos).Some? <==> pos in ps
    {
      if RowAt(root, path, map[], [], pos).Some? {
        RowIsListed(root, path, map[], [], pos);
      }
      if pos in ps {
        var k :| 0 <= k < |ps| && ps[k] == pos;
      }
    }
  }

  // ---- ancestors --------------------------------------------------------------------------------

  /** The values stepped to before the last step, with their prefixes, on the way to `pos`. */
  datatype Ancestor = Ancestor(prefix: string, value: Value)

  function AncestorsAt(v: Value, path: seq<Segment>, prefix: string, pos: seq<nat>): seq<Ancestor>
    decreases |path|
  {
    if |path| <= 1 then []
    else
      match Get(v, path[0].name)
      case None => []
      case Some(next) =>
        var p := Join(prefix, path[0].name);
        if !path[0].each then [Ancestor(p, next)] + AncestorsAt(next, path[1..], p, pos)
        else if next.List? && pos != [] && pos[0] < |next.items| then
          [Ancestor(p, next.items[pos[0]])] + AncestorsAt(next.items[pos[0]], path[1..], p, pos[1..])
        else []
  }

  function Inherited(ancestors: seq<Ancestor>, key: string): Option<Value> {
    if ancestors == [] then None
    else
      var last := ancestors[|ancestors| - 1];
      var own := Flatten(last.value, last.prefix);
      if key in own then Some(own[key]) else Inherited(ancestors[..|ancestors| - 1], key)
  }

  /** The value that stands at the end of the walk. */
  function LeafOf(v: Value, path: seq<Segment>, pos: seq<nat>): Value
    decreases |path|, |pos|
  {
    if path == [] then
      if v.List? && pos != [] && pos[0] < |v.items| then LeafOf(v.items[pos[0]], [], pos[1..]) else v
    else
      match Get(v, path[0].name)
      case None => v
      case Some(next) =>
        if !path[0].each then LeafOf(next, path[1..], pos)
        else if next.List? && pos != [] && pos[0] < |next.items| then LeafOf(next.items[pos[0]], path[1..], pos[1..])
        else v
  }

  function OwnFields(leaf: Value): Row { if leaf.Dict? then Flatten(leaf, []) else map["value" := leaf] }

  function Lookup(r: Row, key: string): Option<Value> { if key in r then Some(r[key]) else None }

  function OrElse(a: Option<Value>, b: Option<Value>): Option<Value> { if a.Some? then a else b }

  lemma {:induction false} LeafFields(v: Value, ancestors: Row, pos: seq<nat>, key: string)
    requires LeafAt(v, ancestors, pos).Some?
    ensures Lookup(LeafAt(v, ancestors, pos).value, key) ==
            OrElse(Lookup(OwnFields(LeafOf(v, [], pos)), key), Lookup(ancestors, key))
    decreases |pos|
  {
    hide Flatten;
    if !v.List? {
    } else {
      LeafFields(v.items[pos[0]], ancestors, pos[1..], key);
    }
  }

  lemma {:induction false} InheritedFront(first: Ancestor, rest: seq<Ancestor>, key: string)
    ensures Inherited([first] + rest, key) == OrElse(Inherited(rest, key), Lookup(Flatten(first.value, first.prefix), key))
  {
    hide Flatten;
    var all := [first] + rest;
    if rest == [] {
      assert all == [first] && all[..0] == [];
    } else {
      assert all[..|all| - 1] == [first] + rest[..|rest| - 1];
      InheritedFront(first, rest[..|rest| - 1], key);
    }
  }

  lemma {:induction false} RowFieldsFrom(v: Value, path: seq<Segment>, ancestors: Row, prefix: string, pos: seq<nat>, key: string)
    requires RowAt(v, path, ancestors, prefix, pos).Some?
    ensures Lookup(RowAt(v, path, ancestors, prefix, pos).value, key) ==
            OrElse(Lookup(OwnFields(LeafOf(v, path, pos)), key),
                   OrElse(Inherited(AncestorsAt(v, path, prefix, pos), key), Lookup(ancestors, key)))
    decreases |path|
  {
    hide Flatten, Join, LeafAt, OwnFields, Get, Inherited;
    if path == [] {
      LeafFields(v, ancestors, pos, key);
      NoAncestors(key);
    } else {
      var next := Get(v, path[0].name).value;
      var p := Join(prefix, path[0].name);
      var last := |path| == 1;
      var step := if path[0].each then next.items[pos[0]] else next;
      var rest := if path[0].each then pos[1..] else pos;
      RowFieldsFrom(step, path[1..], Captured(ancestors, step, p, last), p, rest, key);
      if last {
        NoAncestors(key);
      } else {
        InheritedFront(Ancestor(p, step), AncestorsAt(step, path[1..], p, rest), key);
      }
    }
  }

  lemma NoAncestors(key: string)
    ensures Inherited([], key) == None
  {
  }

  /** What a row holds at a key: the leaf's own field; failing that, the field of the nearest ancestor on
      the way that has it. */
  lemma RowFields(root: Value, forEach: string, k: nat, key: string)
    requires k < |Extract(root, forEach)|
    ensures |Positions(root, TemplatePath(forEach))| == |Extract(root, forEach)|
    ensures var path := TemplatePath(forEach);
            var pos := Positions(root, path)[k];
            Lookup(Extract(root, forEach)[k], key) ==
            OrElse(Lookup(OwnFields(LeafOf(root, path, pos)), key), Inherited(AncestorsAt(root, path, [], pos), key))
  {
    hide Walk, Positions, RowAt, OwnFields, Inherited, AncestorsAt, LeafOf, TemplatePath;
    var path := TemplatePath(forEach);
    WalkRows(root, path, map[], []);
    RowFieldsFrom(root, path, map[], [], Positions(root, path)[k], key);
  }

  // ---- payloads ---------------------------------------------------------------------------------

  datatype SourceType = DatasetSource | JsonArraySource | OtherSource

  /** `preview_send_message_template_rows`. */
  function PreviewRows(data: Value, source: SourceType, forEach: string): seq<Row> {
    if source.DatasetSource? then
      match data
      case List(items) => FilledRows(items)
      case Dict(_) => [Flatten(data, [])]
      case Scalar(_) => []
    else if source.JsonArraySource? || data.List? then
      if data.List? then ExtractEach(data.items, forEach) else []
    else Extract(data, forEach)
  }

  function FilledRows(items: seq<Value>): seq<Row> {
    if items == [] then []
    else (if Flatten(items[0], []) == map[] then [] else [Flatten(items[0], [])]) + FilledRows(items[1..])
  }

  function ExtractEach(items: seq<Value>, forEach: string): seq<Row> {
    if items == [] then [] else Extract(items[0], forEach) + ExtractEach(items[1..], forEach)
  }

  /** A constant of the template, with the value it evaluates to. */
  datatype Constant = Constant(name: string, value: Value)

  datatype Template = Template(forEach: string, fields: seq<string>, constants: seq<Constant>)

  /** The payload of one row: the selected fields that it has, then the constants over them. */
  function SelectedFields(row: Row, fields: seq<string>): Row {
    if fields == [] then map[]
    else
      var key := Strip(fields[|fields| - 1]);
      var rest := SelectedFields(row, fields[..|fields| - 1]);
      if key != [] && key in row then rest[key := row[key]] else rest
  }

  function Constants(constants: seq<Constant>): Row {
    if constants == [] then map[]
    else Constants(constants[..|constants| - 1])[Strip(constants[|constants| - 1].name) := constants[|constants| - 1].value]
  }

  function PayloadOf(row: Row, t: Template): Row { SelectedFields(row, t.fields) + Constants(t.constants) }

  /** The loops of `build_send_message_payloads`. */
  method BuildPayload(row: Row, t: Template) returns (payload: Row)
    ensures payload == PayloadOf(row, t)
  {
    hide Strip;
    payload := map[];
    for i := 0 to |t.fields|
      invariant payload == SelectedFields(row, t.fields[..i])
    {
      assert t.fields[..i + 1][..i] == t.fields[..i];
      var key := Strip(t.fields[i]);
      if key != [] && key in row {
        payload := payload[key := row[key]];
      }
    }
    assert t.fields[..|t.fields|] == t.fields;
    for i := 0 to |t.constants|
      invariant payload == SelectedFields(row, t.fields) + Constants(t.constants[..i])
    {
      assert t.constants[..i + 1][..i] == t.constants[..i];
      payload := payload[Strip(t.constants[i].name) := t.constants[i].value];
    }
    assert t.constants[..|t.constants|] == t.constants;
  }

  /** One payload per row, in the order of the rows. */
  method BuildSendMessagePayloads(data: Value, source: SourceType, t: Template) returns (payloads: seq<Row>)
    ensures var rows := PreviewRows(data, source, t.forEach);
            |payloads| == |rows| && forall k | 0 <= k < |rows| :: payloads[k] == PayloadOf(rows[k], t)
  {
    hide PayloadOf, PreviewRows;
    var rows := PreviewRows(data, source, t.forEach);
    payloads := [];
    for k := 0 to |rows|
      invariant |payloads| == k && forall j | 0 <= j < k :: payloads[j] == PayloadOf(rows[j], t)
    {
      var payload := BuildPayload(rows[k], t);
      payloads := payloads + [payload];
    }
  }

  predicate Selects(fields: seq<string>, key: string) { key != [] && exists i :: 0 <= i < |fields| && Strip(fields[i]) == key }

  predicate Names(constants: seq<Constant>, key: string) { exists i :: 0 <= i < |constants| && Strip(constants[i].name) == key }

  /** The value of the last constant of that name. */
  ghost predicate LastNamed(constants: seq<Constant>, key: string, v: Value) {
    exists i :: 0 <= i < |constants| && Strip(constants[i].name) == key && constants[i].value == v &&
                forall j | i < j < |constants| :: Strip(constants[j].name) != key
  }

  lemma {:induction false} SelectedExactly(row: Row, fields: seq<string>, key: string)
    ensures Lookup(SelectedFields(row, fields), key) == if Selects(fields, key) then Lookup(row, key) else None
  {
    hide Strip;
    if fields == [] {
    } else {
      var n := |fields| - 1;
      SelectedExactly(row, fields[..n], key);
      assert forall i | 0 <= i < n :: fields[..n][i] == fields[i];
      assert Selects(fields, key) <==> Selects(fields[..n], key) || (key != [] && Strip(fields[n]) == key);
    }
  }

  lemma {:induction false} ConstantsExactly(constants: seq<Constant>, key: string)
    ensures match Lookup(Constants(constants), key)
            case Some(v) => LastNamed(constants, key, v)
            case None => !Names(constants, key)
  {
    hide Strip, LastNamed, Names;
    if constants == [] {
      NoneNamed(key);
    } else {
      var n := |constants| - 1;
      ConstantsExactly(constants[..n], key);
      LastOfMore(constants, key);
    }
  }

  lemma NoneNamed(key: string)
    ensures !Names([], key)
  {
  }

  /** How one more constant changes which is the last of a name. */
  lemma LastOfMore(constants: seq<Constant>, key: string)
    requires constants != []
    ensures var last := constants[|constants| - 1];
            var init := constants[..|constants| - 1];
            if Strip(last.name) == key then LastNamed(constants, key, last.value)
            else (forall v :: LastNamed(init, key, v) ==> LastNamed(constants, key, v)) &&
                 (Names(constants, key) <==> Names(init, key))
  {
    hide Strip;
    var n := |constants| - 1;
    var init := constants[..n];
    assert forall i | 0 <= i < n :: init[i] == constants[i];
    forall v | Strip(constants[n].name) != key && LastNamed(init, key, v)
      ensures LastNamed(constants, key, v)
    {
      var i :| 0 <= i < |init| && Strip(init[i].name) == key && init[i].value == v &&
               forall j | i < j < |init| :: Strip(init[j].name) != key;
      assert Strip(constants[i].name) == key;
    }
  }

  /** A payload holds the constants, and of the row only the selected fields. */
  lemma PayloadIsExact(row: Row, t: Template, key: string)
    ensures match Lookup(PayloadOf(row, t), key)
            case Some(v) => if Names(t.constants, key) then LastNamed(t.constants, key, v)
                            else Selects(t.fields, key) && Lookup(row, key) == Some(v)
            case None => !Names(t.constants, key) && (Selects(t.fields, key) ==> key !in row)
  {
    hide Strip, SelectedFields, Constants;
    SelectedExactly(row, t.fields, key);
    ConstantsExactly(t.constants, key);
  }
}
