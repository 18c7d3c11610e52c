/** The JSON array asserts (json_data_assert_evaluators.py): comparing counts of row keys decides
    whether the rows can be paired. */
module JsonAsserts {
  import opened Json

  type Row = map<string, Json>

  datatype AssertError =
    | KeysRequired
    | NotAnArray(title: string)
    | NotAnObject(title: string, index: nat)
    | MissingKeys(title: string, index: nat)
    | NotContained
    | NotEqual

  datatype Checked<+T> = Ok(value: T) | Raised(error: AssertError)

  /** `_normalize_rows`. */
  method NormalizeRows(value: Json, title: string) returns (r: Checked<seq<Row>>)
    ensures r == RowsOf(value, title)
  {
    if !value.Arr? {
      return Raised(NotAnArray(title));
    }
    var rows: seq<Row> := [];
    for i := 0 to |value.items|
      invariant RowsFrom(value.items, title, 0, []) == RowsFrom(value.items, title, i, rows)
    {
      if !value.items[i].Obj? {
        return Raised(NotAnObject(title, i));
      }
      rows := rows + [value.items[i].fields];
    }
    r := Ok(rows);
  }

  function RowsFrom(items: seq<Json>, title: string, i: nat, rows: seq<Row>): Checked<seq<Row>>
    requires i <= |items|
    decreases |items| - i
  {
    if i == |items| then Ok(rows)
    else if !items[i].Obj? then Raised(NotAnObject(title, i))
    else RowsFrom(items, title, i + 1, rows + [items[i].fields])
  }

  function RowsOf(value: Json, title: string): Checked<seq<Row>> {
    if !value.Arr? then Raised(NotAnArray(title)) else RowsFrom(value.items, title, 0, [])
  }

  /** A single expected object stands for a list of one. */
  function ExpectedRows(value: Json, title: string): Checked<seq<Row>> {
    if value.Obj? then Ok([value.fields]) else RowsOf(value, title)
  }

  predicate HasKeys(row: Row, keys: seq<string>) { forall k | k in keys :: k in row }

  /** The serialised values of the compare keys; `ser` is `_serialize_value`. */
  function KeyOf(row: Row, keys: seq<string>, ser: Json -> string): seq<string>
    requires HasKeys(row, keys)
  {
    seq(|keys|, i requires 0 <= i < |keys| => ser(row[keys[i]]))
  }

  predicate AllHaveKeys(rows: seq<Row>, keys: seq<string>) { forall i | 0 <= i < |rows| :: HasKeys(rows[i], keys) }

  function KeysOf(rows: seq<Row>, keys: seq<string>, ser: Json -> string): (r: seq<seq<string>>)
    requires AllHaveKeys(rows, keys)
    ensures |r| == |rows| && forall i | 0 <= i < |rows| :: r[i] == KeyOf(rows[i], keys, ser)
  {
    seq(|rows|, i requires 0 <= i < |rows| => KeyOf(rows[i], keys, ser))
  }

  /** `_build_multiset`. */
  method BuildMultiset(rows: seq<Row>, keys: seq<string>, title: string, ser: Json -> string)
    returns (r: Checked<multiset<seq<string>>>)
    ensures AllHaveKeys(rows, keys) ==> r == Ok(multiset(KeysOf(rows, keys, ser)))
    ensures !AllHaveKeys(rows, keys) ==> r == Raised(MissingKeys(title, FirstWithout(rows, keys)))
  {
    hide HasKeys, KeyOf;
    var counter: multiset<seq<string>> := multiset{};
    for i := 0 to |rows|
      invariant AllHaveKeys(rows[..i], keys) && counter == multiset(KeysOf(rows[..i], keys, ser))
    {
      assert forall j | 0 <= j < i :: rows[..i][j] == rows[j];
      if !HasKeys(rows[i], keys) {
        FirstWithoutIs(rows, keys, i);
        return Raised(MissingKeys(title, i));
      }
      assert KeysOf(rows[..i + 1], keys, ser) == KeysOf(rows[..i], keys, ser) + [KeyOf(rows[i], keys, ser)];
      counter := counter + multiset{KeyOf(rows[i], keys, ser)};
    }
    assert rows[..|rows|] == rows;
    r := Ok(counter);
  }

  function FirstWithout(rows: seq<Row>, keys: seq<string>): nat {
    if rows == [] || !HasKeys(rows[0], keys) then 0 else 1 + FirstWithout(rows[1..], keys)
  }

  lemma {:induction false} FirstWithoutIs(rows: seq<Row>, keys: seq<string>, i: nat)
    requires i < |rows| && !HasKeys(rows[i], keys) && forall j | 0 <= j < i :: HasKeys(rows[j], keys)
    ensures FirstWithout(rows, keys) == i
  {
    if i == 0 {
    } else {
      FirstWithoutIs(rows[1..], keys, i - 1);
    }
  }

  const ACTUAL := "Actual data"
  const EXPECTED := "Expected json-array payload"

  datatype Side = Side(value: Json, title: string)

  /** What the two array asserts do before they compare. */
  function Counted(actual: Json, expected: Side, keys: seq<string>, ser: Json -> string):
    Checked<(multiset<seq<string>>, multiset<seq<string>>)>
  {
    if keys == [] then Raised(KeysRequired)
    else match (RowsOf(actual, ACTUAL), ExpectedRows(expected.value, expected.title))
      case (Raised(e), _) => Raised(e)
      case (_, Raised(e)) => Raised(e)
      case (Ok(a), Ok(b)) =>
        if !AllHaveKeys(a, keys) then Raised(MissingKeys(ACTUAL, FirstWithout(a, keys)))
        else if !AllHaveKeys(b, keys) then Raised(MissingKeys(EXPECTED, FirstWithout(b, keys)))
        else Ok((multiset(KeysOf(a, keys, ser)), multiset(KeysOf(b, keys, ser))))
  }

  method CountBoth(actual: Json, expected: Side, keys: seq<string>, ser: Json -> string)
    returns (r: Checked<(multiset<seq<string>>, multiset<seq<string>>)>)
    ensures r == Counted(actual, expected, keys, ser)
  {
    if keys == [] {
      return Raised(KeysRequired);
    }
    var a := NormalizeRows(actual, ACTUAL);
    if a.Raised? {
      return Raised(a.error);
    }
    var b: Checked<seq<Row>>;
    if expected.value.Obj? {
      b := Ok([expected.value.fields]);
    } else {
      b := NormalizeRows(expected.value, expected.title);
    }
    if b.Raised? {
      return Raised(b.error);
    }
    var m := BuildMultiset(a.value, keys, ACTUAL, ser);
    if m.Raised? {
      return Raised(m.error);
    }
    var n := BuildMultiset(b.value, keys, EXPECTED, ser);
    if n.Raised? {
      return Raised(n.error);
    }
    r := Ok((m.value, n.value));
  }

  function ContainsOutcome(actual: Json, expected: Side, keys: seq<string>, ser: Json -> string): Checked<()> {
    match Counted(actual, expected, keys, ser)
    case Raised(e) => Raised(e)
    case Ok((a, b)) => if a <= b then Ok(()) else Raised(NotContained)
  }

  function EqualsOutcome(actual: Json, expected: Side, keys: seq<string>, ser: Json -> string): Checked<()> {
    match Counted(actual, expected, keys, ser)
    case Raised(e) => Raised(e)
    case Ok((a, b)) => if a == b then Ok(()) else Raised(NotEqual)
  }

  /** `JsonArrayContainsDataAssertEvaluator.evaluate`: compares the counts key by key. */
  method EvaluateContains(actual: Json, expected: Side, keys: seq<string>, ser: Json -> string) returns (r: Checked<()>)
    ensures r == ContainsOutcome(actual, expected, keys, ser)
  {
    var both := CountBoth(actual, expected, keys, ser);
    if both.Raised? {
      return Raised(both.error);
    }
    var (a, b) := both.value;
    var left := a;
    while left != multiset{}
      invariant left <= a && forall k | k in a && k !in left :: a[k] <= b[k]
      decreases |left|
    {
      var k :| k in left;
      if a[k] > b[k] {
        return Raised(NotContained);
      }
      left := left[k := 0];
    }
    assert a <= b;
    r := Ok(());
  }

  /** `JsonArrayEqualsDataAssertEvaluator.evaluate`. */
  method EvaluateEquals(actual: Json, expected: Side, keys: seq<string>, ser: Json -> string) returns (r: Checked<()>)
    ensures r == EqualsOutcome(actual, expected, keys, ser)
  {
    var both := CountBoth(actual, expected, keys, ser);
    if both.Raised? {
      return Raised(both.error);
    }
    var (a, b) := both.value;
    r := if a == b then Ok(()) else Raised(NotEqual);
  }

  // ---- pairings ---------------------------------------------------------------------------------

  ghost predicate Distinct(p: seq<nat>) { forall i, j | 0 <= i < j < |p| :: p[i] != p[j] }

  /** `p` pairs each element of `a` with an equal element of `b`, no two with the same one. */
  ghost predicate Pairs<T(!new)>(a: seq<T>, b: seq<T>, p: seq<nat>) {
    |p| == |a| && Distinct(p) && forall i | 0 <= i < |p| :: p[i] < |b| && a[i] == b[p[i]]
  }

  function Remove<T>(b: seq<T>, j: nat): seq<T>
    requires j < |b|
  {
    b[..j] + b[j + 1..]
  }

  lemma RemoveCount<T>(b: seq<T>, j: nat)
    requires j < |b|
    ensures multiset(b) == multiset(Remove(b, j)) + multiset{b[j]}
  {
    assert b == b[..j] + [b[j]] + b[j + 1..];
  }

  function Down(k: nat, j: nat): nat { if k > j then k - 1 else k }

  function Up(k: nat, j: nat): nat { if k >= j then k + 1 else k }

  /** A pairing shows that the counts fit. */
  lemma {:induction false} PairingCounts<T(!new)>(a: seq<T>, b: seq<T>, p: seq<nat>)
    requires Pairs(a, b, p)
    ensures multiset(a) <= multiset(b)
    decreases |a|
  {
    if a == [] {
    } else {
      var n := |a| - 1;
      var j := p[n];
      var c := Remove(b, j);
      var q := seq(n, i requires 0 <= i < n => Down(p[i], j));
      forall i | 0 <= i < n
        ensures q[i] < |c| && a[..n][i] == c[q[i]]
      {
        assert p[i] != j;
      }
      assert Pairs(a[..n], c, q);
      PairingCounts(a[..n], c, q);
      RemoveCount(b, j);
      assert a == a[..n] + [a[n]];
    }
  }

  /** Counts that fit give a pairing. */
  lemma {:induction false} CountsPair<T(!new)>(a: seq<T>, b: seq<T>) returns (p: seq<nat>)
    requires multiset(a) <= multiset(b)
    ensures Pairs(a, b, p)
    decreases |a|
  {
    p := [];
    if a == [] {
    } else {
      var n := |a| - 1;
      assert a == a[..n] + [a[n]];
      assert a[n] in multiset(b);
      var j :| 0 <= j < |b| && b[j] == a[n];
      RemoveCount(b, j);
      var c := Remove(b, j);
      TakeOne(multiset(a[..n]), multiset(c), a[n]);
      var q := CountsPair(a[..n], c);
      p := seq(n, i requires 0 <= i < n => Up(q[i], j)) + [j];
      LiftPairing(a, b, j, q, p);
    }
  }

  lemma TakeOne<T>(m: multiset<T>, k: multiset<T>, x: T)
    requires m + multiset{x} <= k + multiset{x}
    ensures m <= k
  {
    forall y | y in m
      ensures m[y] <= k[y]
    {
      assert (m + multiset{x})[y] <= (k + multiset{x})[y];
    }
  }

  lemma LiftPairing<T(!new)>(a: seq<T>, b: seq<T>, j: nat, q: seq<nat>, p: seq<nat>)
    requires a != [] && j < |b| && b[j] == a[|a| - 1] && Pairs(a[..|a| - 1], Remove(b, j), q)
    requires p == seq(|a| - 1, i requires 0 <= i < |a| - 1 => Up(q[i], j)) + [j]
    ensures Pairs(a, b, p)
  {
    forall i | 0 <= i < |a| - 1
      ensures p[i] < |b| && a[i] == b[p[i]] && p[i] != j
    {
      assert a[..|a| - 1][i] == Remove(b, j)[q[i]];
    }
    forall i, k | 0 <= i < k < |p|
      ensures p[i] != p[k]
    {
      if k < |a| - 1 {
        assert q[i] != q[k];
      }
    }
  }

  ghost function Below(n: nat): (s: set<nat>)
    ensures |s| == n && forall i: nat :: i in s <==> i < n
  {
    if n == 0 then {} else Below(n - 1) + {n - 1}
  }

  ghost function SetOf(p: seq<nat>): (s: set<nat>)
    ensures forall x :: x in s <==> x in p
  {
    if p == [] then {}
    else
      assert p == p[..|p| - 1] + [p[|p| - 1]];
      SetOf(p[..|p| - 1]) + {p[|p| - 1]}
  }

  lemma {:induction false} DistinctSize(p: seq<nat>)
    requires Distinct(p)
    ensures |SetOf(p)| == |p|
  {
    if p == [] {
    } else {
      DistinctSize(p[..|p| - 1]);
      assert p[|p| - 1] !in p[..|p| - 1];
    }
  }

  /** A one-to-one pairing between lists of the same length is onto. */
  lemma PairingIsOnto<T(!new)>(a: seq<T>, b: seq<T>, p: seq<nat>)
    requires Pairs(a, b, p) && |a| == |b|
    ensures forall j: nat | j < |b| :: j in p
  {
    DistinctSize(p);
    forall j: nat | j < |b|
      ensures j in p
    {
      if j !in p {
        SubsetSize(SetOf(p), Below(|b|) - {j});
      }
    }
  }

  lemma SubsetSize(s: set<nat>, t: set<nat>)
    requires s <= t
    ensures |s| <= |t|
  {
    assert t == s + (t - s);
  }

  // ---- the asserts ------------------------------------------------------------------------------

  /** The rows agree on all compare keys. */
  ghost predicate Agree(a: Row, b: Row, keys: seq<string>, ser: Json -> string) {
    HasKeys(a, keys) && HasKeys(b, keys) && forall k | k in keys :: ser(a[k]) == ser(b[k])
  }

  /** `p` pairs each actual row with an expected row that agrees, no two with the same one. */
  ghost predicate RowPairing(a: seq<Row>, b: seq<Row>, keys: seq<string>, ser: Json -> string, p: seq<nat>) {
    |p| == |a| && Distinct(p) && forall i | 0 <= i < |p| :: p[i] < |b| && Agree(a[i], b[p[i]], keys, ser)
  }

  lemma AgreeIsSameKey(a: Row, b: Row, keys: seq<string>, ser: Json -> string)
    requires HasKeys(a, keys) && HasKeys(b, keys)
    ensures Agree(a, b, keys, ser) <==> KeyOf(a, keys, ser) == KeyOf(b, keys, ser)
  {
    if KeyOf(a, keys, ser) == KeyOf(b, keys, ser) {
      forall k | k in keys
        ensures ser(a[k]) == ser(b[k])
      {
        var i :| 0 <= i < |keys| && keys[i] == k;
        assert KeyOf(a, keys, ser)[i] == KeyOf(b, keys, ser)[i];
      }
    }
  }

  lemma PairingOfKeys(a: seq<Row>, b: seq<Row>, keys: seq<string>, ser: Json -> string, p: seq<nat>)
    requires AllHaveKeys(a, keys) && AllHaveKeys(b, keys)
    ensures RowPairing(a, b, keys, ser, p) <==> Pairs(KeysOf(a, keys, ser), KeysOf(b, keys, ser), p)
  {
    hide KeyOf, Agree, HasKeys;
    forall i, j | 0 <= i < |a| && 0 <= j < |b|
      ensures Agree(a[i], b[j], keys, ser) <==> KeysOf(a, keys, ser)[i] == KeysOf(b, keys, ser)[j]
    {
      AgreeIsSameKey(a[i], b[j], keys, ser);
    }
  }

  lemma {:induction false} RowsFromItems(items: seq<Json>, title: string, i: nat, rows: seq<Row>)
    requires i <= |items| && |rows| == i && forall k | 0 <= k < i :: items[k] == Obj(rows[k])
    ensures var r := RowsFrom(items, title, i, rows);
            if forall k | 0 <= k < |items| :: items[k].Obj?
            then r.Ok? && |r.value| == |items| && forall k | 0 <= k < |items| :: items[k] == Obj(r.value[k])
            else r.Raised? && r.error.NotAnObject?
    decreases |items| - i
  {
    if i >= |items| || !items[i].Obj? {
    } else {
      RowsFromItems(items, title, i + 1, rows + [items[i].fields]);
    }
  }

  function AsArray(rows: seq<Row>): Json { Arr(seq(|rows|, i requires 0 <= i < |rows| => Obj(rows[i]))) }

  lemma RowsOfArray(rows: seq<Row>, title: string)
    ensures RowsOf(AsArray(rows), title) == Ok(rows)
  {
    var v := AsArray(rows);
    RowsFromItems(v.items, title, 0, []);
    var r := RowsOf(v, title);
    assert r.value == rows;
  }

  lemma CountedRows(a: seq<Row>, b: seq<Row>, title: string, keys: seq<string>, ser: Json -> string)
    requires keys != []
    ensures var r := Counted(AsArray(a), Side(AsArray(b), title), keys, ser);
            if AllHaveKeys(a, keys) && AllHaveKeys(b, keys)
            then r == Ok((multiset(KeysOf(a, keys, ser)), multiset(KeysOf(b, keys, ser))))
            else r.Raised? && r.error.MissingKeys?
  {
    hide AllHaveKeys, RowsOf, KeysOf;
    RowsOfArray(a, ACTUAL);
    RowsOfArray(b, title);
    assert AsArray(b).Arr?;
  }

  /** The contains assert passes exactly when the actual rows can be paired one-to-one into the expected
      rows, agreeing on all compare keys. */
  lemma ContainsDecidesPairing(a: seq<Row>, b: seq<Row>, title: string, keys: seq<string>, ser: Json -> string)
    requires keys != [] && AllHaveKeys(a, keys) && AllHaveKeys(b, keys)
    ensures ContainsOutcome(AsArray(a), Side(AsArray(b), title), keys, ser).Ok? <==>
            exists p :: RowPairing(a, b, keys, ser, p)
  {
    hide AllHaveKeys, KeysOf, RowPairing, Counted, Pairs;
    CountedRows(a, b, title, keys, ser);
    var ka, kb := KeysOf(a, keys, ser), KeysOf(b, keys, ser);
    if multiset(ka) <= multiset(kb) {
      var p := CountsPair(ka, kb);
      PairingOfKeys(a, b, keys, ser, p);
    }
    if exists p :: RowPairing(a, b, keys, ser, p) {
      var p :| RowPairing(a, b, keys, ser, p);
      PairingOfKeys(a, b, keys, ser, p);
      PairingCounts(ka, kb, p);
    }
  }

  lemma SameSizeCounts<T(!new)>(a: seq<T>, b: seq<T>)
    ensures multiset(a) == multiset(b) <==> multiset(a) <= multiset(b) && |a| == |b|
  {
    if multiset(a) <= multiset(b) && |a| == |b| {
      var d := multiset(b) - multiset(a);
      assert multiset(b) == multiset(a) + d;
      assert |multiset(b)| == |multiset(a)| + |d|;
    }
    if multiset(a) == multiset(b) {
      assert |a| == |multiset(a)| == |multiset(b)| == |b|;
    }
  }

  /** The equals assert passes exactly when a pairing exists that is one-to-one and onto. */
  lemma EqualsDecidesPairing(a: seq<Row>, b: seq<Row>, title: string, keys: seq<string>, ser: Json -> string)
    requires keys != [] && AllHaveKeys(a, keys) && AllHaveKeys(b, keys)
    ensures EqualsOutcome(AsArray(a), Side(AsArray(b), title), keys, ser).Ok? <==>
            exists p :: RowPairing(a, b, keys, ser, p) && |a| == |b|
    ensures forall p | RowPairing(a, b, keys, ser, p) && |a| == |b| :: forall j: nat | j < |b| :: j in p
  {
    hide AllHaveKeys, KeysOf, RowPairing, Counted, Pairs;
    CountedRows(a, b, title, keys, ser);
    ContainsDecidesPairing(a, b, title, keys, ser);
    var ka, kb := KeysOf(a, keys, ser), KeysOf(b, keys, ser);
    SameSizeCounts(ka, kb);
    forall p | RowPairing(a, b, keys, ser, p) && |a| == |b|
      ensures forall j: nat | j < |b| :: j in p
    {
      PairingOfKeys(a, b, keys, ser, p);
      PairingIsOnto(ka, kb, p);
    }
  }

  /** Neither assert looks at the order of the rows, on either side. */
  lemma OrderIsIrrelevant(a: seq<Row>, a': seq<Row>, b: seq<Row>, b': seq<Row>, title: string, keys: seq<string>,
                          ser: Json -> string)
    requires multiset(a) == multiset(a') && multiset(b) == multiset(b')
    ensures ContainsOutcome(AsArray(a), Side(AsArray(b), title), keys, ser).Ok? <==>
            ContainsOutcome(AsArray(a'), Side(AsArray(b'), title), keys, ser).Ok?
    ensures EqualsOutcome(AsArray(a), Side(AsArray(b), title), keys, ser).Ok? <==>
            EqualsOutcome(AsArray(a'), Side(AsArray(b'), title), keys, ser).Ok?
  {
    hide AllHaveKeys, KeysOf;
    if keys != [] {
      CountedRows(a, b, title, keys, ser);
      CountedRows(a', b', title, keys, ser);
      SameRows(a, a', keys, ser);
      SameRows(b, b', keys, ser);
    }
  }

  lemma SameRows(a: seq<Row>, a': seq<Row>, keys: seq<string>, ser: Json -> string)
    requires multiset(a) == multiset(a')
    ensures AllHaveKeys(a, keys) <==> AllHaveKeys(a', keys)
    ensures AllHaveKeys(a, keys) ==> multiset(KeysOf(a, keys, ser)) == multiset(KeysOf(a', keys, ser))
  {
    hide HasKeys, KeyOf;
    forall r
      ensures r in a <==> r in a'
    {
      assert r in a <==> r in multiset(a);
      assert r in a' <==> r in multiset(a');
    }
    assert AllHaveKeys(a, keys) <==> forall r | r in a :: HasKeys(r, keys);
    assert AllHaveKeys(a', keys) <==> forall r | r in a' :: HasKeys(r, keys);
    if AllHaveKeys(a, keys) {
      MappedCounts(a, a', keys, ser);
    }
  }

  lemma MappedCounts(a: seq<Row>, a': seq<Row>, keys: seq<string>, ser: Json -> string)
    requires multiset(a) == multiset(a') && AllHaveKeys(a, keys) && AllHaveKeys(a', keys)
    ensures multiset(KeysOf(a, keys, ser)) == multiset(KeysOf(a', keys, ser))
  {
    hide HasKeys, KeyOf;
    SameSizeCounts(a, a');
    var p := CountsPair(a, a');
    assert Pairs(KeysOf(a, keys, ser), KeysOf(a', keys, ser), p);
    PairingCounts(KeysOf(a, keys, ser), KeysOf(a', keys, ser), p);
    SameSizeCounts(KeysOf(a, keys, ser), KeysOf(a', keys, ser));
  }

  /** Containment both ways is equality. */
  lemma MutualContainment(a: seq<Row>, b: seq<Row>, title: string, keys: seq<string>, ser: Json -> string)
    ensures EqualsOutcome(AsArray(a), Side(AsArray(b), title), keys, ser).Ok? <==>
            && ContainsOutcome(AsArray(a), Side(AsArray(b), title), keys, ser).Ok?
            && ContainsOutcome(AsArray(b), Side(AsArray(a), title), keys, ser).Ok?
  {
    hide AllHaveKeys, KeysOf;
    if keys != [] {
      CountedRows(a, b, title, keys, ser);
      CountedRows(b, a, title, keys, ser);
    }
  }
}
