/** The errors of the two array asserts, in the order in which they are looked for. */
module AssertErrors {
  import opened Json
  import opened JsonAsserts

  /** Both asserts raise the error. */
  predicate Fails(error: AssertError, actual: Json, expected: Side, keys: seq<string>, ser: Json -> string) {
    ContainsOutcome(actual, expected, keys, ser) == Raised(error) && EqualsOutcome(actual, expected, keys, ser) == Raised(error)
  }

  predicate IsFirstOther(items: seq<Json>, i: nat) {
    i < |items| && !items[i].Obj? && forall j | 0 <= j < i :: items[j].Obj?
  }

  predicate IsFirstLacking(rows: seq<Row>, keys: seq<string>, i: nat) {
    && i < |rows| && (exists k :: k in keys && k !in rows[i])
    && forall j, k | 0 <= j < i && k in keys :: k in rows[j]
  }

  lemma {:induction false} RowsStop(items: seq<Json>, title: string, i: nat, rows: seq<Row>, n: nat)
    requires i <= n && IsFirstOther(items, n)
    ensures RowsFrom(items, title, i, rows) == Raised(NotAnObject(title, n))
    decreases n - i
  {
    if i == n {
    } else {
      RowsStop(items, title, i + 1, rows + [items[i].fields], n);
    }
  }

  lemma FirstLacking(rows: seq<Row>, keys: seq<string>, i: nat)
    requires IsFirstLacking(rows, keys, i)
    ensures !AllHaveKeys(rows, keys) && FirstWithout(rows, keys) == i
  {
    forall j | 0 <= j < i
      ensures HasKeys(rows[j], keys)
    {
    }
    assert !HasKeys(rows[i], keys);
    FirstWithoutIs(rows, keys, i);
  }

  /** Keys are asked for first, then an array of objects as the actual data, then one, or a single object,
      as the expected data. */
  lemma ShapesAreChecked(actual: Json, expected: Side, keys: seq<string>, ser: Json -> string, a: seq<Row>, i: nat)
    ensures keys == [] ==> Fails(KeysRequired, actual, expected, keys, ser)
    ensures keys != [] && !actual.Arr? ==> Fails(NotAnArray("Actual data"), actual, expected, keys, ser)
    ensures keys != [] && actual.Arr? && IsFirstOther(actual.items, i) ==> Fails(NotAnObject("Actual data", i), actual, expected, keys, ser)
    ensures keys != [] && actual == AsArray(a) && !expected.value.Arr? && !expected.value.Obj? ==>
              Fails(NotAnArray(expected.title), actual, expected, keys, ser)
    ensures keys != [] && actual == AsArray(a) && expected.value.Arr? && IsFirstOther(expected.value.items, i) ==>
              Fails(NotAnObject(expected.title, i), actual, expected, keys, ser)
  {
    hide RowsFrom, AsArray, AllHaveKeys, KeysOf;
    if actual.Arr? && IsFirstOther(actual.items, i) {
      RowsStop(actual.items, "Actual data", 0, [], i);
    }
    if expected.value.Arr? && IsFirstOther(expected.value.items, i) {
      RowsStop(expected.value.items, expected.title, 0, [], i);
    }
    RowsOfArray(a, "Actual data");
  }

  /** Then every actual row, and every expected row, must have all the keys. With that the asserts can only
      fail for what they compare. */
  lemma KeysAreChecked(a: seq<Row>, b: seq<Row>, title: string, keys: seq<string>, ser: Json -> string, i: nat)
    requires keys != []
    ensures IsFirstLacking(a, keys, i) ==> Fails(MissingKeys("Actual data", i), AsArray(a), Side(AsArray(b), title), keys, ser)
    ensures AllHaveKeys(a, keys) && IsFirstLacking(b, keys, i) ==>
              Fails(MissingKeys("Expected json-array payload", i), AsArray(a), Side(AsArray(b), title), keys, ser)
    ensures AllHaveKeys(a, keys) && AllHaveKeys(b, keys) ==>
              && ContainsOutcome(AsArray(a), Side(AsArray(b), title), keys, ser) in {Ok(()), Raised(NotContained)}
              && EqualsOutcome(AsArray(a), Side(AsArray(b), title), keys, ser) in {Ok(()), Raised(NotEqual)}
  {
    hide RowsFrom, AsArray, AllHaveKeys, KeysOf, FirstWithout, RowsOf;
    RowsOfArray(a, "Actual data");
    RowsOfArray(b, title);
    ArrayIsNoObject(b);
    if IsFirstLacking(a, keys, i) {
      FirstLacking(a, keys, i);
    }
    if IsFirstLacking(b, keys, i) {
      FirstLacking(b, keys, i);
    }
  }

  lemma ArrayIsNoObject(b: seq<Row>)
    ensures AsArray(b).Arr?
  {
  }

  /** A single expected object is compared as a list of one. */
  lemma OneObjectIsAList(actual: Json, fields: Row, title: string, keys: seq<string>, ser: Json -> string)
    ensures ContainsOutcome(actual, Side(Obj(fields), title), keys, ser) == ContainsOutcome(actual, Side(AsArray([fields]), title), keys, ser)
    ensures EqualsOutcome(actual, Side(Obj(fields), title), keys, ser) == EqualsOutcome(actual, Side(AsArray([fields]), title), keys, ser)
  {
    hide RowsFrom, AllHaveKeys, KeysOf, FirstWithout, RowsOf;
    RowsOfArray([fields], title);
  }
}
