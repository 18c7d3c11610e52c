/** Which rows a template takes from its input: one for each record of a dataset, and what the forEach path
    reaches in a JSON value, element by element when it is a list. */
module TemplateSources {
  import opened PyText
  import opened TemplateFlatten
  import opened TemplateRows

  lemma {:induction false} FilledAppend(a: seq<Value>, b: seq<Value>)
    ensures FilledRows(a + b) == FilledRows(a) + FilledRows(b)
    decreases |a|
  {
    hide Flatten;
    if a == [] {
      assert a + b == b;
    } else {
      assert (a + b)[0] == a[0] && (a + b)[1..] == a[1..] + b;
      FilledAppend(a[1..], b);
    }
  }

  lemma {:induction false} ExtractAppend(a: seq<Value>, b: seq<Value>, forEach: string)
    ensures ExtractEach(a + b, forEach) == ExtractEach(a, forEach) + ExtractEach(b, forEach)
    decreases |a|
  {
    hide Extract;
    if a == [] {
      assert a + b == b;
    } else {
      assert (a + b)[0] == a[0] && (a + b)[1..] == a[1..] + b;
      ExtractAppend(a[1..], b, forEach);
    }
  }

  lemma FilledOne(item: Value)
    ensures FilledRows([item]) == if Flatten(item, []) == map[] then [] else [Flatten(item, [])]
  {
    hide Flatten;
    assert [item][1..] == [];
  }

  lemma ExtractOne(item: Value, forEach: string)
    ensures ExtractEach([item], forEach) == Extract(item, forEach)
  {
    hide Extract;
    assert [item][1..] == [];
  }

  /** A dataset gives one row for each record that has any field, in order; a single record gives its row
      even when it has none; anything else gives no row. */
  lemma DatasetIsRead(before: seq<Value>, item: Value, after: seq<Value>, forEach: string)
    ensures PreviewRows(List(before + [item] + after), DatasetSource, forEach) ==
            PreviewRows(List(before), DatasetSource, forEach)
            + (if HasFields(item) then [Flatten(item, [])] else [])
            + PreviewRows(List(after), DatasetSource, forEach)
    ensures PreviewRows(List([]), DatasetSource, forEach) == []
    ensures item.Dict? ==> PreviewRows(item, DatasetSource, forEach) == [Flatten(item, [])]
    ensures item.Scalar? ==> PreviewRows(item, DatasetSource, forEach) == []
  {
    hide Flatten, FilledRows;
    FilledAppend(before + [item], after);
    FilledAppend(before, [item]);
    FilledOne(item);
    FieldsAreFlattened(item);
    NothingFilled();
  }

  lemma NothingFilled()
    ensures FilledRows([]) == []
  {
  }

  /** A JSON array gives what the path reaches in each element, in order; so does every other list. A value
      that is no list gives what the path reaches in it, but for a JSON array nothing. */
  lemma ArrayIsRead(before: seq<Value>, item: Value, after: seq<Value>, source: SourceType, forEach: string)
    requires !source.DatasetSource?
    ensures PreviewRows(List(before + [item] + after), source, forEach) ==
            PreviewRows(List(before), source, forEach) + Extract(item, forEach) + PreviewRows(List(after), source, forEach)
    ensures PreviewRows(List([]), source, forEach) == []
    ensures !item.List? ==> PreviewRows(item, source, forEach) == if source.JsonArraySource? then [] else Extract(item, forEach)
  {
    hide Extract, ExtractEach;
    ExtractAppend(before + [item], after, forEach);
    ExtractAppend(before, [item], forEach);
    ExtractOne(item, forEach);
    NothingExtracted(forEach);
  }

  lemma NothingExtracted(forEach: string)
    ensures ExtractEach([], forEach) == []
  {
  }

  /** A record with a key that is not blank. */
  predicate HasFields(v: Value) { v.Dict? && exists i :: 0 <= i < |v.pairs| && Strip(v.pairs[i].key) != [] }

  lemma FieldsAreFlattened(v: Value)
    ensures Flatten(v, []) == map[] <==> !HasFields(v)
  {
    hide Strip;
    if v.Dict? {
      PairsAreFlattened(v.pairs);
    }
  }

  lemma {:induction false} PairsAreFlattened(pairs: seq<Pair>)
    ensures FlattenPairs(pairs, []) == map[] <==> forall i | 0 <= i < |pairs| :: Strip(pairs[i].key) == []
    decreases |pairs|
  {
    hide Strip;
    if pairs == [] {
    } else {
      var last, init := pairs[|pairs| - 1], pairs[..|pairs| - 1];
      PairsAreFlattened(init);
      if Strip(last.key) != [] {
        assert Strip(last.key) in Flatten(last.value, Join([], Strip(last.key)));
        assert Strip(last.key) in FlattenPairs(pairs, []);
      }
      assert forall i | 0 <= i < |init| :: init[i] == pairs[i];
    }
  }
}
