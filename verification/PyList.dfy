/** Python's stable `sort`, and the order of strings. */
module PyList {

  ghost predicate TotalPreorder<T(!new)>(leq: (T, T) -> bool) {
    && (forall a, b :: leq(a, b) || leq(b, a))
    && forall a, b, c :: leq(a, b) && leq(b, c) ==> leq(a, c)
  }

  ghost predicate SortedBy<T>(xs: seq<T>, leq: (T, T) -> bool) {
    forall i, j | 0 <= i < j < |xs| :: leq(xs[i], xs[j])
  }

  /** `x` goes before the elements it ties with. */
  function Insert<T>(x: T, xs: seq<T>, leq: (T, T) -> bool): (r: seq<T>)
    ensures |r| == |xs| + 1 && multiset(r) == multiset{x} + multiset(xs)
  {
    if xs == [] || leq(x, xs[0]) then [x] + xs
    else
      assert xs == [xs[0]] + xs[1..];
      [xs[0]] + Insert(x, xs[1..], leq)
  }

  /** `sorted(xs, key=...)` with `leq` comparing the keys. */
  function SortBy<T>(xs: seq<T>, leq: (T, T) -> bool): (r: seq<T>)
    ensures |r| == |xs| && multiset(r) == multiset(xs)
  {
    if xs == [] then []
    else
      assert xs == [xs[0]] + xs[1..];
      Insert(xs[0], SortBy(xs[1..], leq), leq)
  }

  lemma MultisetMembers<T>(xs: seq<T>, ys: seq<T>)
    requires multiset(xs) == multiset(ys)
    ensures forall x :: x in xs <==> x in ys
  {
    forall x
      ensures x in xs <==> x in ys
    {
      assert x in xs <==> x in multiset(xs);
      assert x in ys <==> x in multiset(ys);
    }
  }

  lemma OneLess<T>(xs: seq<T>, k: nat)
    requires k < |xs|
    ensures multiset(xs[..k] + xs[k + 1..]) == multiset(xs) - multiset{xs[k]}
  {
    assert xs == xs[..k] + [xs[k]] + xs[k + 1..];
  }

  /** Two lists of the same elements stay so without one element that both have. */
  lemma SameRest<T>(xs: seq<T>, ys: seq<T>, k: nat)
    requires k < |xs| && ys != [] && multiset(xs) == multiset(ys) && xs[k] == ys[0]
    ensures multiset(xs[..k] + xs[k + 1..]) == multiset(ys[1..])
  {
    OneLess(xs, k);
    HeadLess(ys);
  }

  lemma HeadLess<T>(xs: seq<T>)
    requires xs != []
    ensures multiset(xs[1..]) == multiset(xs) - multiset{xs[0]}
  {
    assert xs == [xs[0]] + xs[1..];
  }

  lemma TwoSwapped<T>(a: T, b: T, c: T)
    ensures multiset([a, b, c]) == multiset([b, a, c])
  {
    assert [a, b, c] == [a] + [b] + [c] && [b, a, c] == [b] + [a] + [c];
  }

  lemma {:induction false} InsertIsSorted<T(!new)>(x: T, xs: seq<T>, leq: (T, T) -> bool)
    requires TotalPreorder(leq) && SortedBy(xs, leq)
    ensures SortedBy(Insert(x, xs, leq), leq)
    decreases |xs|
  {
    if xs == [] || leq(x, xs[0]) {
    } else {
      InsertIsSorted(x, xs[1..], leq);
      var rest := Insert(x, xs[1..], leq);
      forall j | 0 <= j < |rest|
        ensures leq(xs[0], rest[j])
      {
        assert rest[j] in multiset(rest);
        assert rest[j] == x || rest[j] in xs[1..];
      }
    }
  }

  lemma {:induction false} SortByIsSorted<T(!new)>(xs: seq<T>, leq: (T, T) -> bool)
    requires TotalPreorder(leq)
    ensures SortedBy(SortBy(xs, leq), leq)
    decreases |xs|
  {
    if xs == [] {
    } else {
      SortByIsSorted(xs[1..], leq);
      InsertIsSorted(xs[0], SortBy(xs[1..], leq), leq);
    }
  }

  ghost predicate NoTies<T>(xs: seq<T>, leq: (T, T) -> bool) {
    forall i, j | 0 <= i < |xs| && 0 <= j < |xs| :: leq(xs[i], xs[j]) && leq(xs[j], xs[i]) ==> xs[i] == xs[j]
  }

  lemma HeadsAgree<T>(xs: seq<T>, ys: seq<T>, leq: (T, T) -> bool)
    requires xs != [] && ys != [] && ys[0] in xs && xs[0] in ys
    requires SortedBy(xs, leq) && SortedBy(ys, leq) && NoTies(xs, leq)
    ensures xs[0] == ys[0]
  {
    var i :| 0 <= i < |xs| && xs[i] == ys[0];
    var j :| 0 <= j < |ys| && ys[j] == xs[0];
    if i > 0 && j > 0 {
      assert leq(xs[0], xs[i]) && leq(ys[0], ys[j]);
    }
  }

  /** Two sorted listings of the same elements are equal when no two elements tie. */
  lemma {:induction false} SortedIsUnique<T>(xs: seq<T>, ys: seq<T>, leq: (T, T) -> bool)
    requires multiset(xs) == multiset(ys) && SortedBy(xs, leq) && SortedBy(ys, leq) && NoTies(xs, leq)
    ensures xs == ys
    decreases |xs|
  {
    hide NoTies, SortedBy;
    MultisetMembers(xs, ys);
    assert |ys| == |multiset(ys)| == |multiset(xs)| == |xs|;
    if xs == [] {
    } else {
      assert ys[0] in ys && xs[0] in xs;
      HeadsAgree(xs, ys, leq);
      assert xs == [xs[0]] + xs[1..] && ys == [ys[0]] + ys[1..];
      assert multiset(xs[1..]) == multiset(xs) - multiset{xs[0]};
      TailStaysSorted(xs, leq);
      TailStaysSorted(ys, leq);
      SortedIsUnique(xs[1..], ys[1..], leq);
    }
  }

  lemma TailStaysSorted<T>(xs: seq<T>, leq: (T, T) -> bool)
    requires xs != []
    ensures SortedBy(xs, leq) ==> SortedBy(xs[1..], leq)
    ensures NoTies(xs, leq) ==> NoTies(xs[1..], leq)
  {
  }

  /** Sorting what is sorted changes nothing. */
  lemma {:induction false} SortBySorted<T>(xs: seq<T>, leq: (T, T) -> bool)
    requires SortedBy(xs, leq)
    ensures SortBy(xs, leq) == xs
    decreases |xs|
  {
    if |xs| <= 1 {
    } else {
      SortBySorted(xs[1..], leq);
      assert leq(xs[0], xs[1]);
    }
  }

  predicate LexLeq(a: string, b: string) {
    a == [] || (b != [] && (a[0] < b[0] || (a[0] == b[0] && LexLeq(a[1..], b[1..]))))
  }

  lemma {:induction false} LexTotal(a: string, b: string)
    ensures LexLeq(a, b) || LexLeq(b, a)
    ensures LexLeq(a, b) && LexLeq(b, a) ==> a == b
  {
    if a == [] || b == [] || a[0] != b[0] {
    } else {
      LexTotal(a[1..], b[1..]);
      assert a == [a[0]] + a[1..] && b == [b[0]] + b[1..];
    }
  }

  lemma {:induction false} LexTransitive(a: string, b: string, c: string)
    requires LexLeq(a, b) && LexLeq(b, c)
    ensures LexLeq(a, c)
  {
    if a == [] || a[0] != b[0] || b[0] != c[0] {
    } else {
      LexTransitive(a[1..], b[1..], c[1..]);
    }
  }
}
