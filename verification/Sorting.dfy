/** The stable sort that Python's sorted() and list.sort() promise, and what determines it. */
module Sorting {
  import opened Wrappers

  ghost predicate TotalPreorder<T(!new)>(le: (T, T) -> bool) {
    && (forall x, y :: le(x, y) || le(y, x))
    && (forall x, y, z :: le(x, y) && le(y, z) ==> le(x, z))
  }

  ghost predicate Sorted<T>(le: (T, T) -> bool, xs: seq<T>) {
    forall i, j | 0 <= i < j < |xs| :: le(xs[i], xs[j])
  }

  /** Elements that sort equal to `x`. */
  function Ties<T>(le: (T, T) -> bool, x: T): T -> bool { y => le(x, y) && le(y, x) }

  /** Put `x` behind every element that sorts equal to it. */
  function Insert<T>(le: (T, T) -> bool, x: T, xs: seq<T>): seq<T> {
    if xs == [] || le(xs[|xs| - 1], x) then xs + [x]
    else Insert(le, x, xs[..|xs| - 1]) + [xs[|xs| - 1]]
  }

  function StableSort<T>(le: (T, T) -> bool, xs: seq<T>): seq<T> {
    if xs == [] then [] else Insert(le, xs[|xs| - 1], StableSort(le, xs[..|xs| - 1]))
  }

  /** Sorted, and the elements that sort equal to any given one keep their order. */
  ghost predicate IsStableSortOf<T(!new)>(le: (T, T) -> bool, sorted: seq<T>, xs: seq<T>) {
    && Sorted(le, sorted)
    && multiset(sorted) == multiset(xs)
    && forall x :: Filter(Ties(le, x), sorted) == Filter(Ties(le, x), xs)
  }

  lemma {:induction false} InsertKeepsElements<T>(le: (T, T) -> bool, x: T, xs: seq<T>)
    ensures multiset(Insert(le, x, xs)) == multiset(xs) + multiset{x}
  {
    if xs != [] && !le(xs[|xs| - 1], x) {
      InsertKeepsElements(le, x, xs[..|xs| - 1]);
      assert xs == xs[..|xs| - 1] + [xs[|xs| - 1]];
    }
  }

  lemma {:induction false} InsertSorted<T(!new)>(le: (T, T) -> bool, x: T, xs: seq<T>)
    requires TotalPreorder(le) && Sorted(le, xs)
    ensures Sorted(le, Insert(le, x, xs))
  {
    if xs != [] && !le(xs[|xs| - 1], x) {
      var most, last := xs[..|xs| - 1], xs[|xs| - 1];
      InsertSorted(le, x, most);
      InsertKeepsElements(le, x, most);
      forall y | y in Insert(le, x, most) ensures le(y, last) {
        assert y in multiset(Insert(le, x, most));
        assert y in most || y == x;
      }
    }
  }

  lemma {:induction false} InsertKeepsTies<T(!new)>(le: (T, T) -> bool, x: T, xs: seq<T>, z: T)
    requires TotalPreorder(le) && Sorted(le, xs)
    ensures Filter(Ties(le, z), Insert(le, x, xs)) == Filter(Ties(le, z), xs + [x])
  {
    hide Filter;
    if xs != [] && !le(xs[|xs| - 1], x) {
      var p, most, last := Ties(le, z), xs[..|xs| - 1], xs[|xs| - 1];
      InsertKeepsTies(le, x, most, z);
      FilterSnoc(p, Insert(le, x, most), last);
      FilterSnoc(p, most, x);
      FilterSnoc(p, xs, x);
      FilterSnoc(p, most, last);
      assert xs == most + [last];
    }
  }

  lemma {:induction false} SortIsStable<T(!new)>(le: (T, T) -> bool, xs: seq<T>)
    requires TotalPreorder(le)
    ensures IsStableSortOf(le, StableSort(le, xs), xs)
  {
    if xs != [] {
      var most, last := xs[..|xs| - 1], xs[|xs| - 1];
      SortIsStable(le, most);
      InsertKeepsElements(le, last, StableSort(le, most));
      InsertSorted(le, last, StableSort(le, most));
      assert xs == most + [last];
      forall z ensures Filter(Ties(le, z), StableSort(le, xs)) == Filter(Ties(le, z), xs) {
        InsertKeepsTies(le, last, StableSort(le, most), z);
        FilterSnoc(Ties(le, z), StableSort(le, most), last);
        FilterSnoc(Ties(le, z), most, last);
      }
    }
  }

  ghost predicate SameTies<T(!new)>(le: (T, T) -> bool, xs: seq<T>, ys: seq<T>) {
    forall z :: Filter(Ties(le, z), xs) == Filter(Ties(le, z), ys)
  }

  /** There is only one stable sort. */
  lemma {:induction false} StableSortIsUnique<T(!new)>(le: (T, T) -> bool, xs: seq<T>, ys: seq<T>)
    requires TotalPreorder(le) && Sorted(le, xs) && Sorted(le, ys) && SameTies(le, xs, ys)
    ensures xs == ys
  {
    if xs != [] && ys != [] {
      SameLast(le, xs, ys);
      SameTiesBeforeLast(le, xs, ys);
      StableSortIsUnique(le, xs[..|xs| - 1], ys[..|ys| - 1]);
    } else if xs != [] {
      TiesToNothing(le, xs);
    } else if ys != [] {
      TiesToNothing(le, ys);
    }
  }

  lemma TiesToNothing<T(!new)>(le: (T, T) -> bool, xs: seq<T>)
    requires TotalPreorder(le) && xs != []
    ensures !SameTies(le, xs, []) && !SameTies(le, [], xs)
  {
    assert Ties(le, xs[0])(xs[0]);
    assert xs[0] in Filter(Ties(le, xs[0]), xs);
  }

  lemma SameLast<T(!new)>(le: (T, T) -> bool, xs: seq<T>, ys: seq<T>)
    requires TotalPreorder(le) && Sorted(le, xs) && Sorted(le, ys) && SameTies(le, xs, ys)
    requires xs != [] && ys != []
    ensures xs[|xs| - 1] == ys[|ys| - 1]
  {
    var x, y := xs[|xs| - 1], ys[|ys| - 1];
    var p, q := Ties(le, x), Ties(le, y);
    assert p(x) && q(y);
    assert x in Filter(p, xs) && Filter(p, xs) == Filter(p, ys);
    assert y in Filter(q, ys) && Filter(q, xs) == Filter(q, ys);
    assert x in ys && y in xs;
    assert le(x, y) && le(y, x);
    FilterLast(p, xs);
    FilterLast(p, ys);
    assert Filter(p, xs)[|Filter(p, xs)| - 1] == x;
    assert Filter(p, ys)[|Filter(p, ys)| - 1] == y;
  }

  lemma SameTiesBeforeLast<T(!new)>(le: (T, T) -> bool, xs: seq<T>, ys: seq<T>)
    requires xs != [] && ys != [] && xs[|xs| - 1] == ys[|ys| - 1] && SameTies(le, xs, ys)
    ensures SameTies(le, xs[..|xs| - 1], ys[..|ys| - 1])
  {
    var xs', ys' := xs[..|xs| - 1], ys[..|ys| - 1];
    forall z ensures Filter(Ties(le, z), xs') == Filter(Ties(le, z), ys') {
      var p := Ties(le, z);
      FilterLast(p, xs);
      FilterLast(p, ys);
      assert Filter(p, xs) == Filter(p, ys);
      if p(xs[|xs| - 1]) {
        assert Filter(p, xs') == Filter(p, xs)[..|Filter(p, xs)| - 1];
        assert Filter(p, ys') == Filter(p, ys)[..|Filter(p, ys)| - 1];
      }
    }
  }

  predicate Distinct<T(==)>(xs: seq<T>) { forall i, j | 0 <= i < j < |xs| :: xs[i] != xs[j] }

  lemma {:induction false} FilterDistinct<T(!new)>(p: T -> bool, xs: seq<T>)
    requires Distinct(xs)
    ensures Distinct(Filter(p, xs))
  {
    if xs != [] {
      var most, last := xs[..|xs| - 1], xs[|xs| - 1];
      FilterDistinct(p, most);
      FilterLast(p, xs);
      var kept := Filter(p, most);
      forall i | 0 <= i < |kept| ensures kept[i] != last {
        assert kept[i] in most;
      }
    }
  }

  lemma {:induction false} InsertDistinct<T>(le: (T, T) -> bool, x: T, xs: seq<T>)
    requires Distinct(xs) && x !in xs
    ensures Distinct(Insert(le, x, xs))
  {
    if xs != [] && !le(xs[|xs| - 1], x) {
      var most := xs[..|xs| - 1];
      InsertDistinct(le, x, most);
      InsertKeepsElements(le, x, most);
      var inserted := Insert(le, x, most);
      forall i | 0 <= i < |inserted| ensures inserted[i] != xs[|xs| - 1] {
        assert inserted[i] in multiset(inserted);
        assert inserted[i] in most || inserted[i] == x;
      }
    }
  }

  lemma SameElements<T>(xs: seq<T>, ys: seq<T>)
    requires multiset(xs) == multiset(ys)
    ensures |xs| == |ys| && forall x :: x in xs <==> x in ys
  {
    assert |multiset(xs)| == |multiset(ys)|;
    forall x ensures x in xs <==> x in ys {
      assert x in xs <==> x in multiset(xs);
      assert x in ys <==> x in multiset(ys);
    }
  }

  lemma {:induction false} SortKeepsElements<T>(le: (T, T) -> bool, xs: seq<T>)
    ensures multiset(StableSort(le, xs)) == multiset(xs)
    ensures |StableSort(le, xs)| == |xs|
    ensures forall x :: x in StableSort(le, xs) <==> x in xs
    ensures Distinct(xs) ==> Distinct(StableSort(le, xs))
  {
    if xs != [] {
      var most, last := xs[..|xs| - 1], xs[|xs| - 1];
      SortKeepsElements(le, most);
      InsertKeepsElements(le, last, StableSort(le, most));
      assert xs == most + [last];
      SameElements(StableSort(le, xs), xs);
      if Distinct(xs) {
        InsertDistinct(le, last, StableSort(le, most));
      }
    }
  }
}
