/** The library's stable sort, as a function on values, with the laws the pipeline relies on. */
module Sorting {
  import opened Seqs

  ghost predicate TotalPreorder<T(!new)>(leq: (T, T) -> bool) {
    && (forall x, y :: leq(x, y) || leq(y, x))
    && (forall x, y, z :: leq(x, y) && leq(y, z) ==> leq(x, z))
  }

  ghost predicate Sorted<T>(leq: (T, T) -> bool, s: seq<T>) {
    forall i, j :: 0 <= i < j < |s| ==> leq(s[i], s[j])
  }

  /** Elements the order cannot tell apart from `k`. */
  function Tied<T>(leq: (T, T) -> bool, k: T): T -> bool {
    x => leq(x, k) && leq(k, x)
  }

  function Insert<T>(leq: (T, T) -> bool, x: T, s: seq<T>): seq<T> {
    if s == [] then [x]
    else if leq(x, s[0]) then [x] + s
    else [s[0]] + Insert(leq, x, s[1..])
  }

  function StableSort<T>(leq: (T, T) -> bool, s: seq<T>): seq<T> {
    if s == [] then [] else Insert(leq, s[0], StableSort(leq, s[1..]))
  }

  lemma {:induction false} InsertPermutes<T>(leq: (T, T) -> bool, x: T, s: seq<T>)
    ensures multiset(Insert(leq, x, s)) == multiset{x} + multiset(s)
  {
    if s != [] {
      assert s == [s[0]] + s[1..];
      InsertPermutes(leq, x, s[1..]);
    }
  }

  lemma {:induction false} SortPermutes<T>(leq: (T, T) -> bool, s: seq<T>)
    ensures Permuted(s, StableSort(leq, s))
  {
    if s != [] {
      assert s == [s[0]] + s[1..];
      SortPermutes(leq, s[1..]);
      InsertPermutes(leq, s[0], StableSort(leq, s[1..]));
    }
  }

  lemma SortMembers<T>(leq: (T, T) -> bool, s: seq<T>)
    ensures |StableSort(leq, s)| == |s|
    ensures forall x :: x in StableSort(leq, s) <==> x in s
  {
    SortPermutes(leq, s);
    PermutedMembers(s, StableSort(leq, s));
  }

  lemma {:induction false} InsertSorted<T(!new)>(leq: (T, T) -> bool, x: T, s: seq<T>)
    requires TotalPreorder(leq) && Sorted(leq, s)
    ensures Sorted(leq, Insert(leq, x, s))
  {
    if s != [] && !leq(x, s[0]) {
      InsertSorted(leq, x, s[1..]);
      var t := Insert(leq, x, s[1..]);
      InsertPermutes(leq, x, s[1..]);
      forall y | y in t ensures leq(s[0], y) {
        assert y in multiset(t);
        assert y == x || y in s[1..];
      }
    }
  }

  lemma {:induction false} SortSorts<T(!new)>(leq: (T, T) -> bool, s: seq<T>)
    requires TotalPreorder(leq)
    ensures Sorted(leq, StableSort(leq, s))
  {
    if s != [] {
      SortSorts(leq, s[1..]);
      InsertSorted(leq, s[0], StableSort(leq, s[1..]));
    }
  }

  lemma {:induction false} InsertStable<T(!new)>(leq: (T, T) -> bool, x: T, s: seq<T>, k: T)
    requires TotalPreorder(leq)
    ensures Filter(Tied(leq, k), Insert(leq, x, s))
         == (if Tied(leq, k)(x) then [x] else []) + Filter(Tied(leq, k), s)
  {
    if s != [] && !leq(x, s[0]) {
      InsertStable(leq, x, s[1..], k);
    }
  }

  /** Stability: among tied elements the sort keeps the input order. */
  lemma {:induction false} SortStable<T(!new)>(leq: (T, T) -> bool, s: seq<T>, k: T)
    requires TotalPreorder(leq)
    ensures Filter(Tied(leq, k), StableSort(leq, s)) == Filter(Tied(leq, k), s)
  {
    if s != [] {
      SortStable(leq, s[1..], k);
      InsertStable(leq, s[0], StableSort(leq, s[1..]), k);
    }
  }

  /** The two sequences agree, order included, on every class of tied elements. */
  ghost predicate SameClasses<T(!new)>(leq: (T, T) -> bool, a: seq<T>, b: seq<T>) {
    forall k :: Filter(Tied(leq, k), a) == Filter(Tied(leq, k), b)
  }

  /** A sorted sequence is determined by its classes of tied elements. */
  lemma {:induction false} SortedDetermined<T(!new)>(leq: (T, T) -> bool, a: seq<T>, b: seq<T>)
    requires TotalPreorder(leq) && Sorted(leq, a) && Sorted(leq, b) && SameClasses(leq, a, b)
    ensures a == b
  {
    if b != [] {
      assert b[0] in Filter(Tied(leq, b[0]), b);
      assert b[0] in Filter(Tied(leq, b[0]), a);
    }
    if a != [] {
      assert a[0] in Filter(Tied(leq, a[0]), a);
      assert a[0] in Filter(Tied(leq, a[0]), b);
      assert leq(a[0], b[0]) && leq(b[0], a[0]);
      assert Filter(Tied(leq, a[0]), a)[0] == a[0];
      assert Filter(Tied(leq, a[0]), b)[0] == b[0];
      forall k ensures Filter(Tied(leq, k), a[1..]) == Filter(Tied(leq, k), b[1..]) {
        var h := if Tied(leq, k)(a[0]) then [a[0]] else [];
        assert Filter(Tied(leq, k), a) == h + Filter(Tied(leq, k), a[1..]);
        assert Filter(Tied(leq, k), b) == h + Filter(Tied(leq, k), b[1..]);
        assert (h + Filter(Tied(leq, k), a[1..]))[|h|..] == Filter(Tied(leq, k), a[1..]);
        assert (h + Filter(Tied(leq, k), b[1..]))[|h|..] == Filter(Tied(leq, k), b[1..]);
      }
      SortedDetermined(leq, a[1..], b[1..]);
    }
  }

  /** Inputs that agree on every class of ties sort to the same sequence. */
  lemma SortAgrees<T(!new)>(leq: (T, T) -> bool, a: seq<T>, b: seq<T>)
    requires TotalPreorder(leq) && SameClasses(leq, a, b)
    ensures StableSort(leq, a) == StableSort(leq, b)
  {
    SortSorts(leq, a);
    SortSorts(leq, b);
    forall k ensures Filter(Tied(leq, k), StableSort(leq, a)) == Filter(Tied(leq, k), StableSort(leq, b)) {
      SortStable(leq, a, k);
      SortStable(leq, b, k);
    }
    SortedDetermined(leq, StableSort(leq, a), StableSort(leq, b));
  }

  lemma SameClassesAppend<T(!new)>(leq: (T, T) -> bool, a: seq<T>, a': seq<T>, b: seq<T>, b': seq<T>)
    requires SameClasses(leq, a, a') && SameClasses(leq, b, b')
    ensures SameClasses(leq, a + b, a' + b')
  {
    forall k ensures Filter(Tied(leq, k), a + b) == Filter(Tied(leq, k), a' + b') {
      FilterAppend(Tied(leq, k), a, b);
      FilterAppend(Tied(leq, k), a', b');
    }
  }

  /** Reordering keeps the classes when tied elements are equal. */
  lemma PermutedSameClasses<T(!new)>(leq: (T, T) -> bool, a: seq<T>, b: seq<T>)
    requires TotalPreorder(leq) && Permuted(a, b)
    requires forall x, y :: x in a && y in a && leq(x, y) && leq(y, x) ==> x == y
    ensures SameClasses(leq, a, b)
  {
    forall k ensures Filter(Tied(leq, k), a) == Filter(Tied(leq, k), b) {
      PermutedFilter(Tied(leq, k), a, b);
      PermutedUniform(Filter(Tied(leq, k), a), Filter(Tied(leq, k), b));
    }
  }

  lemma {:induction false} FilterSorted<T(!new)>(leq: (T, T) -> bool, p: T -> bool, s: seq<T>)
    requires Sorted(leq, s)
    ensures Sorted(leq, Filter(p, s))
  {
    if s != [] {
      FilterSorted(leq, p, s[1..]);
      forall y | y in Filter(p, s[1..]) ensures leq(s[0], y) {
        assert y in s[1..];
      }
    }
  }

  /** A stable sort commutes with dropping elements. */
  lemma SortFilter<T(!new)>(leq: (T, T) -> bool, p: T -> bool, s: seq<T>)
    requires TotalPreorder(leq)
    ensures Filter(p, StableSort(leq, s)) == StableSort(leq, Filter(p, s))
  {
    SortSorts(leq, s);
    FilterSorted(leq, p, StableSort(leq, s));
    SortSorts(leq, Filter(p, s));
    forall k
      ensures Filter(Tied(leq, k), Filter(p, StableSort(leq, s)))
           == Filter(Tied(leq, k), StableSort(leq, Filter(p, s)))
    {
      var t := Tied(leq, k);
      FilterCommutes(t, p, StableSort(leq, s));
      SortStable(leq, s, k);
      FilterCommutes(t, p, s);
      SortStable(leq, Filter(p, s), k);
    }
    SortedDetermined(leq, Filter(p, StableSort(leq, s)), StableSort(leq, Filter(p, s)));
  }
}
