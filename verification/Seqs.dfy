/** Filtering, mapping and reordering of sequences, as used by every pipeline stage. */
module Seqs {

  datatype Option<+T> = None | Some(value: T)

  function Filter<T(!new)>(p: T -> bool, s: seq<T>): (r: seq<T>)
    ensures forall x :: x in r <==> x in s && p(x)
    ensures |r| <= |s|
  {
    if s == [] then [] else (if p(s[0]) then [s[0]] else []) + Filter(p, s[1..])
  }

  function Map<T, U>(f: T -> U, s: seq<T>): (r: seq<U>)
    ensures |r| == |s|
    ensures forall i :: 0 <= i < |s| ==> r[i] == f(s[i])
  {
    if s == [] then [] else [f(s[0])] + Map(f, s[1..])
  }

  /** The results for each element, one after the other. */
  function FlatMap<T, U>(f: T -> seq<U>, s: seq<T>): seq<U> {
    if s == [] then [] else FlatMap(f, s[..|s| - 1]) + f(s[|s| - 1])
  }

  lemma FlatMapSnoc<T, U>(f: T -> seq<U>, s: seq<T>, i: nat)
    requires i < |s|
    ensures FlatMap(f, s[..i + 1]) == FlatMap(f, s[..i]) + f(s[i])
  {
    assert s[..i + 1][..i] == s[..i];
  }

  lemma {:induction false} FlatMapMembers<T(!new), U(!new)>(f: T -> seq<U>, s: seq<T>)
    ensures forall y :: y in FlatMap(f, s) <==> exists x :: x in s && y in f(x)
  {
    if s != [] {
      FlatMapMembers(f, s[..|s| - 1]);
      assert forall x :: x in s <==> x in s[..|s| - 1] || x == s[|s| - 1];
    }
  }

  /** No two positions hold the same element. */
  predicate Distinct<T(==)>(s: seq<T>) {
    forall i, j :: 0 <= i < j < |s| ==> s[i] != s[j]
  }

  lemma {:induction false} FilterAppend<T(!new)>(p: T -> bool, a: seq<T>, b: seq<T>)
    ensures Filter(p, a + b) == Filter(p, a) + Filter(p, b)
  {
    if a == [] {
      assert a + b == b;
    } else {
      assert (a + b)[1..] == a[1..] + b;
      FilterAppend(p, a[1..], b);
    }
  }

  lemma FilterSnoc<T(!new)>(p: T -> bool, s: seq<T>, i: nat)
    requires i < |s|
    ensures Filter(p, s[..i + 1]) == Filter(p, s[..i]) + (if p(s[i]) then [s[i]] else [])
  {
    assert s[..i + 1] == s[..i] + [s[i]];
    FilterAppend(p, s[..i], [s[i]]);
  }

  lemma MapAppend<T, U>(f: T -> U, a: seq<T>, b: seq<T>)
    ensures Map(f, a + b) == Map(f, a) + Map(f, b)
  {
  }

  lemma MapSnoc<T, U>(f: T -> U, s: seq<T>, i: nat)
    requires i < |s|
    ensures Map(f, s[..i + 1]) == Map(f, s[..i]) + [f(s[i])]
  {
  }

  lemma MapMembers<T(!new), U(!new)>(f: T -> U, s: seq<T>)
    ensures forall y :: y in Map(f, s) <==> exists x :: x in s && f(x) == y
  {
  }

  lemma {:induction false} FilterCommutes<T(!new)>(p: T -> bool, q: T -> bool, s: seq<T>)
    ensures Filter(p, Filter(q, s)) == Filter(q, Filter(p, s))
  {
    if s != [] {
      var h := if p(s[0]) && q(s[0]) then [s[0]] else [];
      FilterCommutes(p, q, s[1..]);
      FilterAppend(p, if q(s[0]) then [s[0]] else [], Filter(q, s[1..]));
      FilterAppend(q, if p(s[0]) then [s[0]] else [], Filter(p, s[1..]));
    }
  }

  lemma {:induction false} FilterAll<T(!new)>(p: T -> bool, s: seq<T>)
    requires forall x :: x in s ==> p(x)
    ensures Filter(p, s) == s
  {
    if s != [] {
      FilterAll(p, s[1..]);
    }
  }

  lemma {:induction false} FilterNone<T(!new)>(p: T -> bool, s: seq<T>)
    requires forall x :: x in s ==> !p(x)
    ensures Filter(p, s) == []
  {
    if s != [] {
      FilterNone(p, s[1..]);
    }
  }

  ghost predicate Any<T(!new)>(p: T -> bool, s: seq<T>) {
    exists x :: x in s && p(x)
  }

  /** A property of the pairs at equal positions, found on either side. */
  lemma AnyZipped<A(!new), B(!new)>(p: A -> bool, q: B -> bool, either: A -> bool, a: seq<A>, b: seq<B>)
    requires |a| == |b|
    requires forall k :: 0 <= k < |a| ==> (p(a[k]) || q(b[k]) <==> either(a[k]))
    ensures Any(p, a) || Any(q, b) <==> Any(either, a)
  {
  }

  // ---- reordering ----

  /** `b` lists the same elements as `a`, each as often, in any order. */
  ghost predicate Permuted<T>(a: seq<T>, b: seq<T>) {
    multiset(a) == multiset(b)
  }

  lemma PermutedMembers<T>(a: seq<T>, b: seq<T>)
    requires Permuted(a, b)
    ensures |a| == |b|
    ensures forall x :: x in a <==> x in b
  {
    assert |a| == |multiset(a)| && |b| == |multiset(b)|;
    forall x ensures x in a <==> x in b {
      assert x in a <==> x in multiset(a);
      assert x in b <==> x in multiset(b);
    }
  }

  lemma {:induction false} FilterCount<T(!new)>(p: T -> bool, s: seq<T>, x: T)
    ensures multiset(Filter(p, s))[x] == if p(x) then multiset(s)[x] else 0
  {
    if s != [] {
      FilterCount(p, s[1..], x);
      assert s == [s[0]] + s[1..];
    }
  }

  lemma PermutedFilter<T(!new)>(p: T -> bool, a: seq<T>, b: seq<T>)
    requires Permuted(a, b)
    ensures Permuted(Filter(p, a), Filter(p, b))
  {
    forall x ensures multiset(Filter(p, a))[x] == multiset(Filter(p, b))[x] {
      FilterCount(p, a, x);
      FilterCount(p, b, x);
    }
  }

  function Hits<T, U(==)>(f: T -> U, y: U): T -> bool {
    x => f(x) == y
  }

  lemma {:induction false} MapCount<T(!new), U(!new)>(f: T -> U, s: seq<T>, y: U)
    ensures multiset(Map(f, s))[y] == |Filter(Hits(f, y), s)|
  {
    if s != [] {
      MapCount(f, s[1..], y);
      assert Map(f, s) == [f(s[0])] + Map(f, s[1..]);
    }
  }

  lemma PermutedMap<T(!new), U(!new)>(f: T -> U, a: seq<T>, b: seq<T>)
    requires Permuted(a, b)
    ensures Permuted(Map(f, a), Map(f, b))
  {
    forall y ensures multiset(Map(f, a))[y] == multiset(Map(f, b))[y] {
      MapCount(f, a, y);
      MapCount(f, b, y);
      PermutedFilter(Hits(f, y), a, b);
      PermutedMembers(Filter(Hits(f, y), a), Filter(Hits(f, y), b));
    }
  }

  lemma PermutedAppend<T>(a: seq<T>, a': seq<T>, b: seq<T>, b': seq<T>)
    requires Permuted(a, a') && Permuted(b, b')
    ensures Permuted(a + b, a' + b')
  {
  }

  /** Reordered sequences whose elements are all equal are the same sequence. */
  lemma PermutedUniform<T>(a: seq<T>, b: seq<T>)
    requires Permuted(a, b)
    requires forall x, y :: x in a && y in a ==> x == y
    ensures a == b
  {
    PermutedMembers(a, b);
    forall i | 0 <= i < |a| ensures a[i] == b[i] {
      assert a[i] in a && b[i] in b;
    }
  }

  // ---- exactly one ----

  /** `j` is the one position whose element satisfies `p`. */
  ghost predicate OnlyWhere<T>(p: T -> bool, s: seq<T>, j: int) {
    0 <= j < |s| && p(s[j]) && forall k :: 0 <= k < |s| && k != j ==> !p(s[k])
  }

  lemma {:induction false} FilterOne<T(!new)>(p: T -> bool, s: seq<T>)
    ensures |Filter(p, s)| == 1 <==> exists j :: OnlyWhere(p, s, j)
    ensures forall j :: OnlyWhere(p, s, j) ==> Filter(p, s) == [s[j]]
  {
    if s != [] {
      var t := s[1..];
      FilterOne(p, t);
      if p(s[0]) {
        if Filter(p, t) == [] {
          forall k | 0 < k < |s| ensures !p(s[k]) {
            assert s[k] == t[k - 1] && t[k - 1] in t;
          }
          assert OnlyWhere(p, s, 0);
        } else {
          var x := Filter(p, t)[0];
          assert x in Filter(p, t);
          var k :| 0 <= k < |t| && t[k] == x;
          assert s[k + 1] == x;
        }
        forall j | OnlyWhere(p, s, j) ensures Filter(p, s) == [s[j]] {
          assert j == 0;
        }
      } else {
        forall j ensures OnlyWhere(p, s, j) <==> OnlyWhere(p, t, j - 1) {
          if OnlyWhere(p, t, j - 1) {
            forall k | 0 <= k < |s| && k != j ensures !p(s[k]) {
              assert k > 0 ==> s[k] == t[k - 1];
            }
          }
          if OnlyWhere(p, s, j) {
            forall k | 0 <= k < |t| && k != j - 1 ensures !p(t[k]) {
              assert t[k] == s[k + 1];
            }
          }
        }
        if j :| OnlyWhere(p, t, j) {
          assert OnlyWhere(p, s, j + 1);
        }
      }
    }
  }

  /** `i` is the one position that contributes, and it contributes one element. */
  ghost predicate OnlySource<T, U>(f: T -> seq<U>, s: seq<T>, i: int) {
    0 <= i < |s| && |f(s[i])| == 1 && forall k :: 0 <= k < |s| && k != i ==> f(s[k]) == []
  }

  lemma {:induction false} FlatMapEmpty<T, U>(f: T -> seq<U>, s: seq<T>)
    ensures FlatMap(f, s) == [] <==> forall k :: 0 <= k < |s| ==> f(s[k]) == []
  {
    if s != [] {
      FlatMapEmpty(f, s[..|s| - 1]);
    }
  }

  lemma {:induction false} FlatMapOne<T, U>(f: T -> seq<U>, s: seq<T>)
    ensures |FlatMap(f, s)| == 1 <==> exists i :: OnlySource(f, s, i)
    ensures forall i :: OnlySource(f, s, i) ==> FlatMap(f, s) == f(s[i])
  {
    if s != [] {
      var n := |s| - 1;
      var t := s[..n];
      FlatMapOne(f, t);
      FlatMapEmpty(f, t);
      assert FlatMap(f, s) == FlatMap(f, t) + f(s[n]);
      forall i | 0 <= i < n ensures OnlySource(f, s, i) <==> OnlySource(f, t, i) && f(s[n]) == [] {
        if OnlySource(f, t, i) && f(s[n]) == [] {
          forall k | 0 <= k < |s| && k != i ensures f(s[k]) == [] {
            assert k < n ==> s[k] == t[k];
          }
        }
        if OnlySource(f, s, i) {
          forall k | 0 <= k < |t| && k != i ensures f(t[k]) == [] {
            assert t[k] == s[k];
          }
        }
      }
      assert OnlySource(f, s, n) <==> |f(s[n])| == 1 && FlatMap(f, t) == [] by {
        forall k | 0 <= k < n ensures s[k] == t[k] {
        }
      }
      if |FlatMap(f, s)| == 1 && FlatMap(f, t) != [] {
        var i :| OnlySource(f, t, i);
        assert OnlySource(f, s, i);
      }
    }
  }

  // ---- reordering what is flattened ----

  lemma {:induction false} FlatMapAppend<T, U>(f: T -> seq<U>, a: seq<T>, b: seq<T>)
    ensures FlatMap(f, a + b) == FlatMap(f, a) + FlatMap(f, b)
  {
    if b == [] {
      assert a + b == a;
    } else {
      var c := b[..|b| - 1];
      var last := b[|b| - 1];
      FlatMapAppend(f, a, c);
      assert (a + b)[..|a + b| - 1] == a + c && (a + b)[|a + b| - 1] == last;
      assert FlatMap(f, a) + FlatMap(f, c) + f(last) == FlatMap(f, a) + (FlatMap(f, c) + f(last));
    }
  }

  function Without<T>(s: seq<T>, j: nat): seq<T>
    requires j < |s|
  {
    s[..j] + s[j + 1..]
  }

  lemma WithoutCount<T>(s: seq<T>, j: nat)
    requires j < |s|
    ensures multiset(Without(s, j)) == multiset(s) - multiset{s[j]}
  {
    assert s == s[..j] + [s[j]] + s[j + 1..];
  }

  lemma WithoutPermuted<T>(a: seq<T>, i: nat, b: seq<T>, j: nat)
    requires Permuted(a, b) && i < |a| && j < |b| && a[i] == b[j]
    ensures Permuted(Without(a, i), Without(b, j))
  {
    WithoutCount(a, i);
    WithoutCount(b, j);
  }

  lemma FlatMapSplit<T, U>(f: T -> seq<U>, a: seq<T>, x: T, b: seq<T>)
    ensures FlatMap(f, a + [x] + b) == FlatMap(f, a) + f(x) + FlatMap(f, b)
  {
    FlatMapAppend(f, a + [x], b);
    assert (a + [x])[..|a|] == a;
  }

  lemma MiddleFirst<T>(a: seq<T>, x: seq<T>, b: seq<T>)
    ensures multiset(a + x + b) == multiset(x) + multiset(a + b)
  {
  }

  lemma FlatMapAround<T, U>(f: T -> seq<U>, a: seq<T>, x: T, b: seq<T>)
    ensures multiset(FlatMap(f, a + [x] + b)) == multiset(f(x)) + multiset(FlatMap(f, a + b))
  {
    FlatMapSplit(f, a, x, b);
    FlatMapAppend(f, a, b);
    MiddleFirst(FlatMap(f, a), f(x), FlatMap(f, b));
  }

  lemma Around<T>(s: seq<T>, j: nat) returns (a: seq<T>, b: seq<T>)
    requires j < |s|
    ensures s == a + [s[j]] + b && Without(s, j) == a + b
  {
    a, b := s[..j], s[j + 1..];
  }

  lemma FlatMapPick<T, U>(f: T -> seq<U>, s: seq<T>, j: nat)
    requires j < |s|
    ensures multiset(FlatMap(f, s)) == multiset(f(s[j])) + multiset(FlatMap(f, Without(s, j)))
  {
    var a, b := Around(s, j);
    FlatMapAround(f, a, s[j], b);
  }

  lemma {:induction false} PermutedFlatMap<T, U>(f: T -> seq<U>, a: seq<T>, b: seq<T>)
    requires Permuted(a, b)
    ensures Permuted(FlatMap(f, a), FlatMap(f, b))
    decreases |a|
  {
    PermutedMembers(a, b);
    if a != [] {
      assert a[0] in b;
      var j :| 0 <= j < |b| && b[j] == a[0];
      FlatMapPick(f, a, 0);
      FlatMapPick(f, b, j);
      WithoutPermuted(a, 0, b, j);
      PermutedFlatMap(f, Without(a, 0), Without(b, j));
    }
  }

  lemma {:induction false} FlatMapPointwise<T, U>(f: T -> seq<U>, a: seq<T>, b: seq<T>)
    requires |a| == |b| && forall k :: 0 <= k < |a| ==> Permuted(f(a[k]), f(b[k]))
    ensures Permuted(FlatMap(f, a), FlatMap(f, b))
  {
    if a != [] {
      FlatMapPointwise(f, a[..|a| - 1], b[..|b| - 1]);
    }
  }
}
