/** Sorted, duplicate-free evidence ids, and the in-place compaction that produces them. */
module SortedIds {
  import opened Seqs
  import opened Sorting
  import opened Text

  ghost predicate StrictlyIncreasing(s: seq<string>) {
    forall i, j :: 0 <= i < j < |s| ==> StringLess(s[i], s[j])
  }

  lemma StringOrder()
    ensures TotalPreorder(StringLeq)
  {
    forall a, b ensures StringLeq(a, b) || StringLeq(b, a) {
      StringLeqTotal(a, b);
    }
    forall a, b, c | StringLeq(a, b) && StringLeq(b, c) ensures StringLeq(a, c) {
      StringLeqTransitive(a, b, c);
    }
  }

  /** Drops every element equal to the one before it. */
  function Compact(s: seq<string>): seq<string> {
    if |s| <= 1 then s
    else Compact(s[..|s| - 1]) + (if s[|s| - 2] == s[|s| - 1] then [] else [s[|s| - 1]])
  }

  /** The ids in order, each once. */
  function SortedSet(ids: seq<string>): seq<string> {
    Compact(StableSort(StringLeq, ids))
  }

  lemma {:induction false} CompactSorted(s: seq<string>)
    requires Sorted(StringLeq, s)
    ensures StrictlyIncreasing(Compact(s))
    ensures forall x :: x in Compact(s) <==> x in s
    ensures s != [] ==> Compact(s) != [] && Compact(s)[|Compact(s)| - 1] == s[|s| - 1]
  {
    if |s| > 1 {
      var front, last := s[..|s| - 1], s[|s| - 1];
      CompactSorted(front);
      assert forall x :: x in s <==> x in front || x == last;
      if s[|s| - 2] != last {
        IncreasingSnoc(Compact(front), last);
      }
    }
  }

  lemma IncreasingSnoc(c: seq<string>, last: string)
    requires StrictlyIncreasing(c) && c != []
    requires StringLeq(c[|c| - 1], last) && c[|c| - 1] != last
    ensures StrictlyIncreasing(c + [last])
  {
    var top := c[|c| - 1];
    forall i | 0 <= i < |c| ensures StringLess(c[i], last) {
      StringLeqTotal(c[i], top);
      StringLeqTotal(top, last);
      StringLeqTotal(c[i], last);
      StringLeqTransitive(c[i], top, last);
    }
  }

  /** `sortedCopy` yields the ids of its input, strictly increasing. */
  lemma SortedSetMeaning(ids: seq<string>)
    ensures StrictlyIncreasing(SortedSet(ids))
    ensures forall x :: x in SortedSet(ids) <==> x in ids
    ensures SortedSet(ids) == [] <==> ids == []
    ensures Distinct(SortedSet(ids))
  {
    StringOrder();
    SortSorts(StringLeq, ids);
    SortMembers(StringLeq, ids);
    CompactSorted(StableSort(StringLeq, ids));
  }

  /** A strictly increasing sequence is determined by its elements. */
  lemma {:induction false} IncreasingDetermined(a: seq<string>, b: seq<string>)
    requires StrictlyIncreasing(a) && StrictlyIncreasing(b)
    requires forall x :: x in a <==> x in b
    ensures a == b
  {
    if b != [] {
      assert b[0] in a;
    }
    if a != [] {
      assert a[0] in b;
      var i :| 0 <= i < |b| && b[i] == a[0];
      var j :| 0 <= j < |a| && a[j] == b[0];
      StringLeqTotal(a[0], b[0]);
      assert a[0] == b[0];
      forall x ensures x in a[1..] <==> x in b[1..] {
        assert x in a <==> x == a[0] || x in a[1..];
        assert x in b <==> x == b[0] || x in b[1..];
        assert a[0] !in a[1..] && b[0] !in b[1..];
      }
      IncreasingDetermined(a[1..], b[1..]);
    }
  }

  /** The result depends only on which ids occur. */
  lemma SortedSetAgrees(a: seq<string>, b: seq<string>)
    requires forall x :: x in a <==> x in b
    ensures SortedSet(a) == SortedSet(b)
  {
    SortedSetMeaning(a);
    SortedSetMeaning(b);
    IncreasingDetermined(SortedSet(a), SortedSet(b));
  }

  lemma CompactSnoc(s: seq<string>, i: nat)
    requires i < |s|
    ensures Compact(s[..i + 1]) == Compact(s[..i]) + if i > 0 && s[i - 1] == s[i] then [] else [s[i]]
  {
    assert s[..i + 1][..i] == s[..i];
  }

  /**
   Compaction writes into the slice it reads: by the time element `i - 1` is
   consulted, elements before it may have been overwritten.
   */
  method CompactInPlace(ordered: array<string>) returns (count: nat)
    modifies ordered
    ensures count <= ordered.Length
    ensures ordered[..count] == Compact(old(ordered[..]))
  {
    ghost var sorted := ordered[..];
    count := 0;
    for i := 0 to ordered.Length
      invariant count <= i
      invariant ordered[..count] == Compact(sorted[..i])
      invariant forall k :: i <= k < ordered.Length ==> ordered[k] == sorted[k]
      invariant i > 0 ==> ordered[i - 1] == sorted[i - 1]
    {
      CompactSnoc(sorted, i);
      var id := ordered[i];
      if i == 0 || ordered[i - 1] != id {
        ordered[count] := id;
        count := count + 1;
      }
    }
    assert sorted[..ordered.Length] == sorted;
  }

  /** A new slice holding the sorted, duplicate-free ids; the input is not written. */
  method SortedCopy(ids: array<string>) returns (ordered: array<string>, count: nat)
    ensures fresh(ordered) && count <= ordered.Length
    ensures ordered[..count] == SortedSet(ids[..])
  {
    var sorted := StableSort(StringLeq, ids[..]);
    ordered := new string[|sorted|](i requires 0 <= i < |sorted| => sorted[i]);
    assert ordered[..] == sorted;
    count := CompactInPlace(ordered);
  }

  /** `SortedCopy` on a list of ids. */
  method SortedList(ids: seq<string>) returns (sorted: seq<string>)
    ensures sorted == SortedSet(ids)
  {
    var slice := new string[|ids|](i requires 0 <= i < |ids| => ids[i]);
    assert slice[..] == ids;
    var ordered, count := SortedCopy(slice);
    sorted := ordered[..count];
  }
}
