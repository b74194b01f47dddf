/**
 * The column sort `arr.sort((a, b) => a.position - b.position)` (src/pages/Board.tsx:28).
 * `Array.prototype.sort` is stable, so the result is determined: ascending by
 * position, and tasks with equal positions keep their order. The model sorts in
 * place by insertion and proves it equal to a functional specification, which is
 * in turn proved ascending, a permutation, and stable; StableSortUnique shows
 * that any sort with those three properties gives the same sequence.
 */
module PositionSort {
  import opened Types
  import opened Seqs

  predicate Ascending(s: seq<Task>) {
    forall i, j :: 0 <= i < j < |s| ==> s[i].position <= s[j].position
  }

  /** The tasks of `s` that sit at position `k`, in order. */
  function AtPosition(s: seq<Task>, k: int): seq<Task> {
    Filter(s, (t: Task) => t.position == k)
  }

  /**
   * `t` placed after the last element whose position does not exceed its own,
   * scanning from the right as an insertion sort does.
   */
  function Insert(s: seq<Task>, t: Task): seq<Task>
    decreases |s|
  {
    if s == [] || s[|s| - 1].position <= t.position then s + [t]
    else Insert(s[..|s| - 1], t) + [s[|s| - 1]]
  }

  /** Insertion adds exactly `t`. */
  lemma {:induction false} InsertMultiset(s: seq<Task>, t: Task)
    ensures multiset(Insert(s, t)) == multiset(s) + multiset{t}
    ensures |Insert(s, t)| == |s| + 1
    decreases |s|
  {
    if s != [] && s[|s| - 1].position > t.position {
      assert s == s[..|s| - 1] + [s[|s| - 1]];
      InsertMultiset(s[..|s| - 1], t);
    }
  }

  /** Inserting into an ascending sequence keeps it ascending. */
  lemma {:induction false} InsertAscending(s: seq<Task>, t: Task)
    requires Ascending(s)
    ensures Ascending(Insert(s, t))
    decreases |s|
  {
    if s != [] && s[|s| - 1].position > t.position {
      var init, last := s[..|s| - 1], s[|s| - 1];
      var r := Insert(init, t);
      InsertAscending(init, t);
      InsertMultiset(init, t);
      forall x | x in r ensures x.position <= last.position {
        assert x in multiset(r);
        if x != t {
          assert x in multiset(init);
          var i :| 0 <= i < |init| && init[i] == x;
          assert s[i] == x;
        }
      }
      assert Insert(s, t) == r + [last];
    }
  }

  /** The specification of the column sort: stable insertion sort by position. */
  function SortByPosition(s: seq<Task>): seq<Task>
  {
    if s == [] then []
    else Insert(SortByPosition(s[..|s| - 1]), s[|s| - 1])
  }

  /** The sort returns its input rearranged, in ascending order of position. */
  lemma {:induction false} SortAscendingPermutation(s: seq<Task>)
    ensures multiset(SortByPosition(s)) == multiset(s)
    ensures |SortByPosition(s)| == |s|
    ensures Ascending(SortByPosition(s))
  {
    if s != [] {
      var init, last := s[..|s| - 1], s[|s| - 1];
      assert s == init + [last];
      SortAscendingPermutation(init);
      InsertMultiset(SortByPosition(init), last);
      InsertAscending(SortByPosition(init), last);
    }
  }

  /** Sorting a sequence extended by one task inserts that task into the sorted rest. */
  lemma SortSnoc(s: seq<Task>, x: Task)
    ensures SortByPosition(s + [x]) == Insert(SortByPosition(s), x)
  {
    assert (s + [x])[..|s|] == s;
  }

  lemma AtPositionSingle(x: Task, k: int)
    ensures AtPosition([x], k) == if x.position == k then [x] else []
  {
    assert [x][1..] == [];
  }

  /** Inserting `t` keeps the order among the tasks at any one position, with `t` after its equals. */
  lemma {:induction false} InsertStable(s: seq<Task>, t: Task, k: int)
    ensures AtPosition(Insert(s, t), k) == AtPosition(s, k) + AtPosition([t], k)
    decreases |s|
  {
    var p := (x: Task) => x.position == k;
    if s == [] || s[|s| - 1].position <= t.position {
      FilterAppend(s, [t], p);
    } else {
      var init, last := s[..|s| - 1], s[|s| - 1];
      assert s == init + [last];
      AtPositionSingle(t, k);
      AtPositionSingle(last, k);
      calc {
        AtPosition(Insert(s, t), k);
        AtPosition(Insert(init, t) + [last], k);
        { FilterAppend(Insert(init, t), [last], p); }
        AtPosition(Insert(init, t), k) + AtPosition([last], k);
        { InsertStable(init, t, k); }
        AtPosition(init, k) + AtPosition([t], k) + AtPosition([last], k);
        { assert last.position != k || t.position != k; }
        AtPosition(init, k) + AtPosition([last], k) + AtPosition([t], k);
        { FilterAppend(init, [last], p); }
        AtPosition(s, k) + AtPosition([t], k);
      }
    }
  }

  /** The sort is stable: the tasks at each position come out in the order they went in. */
  lemma {:induction false} SortStable(s: seq<Task>, k: int)
    ensures AtPosition(SortByPosition(s), k) == AtPosition(s, k)
  {
    if s != [] {
      var init, last := s[..|s| - 1], s[|s| - 1];
      SortStable(init, k);
      InsertStable(SortByPosition(init), last, k);
      assert s == init + [last];
      FilterAppend(init, [last], (x: Task) => x.position == k);
    }
  }

  /** A non-empty sequence has its first task among the tasks at that task's position. */
  lemma HeadAtItsPosition(r: seq<Task>)
    ensures r != [] ==> r[0] in AtPosition(r, r[0].position)
  {
    if r != [] {
      FilterMembership(r, (t: Task) => t.position == r[0].position, r[0]);
    }
  }

  /**
   * Two ascending sequences that agree on the tasks at every position, in order,
   * are equal: every stable sort by position returns the same sequence.
   */
  lemma {:induction false} StableSortUnique(r1: seq<Task>, r2: seq<Task>)
    requires Ascending(r1) && Ascending(r2)
    requires forall k :: AtPosition(r1, k) == AtPosition(r2, k)
    ensures r1 == r2
    decreases |r1|
  {
    if r1 == [] || r2 == [] {
      if r1 != r2 {
        HeadAtItsPosition(r1);
        HeadAtItsPosition(r2);
        assert false;
      }
    } else {
      var m1, m2 := r1[0].position, r2[0].position;
      HeadAtItsPosition(r1);
      HeadAtItsPosition(r2);
      FilterMembership(r2, (t: Task) => t.position == m1, r1[0]);
      FilterMembership(r1, (t: Task) => t.position == m2, r2[0]);
      assert m1 == m2;
      assert r1 == [r1[0]] + r1[1..];
      assert r2 == [r2[0]] + r2[1..];
      assert AtPosition(r1, m1) == [r1[0]] + AtPosition(r1[1..], m1);
      assert AtPosition(r2, m1) == [r2[0]] + AtPosition(r2[1..], m1);
      forall k ensures AtPosition(r1[1..], k) == AtPosition(r2[1..], k) {
        if k == m1 {
          assert AtPosition(r1[1..], k) == AtPosition(r1, k)[1..];
          assert AtPosition(r2[1..], k) == AtPosition(r2, k)[1..];
        } else {
          assert AtPosition(r1, k) == AtPosition(r1[1..], k);
          assert AtPosition(r2, k) == AtPosition(r2[1..], k);
        }
      }
      assert r1[0] == AtPosition(r1, m1)[0] == AtPosition(r2, m1)[0] == r2[0];
      StableSortUnique(r1[1..], r2[1..]);
    }
  }

  /** Any ascending, stable rearrangement of `s` is SortByPosition(s). */
  lemma SortIsTheStableSort(s: seq<Task>, r: seq<Task>)
    requires Ascending(r)
    requires forall k :: AtPosition(r, k) == AtPosition(s, k)
    ensures r == SortByPosition(s)
  {
    forall k ensures AtPosition(r, k) == AtPosition(SortByPosition(s), k) {
      SortStable(s, k);
    }
    SortAscendingPermutation(s);
    StableSortUnique(r, SortByPosition(s));
  }

  /**
   * Where the right-to-left scan stops: every element from `j` on is greater
   * than `t`, and the one before `j` (if any) is not.
   */
  lemma {:induction false} InsertSplit(s: seq<Task>, t: Task, j: nat)
    requires j <= |s|
    requires j == 0 || s[j - 1].position <= t.position
    requires forall k :: j <= k < |s| ==> s[k].position > t.position
    ensures Insert(s, t) == s[..j] + [t] + s[j..]
    decreases |s|
  {
    if |s| == j {
      assert s[..j] == s && s[j..] == [];
    } else {
      var init := s[..|s| - 1];
      InsertSplit(init, t, j);
      assert init[..j] == s[..j];
      assert init[j..] + [s[|s| - 1]] == s[j..];
    }
  }

  /** Sorting a list already ascending by position leaves it as it is; sorting is idempotent. */
  lemma SortedUnchanged(s: seq<Task>)
    ensures Ascending(s) ==> SortByPosition(s) == s
    ensures SortByPosition(SortByPosition(s)) == SortByPosition(s)
  {
    if Ascending(s) {
      SortIsTheStableSort(s, s);
    }
    SortAscendingPermutation(s);
    SortIsTheStableSort(SortByPosition(s), SortByPosition(s));
  }

  /** The array prefix after the scan: `sorted` with `t` placed at index `j`. */
  lemma Placed(r: seq<Task>, sorted: seq<Task>, t: Task, j: nat)
    requires j <= |sorted| && |r| == |sorted| + 1
    requires forall k :: 0 <= k < j ==> r[k] == sorted[k]
    requires r[j] == t
    requires forall k :: j < k < |r| ==> r[k] == sorted[k - 1]
    ensures r == sorted[..j] + [t] + sorted[j..]
  {
  }

  /** One pass of the insertion sort: `a[i]` moves into the ascending prefix `a[..i]`. */
  method InsertAt(a: array<Task>, i: nat)
    requires i < a.Length
    modifies a
    ensures a[..i + 1] == Insert(old(a[..i]), old(a[i]))
    ensures a[i + 1..] == old(a[i + 1..])
  {
    var t := a[i];
    ghost var sorted := a[..i];
    var j := i;
    while j > 0 && a[j - 1].position > t.position
      invariant 0 <= j <= i
      invariant forall k :: 0 <= k < j ==> a[k] == sorted[k]
      invariant forall k :: j < k <= i ==> a[k] == sorted[k - 1]
      invariant forall k :: j <= k < i ==> sorted[k].position > t.position
      invariant forall k :: i < k < a.Length ==> a[k] == old(a[k])
    {
      assert a[j - 1] == sorted[j - 1];
      a[j] := a[j - 1];
      j := j - 1;
    }
    InsertSplit(sorted, t, j);
    a[j] := t;
    Placed(a[..i + 1], sorted, t, j);
    assert a[i + 1..] == old(a[i + 1..]);
  }

  /** `arr.sort(...)` on one column's array: an insertion sort in place. */
  method SortInPlace(a: array<Task>)
    modifies a
    ensures a[..] == SortByPosition(old(a[..]))
  {
    ghost var input := a[..];
    var i := 0;
    while i < a.Length
      invariant 0 <= i <= a.Length
      invariant a[..i] == SortByPosition(input[..i])
      invariant a[i..] == input[i..]
    {
      SortSnoc(input[..i], input[i]);
      assert input[..i + 1] == input[..i] + [input[i]];
      assert a[i] == input[i];
      InsertAt(a, i);
      assert a[i + 1..] == input[i + 1..];
      i := i + 1;
    }
    assert input[..a.Length] == input;
  }
}
