/** The stable in-place sort that `Array.prototype.sort` performs (ECMA-262, 2023
    edition, section 23.1.3.30: the sort must be stable). A comparator `cmp` is
    represented by `le(a, b) == (cmp(a, b) <= 0)`: "a may stay in front of b". */
module StableSort {
  import opened Sequences

  ghost predicate TotalPreorder<T(!new)>(le: (T, T) -> bool)
  {
    && (forall a, b :: le(a, b) || le(b, a))
    && (forall a, b, c :: le(a, b) && le(b, c) ==> le(a, c))
  }

  ghost predicate Sorted<T>(le: (T, T) -> bool, s: seq<T>)
  {
    forall i, j :: 0 <= i < j < |s| ==> le(s[i], s[j])
  }

  /** Elements the comparator cannot tell apart from `e` (it returns 0 both ways). */
  function TiedWith<T>(le: (T, T) -> bool, e: T): T -> bool
  {
    x => le(x, e) && le(e, x)
  }

  /** Insert `x` into `t` behind every element that may stay in front of it:
      walking from the back, `x` passes exactly the elements that must follow it. */
  function Insert<T>(le: (T, T) -> bool, t: seq<T>, x: T): seq<T>
  {
    if t == [] then [x]
    else if le(t[|t| - 1], x) then t + [x]
    else Insert(le, t[..|t| - 1], x) + [t[|t| - 1]]
  }

  /** Insertion sort: the order that a stable sort with `le` produces. */
  function InsertionSort<T>(le: (T, T) -> bool, s: seq<T>): seq<T>
  {
    if s == [] then []
    else Insert(le, InsertionSort(le, s[..|s| - 1]), s[|s| - 1])
  }

  lemma {:induction false} InsertPermutes<T>(le: (T, T) -> bool, t: seq<T>, x: T)
    ensures multiset(Insert(le, t, x)) == multiset(t) + multiset{x}
  {
    if t != [] && !le(t[|t| - 1], x) {
      InsertPermutes(le, t[..|t| - 1], x);
      assert t == t[..|t| - 1] + [t[|t| - 1]];
    }
  }

  /** Sorting only rearranges: the result is a permutation of the input. */
  lemma {:induction false} InsertionSortPermutes<T>(le: (T, T) -> bool, s: seq<T>)
    ensures multiset(InsertionSort(le, s)) == multiset(s)
  {
    if s != [] {
      var init, last := s[..|s| - 1], s[|s| - 1];
      InsertionSortPermutes(le, init);
      InsertPermutes(le, InsertionSort(le, init), last);
      assert s == init + [last];
      assert multiset(s) == multiset(init) + multiset{last};
    }
  }

  /** One step of `Insert`: `x` passes `t[j - 1]`, which must follow it. */
  lemma InsertStep<T>(le: (T, T) -> bool, t: seq<T>, j: nat, x: T)
    requires 0 < j <= |t| && !le(t[j - 1], x)
    ensures Insert(le, t[..j], x) + t[j..] == Insert(le, t[..j - 1], x) + t[j - 1..]
  {
    assert t[..j][..j - 1] == t[..j - 1];
    assert t[j - 1..] == [t[j - 1]] + t[j..];
  }

  lemma Spliced<T>(t: seq<T>, j: nat, x: T, b: seq<T>)
    requires j <= |t| && |b| == |t| + 1 && b[j] == x
    requires forall k :: 0 <= k < j ==> b[k] == t[k]
    requires forall k :: j < k <= |t| ==> b[k] == t[k - 1]
    ensures b == t[..j] + [x] + t[j..]
  {
    var r := t[..j] + [x] + t[j..];
    forall k | 0 <= k < |b| ensures b[k] == r[k] {
      if k > j {
        assert r[k] == t[j..][k - j - 1];
      }
    }
  }

  /** Moves `a[i]` left into the sorted prefix `a[..i]`, shifting right the
      elements that must follow it. */
  method InsertIntoPrefix<T>(a: array<T>, i: nat, le: (T, T) -> bool)
    requires i < a.Length
    modifies a
    ensures a[..i + 1] == Insert(le, old(a[..i]), old(a[i]))
    ensures a[i + 1..] == old(a[i + 1..])
  {
    var x := a[i];
    ghost var t := a[..i];
    var j := i;
    assert t[..j] == t && t[j..] == [];
    while j > 0 && !le(a[j - 1], x)
      invariant 0 <= j <= i
      invariant forall k :: 0 <= k < j ==> a[k] == t[k]
      invariant forall k :: j < k <= i ==> a[k] == t[k - 1]
      invariant a[i + 1..] == old(a[i + 1..])
      invariant Insert(le, t, x) == Insert(le, t[..j], x) + t[j..]
    {
      InsertStep(le, t, j, x);
      a[j] := a[j - 1];
      j := j - 1;
    }
    assert j == 0 || le(t[..j][j - 1], x);
    assert Insert(le, t[..j], x) == t[..j] + [x];
    a[j] := x;
    Spliced(t, j, x, a[..i + 1]);
  }

  lemma InsertionSortExtend<T>(le: (T, T) -> bool, s: seq<T>, i: nat)
    requires i < |s|
    ensures InsertionSort(le, s[..i + 1]) == Insert(le, InsertionSort(le, s[..i]), s[i])
  {
    assert s[..i + 1][..i] == s[..i];
  }

  /** Sorts `a` in place, stably, by inserting each element into the sorted prefix before it. */
  method SortInPlace<T>(a: array<T>, le: (T, T) -> bool)
    modifies a
    ensures a[..] == InsertionSort(le, old(a[..]))
  {
    ghost var s := a[..];
    var i := 0;
    while i < a.Length
      invariant 0 <= i <= a.Length
      invariant a[..i] == InsertionSort(le, s[..i])
      invariant a[i..] == s[i..]
    {
      assert a[i] == a[i..][0] == s[i];
      assert a[i + 1..] == a[i..][1..] == s[i + 1..];
      InsertIntoPrefix(a, i, le);
      InsertionSortExtend(le, s, i);
      i := i + 1;
    }
    assert a[..] == a[..a.Length] && s == s[..a.Length];
  }

  lemma {:induction false} InsertSorted<T(!new)>(le: (T, T) -> bool, t: seq<T>, x: T)
    requires TotalPreorder(le) && Sorted(le, t)
    ensures Sorted(le, Insert(le, t, x))
  {
    if t == [] {
    } else if le(t[|t| - 1], x) {
      var r := t + [x];
      forall i, j | 0 <= i < j < |r| ensures le(r[i], r[j]) {
        if j == |t| && i < |t| - 1 {
          assert le(t[i], t[|t| - 1]);
        }
      }
    } else {
      var last := t[|t| - 1];
      var init := t[..|t| - 1];
      InsertSorted(le, init, x);
      InsertPermutes(le, init, x);
      var u := Insert(le, init, x);
      var r := u + [last];
      forall i, j | 0 <= i < j < |r| ensures le(r[i], r[j]) {
        if j == |u| {
          assert r[i] in multiset(u);
          assert r[i] == x || r[i] in multiset(init);
          if r[i] != x {
            var k :| 0 <= k < |init| && init[k] == r[i];
            assert le(t[k], t[|t| - 1]);
          }
        }
      }
    }
  }

  /** The insertion order is sorted under any total preorder. */
  lemma {:induction false} InsertionSortSorted<T(!new)>(le: (T, T) -> bool, s: seq<T>)
    requires TotalPreorder(le)
    ensures Sorted(le, InsertionSort(le, s))
  {
    if s != [] {
      InsertionSortSorted(le, s[..|s| - 1]);
      InsertSorted(le, InsertionSort(le, s[..|s| - 1]), s[|s| - 1]);
    }
  }

  /** Inserting `x` keeps, in order, the elements of any class `p` whose members
      may all stay in front of one another. */
  lemma {:induction false} InsertKeepsClass<T>(le: (T, T) -> bool, t: seq<T>, x: T, p: T -> bool)
    requires forall a, b :: p(a) && p(b) ==> le(a, b)
    ensures Filter(Insert(le, t, x), p) == Filter(t, p) + Filter([x], p)
  {
    if t == [] {
      assert [x] == [] + [x];
    } else if le(t[|t| - 1], x) {
      FilterConcat(t, [x], p);
    } else {
      var last := t[|t| - 1];
      var init := t[..|t| - 1];
      assert t == init + [last];
      InsertKeepsClass(le, init, x, p);
      FilterConcat(Insert(le, init, x), [last], p);
      FilterConcat(init, [last], p);
      // x and last are not both in the class: that would give le(last, x).
      if p(x) {
        assert Filter([last], p) == [];
      } else {
        assert Filter([x], p) == [];
      }
    }
  }

  /** Stability: the elements tied with any `e` come out in the order they went in. */
  lemma {:induction false} InsertionSortStable<T(!new)>(le: (T, T) -> bool, s: seq<T>, e: T)
    requires TotalPreorder(le)
    ensures Filter(InsertionSort(le, s), TiedWith(le, e)) == Filter(s, TiedWith(le, e))
  {
    if s != [] {
      var init := s[..|s| - 1];
      InsertionSortStable(le, init, e);
      InsertKeepsClass(le, InsertionSort(le, init), s[|s| - 1], TiedWith(le, e));
      assert s == init + [s[|s| - 1]];
      FilterConcat(init, [s[|s| - 1]], TiedWith(le, e));
    }
  }
}
