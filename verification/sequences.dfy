/** `Array.prototype.filter` and the facts about it that the storefront relies on:
    it keeps exactly the elements that pass, in their original order. */
module Sequences {

  /** The elements of `s` that satisfy `f`, in the order they occur in `s`. */
  function Filter<T>(s: seq<T>, f: T -> bool): (r: seq<T>)
    ensures |r| <= |s|
    ensures forall x | x in r :: x in s && f(x)
  {
    if s == [] then []
    else
      assert s == [s[0]] + s[1..];
      (if f(s[0]) then [s[0]] else []) + Filter(s[1..], f)
  }

  /** Every element that passes is kept, as often as it occurs. */
  lemma {:induction false} FilterMultiset<T>(s: seq<T>, f: T -> bool)
    ensures forall x | x in s :: multiset(Filter(s, f))[x] == if f(x) then multiset(s)[x] else 0
    ensures forall x | x in s && f(x) :: x in Filter(s, f)
  {
    if s != [] {
      FilterMultiset(s[1..], f);
      assert s == [s[0]] + s[1..];
      forall x | x in s ensures multiset(Filter(s, f))[x] == if f(x) then multiset(s)[x] else 0 {
        assert x == s[0] || x in s[1..];
        if x !in s[1..] {
          assert multiset(s[1..])[x] == 0;
          assert multiset(Filter(s[1..], f))[x] == 0;
        }
      }
    }
  }

  /** Filtering distributes over concatenation, which is what "order preserved" means. */
  lemma {:induction false} FilterConcat<T>(a: seq<T>, b: seq<T>, f: T -> bool)
    ensures Filter(a + b, f) == Filter(a, f) + Filter(b, f)
  {
    if a == [] {
      assert a + b == b;
    } else {
      assert (a + b)[1..] == a[1..] + b;
      FilterConcat(a[1..], b, f);
    }
  }

  /** Only the values a predicate takes on the elements matter. */
  lemma {:induction false} FilterCongruent<T>(s: seq<T>, f: T -> bool, g: T -> bool)
    requires forall x :: x in s ==> f(x) == g(x)
    ensures Filter(s, f) == Filter(s, g)
  {
    if s != [] {
      FilterCongruent(s[1..], f, g);
    }
  }

  /** A filter every element passes returns its input unchanged. */
  lemma {:induction false} FilterAll<T>(s: seq<T>, f: T -> bool)
    requires forall x :: x in s ==> f(x)
    ensures Filter(s, f) == s
  {
    if s != [] {
      FilterAll(s[1..], f);
      assert s == [s[0]] + s[1..];
    }
  }

  /** A filter no element passes returns the empty sequence. */
  lemma FilterNone<T>(s: seq<T>, f: T -> bool)
    requires forall x :: x in s ==> !f(x)
    ensures Filter(s, f) == []
  {
    if Filter(s, f) != [] {
      assert Filter(s, f)[0] in Filter(s, f);
    }
  }

  /** Two filters in a row are one filter by the conjunction. */
  lemma {:induction false} FilterFuse<T>(s: seq<T>, f: T -> bool, g: T -> bool, h: T -> bool)
    requires forall x :: h(x) == (f(x) && g(x))
    ensures Filter(Filter(s, f), g) == Filter(s, h)
  {
    if s != [] {
      FilterFuse(s[1..], f, g, h);
      var head := if f(s[0]) then [s[0]] else [];
      FilterConcat(head, Filter(s[1..], f), g);
    }
  }

  /** Filtering an already filtered sequence again with the same predicate changes nothing. */
  lemma FilterIdempotent<T>(s: seq<T>, f: T -> bool)
    ensures Filter(Filter(s, f), f) == Filter(s, f)
  {
    FilterAll(Filter(s, f), f);
  }

  /** Where `s[i]` lands in the result: the number of passing elements before it. */
  function Rank<T>(s: seq<T>, f: T -> bool, i: int): nat
    requires 0 <= i <= |s|
  {
    |Filter(s[..i], f)|
  }

  /** A passing element sits at its rank in the result. */
  lemma FilterAtRank<T>(s: seq<T>, f: T -> bool, i: int)
    requires 0 <= i < |s| && f(s[i])
    ensures Rank(s, f, i) < |Filter(s, f)| && Filter(s, f)[Rank(s, f, i)] == s[i]
  {
    assert s == s[..i] + s[i..];
    FilterConcat(s[..i], s[i..], f);
    assert s[i..] == [s[i]] + s[i + 1..];
    FilterConcat([s[i]], s[i + 1..], f);
  }

  /** Ranks grow along the input past every passing element, so two passing elements
      keep their relative order in the result. */
  lemma FilterKeepsOrder<T>(s: seq<T>, f: T -> bool, i: int, j: int)
    requires 0 <= i < j <= |s| && f(s[i])
    ensures Rank(s, f, i) < Rank(s, f, j)
  {
    assert s[..j] == s[..i] + s[i..j];
    FilterConcat(s[..i], s[i..j], f);
    assert s[i..j] == [s[i]] + s[i + 1..j];
    FilterConcat([s[i]], s[i + 1..j], f);
  }

  /** Nothing passes, stated by position. */
  lemma FilterNoneAt<T>(s: seq<T>, f: T -> bool)
    requires forall i | 0 <= i < |s| :: !f(s[i])
    ensures Filter(s, f) == []
  {
    forall x | x in s ensures !f(x) {
      var i :| 0 <= i < |s| && s[i] == x;
    }
    FilterNone(s, f);
  }

  /** Exactly one position passes: the result is that element alone. */
  lemma {:induction false} FilterSingle<T>(s: seq<T>, f: T -> bool, k: int)
    requires 0 <= k < |s| && f(s[k])
    requires forall i | 0 <= i < |s| && i != k :: !f(s[i])
    ensures Filter(s, f) == [s[k]]
  {
    var rest := s[1..];
    assert forall i | 0 <= i < |rest| :: rest[i] == s[i + 1];
    if k == 0 {
      FilterNoneAt(rest, f);
    } else {
      FilterSingle(rest, f, k - 1);
    }
  }
}
