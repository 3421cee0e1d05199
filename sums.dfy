/** Sums of a weight over a sequence, and the facts about them that the
    aggregations of the dashboard rely on: a sum splits over concatenation and
    does not depend on the order of the elements. */
module Sums {

  /** The sum of `weight(x)` over the elements `x` of `s`. */
  function SumBy<T>(s: seq<T>, weight: T -> int): int {
    if s == [] then 0 else weight(s[0]) + SumBy(s[1..], weight)
  }

  lemma {:induction false} SumByAppend<T>(a: seq<T>, b: seq<T>, weight: T -> int)
    ensures SumBy(a + b, weight) == SumBy(a, weight) + SumBy(b, weight)
  {
    if a == [] {
      assert a + b == b;
    } else {
      assert (a + b)[1..] == a[1..] + b;
      SumByAppend(a[1..], b, weight);
    }
  }

  /** Reordering the elements does not change the sum. */
  lemma {:induction false} SumByPermutation<T>(a: seq<T>, b: seq<T>, weight: T -> int)
    requires multiset(a) == multiset(b)
    ensures SumBy(a, weight) == SumBy(b, weight)
    decreases |a|
  {
    if a == [] {
      assert |b| == |multiset(b)| == 0;
    } else {
      var i := IndexIn(a[0], b);
      PermutationTails(a, b, i);
      SumByPermutation(a[1..], b[..i] + b[i + 1..], weight);
      SumByInsert(b[..i], a[0], b[i + 1..], weight);
    }
  }

  /** A position of `x` in `b` when `x` occurs in it. */
  ghost function IndexIn<T>(x: T, b: seq<T>): (i: nat)
    requires x in multiset(b)
    ensures i < |b| && b[i] == x
  {
    var i :| 0 <= i < |b| && b[i] == x; i
  }

  /** Taking the first element off `a` and the same element off `b`, at
      position `i`, leaves two permutations of each other. */
  lemma PermutationTails<T>(a: seq<T>, b: seq<T>, i: nat)
    requires multiset(a) == multiset(b) && a != []
    requires i < |b| && b[i] == a[0]
    ensures multiset(a[1..]) == multiset(b[..i] + b[i + 1..])
    ensures b == b[..i] + [a[0]] + b[i + 1..]
  {
    var rest := b[..i] + b[i + 1..];
    assert a == [a[0]] + a[1..];
    assert b == b[..i] + [b[i]] + b[i + 1..];
    assert multiset(a) == multiset{a[0]} + multiset(a[1..]);
    assert multiset(b) == multiset(b[..i]) + multiset{b[i]} + multiset(b[i + 1..]);
    assert multiset(rest) == multiset(b[..i]) + multiset(b[i + 1..]);
    forall y
      ensures multiset(a[1..])[y] == multiset(rest)[y]
    {
      assert multiset(a)[y] == multiset(b)[y];
    }
  }

  /** Sequences whose elements weigh the same, position by position, have
      the same sum. */
  lemma {:induction false} SumByPointwise<T, U>(a: seq<T>, wa: T -> int, b: seq<U>, wb: U -> int)
    requires |a| == |b|
    requires forall i :: 0 <= i < |a| ==> wa(a[i]) == wb(b[i])
    ensures SumBy(a, wa) == SumBy(b, wb)
  {
    if a != [] {
      assert forall i :: 0 <= i < |a| - 1 ==> a[1..][i] == a[i + 1] && b[1..][i] == b[i + 1];
      SumByPointwise(a[1..], wa, b[1..], wb);
    }
  }

  /** Appending one element adds exactly its weight. */
  lemma SumBySnoc<T>(s: seq<T>, x: T, weight: T -> int)
    ensures SumBy(s + [x], weight) == SumBy(s, weight) + weight(x)
  {
    SumByAppend(s, [x], weight);
    assert SumBy([x], weight) == weight(x) + SumBy([x][1..], weight);
  }

  /** Elements that all weigh nothing sum to nothing. */
  lemma {:induction false} SumByZero<T>(s: seq<T>, weight: T -> int)
    requires forall x :: x in s ==> weight(x) == 0
    ensures SumBy(s, weight) == 0
  {
    if s != [] {
      SumByZero(s[1..], weight);
    }
  }

  /** Inserting one element adds exactly its weight. */
  lemma SumByInsert<T>(a: seq<T>, x: T, b: seq<T>, weight: T -> int)
    ensures SumBy(a + [x] + b, weight) == SumBy(a + b, weight) + weight(x)
  {
    SumByAppend(a + [x], b, weight);
    SumByAppend(a, [x], weight);
    SumByAppend(a, b, weight);
  }

  /** Elements of non-negative weight have a non-negative sum. */
  lemma {:induction false} SumByNonNegative<T>(s: seq<T>, weight: T -> int)
    requires forall x :: x in s ==> weight(x) >= 0
    ensures SumBy(s, weight) >= 0
  {
    if s != [] {
      SumByNonNegative(s[1..], weight);
    }
  }

  /** Replacing the element at `i` changes the sum by the difference of
      the weights. */
  lemma SumByReplace<T>(s: seq<T>, i: nat, x: T, weight: T -> int)
    requires i < |s|
    ensures SumBy(s[..i] + [x] + s[i + 1..], weight) == SumBy(s, weight) - weight(s[i]) + weight(x)
  {
    assert s == s[..i] + [s[i]] + s[i + 1..];
    SumByInsert(s[..i], s[i], s[i + 1..], weight);
    SumByInsert(s[..i], x, s[i + 1..], weight);
  }
}
