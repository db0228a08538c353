/**
 * Generic sequence facts used by the query model: duplicate-freedom,
 * subsequences, the index of a first occurrence, and the order-preserving
 * removal of duplicates that pandas' `Series.unique` performs.
 */
module Sequences {

  predicate NoDuplicates<T(==)>(s: seq<T>)
  {
    forall i, j :: 0 <= i < j < |s| ==> s[i] != s[j]
  }

  /** `sub` is `s` with some elements dropped and the rest kept in order. */
  predicate IsSubsequence<T(==)>(sub: seq<T>, s: seq<T>)
    decreases |s|
  {
    if |sub| == 0 then true
    else if |s| == 0 then false
    else if sub[0] == s[0] then IsSubsequence(sub[1..], s[1..])
    else IsSubsequence(sub, s[1..])
  }

  /** The index of the first occurrence of `x` in `s`. */
  function FirstIndex<T(==)>(s: seq<T>, x: T): (i: nat)
    requires x in s
    ensures i < |s| && s[i] == x
    ensures forall j :: 0 <= j < i ==> s[j] != x
  {
    if s[0] == x then 0 else 1 + FirstIndex(s[1..], x)
  }

  /** An element present in a prefix has the same first index in the whole sequence. */
  lemma FirstIndexInPrefix<T>(s: seq<T>, x: T, n: nat)
    requires n <= |s| && x in s[..n]
    ensures x in s && FirstIndex(s, x) == FirstIndex(s[..n], x)
  {
    var k := FirstIndex(s[..n], x);
    assert forall j :: 0 <= j <= k ==> s[..n][j] == s[j];
  }

  /**
   * The distinct elements of `s` in the order of their first occurrence.
   * Defined on the prefix without the last element: that element is
   * appended only when the prefix did not already produce it.
   */
  function Distinct<T(==)>(s: seq<T>): (r: seq<T>)
    ensures NoDuplicates(r)
    ensures forall i :: 0 <= i < |r| ==> r[i] in s
    ensures forall i :: 0 <= i < |s| ==> s[i] in r
    ensures |r| <= |s|
  {
    if |s| == 0 then []
    else
      var init, last := s[..|s| - 1], s[|s| - 1];
      assert s == init + [last];
      var r := Distinct(init);
      if last in r then r else r + [last]
  }

  /** Order over a prefix of `s` is order over `s`. */
  lemma OrderExtends<T>(s: seq<T>, r: seq<T>)
    requires 0 < |s| && InFirstOccurrenceOrder(r, s[..|s| - 1])
    ensures InFirstOccurrenceOrder(r, s)
  {
    forall i | 0 <= i < |r|
      ensures r[i] in s && FirstIndex(s, r[i]) == FirstIndex(s[..|s| - 1], r[i])
    {
      FirstIndexInPrefix(s, r[i], |s| - 1);
    }
  }

  /** Appending the last element of `s`, when it is new there, keeps the order. */
  lemma OrderExtendsWithLast<T>(s: seq<T>, r: seq<T>)
    requires 0 < |s| && InFirstOccurrenceOrder(r, s[..|s| - 1]) && s[|s| - 1] !in s[..|s| - 1]
    ensures InFirstOccurrenceOrder(r + [s[|s| - 1]], s)
  {
    OrderExtends(s, r);
    var last := s[|s| - 1];
    assert FirstIndex(s, last) == |s| - 1;
    forall i | 0 <= i < |r|
      ensures FirstIndex(s, r[i]) < |s| - 1
    {
      FirstIndexInPrefix(s, r[i], |s| - 1);
    }
  }

  /** `Distinct` keeps first-occurrence order: earlier in the result means first seen earlier in the input. */
  lemma {:induction false} DistinctKeepsFirstOrder<T>(s: seq<T>)
    ensures InFirstOccurrenceOrder(Distinct(s), s)
  {
    if 0 < |s| {
      var init := s[..|s| - 1];
      DistinctKeepsFirstOrder(init);
      if s[|s| - 1] in Distinct(init) {
        OrderExtends(s, Distinct(init));
      } else {
        OrderExtendsWithLast(s, Distinct(init));
      }
    }
  }

  /** Removing duplicates yields no element exactly when the input is empty. */
  lemma DistinctEmptyIff<T>(s: seq<T>)
    ensures |Distinct(s)| == 0 <==> |s| == 0
  {
    if |s| > 0 {
      assert s[0] in Distinct(s);
    }
  }

  /** The elements of `a` are elements of `s`, listed strictly by the index of their first occurrence there. */
  predicate InFirstOccurrenceOrder<T(==)>(a: seq<T>, s: seq<T>)
  {
    (forall i :: 0 <= i < |a| ==> a[i] in s)
    && forall i, j :: 0 <= i < j < |a| ==> FirstIndex(s, a[i]) < FirstIndex(s, a[j])
  }

  lemma OrderedTail<T>(s: seq<T>, a: seq<T>)
    requires InFirstOccurrenceOrder(a, s) && 0 < |a|
    ensures InFirstOccurrenceOrder(a[1..], s)
  {
    assert forall i :: 0 <= i < |a| - 1 ==> a[1..][i] == a[i + 1];
  }

  /** Two ordered sequences that contain each other's first elements start alike. */
  lemma OrderedSameHead<T>(s: seq<T>, a: seq<T>, b: seq<T>)
    requires InFirstOccurrenceOrder(a, s) && InFirstOccurrenceOrder(b, s)
    requires 0 < |a| && 0 < |b| && a[0] in b && b[0] in a
    ensures a[0] == b[0]
  {
    var ka, kb := FirstIndex(s, a[0]), FirstIndex(s, b[0]);
    var j :| 0 <= j < |b| && b[j] == a[0];
    assert kb <= FirstIndex(s, b[j]);
    var i :| 0 <= i < |a| && a[i] == b[0];
    assert ka <= FirstIndex(s, a[i]);
  }

  /** Past a common first element, every later element of `a` is a later element of `b`. */
  lemma OrderedTailMembers<T>(s: seq<T>, a: seq<T>, b: seq<T>)
    requires InFirstOccurrenceOrder(a, s) && InFirstOccurrenceOrder(b, s)
    requires 0 < |a| && 0 < |b| && a[0] == b[0]
    requires forall x :: x in a ==> x in b
    ensures forall x :: x in a[1..] ==> x in b[1..]
  {
    forall x | x in a[1..]
      ensures x in b[1..]
    {
      var i :| 0 <= i < |a| - 1 && a[1..][i] == x;
      assert a[i + 1] == x && x in a;
      assert FirstIndex(s, a[0]) < FirstIndex(s, x);
      var j :| 0 <= j < |b| && b[j] == x;
      assert j != 0;
      assert b[1..][j - 1] == x;
    }
  }

  lemma SameHeadSameTail<T>(a: seq<T>, b: seq<T>)
    requires 0 < |a| && 0 < |b| && a[0] == b[0] && a[1..] == b[1..]
    ensures a == b
  {
    assert a == [a[0]] + a[1..] && b == [b[0]] + b[1..];
  }

  /** Two sequences with the same elements, both in first-occurrence order over `s`, are equal. */
  lemma {:induction false} FirstOccurrenceOrderUnique<T>(s: seq<T>, a: seq<T>, b: seq<T>)
    requires InFirstOccurrenceOrder(a, s) && InFirstOccurrenceOrder(b, s)
    requires forall x :: x in a <==> x in b
    ensures a == b
    decreases |a|
  {
    if 0 < |b| {
      assert b[0] in a;
    }
    if 0 < |a| {
      assert a[0] in b;
      OrderedSameHead(s, a, b);
      OrderedTailMembers(s, a, b);
      OrderedTailMembers(s, b, a);
      OrderedTail(s, a);
      OrderedTail(s, b);
      FirstOccurrenceOrderUnique(s, a[1..], b[1..]);
      SameHeadSameTail(a, b);
    }
  }

  /**
   * `Distinct` is the only duplicate-free sequence holding exactly the
   * elements of `s` in first-occurrence order.
   */
  lemma DistinctIsUnique<T>(s: seq<T>, r: seq<T>)
    requires NoDuplicates(r) && InFirstOccurrenceOrder(r, s)
    requires forall i :: 0 <= i < |s| ==> s[i] in r
    ensures r == Distinct(s)
  {
    DistinctKeepsFirstOrder(s);
    FirstOccurrenceOrderUnique(s, r, Distinct(s));
  }
}
