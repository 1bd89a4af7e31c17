/** Sorting by a total order. The sorted arrangement of a list is unique, so a sort is characterised by
    being ordered and a rearrangement of its input, however the library computes it. */
module Sorting {

  ghost predicate TotalOrder<T(!new)>(leq: (T, T) -> bool) {
    && (forall x, y :: leq(x, y) || leq(y, x))
    && (forall x, y :: leq(x, y) && leq(y, x) ==> x == y)
    && (forall x, y, z :: leq(x, y) && leq(y, z) ==> leq(x, z))
  }

  ghost predicate Sorted<T>(s: seq<T>, leq: (T, T) -> bool) {
    forall i, j :: 0 <= i < j < |s| ==> leq(s[i], s[j])
  }

  /** Puts x after the last element that is not above it. */
  function Insert<T>(x: T, s: seq<T>, leq: (T, T) -> bool): (r: seq<T>)
    ensures |r| == |s| + 1
    ensures multiset(r) == multiset(s) + multiset{x}
  {
    if s == [] then [x]
    else
      var most, last := s[..|s| - 1], s[|s| - 1];
      assert s == most + [last];
      if leq(last, x) then s + [x] else Insert(x, most, leq) + [last]
  }

  function Sort<T>(s: seq<T>, leq: (T, T) -> bool): (r: seq<T>)
    ensures |r| == |s|
    ensures multiset(r) == multiset(s)
  {
    if s == [] then []
    else
      var most, last := s[..|s| - 1], s[|s| - 1];
      assert s == most + [last];
      Insert(last, Sort(most, leq), leq)
  }

  ghost predicate AllBelow<T>(s: seq<T>, x: T, leq: (T, T) -> bool) {
    forall y :: y in s ==> leq(y, x)
  }

  lemma AppendKeepsSorted<T(!new)>(s: seq<T>, x: T, leq: (T, T) -> bool)
    requires Sorted(s, leq) && AllBelow(s, x, leq)
    ensures Sorted(s + [x], leq)
  {
    assert forall i :: 0 <= i < |s| ==> s[i] in s;
  }

  lemma PrefixIsSorted<T(!new)>(s: seq<T>, leq: (T, T) -> bool)
    requires Sorted(s, leq) && s != []
    ensures Sorted(s[..|s| - 1], leq) && AllBelow(s[..|s| - 1], s[|s| - 1], leq)
  {
  }

  lemma BelowAll<T(!new)>(s: seq<T>, last: T, x: T, leq: (T, T) -> bool)
    requires TotalOrder(leq) && leq(last, x) && AllBelow(s, last, leq)
    ensures AllBelow(s, x, leq)
  {
  }

  lemma {:induction false} InsertKeepsSorted<T(!new)>(x: T, s: seq<T>, leq: (T, T) -> bool)
    requires TotalOrder(leq) && Sorted(s, leq)
    ensures Sorted(Insert(x, s, leq), leq)
  {
    if s == [] {
    } else {
      var most, last := s[..|s| - 1], s[|s| - 1];
      PrefixIsSorted(s, leq);
      if leq(last, x) {
        BelowAll(most, last, x, leq);
        assert s == most + [last];
        hide TotalOrder, Sorted;
        AppendKeepsSorted(s, x, leq);
      } else {
        assert leq(x, last);
        hide TotalOrder, Sorted;
        InsertKeepsSorted(x, most, leq);
        var r := Insert(x, most, leq);
        forall y | y in r ensures leq(y, last) {
          assert y in multiset(r);
          assert y in multiset(most) || y == x;
        }
        AppendKeepsSorted(r, last, leq);
      }
    }
  }

  lemma {:induction false} SortIsSorted<T(!new)>(s: seq<T>, leq: (T, T) -> bool)
    requires TotalOrder(leq)
    ensures Sorted(Sort(s, leq), leq)
  {
    if s != [] {
      SortIsSorted(s[..|s| - 1], leq);
      InsertKeepsSorted(s[|s| - 1], Sort(s[..|s| - 1], leq), leq);
    }
  }

  /** The last element of an ordered list is above all of any rearrangement of it. */
  lemma LastIsTop<T(!new)>(s: seq<T>, t: seq<T>, leq: (T, T) -> bool)
    requires TotalOrder(leq) && Sorted(s, leq) && s != [] && multiset(s) == multiset(t)
    ensures forall x :: x in t ==> leq(x, s[|s| - 1])
  {
    forall x | x in t ensures leq(x, s[|s| - 1]) {
      assert x in multiset(t);
      assert x in s;
    }
  }

  lemma SameLast<T(!new)>(s: seq<T>, t: seq<T>, leq: (T, T) -> bool)
    requires TotalOrder(leq) && Sorted(s, leq) && Sorted(t, leq) && s != []
    requires multiset(s) == multiset(t)
    ensures |s| == |t| && s[|s| - 1] == t[|t| - 1]
  {
    assert |s| == |multiset(s)| == |multiset(t)| == |t|;
    var n := |s| - 1;
    LastIsTop(s, t, leq);
    LastIsTop(t, s, leq);
    assert s[n] in s && t[n] in t;
    assert leq(s[n], t[n]) && leq(t[n], s[n]);
  }

  lemma SameRest<T(!new)>(s: seq<T>, t: seq<T>)
    requires multiset(s) == multiset(t) && |s| == |t| > 0 && s[|s| - 1] == t[|t| - 1]
    ensures multiset(s[..|s| - 1]) == multiset(t[..|t| - 1])
  {
    var n := |s| - 1;
    assert s == s[..n] + [s[n]] && t == t[..n] + [t[n]];
    assert multiset(s[..n]) == multiset(s) - multiset{s[n]};
    assert multiset(t[..n]) == multiset(t) - multiset{t[n]};
  }

  /** Two ordered rearrangements of the same elements are the same list. */
  lemma {:induction false} SortedIsUnique<T(!new)>(s: seq<T>, t: seq<T>, leq: (T, T) -> bool)
    requires TotalOrder(leq) && Sorted(s, leq) && Sorted(t, leq)
    requires multiset(s) == multiset(t)
    ensures s == t
  {
    hide TotalOrder, Sorted;
    assert |s| == |multiset(s)| == |multiset(t)| == |t|;
    if s != [] {
      SameLast(s, t, leq);
      SameRest(s, t);
      PrefixIsSorted(s, leq);
      PrefixIsSorted(t, leq);
      SortedIsUnique(s[..|s| - 1], t[..|t| - 1], leq);
      assert s == s[..|s| - 1] + [s[|s| - 1]] && t == t[..|t| - 1] + [t[|t| - 1]];
    }
  }

  /** Being ordered and a rearrangement of s says everything about the sort of s. */
  lemma SortCharacterised<T(!new)>(s: seq<T>, t: seq<T>, leq: (T, T) -> bool)
    requires TotalOrder(leq)
    ensures t == Sort(s, leq) <==> Sorted(t, leq) && multiset(t) == multiset(s)
  {
    SortIsSorted(s, leq);
    if Sorted(t, leq) && multiset(t) == multiset(s) {
      SortedIsUnique(Sort(s, leq), t, leq);
    }
  }

  lemma {:induction false} InsertBelow<T>(x: T, s: seq<T>, leq: (T, T) -> bool, j: nat)
    requires j <= |s| && forall k :: j <= k < |s| ==> !leq(s[k], x)
    ensures Insert(x, s, leq) == Insert(x, s[..j], leq) + s[j..]
  {
    hide *;
    if j == |s| {
      assert s[..j] == s && s[j..] == [];
    } else {
      var most, last := s[..|s| - 1], s[|s| - 1];
      InsertBelow(x, most, leq, j);
      InsertBelowLast(x, s, leq);
      assert most[..j] == s[..j] && most[j..] + [last] == s[j..];
      assert (Insert(x, s[..j], leq) + most[j..]) + [last] == Insert(x, s[..j], leq) + (most[j..] + [last]);
    }
  }

  lemma InsertBelowLast<T>(x: T, s: seq<T>, leq: (T, T) -> bool)
    requires s != [] && !leq(s[|s| - 1], x)
    ensures Insert(x, s, leq) == Insert(x, s[..|s| - 1], leq) + [s[|s| - 1]]
  {
  }

  lemma InsertOnTop<T>(x: T, s: seq<T>, leq: (T, T) -> bool)
    requires s != [] ==> leq(s[|s| - 1], x)
    ensures Insert(x, s, leq) == s + [x]
  {
  }

  /** The elements above x moved up by one and x put in the gap: that is the insertion. */
  lemma ShiftedIsInserted<T>(x: T, s: seq<T>, shifted: seq<T>, j: nat, leq: (T, T) -> bool)
    requires j <= |s| && |shifted| == |s| + 1 && shifted[j] == x
    requires forall k :: 0 <= k < j ==> shifted[k] == s[k]
    requires forall k {:trigger s[k]} :: j <= k < |s| ==> shifted[k + 1] == s[k] && !leq(s[k], x)
    requires j > 0 ==> leq(s[j - 1], x)
    ensures shifted == Insert(x, s, leq)
  {
    hide Insert;
    InsertBelow(x, s, leq, j);
    InsertOnTop(x, s[..j], leq);
    assert shifted == s[..j] + [x] + s[j..];
  }

  /** Moves a[i] down to its place among the elements before it. */
  method InsertInPlace<T>(a: array<T>, i: nat, leq: (T, T) -> bool)
    requires i < a.Length
    modifies a
    ensures a[..i + 1] == Insert(old(a[i]), old(a[..i]), leq)
    ensures a[i + 1..] == old(a[i + 1..])
  {
    ghost var prefix := a[..i];
    var x := a[i];
    var j := i;
    while j > 0 && !leq(a[j - 1], x)
      invariant 0 <= j <= i
      invariant forall k :: 0 <= k < j ==> a[k] == prefix[k]
      invariant forall k {:trigger prefix[k]} :: j <= k < i ==> a[k + 1] == prefix[k] && !leq(prefix[k], x)
      invariant a[i + 1..] == old(a[i + 1..])
    {
      a[j] := a[j - 1];
      j := j - 1;
    }
    a[j] := x;
    ShiftedIsInserted(x, prefix, a[..i + 1], j, leq);
  }

  /** Sorts in place, as the sort functions of the library do. */
  method SortInPlace<T>(a: array<T>, leq: (T, T) -> bool)
    modifies a
    ensures a[..] == Sort(old(a[..]), leq)
  {
    ghost var was := a[..];
    for i := 0 to a.Length
      invariant a[..i] == Sort(was[..i], leq)
      invariant a[i..] == was[i..]
    {
      assert was[..i + 1][..i] == was[..i];
      assert a[i] == a[i..][0] == was[i];
      assert a[i..][1..] == a[i + 1..] && was[i..][1..] == was[i + 1..];
      InsertInPlace(a, i, leq);
    }
    assert a[..] == a[..a.Length] && was == was[..a.Length];
  }
}
