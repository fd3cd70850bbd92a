/**
 * Python's ordering of strings (code point by code point, a proper prefix
 * first) and the two list mutations the schedule editor uses, `sort()` and
 * `remove(x)`, stated on sequences.
 */
module PyList {

  /** `a < b` on Python strings. */
  predicate Below(a: string, b: string) {
    if a == [] then b != []
    else if b == [] then false
    else if a[0] != b[0] then a[0] < b[0]
    else Below(a[1..], b[1..])
  }

  lemma {:induction false} BelowIrreflexive(a: string)
    ensures !Below(a, a)
  {
    if a != [] { BelowIrreflexive(a[1..]); }
  }

  lemma {:induction false} BelowTransitive(a: string, b: string, c: string)
    requires Below(a, b) && Below(b, c)
    ensures Below(a, c)
  {
    if a != [] && b != [] && c != [] && a[0] == b[0] && b[0] == c[0] {
      BelowTransitive(a[1..], b[1..], c[1..]);
    }
  }

  /** Any two distinct strings are ordered one way or the other. */
  lemma {:induction false} BelowTotal(a: string, b: string)
    ensures a == b || Below(a, b) || Below(b, a)
  {
    if a != [] && b != [] && a[0] == b[0] {
      BelowTotal(a[1..], b[1..]);
      if a[1..] == b[1..] {
        assert a == [a[0]] + a[1..] && b == [b[0]] + b[1..];
      }
    }
  }

  lemma BelowAsymmetric(a: string, b: string)
    requires Below(a, b)
    ensures !Below(b, a) && a != b
  {
    if Below(b, a) {
      BelowTransitive(a, b, a);
      BelowIrreflexive(a);
    }
    if a == b { BelowIrreflexive(a); }
  }

  /** Non-decreasing in Python's string order, as `list.sort()` leaves a list. */
  ghost predicate Sorted(xs: seq<string>) {
    forall i, j :: 0 <= i < j < |xs| ==> !Below(xs[j], xs[i])
  }

  /** Strictly increasing: sorted and free of duplicates. */
  ghost predicate Increasing(xs: seq<string>) {
    forall i, j :: 0 <= i < j < |xs| ==> Below(xs[i], xs[j])
  }

  lemma SortedDistinctIsIncreasing(xs: seq<string>)
    requires Sorted(xs)
    requires forall i, j :: 0 <= i < j < |xs| ==> xs[i] != xs[j]
    ensures Increasing(xs)
  {
    forall i, j | 0 <= i < j < |xs| ensures Below(xs[i], xs[j]) {
      BelowTotal(xs[i], xs[j]);
    }
  }

  lemma IncreasingIsSortedAndDistinct(xs: seq<string>)
    requires Increasing(xs)
    ensures Sorted(xs)
    ensures forall i, j :: 0 <= i < j < |xs| ==> xs[i] != xs[j]
  {
    forall i, j | 0 <= i < j < |xs| ensures !Below(xs[j], xs[i]) && xs[i] != xs[j] {
      BelowAsymmetric(xs[i], xs[j]);
    }
  }

  /** Put `x` in front of the first element that is not below it. */
  function Insert(x: string, ys: seq<string>): (r: seq<string>)
    requires Sorted(ys)
    ensures multiset(r) == multiset(ys) + multiset{x}
    ensures Sorted(r)
  {
    if ys == [] then [x]
    else if Below(ys[0], x) then
      var rest := Insert(x, ys[1..]);
      assert ys == [ys[0]] + ys[1..];
      RestNotBelowHead(x, ys, rest);
      ConsSorted(ys[0], rest);
      [ys[0]] + rest
    else
      NotBelowInserted(x, ys);
      ConsSorted(x, ys);
      [x] + ys
  }

  /** Prepending an element that nothing in `rest` is below keeps `rest` sorted. */
  lemma ConsSorted(y: string, rest: seq<string>)
    requires Sorted(rest)
    requires forall k :: 0 <= k < |rest| ==> !Below(rest[k], y)
    ensures Sorted([y] + rest)
  {
    var r := [y] + rest;
    forall i, j | 0 <= i < j < |r| ensures !Below(r[j], r[i]) {
      assert r[j] == rest[j - 1];
      if i > 0 { assert r[i] == rest[i - 1]; }
    }
  }

  /** After the head, the elements of the sorted list and `x`, which the head is below, are none of them below the head. */
  lemma RestNotBelowHead(x: string, ys: seq<string>, rest: seq<string>)
    requires Sorted(ys) && ys != [] && Below(ys[0], x)
    requires multiset(rest) == multiset(ys[1..]) + multiset{x}
    ensures forall k :: 0 <= k < |rest| ==> !Below(rest[k], ys[0])
  {
    forall k | 0 <= k < |rest| ensures !Below(rest[k], ys[0]) {
      assert rest[k] in multiset(rest);
      if rest[k] == x { BelowAsymmetric(ys[0], x); }
      else {
        assert rest[k] in multiset(ys[1..]);
        var m :| 0 <= m < |ys[1..]| && ys[1..][m] == rest[k];
        assert ys[m + 1] == rest[k];
      }
    }
  }

  /** When the head of a sorted list is not below `x`, no element is. */
  lemma NotBelowInserted(x: string, ys: seq<string>)
    requires Sorted(ys) && ys != [] && !Below(ys[0], x)
    ensures forall k :: 0 <= k < |ys| ==> !Below(ys[k], x)
  {
    forall k | 0 <= k < |ys| ensures !Below(ys[k], x) {
      if k > 0 && Below(ys[k], x) {
        BelowTotal(ys[0], ys[k]);
        if Below(ys[0], ys[k]) { BelowTransitive(ys[0], ys[k], x); }
      }
    }
  }

  /** `sorted(xs)`: Python's sort of a list of strings. */
  function Sort(xs: seq<string>): (r: seq<string>)
    ensures Sorted(r)
    ensures multiset(r) == multiset(xs)
  {
    if xs == [] then []
    else
      assert xs == [xs[0]] + xs[1..];
      Insert(xs[0], Sort(xs[1..]))
  }

  lemma SortedHeadIsLeast(xs: seq<string>, x: string)
    requires Sorted(xs) && x in xs
    ensures !Below(x, xs[0])
  {
    var i :| 0 <= i < |xs| && xs[i] == x;
    if i == 0 { BelowIrreflexive(x); }
  }

  /**
   * A sorted list holds its elements in one order only, so any algorithm that
   * sorts, Timsort among them, gives the same list as `Sort`.
   */
  lemma {:induction false} SortedPermutationsAreEqual(a: seq<string>, b: seq<string>)
    requires Sorted(a) && Sorted(b)
    requires multiset(a) == multiset(b)
    ensures a == b
  {
    if a != [] {
      SameHead(a, b);
      TailMultiset(a);
      TailMultiset(b);
      SortedTail(a);
      SortedTail(b);
      SortedPermutationsAreEqual(a[1..], b[1..]);
      assert a == [a[0]] + a[1..] && b == [b[0]] + b[1..];
    }
  }

  /** Two sorted lists with the same elements have the same length and begin alike. */
  lemma SameHead(a: seq<string>, b: seq<string>)
    requires Sorted(a) && Sorted(b) && a != []
    requires multiset(a) == multiset(b)
    ensures |b| == |a| && a[0] == b[0]
  {
    assert |b| == |a| by { assert |multiset(a)| == |multiset(b)|; }
    assert a[0] in multiset(b) && b[0] in multiset(a);
    SortedHeadIsLeast(b, a[0]);
    SortedHeadIsLeast(a, b[0]);
    BelowTotal(a[0], b[0]);
  }

  lemma TailMultiset(a: seq<string>)
    requires a != []
    ensures multiset(a[1..]) == multiset(a) - multiset{a[0]}
  {
    assert a == [a[0]] + a[1..];
  }

  lemma SortedTail(a: seq<string>)
    requires Sorted(a) && a != []
    ensures Sorted(a[1..])
  {
    assert forall i :: 0 <= i < |a| - 1 ==> a[1..][i] == a[i + 1];
  }

  /** `xs.index(x)`: the position of the first occurrence. */
  function FirstIndex(xs: seq<string>, x: string): (i: nat)
    requires x in xs
    ensures i < |xs| && xs[i] == x && x !in xs[..i]
  {
    if xs[0] == x then 0 else 1 + FirstIndex(xs[1..], x)
  }

  /** `xs.remove(x)` on a list that holds `x`: its first occurrence goes, the rest keep their order. */
  function RemoveFirst(xs: seq<string>, x: string): (r: seq<string>)
    requires x in xs
    ensures r == xs[..FirstIndex(xs, x)] + xs[FirstIndex(xs, x) + 1..]
  {
    if xs[0] == x then xs[1..] else [xs[0]] + RemoveFirst(xs[1..], x)
  }

  /** Position by position, the list `remove` leaves: the elements before the removed one, then the ones after it. */
  lemma {:induction false} RemoveFirstShifts(xs: seq<string>, x: string)
    requires x in xs
    ensures |RemoveFirst(xs, x)| == |xs| - 1
    ensures forall k :: 0 <= k < FirstIndex(xs, x) ==> RemoveFirst(xs, x)[k] == xs[k]
    ensures forall k :: FirstIndex(xs, x) <= k < |RemoveFirst(xs, x)| ==> RemoveFirst(xs, x)[k] == xs[k + 1]
  {
    var i := FirstIndex(xs, x);
    var r := RemoveFirst(xs, x);
    assert r == xs[..i] + xs[i + 1..];
    assert forall k :: 0 <= k < i ==> r[k] == xs[..i][k];
    assert forall k :: i <= k < |r| ==> r[k] == xs[i + 1..][k - i];
  }

  /** Dropping position `i` from an increasing list leaves an increasing list. */
  lemma IncreasingWithout(xs: seq<string>, i: nat, r: seq<string>)
    requires Increasing(xs) && i < |xs| && |r| == |xs| - 1
    requires forall k :: 0 <= k < i && k < |r| ==> r[k] == xs[k]
    requires forall k :: i <= k < |r| ==> r[k] == xs[k + 1]
    ensures Increasing(r)
  {
    forall a, b | 0 <= a < b < |r| ensures Below(r[a], r[b]) {
      var a' := if a < i then a else a + 1;
      var b' := if b < i then b else b + 1;
      assert r[a] == xs[a'] && r[b] == xs[b'];
    }
  }

  /** Dropping position `i` from a list without duplicates removes exactly the element there. */
  lemma MembersWithout(xs: seq<string>, i: nat, r: seq<string>)
    requires i < |xs| && |r| == |xs| - 1
    requires forall a, b :: 0 <= a < b < |xs| ==> xs[a] != xs[b]
    requires forall k :: 0 <= k < i && k < |r| ==> r[k] == xs[k]
    requires forall k :: i <= k < |r| ==> r[k] == xs[k + 1]
    ensures forall y :: y in r <==> y in xs && y != xs[i]
  {
    forall y | y in r ensures y in xs && y != xs[i] {
      var k :| 0 <= k < |r| && r[k] == y;
      if k < i { assert xs[k] == y; } else { assert xs[k + 1] == y; }
    }
    forall y | y in xs && y != xs[i] ensures y in r {
      var k :| 0 <= k < |xs| && xs[k] == y;
      if k < i { assert r[k] == y; } else { assert k > i && r[k - 1] == y; }
    }
  }

  /** Removing an element keeps an increasing list increasing and takes exactly that element out. */
  lemma RemoveFirstFromIncreasing(xs: seq<string>, x: string)
    requires x in xs && Increasing(xs)
    ensures Increasing(RemoveFirst(xs, x))
    ensures x !in RemoveFirst(xs, x)
    ensures forall y :: y in RemoveFirst(xs, x) <==> y in xs && y != x
    ensures |RemoveFirst(xs, x)| == |xs| - 1
  {
    var i := FirstIndex(xs, x);
    var r := RemoveFirst(xs, x);
    RemoveFirstShifts(xs, x);
    IncreasingWithout(xs, i, r);
    IncreasingIsSortedAndDistinct(xs);
    MembersWithout(xs, i, r);
  }
}
