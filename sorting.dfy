/** The newest-first ordering applied when a transaction is created: the
    comparator of the creation handler and an in-place sort that uses it. */
module Sorting {
  import opened Transactions

  /** The comparator handed to the array sort: negative when `t1` must come
      first, which is exactly when its date is later. It never answers 0, so
      two records with the same date each claim to go second. */
  function Compare(t1: Transaction, t2: Transaction): (c: int)
    ensures c == -1 || c == 1
    ensures c < 0 <==> t1.date > t2.date
  {
    if t1.date - t2.date > 0 then -1 else 1
  }

  /** Dates never increase along the sequence: newest first. */
  ghost predicate NewestFirst(s: seq<Transaction>) {
    forall i, j :: 0 <= i < j < |s| ==> s[i].date >= s[j].date
  }

  /** Sorts the array in place, newest first: each element in turn is moved
      towards the front while the comparator says it goes before its
      neighbour. Equal dates are never swapped, but no tie order is promised. */
  method InsertionSort(a: array<Transaction>)
    modifies a
    ensures NewestFirst(a[..])
    ensures multiset(a[..]) == old(multiset(a[..]))
  {
    var i := 0;
    while i < a.Length
      invariant 0 <= i <= a.Length
      invariant NewestFirst(a[..i])
      invariant multiset(a[..]) == old(multiset(a[..]))
    {
      Insert(a, i);
      i := i + 1;
    }
    assert a[..] == a[..a.Length];
  }

  /** One pass of the sort: moves `a[i]` forward into the newest-first
      prefix `a[..i]`. */
  method Insert(a: array<Transaction>, i: nat)
    requires i < a.Length && NewestFirst(a[..i])
    modifies a
    ensures NewestFirst(a[..i + 1])
    ensures multiset(a[..]) == old(multiset(a[..]))
  {
    var j := i;
    while j > 0 && Compare(a[j], a[j - 1]) < 0
      invariant 0 <= j <= i
      invariant forall p, q :: 0 <= p < q <= i && q != j ==> a[p].date >= a[q].date
      invariant multiset(a[..]) == old(multiset(a[..]))
    {
      Swap(a, j);
      j := j - 1;
    }
  }

  /** Exchanges `a[j - 1]` and `a[j]`. */
  method Swap(a: array<Transaction>, j: nat)
    requires 0 < j < a.Length
    modifies a
    ensures a[j - 1] == old(a[j]) && a[j] == old(a[j - 1])
    ensures forall m :: 0 <= m < a.Length && m != j - 1 && m != j ==> a[m] == old(a[m])
    ensures multiset(a[..]) == old(multiset(a[..]))
  {
    a[j - 1], a[j] := a[j], a[j - 1];
  }

  /** The sort applied to a fresh copy of `s`, as the creation handler sorts
      the freshly spread array. */
  method SortNewestFirst(s: seq<Transaction>) returns (r: seq<Transaction>)
    ensures |r| == |s|
    ensures NewestFirst(r)
    ensures multiset(r) == multiset(s)
  {
    var a := new Transaction[|s|](i requires 0 <= i < |s| => s[i]);
    assert a[..] == s;
    InsertionSort(a);
    r := a[..];
    assert |r| == |multiset(r)| == |multiset(s)| == |s|;
  }

  /** A record strictly newer than another stands before it in a newest-first
      sequence; so a record dated between two others lands between them. */
  lemma NewerComesFirst(s: seq<Transaction>, i: nat, j: nat)
    requires NewestFirst(s) && i < |s| && j < |s|
    requires s[i].date > s[j].date
    ensures i < j
  {
  }

  /** Two records sorted newest first come out in date order, whatever order
      they started in. */
  lemma TwoSorted(r: seq<Transaction>, older: Transaction, newer: Transaction)
    requires NewestFirst(r) && multiset(r) == multiset([older, newer])
    requires older.date < newer.date
    ensures r == [newer, older]
  {
    assert |r| == |multiset(r)| == 2;
    assert r[0] in multiset(r) && r[1] in multiset(r);
    assert older in multiset(r) && newer in multiset(r);
  }
}
