/** Identity of transactions: how many records carry an id, and uniqueness of
    ids, which every permutation of the ledger preserves. */
module Ids {
  import opened Transactions

  /** The number of records in `s` whose id is `k`. */
  function IdCount(s: seq<Transaction>, k: int): nat {
    if s == [] then 0 else (if s[0].id == k then 1 else 0) + IdCount(s[1..], k)
  }

  /** No two records of `s` share an id. */
  ghost predicate UniqueIds(s: seq<Transaction>) {
    forall i, j :: 0 <= i < j < |s| ==> s[i].id != s[j].id
  }

  lemma {:induction false} IdCountConcat(a: seq<Transaction>, b: seq<Transaction>, k: int)
    ensures IdCount(a + b, k) == IdCount(a, k) + IdCount(b, k)
  {
    if a == [] {
      assert a + b == b;
    } else {
      assert (a + b)[1..] == a[1..] + b;
      IdCountConcat(a[1..], b, k);
    }
  }

  /** Some record has id `k` exactly when the count of `k` is positive. */
  lemma {:induction false} IdCountPositive(s: seq<Transaction>, k: int)
    ensures IdCount(s, k) > 0 <==> exists i :: 0 <= i < |s| && s[i].id == k
  {
    if s != [] {
      IdCountPositive(s[1..], k);
      if s[0].id != k {
        if IdCount(s, k) > 0 {
          var i :| 0 <= i < |s[1..]| && s[1..][i].id == k;
          assert s[i + 1].id == k;
        }
        if exists i :: 0 <= i < |s| && s[i].id == k {
          var i :| 0 <= i < |s| && s[i].id == k;
          assert s[1..][i - 1].id == k;
        }
      }
    }
  }

  /** Two records sharing an id make that id's count at least two. */
  lemma IdCountShared(s: seq<Transaction>, i: nat, j: nat)
    requires i < j < |s| && s[i].id == s[j].id
    ensures IdCount(s, s[i].id) >= 2
  {
    var k := s[i].id;
    assert s == s[..j] + s[j..];
    IdCountConcat(s[..j], s[j..], k);
    assert s[..j][i].id == k;
    IdCountPositive(s[..j], k);
    assert s[j..][0].id == k;
    IdCountPositive(s[j..], k);
  }

  /** With unique ids, every id occurs at most once. */
  lemma {:induction false} UniqueIdsAtMostOnce(s: seq<Transaction>, k: int)
    requires UniqueIds(s)
    ensures IdCount(s, k) <= 1
  {
    if s != [] {
      var t := s[1..];
      assert UniqueIds(t) by {
        forall i, j | 0 <= i < j < |t| ensures t[i].id != t[j].id {
          assert s[i + 1] == t[i] && s[j + 1] == t[j];
        }
      }
      UniqueIdsAtMostOnce(t, k);
      if s[0].id == k {
        IdCountPositive(t, k);
      }
    }
  }

  /** `s` with the record at position `i` taken out. */
  function Without(s: seq<Transaction>, i: nat): seq<Transaction>
    requires i < |s|
  {
    s[..i] + s[i + 1..]
  }

  /** Taking one record out removes it once from the multiset and lowers its
      id's count by one. */
  lemma WithoutContents(s: seq<Transaction>, i: nat)
    requires i < |s|
    ensures multiset(Without(s, i)) == multiset(s) - multiset{s[i]}
    ensures forall k :: IdCount(s, k) == (if s[i].id == k then 1 else 0) + IdCount(Without(s, i), k)
  {
    assert s == s[..i] + [s[i]] + s[i + 1..];
    assert multiset(s) == multiset(s[..i]) + multiset{s[i]} + multiset(s[i + 1..]);
    forall k ensures IdCount(s, k) == (if s[i].id == k then 1 else 0) + IdCount(Without(s, i), k) {
      IdCountConcat(s[..i] + [s[i]], s[i + 1..], k);
      IdCountConcat(s[..i], [s[i]], k);
      IdCountConcat(s[..i], s[i + 1..], k);
    }
  }

  /** Reordering the ledger keeps every id's count. */
  lemma {:induction false} IdCountPermutation(a: seq<Transaction>, b: seq<Transaction>, k: int)
    requires multiset(a) == multiset(b)
    ensures IdCount(a, k) == IdCount(b, k)
    decreases |a|
  {
    if a == [] {
      assert |b| == |multiset(b)| == 0;
    } else {
      assert a[0] in multiset(b);
      var i :| 0 <= i < |b| && b[i] == a[0];
      WithoutContents(a, 0);
      WithoutContents(b, i);
      var a', b' := Without(a, 0), Without(b, i);
      IdCountPermutation(a', b', k);
    }
  }

  /** Reordering the ledger keeps ids unique. */
  lemma UniqueIdsPermutation(a: seq<Transaction>, b: seq<Transaction>)
    requires multiset(a) == multiset(b) && UniqueIds(a)
    ensures UniqueIds(b)
  {
    forall i, j | 0 <= i < j < |b| ensures b[i].id != b[j].id {
      if b[i].id == b[j].id {
        IdCountShared(b, i, j);
        IdCountPermutation(a, b, b[i].id);
        UniqueIdsAtMostOnce(a, b[i].id);
      }
    }
  }

  /** Appending a record whose id is not yet used keeps ids unique. */
  lemma AppendFreshId(s: seq<Transaction>, t: Transaction)
    requires UniqueIds(s) && IdCount(s, t.id) == 0
    ensures UniqueIds(s + [t])
  {
    IdCountPositive(s, t.id);
  }
}
