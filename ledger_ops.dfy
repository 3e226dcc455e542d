/** The ledger operations as values: each builds a new list from the old one
    (spread, `map`, `filter`, `slice`), as the application's state updates do. */
module LedgerOps {
  import opened Transactions
  import opened Ids
  import opened Sorting

  /** How many of the newest transactions are sent along as categorization
      context. */
  const ContextSize: nat := 20

  // ---------------------------------------------------------------- create

  /** Creation: the form's record with the clock value as its id, appended to
      the list, which is then re-sorted as a whole, newest first. */
  method Create(ts: seq<Transaction>, form: Draft, now: int) returns (r: seq<Transaction>)
    ensures |r| == |ts| + 1
    ensures multiset(r) == multiset(ts + [NewTransaction(now, form)])
    ensures NewestFirst(r)
    ensures NewTransaction(now, form) in r
    ensures IdCount(r, now) == IdCount(ts, now) + 1
    ensures UniqueIds(ts) && IdCount(ts, now) == 0 ==> UniqueIds(r)
  {
    var t := NewTransaction(now, form);
    r := SortNewestFirst(ts + [t]);
    assert t in multiset(ts + [t]);
    IdCountPermutation(ts + [t], r, now);
    IdCountConcat(ts, [t], now);
    if UniqueIds(ts) && IdCount(ts, now) == 0 {
      AppendFreshId(ts, t);
      UniqueIdsPermutation(ts + [t], r);
    }
  }

  // ---------------------------------------------------------------- update

  /** A field-level patch: each present field replaces the record's, each
      absent one leaves it as it is. There is no id field. */
  datatype Patch = Patch(
    kind: Option<Kind>,
    labelText: Option<string>,
    amount: Option<int>,
    date: Option<int>,
    notes: Option<string>,
    category: Option<Category>)

  /** The patch that changes nothing. */
  const NoChange: Patch := Patch(None, None, None, None, None, None)

  /** The patch the row editor sends on save: its five form fields. */
  function EditPatch(d: Draft): Patch {
    Patch(Some(d.kind), Some(d.labelText), Some(d.amount), Some(d.date), Some(d.notes), None)
  }

  /** The patch that sets only the category. */
  function CategoryPatch(c: Category): Patch {
    NoChange.(category := Some(c))
  }

  function Pick<T>(field: Option<T>, current: T): T {
    if field.Some? then field.value else current
  }

  /** `{ ...t, ...p }`: the patch spread over the record. */
  function Merge(t: Transaction, p: Patch): Transaction {
    Transaction(
      t.id,
      Pick(p.kind, t.kind),
      Pick(p.labelText, t.labelText),
      Pick(p.amount, t.amount),
      Pick(p.date, t.date),
      Pick(p.notes, t.notes),
      if p.category.Some? then p.category else t.category)
  }

  /** Every record whose id is `k` gets the patch; the others are kept. */
  function Update(ts: seq<Transaction>, k: int, p: Patch): seq<Transaction> {
    if ts == [] then []
    else [if ts[0].id == k then Merge(ts[0], p) else ts[0]] + Update(ts[1..], k, p)
  }

  /** Position by position, update patches the matching records and keeps the
      rest; the length does not change and nothing is reordered. */
  lemma {:induction false} UpdateAt(ts: seq<Transaction>, k: int, p: Patch)
    ensures |Update(ts, k, p)| == |ts|
    ensures forall i :: 0 <= i < |ts| && ts[i].id != k ==> Update(ts, k, p)[i] == ts[i]
    ensures forall i :: 0 <= i < |ts| && ts[i].id == k ==> Update(ts, k, p)[i] == Merge(ts[i], p)
  {
    if ts != [] {
      UpdateAt(ts[1..], k, p);
      assert forall i :: 0 < i < |ts| ==> Update(ts, k, p)[i] == Update(ts[1..], k, p)[i - 1];
    }
  }

  /** Updating an id that no record has leaves the list as it was. */
  lemma {:induction false} UpdateMissing(ts: seq<Transaction>, k: int, p: Patch)
    requires IdCount(ts, k) == 0
    ensures Update(ts, k, p) == ts
  {
    if ts != [] {
      UpdateMissing(ts[1..], k, p);
    }
  }

  /** Update keeps the id at every position, so every id's count. */
  lemma {:induction false} UpdateKeepsIds(ts: seq<Transaction>, k: int, p: Patch, k': int)
    ensures IdCount(Update(ts, k, p), k') == IdCount(ts, k')
  {
    if ts != [] {
      UpdateKeepsIds(ts[1..], k, p, k');
    }
  }

  /** Update keeps ids unique. */
  lemma UpdateKeepsUnique(ts: seq<Transaction>, k: int, p: Patch)
    requires UniqueIds(ts)
    ensures UniqueIds(Update(ts, k, p))
  {
    UpdateAt(ts, k, p);
  }

  /** Applying the same patch twice is applying it once. */
  lemma {:induction false} UpdateIdempotent(ts: seq<Transaction>, k: int, p: Patch)
    ensures Update(Update(ts, k, p), k, p) == Update(ts, k, p)
  {
    if ts != [] {
      UpdateIdempotent(ts[1..], k, p);
    }
  }

  /** Saving the row editor replaces exactly its five fields of the matching
      records; id and category stay. */
  lemma EditReplacesFormFields(ts: seq<Transaction>, k: int, d: Draft)
    ensures |Update(ts, k, EditPatch(d))| == |ts|
    ensures forall i :: 0 <= i < |ts| && ts[i].id == k ==>
      var u := Update(ts, k, EditPatch(d))[i];
      u.id == ts[i].id && u.category == ts[i].category && DraftOf(u) == d
  {
    UpdateAt(ts, k, EditPatch(d));
  }

  /** Editing a date does not re-sort: a newest-first list can stop being one. */
  lemma EditDoesNotResort()
    ensures var older := NewTransaction(1, Draft(Expense, "a", 1, 100, ""));
            var newer := NewTransaction(2, Draft(Expense, "b", 1, 200, ""));
            NewestFirst([newer, older]) &&
            !NewestFirst(Update([newer, older], 1, NoChange.(date := Some(300))))
  {
    var older := NewTransaction(1, Draft(Expense, "a", 1, 100, ""));
    var newer := NewTransaction(2, Draft(Expense, "b", 1, 200, ""));
    var edited := Update([newer, older], 1, NoChange.(date := Some(300)));
    UpdateAt([newer, older], 1, NoChange.(date := Some(300)));
    assert edited[0] == newer && edited[1].date == 300;
  }

  // ---------------------------------------------------------------- delete

  /** Keeps the records whose id is not `k`, in their order. */
  function Delete(ts: seq<Transaction>, k: int): seq<Transaction> {
    if ts == [] then []
    else (if ts[0].id != k then [ts[0]] else []) + Delete(ts[1..], k)
  }

  /** `a` is `b` with some elements left out, the rest in their order. */
  ghost predicate IsSubsequence(a: seq<Transaction>, b: seq<Transaction>)
    decreases |b|
  {
    if a == [] then true
    else if b == [] then false
    else (a[0] == b[0] && IsSubsequence(a[1..], b[1..])) || IsSubsequence(a, b[1..])
  }

  /** Delete keeps the order of what it keeps. */
  lemma {:induction false} DeleteIsSubsequence(ts: seq<Transaction>, k: int)
    ensures IsSubsequence(Delete(ts, k), ts)
  {
    if ts != [] {
      DeleteIsSubsequence(ts[1..], k);
      if ts[0].id != k {
        assert Delete(ts, k) == [ts[0]] + Delete(ts[1..], k);
        assert Delete(ts, k)[1..] == Delete(ts[1..], k);
      } else {
        assert Delete(ts, k) == Delete(ts[1..], k);
      }
    }
  }

  /** Delete removes every record with id `k` and keeps every other record,
      with its multiplicity. */
  lemma {:induction false} DeleteContents(ts: seq<Transaction>, k: int, t: Transaction)
    ensures multiset(Delete(ts, k))[t] == if t.id == k then 0 else multiset(ts)[t]
  {
    if ts != [] {
      DeleteContents(ts[1..], k, t);
      assert ts == [ts[0]] + ts[1..];
      assert multiset(ts) == multiset{ts[0]} + multiset(ts[1..]);
    }
  }

  /** Counting ids: none has id `k` afterwards, the other ids keep their
      counts, and the list shrinks by the number of records removed. */
  lemma {:induction false} DeleteCounts(ts: seq<Transaction>, k: int, k': int)
    ensures IdCount(Delete(ts, k), k) == 0
    ensures k' != k ==> IdCount(Delete(ts, k), k') == IdCount(ts, k')
    ensures |Delete(ts, k)| == |ts| - IdCount(ts, k)
  {
    if ts != [] {
      DeleteCounts(ts[1..], k, k');
      IdCountConcat(if ts[0].id != k then [ts[0]] else [], Delete(ts[1..], k), k);
      IdCountConcat(if ts[0].id != k then [ts[0]] else [], Delete(ts[1..], k), k');
    }
  }

  /** Deleting an id that no record has leaves the list as it was. */
  lemma {:induction false} DeleteMissing(ts: seq<Transaction>, k: int)
    requires IdCount(ts, k) == 0
    ensures Delete(ts, k) == ts
  {
    if ts != [] {
      DeleteMissing(ts[1..], k);
      assert ts == [ts[0]] + ts[1..];
    }
  }

  /** Deleting twice is deleting once. */
  lemma DeleteIdempotent(ts: seq<Transaction>, k: int)
    ensures Delete(Delete(ts, k), k) == Delete(ts, k)
  {
    DeleteCounts(ts, k, k);
    DeleteMissing(Delete(ts, k), k);
  }

  /** Delete keeps ids unique. */
  lemma DeleteKeepsUnique(ts: seq<Transaction>, k: int)
    requires UniqueIds(ts)
    ensures UniqueIds(Delete(ts, k))
  {
    forall k' ensures IdCount(Delete(ts, k), k') <= 1 {
      DeleteCounts(ts, k, k');
      UniqueIdsAtMostOnce(ts, k');
    }
    forall i, j | 0 <= i < j < |Delete(ts, k)| ensures Delete(ts, k)[i].id != Delete(ts, k)[j].id {
      if Delete(ts, k)[i].id == Delete(ts, k)[j].id {
        IdCountShared(Delete(ts, k), i, j);
      }
    }
  }

  // ---------------------------------------------------------------- categorize

  /** The categorizer's write-back: every record whose id is `k` gets
      category `c`; the others are kept. */
  function SetCategory(ts: seq<Transaction>, k: int, c: Category): seq<Transaction> {
    if ts == [] then []
    else [if ts[0].id == k then ts[0].(category := Some(c)) else ts[0]] + SetCategory(ts[1..], k, c)
  }

  /** Only the category of the matching records changes; every other record
      and every other field stays. */
  lemma {:induction false} SetCategoryAt(ts: seq<Transaction>, k: int, c: Category)
    ensures |SetCategory(ts, k, c)| == |ts|
    ensures forall i :: 0 <= i < |ts| ==>
      SetCategory(ts, k, c)[i].(category := ts[i].category) == ts[i]
    ensures forall i :: 0 <= i < |ts| ==>
      SetCategory(ts, k, c)[i].category == if ts[i].id == k then Some(c) else ts[i].category
  {
    if ts != [] {
      SetCategoryAt(ts[1..], k, c);
      assert forall i :: 0 < i < |ts| ==> SetCategory(ts, k, c)[i] == SetCategory(ts[1..], k, c)[i - 1];
    }
  }

  /** The write-back is the general update with a category-only patch. */
  lemma {:induction false} SetCategoryIsUpdate(ts: seq<Transaction>, k: int, c: Category)
    ensures SetCategory(ts, k, c) == Update(ts, k, CategoryPatch(c))
  {
    if ts != [] {
      SetCategoryIsUpdate(ts[1..], k, c);
    }
  }

  /** The write-back keeps ids unique. */
  lemma SetCategoryKeepsUnique(ts: seq<Transaction>, k: int, c: Category)
    requires UniqueIds(ts)
    ensures UniqueIds(SetCategory(ts, k, c))
  {
    SetCategoryIsUpdate(ts, k, c);
    UpdateKeepsUnique(ts, k, CategoryPatch(c));
  }

  /** A late write-back for a record deleted meanwhile changes nothing. */
  lemma SetCategoryMissing(ts: seq<Transaction>, k: int, c: Category)
    requires IdCount(ts, k) == 0
    ensures SetCategory(ts, k, c) == ts
  {
    SetCategoryIsUpdate(ts, k, c);
    UpdateMissing(ts, k, CategoryPatch(c));
  }

  /** The outcome of one categorization: the parsed category is written back;
      when the request or either parse fails (`None`), nothing is written. */
  function Categorized(ts: seq<Transaction>, k: int, reply: Option<Category>): seq<Transaction> {
    match reply
    case None => ts
    case Some(c) => SetCategory(ts, k, c)
  }

  /** The records sent as context: the first `ContextSize` of the list, or
      all of them when there are fewer. */
  function Context(ts: seq<Transaction>): (r: seq<Transaction>)
    ensures r <= ts
    ensures |r| == if |ts| < ContextSize then |ts| else ContextSize
  {
    if |ts| <= ContextSize then ts else ts[..ContextSize]
  }

  /** On a newest-first list the context holds the newest records: none left
      out is newer than any sent. */
  lemma ContextIsNewest(ts: seq<Transaction>, i: nat, j: nat)
    requires NewestFirst(ts) && i < |Context(ts)| <= j < |ts|
    ensures Context(ts)[i].date >= ts[j].date
  {
  }
}
