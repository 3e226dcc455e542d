/** The application's state cell: the transaction list the handlers replace,
    and the creation form that the create handler reads and resets. */
module Store {
  import opened Transactions
  import opened Ids
  import opened Sorting
  import Ops = LedgerOps

  class Ledger {
    var transactions: seq<Transaction>
    var form: Draft
    const defaultForm: Draft

    /** Start-up: the list found in storage, or the empty list when the key is
        absent. The form starts at its default, dated at load time. */
    constructor (stored: Option<seq<Transaction>>, loadTime: int)
      ensures transactions == if stored.Some? then stored.value else []
      ensures defaultForm == DefaultForm(loadTime) && form == defaultForm
    {
      transactions := if stored.Some? then stored.value else [];
      defaultForm := DefaultForm(loadTime);
      form := DefaultForm(loadTime);
    }

    /** What the form's inputs leave in the form before it is submitted. */
    method FillForm(d: Draft)
      modifies this`form
      ensures form == d
    {
      form := d;
    }

    /** Submitting the form: the new record, stamped with the clock value
        `now`, joins the list, which is re-sorted newest first; the form is
        reset. */
    method CreateTransaction(now: int)
      modifies this
      ensures |transactions| == |old(transactions)| + 1
      ensures multiset(transactions) == multiset(old(transactions) + [NewTransaction(now, old(form))])
      ensures NewestFirst(transactions)
      ensures IdCount(transactions, now) == IdCount(old(transactions), now) + 1
      ensures UniqueIds(old(transactions)) && IdCount(old(transactions), now) == 0 ==> UniqueIds(transactions)
      ensures form == defaultForm
    {
      transactions := Ops.Create(transactions, form, now);
      form := defaultForm;
    }

    /** Saving a row's edit: the patch is merged over the records with id `k`;
        the list is not re-sorted. */
    method ChangeTransaction(k: int, p: Ops.Patch)
      modifies this`transactions
      ensures transactions == Ops.Update(old(transactions), k, p)
      ensures |transactions| == |old(transactions)|
      ensures forall i :: 0 <= i < |transactions| ==> transactions[i].id == old(transactions)[i].id
      ensures forall i :: 0 <= i < |transactions| && old(transactions)[i].id != k ==> transactions[i] == old(transactions)[i]
      ensures UniqueIds(old(transactions)) ==> UniqueIds(transactions)
    {
      Ops.UpdateAt(transactions, k, p);
      if UniqueIds(transactions) {
        Ops.UpdateKeepsUnique(transactions, k, p);
      }
      transactions := Ops.Update(transactions, k, p);
    }

    /** A row's delete button: the records with id `k` are filtered out. */
    method DeleteTransaction(k: int)
      modifies this`transactions
      ensures transactions == Ops.Delete(old(transactions), k)
      ensures IdCount(transactions, k) == 0
      ensures UniqueIds(old(transactions)) ==> UniqueIds(transactions)
    {
      Ops.DeleteCounts(transactions, k, k);
      if UniqueIds(transactions) {
        Ops.DeleteKeepsUnique(transactions, k);
      }
      transactions := Ops.Delete(transactions, k);
    }

    /** The end of a categorization of the record with id `k`: `reply` is the
        parsed category, or `None` when the request or a parse failed, in which
        case the failure propagates and nothing is written. */
    method FinishCategorization(k: int, reply: Option<Category>) returns (written: bool)
      modifies this`transactions
      ensures written == reply.Some?
      ensures transactions == Ops.Categorized(old(transactions), k, reply)
      ensures UniqueIds(old(transactions)) ==> UniqueIds(transactions)
    {
      if reply.Some? && UniqueIds(transactions) {
        Ops.SetCategoryKeepsUnique(transactions, k, reply.value);
      }
      written := reply.Some?;
      transactions := Ops.Categorized(transactions, k, reply);
    }

    /** The records sent along with a categorization request. */
    function CategorizationContext(): seq<Transaction>
      reads this
    {
      Ops.Context(transactions)
    }
  }
}
