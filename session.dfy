/** A client of the ledger: a short session checked against the contracts
    of the state cell alone. */
module Session {
  import opened Transactions
  import opened Sorting
  import Ops = LedgerOps
  import Store

  /** A short session (amounts in cents, dates in milliseconds): two creations,
      the later-dated one second, an edit of the notes, a deletion. */
  method TwoCreatesEditDelete() {
    var ledger := new Store.Ledger(None, 0);
    var coffee := Draft(Expense, "Coffee", 350, 1704412800000, "");
    var salary := Draft(Revenue, "Salary", 200000, 1704844800000, "");
    var a, b := NewTransaction(1, coffee), NewTransaction(2, salary);

    ledger.FillForm(coffee);
    ledger.CreateTransaction(1);
    assert |multiset(ledger.transactions)| == 1;
    assert ledger.transactions[0] in multiset([a]);
    assert ledger.transactions == [a];

    ledger.FillForm(salary);
    ledger.CreateTransaction(2);
    assert [a] + [b] == [a, b];
    TwoSorted(ledger.transactions, a, b);
    assert ledger.transactions == [b, a];

    ledger.ChangeTransaction(1, Ops.NoChange.(notes := Some("morning")));
    var a' := a.(notes := "morning");
    assert ledger.transactions == [b, a'];

    ledger.DeleteTransaction(2);
    assert Ops.Delete([b, a'], 2) == [] + Ops.Delete([a'], 2);
    assert Ops.Delete([a'], 2) == [a'] + Ops.Delete([], 2);
    assert ledger.transactions == [a'];
  }
}
