/** The records the ledger holds: a transaction, its category and the form a
    transaction is created or edited from. */
module Transactions {

  datatype Option<T> = None | Some(value: T)

  /** Whether a transaction takes money out or brings it in. */
  datatype Kind = Expense | Revenue

  /** A category assigned by the categorizer: a name and an emoji. */
  datatype Category = Category(name: string, icon: string)

  /** One ledger entry. `id` is the creation clock value in milliseconds,
      `date` the calendar date in milliseconds since the epoch, `amount` an
      integer stand-in for the source's floating-point number; `category` is
      absent until categorization succeeds. */
  datatype Transaction = Transaction(
    id: int,
    kind: Kind,
    labelText: string,
    amount: int,
    date: int,
    notes: string,
    category: Option<Category>)

  /** The five fields the creation form and the row editor collect. The
      source's `type` and `label` are `kind` and `labelText` here, both being
      Dafny keywords. */
  datatype Draft = Draft(kind: Kind, labelText: string, amount: int, date: int, notes: string)

  /** The editable fields of a transaction, as a draft. */
  function DraftOf(t: Transaction): Draft {
    Draft(t.kind, t.labelText, t.amount, t.date, t.notes)
  }

  /** The record created from the form: the clock value first, then the form's
      fields spread over it; the form has no category, so none is set. */
  function NewTransaction(now: int, d: Draft): (t: Transaction)
    ensures t.id == now && t.category == None
    ensures DraftOf(t) == d
  {
    Transaction(now, d.kind, d.labelText, d.amount, d.date, d.notes, None)
  }

  /** The creation form's initial and reset value; its date is the time the
      module was loaded. */
  function DefaultForm(loadTime: int): (d: Draft)
    ensures d.kind == Expense && d.labelText == [] && d.amount == 0 && d.notes == []
    ensures d.date == loadTime
  {
    Draft(Expense, "", 0, loadTime, "")
  }
}
