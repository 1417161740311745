/**
 The transactions page: the add-transaction form (edit handler, request body, reset after success)
 and removing a deleted transaction from the displayed list.
 */
module Transactions {

  import opened Wrappers

  /** A row of the fetched list, with the members the table shows; only `id` takes part in the
      rules below. A missing goal or budget is `None`. */
  datatype Transaction = Transaction(
    id: int, transactionDate: string, description: string, amount: real,
    goalName: Option<string>, budgetCategory: Option<string>)

  datatype Field = Amount | Description | TransactionDate | GoalId | BudgetId

  /** Every input is a controlled string; the two selects hold "" when nothing is chosen. */
  datatype Form = Form(amount: string, description: string, transactionDate: string, goalId: string, budgetId: string)

  const EmptyForm := Form("", "", "", "", "")

  datatype Page = Page(form: Form, transactions: seq<Transaction>)

  function Get(f: Form, field: Field): string {
    match field
    case Amount => f.amount
    case Description => f.description
    case TransactionDate => f.transactionDate
    case GoalId => f.goalId
    case BudgetId => f.budgetId
  }

  /** `handleChange`: only the named field takes the new value. */
  function HandleChange(f: Form, name: Field, value: string): (r: Form)
    ensures Get(r, name) == value
    ensures forall other :: other != name ==> Get(r, other) == Get(f, other)
  {
    match name
    case Amount => f.(amount := value)
    case Description => f.(description := value)
    case TransactionDate => f.(transactionDate := value)
    case GoalId => f.(goalId := value)
    case BudgetId => f.(budgetId := value)
  }

  /** The body posted to `/transactions`; `None` is JSON `null`. */
  datatype Payload = Payload(amount: string, description: string, transactionDate: string, goalId: Option<string>, budgetId: Option<string>)

  /** `s || null` for a string: the empty string is falsy and becomes `null`. */
  function OrNull(s: string): (r: Option<string>)
    ensures r.None? <==> s == ""
    ensures r.Some? ==> r.value == s
  {
    if s == "" then None else Some(s)
  }

  function BuildPayload(f: Form): (p: Payload)
    ensures p.amount == f.amount && p.description == f.description && p.transactionDate == f.transactionDate
    ensures p.goalId.None? <==> f.goalId == ""
    ensures p.budgetId.None? <==> f.budgetId == ""
    ensures p.goalId.Some? ==> p.goalId.value == f.goalId
    ensures p.budgetId.Some? ==> p.budgetId.value == f.budgetId
  {
    Payload(f.amount, f.description, f.transactionDate, OrNull(f.goalId), OrNull(f.budgetId))
  }

  /** Reading the form back from the body: `null` is an unselected "". */
  function FormOf(p: Payload): Form {
    Form(p.amount, p.description, p.transactionDate, p.goalId.GetOr(""), p.budgetId.GetOr(""))
  }

  /** No information is lost in building the body: the form can be recovered from it. */
  lemma PayloadRoundTrip(f: Form)
    ensures FormOf(BuildPayload(f)) == f
  {
  }

  /** The body never carries an empty id: a selected id is non-empty, an unselected one is `null`. */
  lemma PayloadHasNoEmptyIds(f: Form)
    ensures BuildPayload(f).goalId != Some("") && BuildPayload(f).budgetId != Some("")
  {
  }

  /** The server's answer to a posted transaction: success empties every field, failure keeps the
      form. The list is not touched either way (the page navigates away on success). */
  function FinishSubmit(p: Page, success: bool): (r: Page)
    ensures success ==> forall field :: Get(r.form, field) == ""
    ensures !success ==> r.form == p.form
    ensures r.transactions == p.transactions
  {
    if success then p.(form := EmptyForm) else p
  }

  /** `transactions.filter(t => t.id !== id)`. */
  function WithoutId(ts: seq<Transaction>, id: int): (r: seq<Transaction>)
    ensures |r| <= |ts|
    ensures forall k :: 0 <= k < |r| ==> r[k].id != id && r[k] in ts
    ensures forall t :: t in ts && t.id != id ==> t in r
    ensures (forall t :: t in ts ==> t.id != id) ==> r == ts
  {
    if |ts| == 0 then []
    else
      var rest := WithoutId(ts[1..], id);
      assert ts == [ts[0]] + ts[1..];
      assert forall t :: t in ts[1..] ==> t in ts;
      if ts[0].id != id then
        var r := [ts[0]] + rest;
        assert forall k :: 1 <= k < |r| ==> r[k] == rest[k - 1];
        r
      else
        rest
  }

  /** Deleting distributes over concatenation, so the surviving rows keep their relative order:
      with `WithoutId([t], id)` being `[t]` or `[]`, this pins the result down row by row. */
  lemma {:induction false} WithoutIdAppend(a: seq<Transaction>, b: seq<Transaction>, id: int)
    ensures WithoutId(a + b, id) == WithoutId(a, id) + WithoutId(b, id)
  {
    if |a| == 0 {
      assert a + b == b;
    } else {
      assert (a + b)[1..] == a[1..] + b;
      WithoutIdAppend(a[1..], b, id);
    }
  }

  /** Deleting twice by the same id is the same as deleting once. */
  lemma {:induction false} WithoutIdIdempotent(ts: seq<Transaction>, id: int)
    ensures WithoutId(WithoutId(ts, id), id) == WithoutId(ts, id)
  {
    if |ts| > 0 {
      WithoutIdIdempotent(ts[1..], id);
    }
  }

  /** Number of rows carrying `id`. */
  function CountId(ts: seq<Transaction>, id: int): nat {
    if |ts| == 0 then 0 else (if ts[0].id == id then 1 else 0) + CountId(ts[1..], id)
  }

  /** Every row is either kept or has the deleted id: the list shrinks by exactly the number of rows
      carrying that id. */
  lemma {:induction false} WithoutIdRemovesExactlyMatches(ts: seq<Transaction>, id: int)
    ensures |WithoutId(ts, id)| + CountId(ts, id) == |ts|
  {
    if |ts| > 0 {
      WithoutIdRemovesExactlyMatches(ts[1..], id);
    }
  }

  /** `handleDelete`, from the click on a row's Delete button to the server's answer. The handler
      filters the list `clicked` that the render holding the button showed, not the list current when
      the answer arrives: the two differ when another delete finished in between. Declining the
      confirmation or a failed request leaves the page as it was; otherwise the list becomes
      `clicked` without the rows carrying that id. */
  function HandleDelete(p: Page, clicked: seq<Transaction>, id: int, confirmed: bool, success: bool): (r: Page)
    ensures !confirmed || !success ==> r == p
    ensures confirmed && success ==>
      && r.form == p.form
      && (forall t :: t in r.transactions <==> t in clicked && t.id != id)
      && |r.transactions| + CountId(clicked, id) == |clicked|
    ensures confirmed && success ==> r.transactions == WithoutId(clicked, id)
  {
    if !confirmed || !success then p
    else
      WithoutIdRemovesExactlyMatches(clicked, id);
      p.(transactions := WithoutId(clicked, id))
  }

  /** With no other delete pending, the clicked list is the page's own: two deletes in a row remove
      the rows of both ids, whichever order they come in. */
  lemma SequentialDeletesRemoveBoth(p: Page, id1: int, id2: int)
    ensures
      var q := HandleDelete(p, p.transactions, id1, true, true);
      var r := HandleDelete(q, q.transactions, id2, true, true);
      forall t :: t in r.transactions <==> t in p.transactions && t.id != id1 && t.id != id2
  {
  }

  /** Two deletes clicked on the same render overlap: both handlers filter that render's list, so
      the second answer puts back the row the first one removed, though the server deleted it. */
  lemma {:induction false} OverlappingDeletesRestoreRow(p: Page, a: Transaction, b: Transaction)
    requires p.transactions == [a, b] && a.id != b.id
    ensures
      var clicked := p.transactions;
      var q := HandleDelete(p, clicked, a.id, true, true);
      var r := HandleDelete(q, clicked, b.id, true, true);
      && a !in q.transactions
      && r.transactions == [a]
  {
    var clicked := p.transactions;
    assert clicked == [a] + [b];
    assert [a][1..] == [] && [b][1..] == [];
    assert WithoutId([], a.id) == [] && WithoutId([], b.id) == [];
    WithoutIdAppend([a], [b], a.id);
    WithoutIdAppend([a], [b], b.id);
    assert WithoutId(clicked, a.id) == [b];
    assert WithoutId(clicked, b.id) == [a];
  }
}
