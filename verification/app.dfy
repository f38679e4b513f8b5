/**
 * The client's state transitions: fetching the list, submitting the form and
 * deleting an entry. Each API call is represented by its outcome; the HTTP
 * client rejects every non-2xx response, so a 400, 404 or 500 is a failure.
 */
module App {
  import opened ExpenseSchema
  import opened ExpenseLists
  import ExpenseRoutes

  datatype Form = Form(description: string, amount: string, category: string)

  const EmptyForm: Form := Form("", "", "Other")

  datatype ClientState = ClientState(expenses: seq<Expense>, form: Form, error: string, loading: bool)

  const InitialState: ClientState := ClientState([], EmptyForm, "", false)

  /** How an API call settled: resolved with the response data, or rejected. */
  datatype Reply<+T> = Resolved(data: T) | Rejected

  /** `fetchExpenses` up to its await: the loading flag is raised. */
  function BeginFetch(s: ClientState): (r: ClientState)
    ensures r.loading
    ensures r.expenses == s.expenses && r.form == s.form && r.error == s.error
  {
    s.(loading := true)
  }

  /** The rest of `fetchExpenses`: take the server's list or report the failure, then always lower the flag. */
  function FinishFetch(s: ClientState, reply: Reply<seq<Expense>>): (r: ClientState)
    ensures !r.loading && r.form == s.form
    ensures reply.Resolved? ==> r.expenses == reply.data && r.error == s.error
    ensures reply.Rejected? ==> r.expenses == s.expenses && r.error == "Failed to fetch expenses"
  {
    match reply
    case Resolved(data) => s.(expenses := data, loading := false)
    case Rejected => s.(error := "Failed to fetch expenses", loading := false)
  }

  /** `handleSubmit`: prepend the created expense and reset the form, or report the failure. */
  function Submit(s: ClientState, reply: Reply<Expense>): (r: ClientState)
    ensures r.loading == s.loading
    ensures reply.Resolved? ==>
      && |r.expenses| == |s.expenses| + 1
      && r.expenses[0] == reply.data && r.expenses[1..] == s.expenses
      && r.form == EmptyForm && r.error == ""
    ensures reply.Rejected? ==>
      r.expenses == s.expenses && r.form == s.form && r.error == "Failed to add expense"
  {
    match reply
    case Resolved(e) => s.(expenses := [e] + s.expenses, form := EmptyForm, error := "")
    case Rejected => s.(error := "Failed to add expense")
  }

  /** `handleDelete`: drop every entry with that id, or report the failure. */
  function RemoveExpense(s: ClientState, id: nat, reply: Reply<()>): (r: ClientState)
    ensures r.loading == s.loading && r.form == s.form
    ensures reply.Resolved? ==>
      && id !in Ids(r.expenses)
      && (forall x :: x in r.expenses <==> x in s.expenses && x.id != id)
      && r.error == s.error
    ensures reply.Rejected? ==> r.expenses == s.expenses && r.error == "Failed to delete expense"
  {
    match reply
    case Resolved(_) =>
      WithoutIdMembers(s.expenses, id);
      s.(expenses := WithoutId(s.expenses, id))
    case Rejected => s.(error := "Failed to delete expense")
  }

  /** A successful delete keeps the survivors in their order: it removes from each part of any split separately. */
  lemma RemoveKeepsOrder(s: ClientState, id: nat, front: seq<Expense>, back: seq<Expense>)
    requires s.expenses == front + back
    ensures RemoveExpense(s, id, Resolved(())).expenses == WithoutId(front, id) + WithoutId(back, id)
  {
    WithoutIdAppend(front, back, id);
  }

  /** The client shows exactly what the list handler would return now. */
  predicate Mirrors(c: ClientState, st: ExpenseRoutes.Store) {
    c.expenses == ExpenseRoutes.ListOf(st)
  }

  predicate IsSuccess(r: ExpenseRoutes.Response) {
    200 <= r.status < 300
  }

  /** How the HTTP client settles the create call for a given response. */
  function CreateReply(r: ExpenseRoutes.Response): Reply<Expense> {
    if IsSuccess(r) && r.body.Saved? then Resolved(r.body.expense) else Rejected
  }

  function DeleteReply(r: ExpenseRoutes.Response): Reply<()> {
    if IsSuccess(r) then Resolved(()) else Rejected
  }

  function ListReply(r: ExpenseRoutes.Response): Reply<seq<Expense>> {
    if IsSuccess(r) && r.body.Listing? then Resolved(r.body.expenses) else Rejected
  }

  /** A completed fetch shows the server's listing and clears the loading flag. */
  lemma FetchMirrorsServer(c: ClientState, st: ExpenseRoutes.Store)
    ensures var r := FinishFetch(BeginFetch(c), ListReply(ExpenseRoutes.List(st).response));
      Mirrors(r, st) && !r.loading && r.error == c.error
  {
  }

  /**
   * The app mounts with an empty list, which is what an empty store lists, and
   * its first fetch shows the server's listing with the form still empty and no
   * error.
   */
  lemma FirstFetchMirrorsServer(st: ExpenseRoutes.Store)
    ensures Mirrors(InitialState, ExpenseRoutes.EmptyStore)
    ensures var r := FinishFetch(BeginFetch(InitialState), ListReply(ExpenseRoutes.List(st).response));
      Mirrors(r, st) && r.form == EmptyForm && r.error == "" && !r.loading
  {
    FetchMirrorsServer(InitialState, st);
  }

  /**
   * Submitting keeps the client in step with the server whatever the handler
   * answers: a 201 prepends exactly what the next listing puts first, any
   * other answer changes neither side's list.
   */
  lemma SubmitMirrorsServer(c: ClientState, st: ExpenseRoutes.Store, req: ExpenseRoutes.CreateRequest)
    requires ExpenseRoutes.Valid(st) && Mirrors(c, st)
    ensures var h := ExpenseRoutes.Create(st, req);
      Mirrors(Submit(c, CreateReply(h.response)), h.store)
  {
    var h := ExpenseRoutes.Create(st, req);
    if h.response.status == 201 {
      ExpenseRoutes.CreateThenList(st, req);
    }
  }

  /** Deleting keeps the client in step with the server, whether the id is found or not. */
  lemma DeleteMirrorsServer(c: ClientState, st: ExpenseRoutes.Store, id: nat)
    requires ExpenseRoutes.Valid(st) && Mirrors(c, st)
    ensures var h := ExpenseRoutes.Delete(st, ExpenseRoutes.ObjectId(id));
      Mirrors(RemoveExpense(c, id, DeleteReply(h.response)), h.store)
  {
    var h := ExpenseRoutes.Delete(st, ExpenseRoutes.ObjectId(id));
    if h.response.status == 200 {
      ExpenseRoutes.DeleteThenList(st, id);
    }
  }
}
