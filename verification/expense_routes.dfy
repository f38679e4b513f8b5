/**
 * The three HTTP handlers of the expense API over an abstract document store.
 * The store keeps its records in insertion order, together with a logical
 * clock that stamps `createdAt` and a counter that stands in for generated ids.
 */
module ExpenseRoutes {
  import opened Wrappers
  import opened Text
  import opened ExpenseSchema
  import opened ExpenseLists

  /** A field of the JSON request body: missing (undefined or null), a string, or any other JSON value. */
  datatype BodyField = Missing | Str(s: string) | NotAString

  /** What `parseFloat` made of the request's amount: NaN, or a number. */
  datatype ParsedAmount = NaN | Number(value: real)

  datatype CreateRequest = CreateRequest(description: BodyField, amount: ParsedAmount, category: BodyField)

  /** The `:id` route parameter: a well-formed object id, or text the store cannot cast to one. */
  datatype IdParam = ObjectId(id: nat) | Malformed

  datatype Store = Store(records: seq<Expense>, clock: nat, nextId: nat)

  const EmptyStore: Store := Store([], 0, 0)

  datatype Body =
    | Saved(expense: Expense)
    | Listing(expenses: seq<Expense>)
    | ValidationFailed(error: string, messages: seq<FieldError>)
    | DeletedId(message: string, id: nat)
    | Error(error: string)

  datatype Response = Response(status: nat, body: Body)

  /** The store after a request, and the response sent for it. */
  datatype Handled = Handled(store: Store, response: Response)

  /**
   * The store invariant: records in insertion order with strictly increasing
   * creation times, distinct ids below the counter, times below the clock, and
   * every record well formed with a non-empty category.
   */
  predicate Valid(st: Store) {
    && StrictlyOldestFirst(st.records)
    && UniqueIds(st.records)
    && forall i :: 0 <= i < |st.records| ==>
         && WellFormed(st.records[i])
         && st.records[i].category != []
         && st.records[i].id < st.nextId
         && st.records[i].createdAt < st.clock
  }

  lemma EmptyStoreValid()
    ensures Valid(EmptyStore)
  {
  }

  /** `category?.trim() || 'Other'` for a field that is not a non-string value. */
  function CategoryOrOther(category: BodyField): (c: string)
    requires !category.NotAString?
    ensures c != [] && IsTrimmed(c)
    ensures category.Str? && Trim(category.s) != [] ==> c == Trim(category.s)
    ensures category.Missing? || Trim(category.s) == [] ==> c == DefaultCategory
  {
    if category.Missing? then DefaultCategory
    else
      var t := Trim(category.s);
      if t == [] then (assert IsTrimmed(DefaultCategory); DefaultCategory) else t
  }

  /**
   * Builds the document from the body: `description?.trim()`, `parseFloat(amount)`
   * and the category fallback. Calling `trim` on a value that is not a string
   * throws, which yields None.
   */
  function Coerce(req: CreateRequest): (r: Option<RawExpense>)
    ensures r.None? <==> req.description.NotAString? || req.category.NotAString?
    ensures r.Some? ==>
      && (r.value.description.None? <==> req.description.Missing?)
      && (r.value.description.Some? ==> r.value.description.value == Trim(req.description.s))
      && (r.value.description.Some? ==> IsTrimmed(r.value.description.value))
      && !r.value.amount.AmountMissing?
      && (r.value.amount.NotANumber? <==> req.amount.NaN?)
      && (r.value.amount.Amount? ==> r.value.amount.value == req.amount.value)
      && r.value.category == Some(CategoryOrOther(req.category))
      && r.value.category.value != []
  {
    if req.description.NotAString? || req.category.NotAString? then None
    else
      Some(RawExpense(
        if req.description.Missing? then None else Some(Trim(req.description.s)),
        match req.amount case NaN => NotANumber case Number(x) => Amount(x),
        Some(CategoryOrOther(req.category))))
  }

  /** When the create handler saves: the conditions stated on the request itself. */
  predicate Acceptable(req: CreateRequest) {
    && req.description.Str? && 1 <= |Trim(req.description.s)| <= MaxDescriptionLength
    && req.amount.Number? && req.amount.value >= MinAmount
    && !req.category.NotAString?
  }

  /** `expense.save()`: stamps the next id and the clock on valid fields and appends the record. */
  function Save(st: Store, f: Fields): (h: Handled)
    ensures h.response.status == 201 && h.response.body.Saved?
    ensures var e := h.response.body.expense;
      && FieldsOf(e) == f && e.id == st.nextId && e.createdAt == st.clock && e.updatedAt == st.clock
      && h.store == Store(st.records + [e], st.clock + 1, st.nextId + 1)
  {
    var e := Expense(st.nextId, f.description, f.amount, f.category, st.clock, st.clock);
    Handled(Store(st.records + [e], st.clock + 1, st.nextId + 1), Response(201, Saved(e)))
  }

  /** POST /api/expenses. */
  function Create(st: Store, req: CreateRequest): (h: Handled)
    ensures h.response.status in {201, 400, 500}
    ensures h.response.status != 201 ==> h.store == st
    ensures h.response.status == 201 ==>
      && h.response.body.Saved?
      && h.store.records == st.records + [h.response.body.expense]
      && h.store.clock == st.clock + 1 && h.store.nextId == st.nextId + 1
    ensures h.response.status == 400 ==>
      && h.response.body.ValidationFailed?
      && h.response.body.error == "Validation failed"
      && h.response.body.messages != []
    ensures h.response.status == 500 ==> h.response.body == Error("Failed to create expense")
  {
    match Coerce(req)
    case None => Handled(st, Response(500, Error("Failed to create expense")))
    case Some(raw) =>
      match Validate(raw)
      case Failure(errors) => Handled(st, Response(400, ValidationFailed("Validation failed", errors)))
      case Success(f) => Save(st, f)
  }

  /** The handler saves exactly the acceptable requests, and fails with 500 exactly when `trim` throws. */
  lemma CreateAcceptsExactly(st: Store, req: CreateRequest)
    ensures Create(st, req).response.status == 201 <==> Acceptable(req)
    ensures Create(st, req).response.status == 500 <==> req.description.NotAString? || req.category.NotAString?
  {
    if req.description.Str? {
      TrimIdempotent(req.description.s);
    }
  }

  /**
   * A saved record holds the trimmed description, the parsed amount and the
   * category or its fallback, never an empty category; it is stamped with the
   * next id and the current time for both timestamps.
   */
  lemma CreateStoresNormalisedRecord(st: Store, req: CreateRequest)
    requires Create(st, req).response.status == 201
    ensures var e := Create(st, req).response.body.expense;
      && e == Expense(st.nextId, Trim(req.description.s), req.amount.value,
                      CategoryOrOther(req.category), st.clock, st.clock)
      && WellFormed(e) && e.category != []
  {
    if req.description.Str? {
      TrimIdempotent(req.description.s);
    }
    var c := CategoryOrOther(req.category);
    TrimOfTrimmed(c);
  }

  /**
   * A 400 names every violated field and only those. A missing amount reaches
   * the schema as NaN, so "Amount is required" is never among them.
   */
  lemma CreateReportsEveryViolation(st: Store, req: CreateRequest)
    requires Create(st, req).response.status == 400
    ensures var m := Create(st, req).response.body.messages;
      && (DescriptionRequired in m <==> req.description.Missing? || Trim(req.description.s) == [])
      && (DescriptionTooLong in m <==> req.description.Str? && |Trim(req.description.s)| > MaxDescriptionLength)
      && (AmountNotANumber in m <==> req.amount.NaN?)
      && (AmountTooSmall in m <==> req.amount.Number? && req.amount.value < MinAmount)
      && AmountRequired !in m
      && |m| == (if req.description.Missing? || |Trim(req.description.s)| == 0
                    || |Trim(req.description.s)| > MaxDescriptionLength then 1 else 0)
                + (if req.amount.NaN? || req.amount.value < MinAmount then 1 else 0)
  {
    var raw := Coerce(req).value;
    assert Create(st, req).response.body.messages == Validate(raw).error;
    ValidateReportsEveryViolation(raw);
    CoercedDescription(req);
  }

  lemma CoercedDescription(req: CreateRequest)
    requires Coerce(req).Some?
    ensures var raw := Coerce(req).value;
      && (raw.description.None? <==> req.description.Missing?)
      && (raw.description.Some? ==> Trim(raw.description.value) == Trim(req.description.s))
      && !raw.amount.AmountMissing?
      && (raw.amount.NotANumber? <==> req.amount.NaN?)
      && (raw.amount.Amount? ==> raw.amount.value == req.amount.value)
  {
    if req.description.Str? {
      TrimIdempotent(req.description.s);
    }
  }

  lemma CreatePreservesValid(st: Store, req: CreateRequest)
    requires Valid(st)
    ensures Valid(Create(st, req).store)
  {
    var h := Create(st, req);
    if h.response.status == 201 {
      CreateStoresNormalisedRecord(st, req);
      AppendNewestPreservesValid(st, h.response.body.expense);
    }
  }

  lemma AppendNewestPreservesValid(st: Store, e: Expense)
    requires Valid(st)
    requires WellFormed(e) && e.category != []
    requires e.id == st.nextId && e.createdAt == st.clock
    ensures Valid(Store(st.records + [e], st.clock + 1, st.nextId + 1))
  {
    var rs := st.records + [e];
    assert forall i :: 0 <= i < |st.records| ==> rs[i] == st.records[i];
    assert rs[|st.records|] == e;
  }

  /** The records in the order the list handler returns them. */
  function ListOf(st: Store): seq<Expense> {
    SortNewestFirst(st.records)
  }

  /** GET /api/expenses: every record, newest first, store untouched. */
  function List(st: Store): (h: Handled)
    ensures h.store == st
    ensures h.response.status == 200 && h.response.body.Listing?
    ensures multiset(h.response.body.expenses) == multiset(st.records)
    ensures NewestFirst(h.response.body.expenses)
    ensures st.records == [] ==> h.response.body.expenses == []
  {
    Handled(st, Response(200, Listing(ListOf(st))))
  }

  /** On a valid store the listing is strictly newest first: the insertion order reversed. */
  lemma ListOfValid(st: Store)
    requires Valid(st)
    ensures ListOf(st) == Reverse(st.records)
    ensures StrictlyNewestFirst(ListOf(st))
  {
    SortOfInsertionOrder(st.records);
  }

  /** A created record heads the next listing, ahead of everything listed before. */
  lemma CreateThenList(st: Store, req: CreateRequest)
    requires Valid(st)
    requires Create(st, req).response.status == 201
    ensures ListOf(Create(st, req).store) == [Create(st, req).response.body.expense] + ListOf(st)
  {
    var h := Create(st, req);
    var e := h.response.body.expense;
    CreatePreservesValid(st, req);
    ListOfValid(st);
    ListOfValid(h.store);
    assert st.records + [e] == h.store.records;
    ReverseSnoc(st.records, e);
  }

  /** DELETE /api/expenses/:id. */
  function Delete(st: Store, param: IdParam): (h: Handled)
    ensures h.response.status in {200, 404, 500}
    ensures h.response.status == 200 <==> param.ObjectId? && param.id in Ids(st.records)
    ensures h.response.status == 404 <==> param.ObjectId? && param.id !in Ids(st.records)
    ensures h.response.status != 200 ==> h.store == st
    ensures h.response.status == 200 ==>
      && h.response.body == DeletedId("Expense deleted successfully", param.id)
      && |h.store.records| == |st.records| - 1
      && multiset(h.store.records) <= multiset(st.records)
      && h.store.clock == st.clock && h.store.nextId == st.nextId
    ensures h.response.status == 404 ==> h.response.body == Error("Expense not found")
    ensures h.response.status == 500 ==> h.response.body == Error("Failed to delete expense")
  {
    match param
    case Malformed => Handled(st, Response(500, Error("Failed to delete expense")))
    case ObjectId(id) =>
      match IndexOfId(st.records, id)
      case None => Handled(st, Response(404, Error("Expense not found")))
      case Some(k) =>
        var rs := st.records;
        assert rs == rs[..k] + [rs[k]] + rs[k + 1..];
        Handled(st.(records := rs[..k] + rs[k + 1..]),
                Response(200, DeletedId("Expense deleted successfully", id)))
  }

  /** On a valid store a 200 removes exactly the record with that id; the rest keep their order. */
  lemma DeleteRemovesExactly(st: Store, id: nat)
    requires Valid(st)
    requires Delete(st, ObjectId(id)).response.status == 200
    ensures Delete(st, ObjectId(id)).store == st.(records := WithoutId(st.records, id))
  {
    var k := IndexOfId(st.records, id).value;
    RemoveAtIsWithoutId(st.records, k, id);
  }

  lemma DeletePreservesValid(st: Store, param: IdParam)
    requires Valid(st)
    ensures Valid(Delete(st, param).store)
  {
    var h := Delete(st, param);
    if h.response.status == 200 {
      var rs := st.records;
      var k := IndexOfId(rs, param.id).value;
      var rs' := rs[..k] + rs[k + 1..];
      assert h.store.records == rs';
      assert forall i :: 0 <= i < |rs'| ==> rs'[i] == rs[if i < k then i else i + 1];
      forall i, j | 0 <= i < j < |rs'|
        ensures rs'[i].createdAt < rs'[j].createdAt && rs'[i].id != rs'[j].id
      {
        var i0, j0 := if i < k then i else i + 1, if j < k then j else j + 1;
        assert rs'[i] == rs[i0] && rs'[j] == rs[j0] && i0 < j0;
      }
    }
  }

  /** After a 200 the next listing is the previous one without that id. */
  lemma DeleteThenList(st: Store, id: nat)
    requires Valid(st)
    requires Delete(st, ObjectId(id)).response.status == 200
    ensures ListOf(Delete(st, ObjectId(id)).store) == WithoutId(ListOf(st), id)
    ensures id !in Ids(ListOf(Delete(st, ObjectId(id)).store))
  {
    var h := Delete(st, ObjectId(id));
    DeleteRemovesExactly(st, id);
    DeletePreservesValid(st, ObjectId(id));
    ListOfValid(st);
    ListOfValid(h.store);
    WithoutIdReverse(st.records, id);
  }

  /** Deleting is idempotent in effect: repeating a delete of the same id finds nothing. */
  lemma DeleteTwiceNotFound(st: Store, id: nat)
    requires Valid(st)
    ensures Delete(Delete(st, ObjectId(id)).store, ObjectId(id)).response.status == 404
  {
    if Delete(st, ObjectId(id)).response.status == 200 {
      DeleteRemovesExactly(st, id);
    }
  }

  /** An id once deleted is never handed out again by a later create. */
  lemma DeletedIdNotReissued(st: Store, id: nat, req: CreateRequest)
    requires Valid(st)
    requires Delete(st, ObjectId(id)).response.status == 200
    ensures var h := Create(Delete(st, ObjectId(id)).store, req);
      h.response.status == 201 ==> h.response.body.expense.id != id
  {
    var k := IndexOfId(st.records, id).value;
    assert st.records[k].id < st.nextId;
  }

  /** Handles the create requests in order, keeping only the final store. */
  function CreateAll(st: Store, reqs: seq<CreateRequest>): Store
    decreases |reqs|
  {
    if reqs == [] then st else CreateAll(Create(st, reqs[0]).store, reqs[1..])
  }

  /** How many of the requests the create handler accepts. */
  function CountAcceptable(reqs: seq<CreateRequest>): nat
    decreases |reqs|
  {
    if reqs == [] then 0 else (if Acceptable(reqs[0]) then 1 else 0) + CountAcceptable(reqs[1..])
  }

  /** After N successful creates the listing holds N more records, strictly newest first. */
  lemma {:induction false} ListAfterCreates(st: Store, reqs: seq<CreateRequest>)
    requires Valid(st)
    ensures Valid(CreateAll(st, reqs))
    ensures |ListOf(CreateAll(st, reqs))| == |ListOf(st)| + CountAcceptable(reqs)
    ensures StrictlyNewestFirst(ListOf(CreateAll(st, reqs)))
    decreases |reqs|
  {
    ListOfValid(st);
    if reqs != [] {
      var next := Create(st, reqs[0]).store;
      CreatePreservesValid(st, reqs[0]);
      CreateAcceptsExactly(st, reqs[0]);
      ListOfValid(next);
      assert |ListOf(next)| == |ListOf(st)| + (if Acceptable(reqs[0]) then 1 else 0);
      ListAfterCreates(next, reqs[1..]);
    }
  }
}
