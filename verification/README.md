# Expense tracker: validation, store contract and client list state

A Dafny model of the core of a small expense-tracking application: the
expense document schema (`backend/models/Expense.js`), the three REST
handlers over the document store (`backend/routes/expenses.js`), and the
client's list-state transitions (`frontend/src/App.jsx`).

Modules, one concept each:

- `Wrappers`: `Option` and `Result`.
- `Text`: JavaScript's `String.prototype.trim` over the ECMAScript whitespace
  and line-terminator code points, used by both the schema's `trim: true`
  setter and the route's `?.trim()`.
- `Decimal`: decimal spelling of naturals and reading it back.
- `Money`: the `formattedAmount` virtual, a rupee sign followed by
  `toFixed(2)`; rounding follows the ECMAScript rule (nearest hundredth, the
  larger one on a tie), applied to the exact amount.
- `ExpenseSchema`: the record, the normalising setters, the `'Other'`
  default, the `required` / `maxlength` / `min` validators with their exact
  messages, and a validator that returns either the normalised fields or every
  violated field.
- `ExpenseLists`: sorting by `createdAt` descending, finding and filtering by
  id.
- `ExpenseRoutes`: the store as a sequence of records in insertion order,
  a logical clock for `createdAt`/`updatedAt` and a counter for generated ids;
  `Create`, `List` and `Delete` as pure functions from store and request to
  new store and response (status code and body).
- `App`: `fetchExpenses`, `handleSubmit` and `handleDelete` as transitions on
  `(expenses, form, error, loading)`, and lemmas that the client's list stays
  equal to the server's listing under every handler outcome.

Behaviour of the code that the model follows and that a reader might not
expect:

- The amount bound is `min: 0.01`, so a positive amount below one paisa is
  rejected, with the message "Amount must be greater than 0".
- The route always hands the schema `parseFloat(amount)`, which is NaN for a
  missing amount; the document store rejects NaN as a failed cast, so a create
  never reports "Amount is required". The cast message is not the schema's and
  is left abstract (`Message` returns `None` for it).
- A category of blanks is stored as `""` by the schema alone; only the route's
  `|| 'Other'` fallback guarantees a non-empty category.
- A description or category that is a JSON value other than a string or
  `null` makes `.trim()` throw, which the create handler answers with 500;
  `null`, like an absent field, is passed on as undefined.
- An id the store cannot cast to an object id makes the delete handler answer
  500, not 404.
- The client does not clear its error message after a successful fetch or
  delete; only a successful submit clears it.

## Model

| member | source | states |
|---|---|---|
| Text.Trim | backend/models/Expense.js:7 | the trimmed value has no whitespace at either end and is no longer than the input |
| Text.TrimEmptyIffBlank | backend/models/Expense.js:6-7 | trimming leaves nothing exactly when the input is all whitespace, which is when "required" fails |
| Text.TrimInfix | backend/models/Expense.js:7 | the trimmed value is the infix of the input that only whitespace surrounds |
| Text.TrimCharacterised | backend/models/Expense.js:7 | for any trimmed core wrapped in whitespace, trimming returns exactly that core |
| Text.TrimIdempotent | backend/routes/expenses.js:27 | trimming in the route and again in the schema setter equals trimming once |
| Decimal.NatToStringRoundTrip | backend/models/Expense.js:26 | the digits written for the integer part read back as the same number |
| Money.NearestHundredths | backend/models/Expense.js:26 | toFixed(2) writes the integer nearest to 100 times the amount, the larger one on a tie |
| Money.FixedTwo | backend/models/Expense.js:26 | toFixed(2) of a non-negative amount is decimal digits without a leading zero, a point and exactly two digits |
| Money.FixedTwoRoundTrip | backend/models/Expense.js:26 | the toFixed(2) string reads back as exactly the rounded number of hundredths |
| Money.FormattedAmount | backend/models/Expense.js:25-27 | the projection starts with the rupee sign, ends with a point and exactly two digits, and carries a minus sign exactly for negative amounts; the integer digits have no leading zero |
| Money.FormattedAmountRoundTrip | backend/models/Expense.js:25-27 | the formatted string reads back as the amount rounded to paise, at most half a paisa away |
| Money.FormattedWholePaise | backend/models/Expense.js:26 | an amount that is a whole number of paise is shown exactly |
| Money.FormattedCoffee | backend/models/Expense.js:25-27 | an amount of 4.5 is shown as "₹4.50" |
| ExpenseSchema.Message | backend/models/Expense.js:6-13 | the four schema messages, word for word, one per validator; a failed cast carries none of them |
| ExpenseSchema.MessagesDistinct | backend/models/Expense.js:6-13 | no two violations share a message, so a message names its violation |
| ExpenseSchema.DescriptionError | backend/models/Expense.js:4-9 | the description fails `required` exactly when missing or all whitespace, fails `maxlength` exactly when longer than 100 after trimming, and passes otherwise; only the first failing validator is reported |
| ExpenseSchema.AmountError | backend/models/Expense.js:10-14 | the amount is reported missing exactly when absent, as a failed cast exactly when NaN, and passes exactly when a number of at least 0.01 |
| ExpenseSchema.Validate | backend/models/Expense.js:3-19 | accepts exactly a present description of 1 to 100 characters after trimming with a numeric amount of at least 0.01; accepted fields are the trimmed description, the amount, and the trimmed category or "Other" |
| ExpenseSchema.ValidateReportsEveryViolation | backend/models/Expense.js:4-14 | a rejection lists each violated field and only those, one message per violated field and no repeats: blank or missing description, over-long description, missing amount, failed cast, amount below 0.01 |
| ExpenseSchema.ValidFieldsAccepted | backend/models/Expense.js:3-19 | fields satisfy the record invariant exactly when validating them returns them unchanged |
| ExpenseSchema.ValidateIdempotent | backend/models/Expense.js:3-19 | validating normalised fields again gives the same result |
| ExpenseSchema.BothFieldsReported | backend/models/Expense.js:4-14 | a blank description and a zero amount are reported together |
| ExpenseSchema.EmptyDescriptionScenario | backend/models/Expense.js:6 | an empty description is rejected with "Description is required" |
| ExpenseSchema.HalfPaisaRejected | backend/models/Expense.js:13 | a positive amount below 0.01 is rejected |
| ExpenseSchema.SchemaKeepsBlankCategory | backend/models/Expense.js:15-19 | the schema alone stores a blank category as an empty string |
| ExpenseSchema.AcceptedAmountShowsPositive | backend/models/Expense.js:10-27 | an accepted amount is shown as at least one paisa, without a minus sign |
| ExpenseLists.InsertNewestFirst | backend/routes/expenses.js:10 | inserting keeps the same records plus one, and keeps a newest-first order |
| ExpenseLists.SortNewestFirst | backend/routes/expenses.js:10 | the sorted list is a permutation of the records ordered by createdAt descending |
| ExpenseLists.NewestFirstUnique | backend/routes/expenses.js:10 | with distinct creation times there is only one newest-first ordering of a set of records |
| ExpenseLists.SortOfInsertionOrder | backend/routes/expenses.js:10 | records held in insertion order are listed exactly reversed, strictly newest first |
| ExpenseLists.IndexOfId | backend/routes/expenses.js:55 | finds the first record with the id, and finds none exactly when the id is absent |
| ExpenseLists.WithoutId | frontend/src/App.jsx:42 | no entry of the result has the id, and the result is no longer than the input |
| ExpenseLists.WithoutIdMembers | frontend/src/App.jsx:42 | the result holds exactly the entries whose id differs |
| ExpenseLists.WithoutIdAppend | frontend/src/App.jsx:42 | filtering a concatenation filters each part, so survivors keep their order |
| ExpenseLists.RemoveAtIsWithoutId | backend/routes/expenses.js:55 | with unique ids, removing the one matching record equals filtering by its id |
| ExpenseRoutes.CategoryOrOther | backend/routes/expenses.js:29 | the category passed on is never empty: the trimmed input when non-blank, otherwise "Other" |
| ExpenseRoutes.Coerce | backend/routes/expenses.js:26-30 | building the document fails exactly when description or category is neither a string nor missing (`trim` throws); otherwise the description is absent exactly when not sent and is otherwise the trimmed input, the amount is never missing, NaN exactly when parsing failed and otherwise the parsed number, and the category is the trimmed input when that is non-blank and "Other" otherwise |
| ExpenseRoutes.Save | backend/routes/expenses.js:32-33 | a saved record has the next id, createdAt = updatedAt = the current time, and is appended to the store |
| ExpenseRoutes.Create | backend/routes/expenses.js:22-49 | answers 201, 400 or 500; only 201 changes the store, by appending the returned record; 400 carries "Validation failed" and at least one message |
| ExpenseRoutes.CreateAcceptsExactly | backend/routes/expenses.js:26-40 | a create succeeds exactly for a string description of 1 to 100 characters after trimming, a parsed amount of at least 0.01 and a string or missing category; it fails with 500 exactly when the description or the category is neither a string nor missing |
| ExpenseRoutes.CreateStoresNormalisedRecord | backend/routes/expenses.js:26-33 | the stored record holds the trimmed description, the amount, the non-empty category or "Other", the next id and equal timestamps |
| ExpenseRoutes.CreateReportsEveryViolation | backend/routes/expenses.js:35-40 | a 400 lists every violated field and only those, exactly one message per violated field, and never "Amount is required" |
| ExpenseRoutes.CreatePreservesValid | backend/routes/expenses.js:26-33 | creating preserves the store invariant |
| ExpenseRoutes.List | backend/routes/expenses.js:8-11 | returns 200 with every stored record, newest first, an empty list for an empty store, and leaves the store unchanged |
| ExpenseRoutes.ListOfValid | backend/routes/expenses.js:10 | on a valid store the listing is strictly newest first |
| ExpenseRoutes.CreateThenList | backend/routes/expenses.js:8-33 | the record returned by a create is the first entry of the next listing, followed by the previous listing |
| ExpenseRoutes.ListAfterCreates | backend/routes/expenses.js:8-33 | after a run of creates the listing has grown by the number accepted and is strictly newest first |
| ExpenseRoutes.Delete | backend/routes/expenses.js:52-72 | 200 with the id exactly when a record has it, removing one record; 404 "Expense not found" exactly when none has it; 500 for a malformed id; only 200 changes the store |
| ExpenseRoutes.DeleteRemovesExactly | backend/routes/expenses.js:55-64 | a 200 removes exactly the records with that id and keeps all others in order |
| ExpenseRoutes.DeletePreservesValid | backend/routes/expenses.js:55 | deleting preserves the store invariant |
| ExpenseRoutes.DeleteThenList | backend/routes/expenses.js:55-64 | after a 200 the listing is the previous listing without that id |
| ExpenseRoutes.DeleteTwiceNotFound | backend/routes/expenses.js:55-58 | repeating a delete of the same id answers 404 |
| ExpenseRoutes.DeletedIdNotReissued | backend/routes/expenses.js:55 | a later create never hands out a deleted id |
| App.BeginFetch | frontend/src/App.jsx:15-16 | starting a fetch raises the loading flag and changes nothing else |
| App.FinishFetch | frontend/src/App.jsx:17-24 | a fetch ends with loading off, taking the server's list on success and setting "Failed to fetch expenses" on failure |
| App.Submit | frontend/src/App.jsx:27-37 | success prepends the new expense to the unchanged old list, resets the form and clears the error; failure keeps list and form and sets "Failed to add expense" |
| App.RemoveExpense | frontend/src/App.jsx:39-46 | success keeps exactly the entries with another id; failure keeps the list and sets "Failed to delete expense" |
| App.RemoveKeepsOrder | frontend/src/App.jsx:42 | a successful delete filters each part of the list separately, so the survivors keep their order |
| App.FetchMirrorsServer | frontend/src/App.jsx:15-24 | a completed fetch shows exactly the server's listing |
| App.FirstFetchMirrorsServer | frontend/src/App.jsx:6-16 | the app starts with an empty list, the empty store's listing, and its first fetch shows the server's listing with an empty form and no error |
| App.SubmitMirrorsServer | frontend/src/App.jsx:27-37 | whatever the create handler answers, the client's list stays equal to the server's listing |
| App.DeleteMirrorsServer | frontend/src/App.jsx:39-46 | whatever the delete handler answers for an id, the client's list stays equal to the server's listing |

## Left out

- `frontend/src/API/api.js` is not part of this model: it only forwards the three calls over HTTP. Its effect is represented by `App.Reply`, resolved for a 2xx response and rejected otherwise.
- Failures of the storage backend itself (the 500 answers of `backend/routes/expenses.js:12-18`, `43-47` and `65-70` when the database is unreachable) and the `console.error` logging are I/O; the model has no such failure. The `message` text of a 500 body, which is the exception's own, is not modelled.
- `parseFloat` is not modelled: a create request carries its result, NaN or a finite number. An amount whose conversion to a primitive throws (for example the object `{"toString": 1}`) makes `parseFloat` throw a TypeError, which the create handler answers with 500; the request type cannot express such an amount, so that 500 is not modelled. Its infinite results are not modelled either: `"Infinity"` or a JSON amount of `1e400` parses to +Infinity, which passes `min: 0.01`, is stored and is shown as "₹Infinity"; -Infinity is rejected by `min` like any negative amount. Amounts are exact reals, which have no infinity, so the IEEE-754 representation of the amount and its effect on `toFixed` rounding are not modelled.
- ExpenseRoutes.CreateAcceptsExactly: characterises the accepted requests among those with a NaN or finite amount only; a request whose amount parses to +Infinity, which the source accepts, is outside the model, and so is a request whose amount makes `parseFloat` throw, which the source answers with 500.
- Money.FormattedAmount: requires an amount of magnitude below 10^21, because `toFixed` writes larger numbers in exponent notation, which is not modelled.
- ExpenseSchema.Message: gives no text for a failed cast of the amount, because that message comes from the document store's casting layer, not from the schema.
- ExpenseSchema.ValidateReportsEveryViolation: the model always lists the description's error before the amount's; that order is a choice of the model, not the source's. In the source a missing or unparseable amount reaches the schema as NaN, and the document store records that cast error while the document is built (`backend/routes/expenses.js:26-30`), before any validator runs, so the amount's message comes first there. The contracts state which messages appear and how many, not their order.
- String lengths count Unicode scalar values; JavaScript counts UTF-16 code units, so a description with characters outside the Basic Multilingual Plane may count differently.
- Wall-clock timestamps and generated object ids are replaced by a logical clock and a counter; the relative order of records with equal `createdAt`, left unspecified by the sort, cannot arise in a valid store.
- The JSX rendering, styling, the form's `onChange` field updates and the category option list are presentation.
- async/await interleaving: each client transition is applied atomically, so a fetch that completes between another handler's request and its state update is not modelled. React's state batching is not modelled either.
