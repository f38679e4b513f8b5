/**
 * The expense document schema: which fields an expense has, how each value is
 * normalised on assignment, and which validators run before it is saved.
 */
module ExpenseSchema {
  import opened Wrappers
  import opened Text
  import Money

  const MaxDescriptionLength: nat := 100
  const MinAmount: real := 0.01
  const DefaultCategory: string := "Other"

  /**
   * The value assigned to the amount path: absent (undefined or null), a number
   * the document store cannot cast (NaN), or a number.
   */
  datatype AmountValue = AmountMissing | NotANumber | Amount(value: real)

  /** The values handed to the schema before setters and defaults apply. */
  datatype RawExpense = RawExpense(description: Option<string>, amount: AmountValue, category: Option<string>)

  /** The normalised, user-supplied part of an expense. */
  datatype Fields = Fields(description: string, amount: real, category: string)

  /** A stored expense: the generated id and the two timestamps added to the fields. */
  datatype Expense = Expense(id: nat, description: string, amount: real, category: string,
                             createdAt: nat, updatedAt: nat)

  /** One violated field constraint; at most one is reported per field. */
  datatype FieldError =
    | DescriptionRequired
    | DescriptionTooLong
    | AmountRequired
    | AmountTooSmall
    | AmountNotANumber

  /**
   * The message a violation carries. A failed cast reports a message of the
   * document store's own, which the schema does not define.
   */
  function Message(e: FieldError): (r: Option<string>)
    ensures r.None? <==> e.AmountNotANumber?
    ensures e.DescriptionRequired? ==> r == Some("Description is required")
    ensures e.DescriptionTooLong? ==> r == Some("Description cannot exceed 100 characters")
    ensures e.AmountRequired? ==> r == Some("Amount is required")
    ensures e.AmountTooSmall? ==> r == Some("Amount must be greater than 0")
  {
    match e
    case DescriptionRequired => Some("Description is required")
    case DescriptionTooLong => Some("Description cannot exceed 100 characters")
    case AmountRequired => Some("Amount is required")
    case AmountTooSmall => Some("Amount must be greater than 0")
    case AmountNotANumber => None
  }

  /** Each schema message names one violation: no two violations share a message. */
  lemma MessagesDistinct(e1: FieldError, e2: FieldError)
    requires Message(e1).Some? && Message(e1) == Message(e2)
    ensures e1 == e2
  {
    match e1 {
      case DescriptionRequired => assert Message(e1).value[0] == 'D' && Message(e1).value[12] == 'i';
      case DescriptionTooLong => assert Message(e1).value[0] == 'D' && Message(e1).value[12] == 'c';
      case AmountRequired => assert Message(e1).value[0] == 'A' && Message(e1).value[7] == 'i';
      case AmountTooSmall => assert Message(e1).value[0] == 'A' && Message(e1).value[7] == 'm';
    }
  }

  /** What every saved expense satisfies, stated without reference to the validator. */
  predicate ValidFields(f: Fields) {
    && IsTrimmed(f.description)
    && 1 <= |f.description| <= MaxDescriptionLength
    && f.amount >= MinAmount
    && IsTrimmed(f.category)
  }

  function FieldsOf(e: Expense): Fields {
    Fields(e.description, e.amount, e.category)
  }

  /** The invariant of a stored expense: valid fields, and never updated since creation. */
  predicate WellFormed(e: Expense) {
    ValidFields(FieldsOf(e)) && e.createdAt == e.updatedAt
  }

  /** The description path: trimmed by its setter, then `required`, then `maxlength`. */
  function DescriptionError(description: Option<string>): (r: Option<FieldError>)
    ensures r.None? <==> description.Some? && 1 <= |Trim(description.value)| <= MaxDescriptionLength
    ensures r == Some(DescriptionRequired) <==> description.None? || AllWhitespace(description.value)
    ensures r == Some(DescriptionTooLong) <==> description.Some? && |Trim(description.value)| > MaxDescriptionLength
  {
    match description
    case None => Some(DescriptionRequired)
    case Some(d) =>
      TrimEmptyIffBlank(d);
      var t := Trim(d);
      if |t| == 0 then Some(DescriptionRequired)
      else if |t| > MaxDescriptionLength then Some(DescriptionTooLong)
      else None
  }

  /** The amount path: a failed cast, then `required`, then `min`. */
  function AmountError(amount: AmountValue): (r: Option<FieldError>)
    ensures r.None? <==> amount.Amount? && amount.value >= MinAmount
    ensures r.Some? ==> r.value in {AmountRequired, AmountNotANumber, AmountTooSmall}
    ensures r == Some(AmountRequired) <==> amount.AmountMissing?
    ensures r == Some(AmountNotANumber) <==> amount.NotANumber?
  {
    match amount
    case AmountMissing => Some(AmountRequired)
    case NotANumber => Some(AmountNotANumber)
    case Amount(a) => if a < MinAmount then Some(AmountTooSmall) else None
  }

  function Errors(raw: RawExpense): seq<FieldError> {
    (match DescriptionError(raw.description) case Some(e) => [e] case None => [])
    + (match AmountError(raw.amount) case Some(e) => [e] case None => [])
  }

  /**
   * Applies the setters and the default, then runs every validator: either the
   * normalised fields, or every violation at once, one per failing field.
   */
  function Validate(raw: RawExpense): (r: Result<Fields, seq<FieldError>>)
    ensures r.Success? <==>
      && raw.description.Some? && 1 <= |Trim(raw.description.value)| <= MaxDescriptionLength
      && raw.amount.Amount? && raw.amount.value >= MinAmount
    ensures r.Success? ==> ValidFields(r.value)
    ensures r.Success? ==>
      && r.value.description == Trim(raw.description.value)
      && r.value.amount == raw.amount.value
      && r.value.category == (if raw.category.None? then DefaultCategory else Trim(raw.category.value))
  {
    var errors := Errors(raw);
    if errors == [] then
      var category := match raw.category case None => DefaultCategory case Some(c) => Trim(c);
      Success(Fields(Trim(raw.description.value), raw.amount.value, category))
    else
      Failure(errors)
  }

  /**
   * A rejection names each violated field, and only those: a missing or blank
   * description, one over the length limit, a missing amount, one that is not a
   * number, and one below the minimum.
   */
  lemma ValidateReportsEveryViolation(raw: RawExpense)
    requires Validate(raw).Failure?
    ensures var errors := Validate(raw).error;
      && 1 <= |errors| <= 2
      && |errors| == (if DescriptionError(raw.description).Some? then 1 else 0)
                     + (if AmountError(raw.amount).Some? then 1 else 0)
      && (forall i, j :: 0 <= i < j < |errors| ==> errors[i] != errors[j])
      && (DescriptionRequired in errors <==> raw.description.None? || Trim(raw.description.value) == [])
      && (DescriptionTooLong in errors <==>
            raw.description.Some? && |Trim(raw.description.value)| > MaxDescriptionLength)
      && (AmountRequired in errors <==> raw.amount.AmountMissing?)
      && (AmountNotANumber in errors <==> raw.amount.NotANumber?)
      && (AmountTooSmall in errors <==> raw.amount.Amount? && raw.amount.value < MinAmount)
  {
  }

  /** The raw input that states a set of fields directly. */
  function RawOf(f: Fields): RawExpense {
    RawExpense(Some(f.description), Amount(f.amount), Some(f.category))
  }

  /** Valid fields are exactly the fixed points of normalisation and validation. */
  lemma ValidFieldsAccepted(f: Fields)
    ensures ValidFields(f) <==> Validate(RawOf(f)) == Success(f)
  {
    if ValidFields(f) {
      ValidFieldsAreKept(f);
    }
  }

  lemma ValidFieldsAreKept(f: Fields)
    requires ValidFields(f)
    ensures Validate(RawOf(f)) == Success(f)
  {
    TrimmedDescriptionPasses(f.description);
    assert Errors(RawOf(f)) == [];
    NoErrorsKeepsTrimmed(f);
  }

  lemma TrimmedDescriptionPasses(d: string)
    requires IsTrimmed(d) && 1 <= |d| <= MaxDescriptionLength
    ensures DescriptionError(Some(d)) == None
  {
    TrimOfTrimmed(d);
  }

  lemma NoErrorsKeepsTrimmed(f: Fields)
    requires Errors(RawOf(f)) == []
    requires IsTrimmed(f.category) && IsTrimmed(f.description)
    ensures Validate(RawOf(f)) == Success(f)
  {
    TrimOfTrimmed(f.category);
    TrimOfTrimmed(f.description);
  }

  /** Validating what validation produced changes nothing. */
  lemma ValidateIdempotent(raw: RawExpense)
    requires Validate(raw).Success?
    ensures Validate(RawOf(Validate(raw).value)) == Validate(raw)
  {
    ValidFieldsAccepted(Validate(raw).value);
  }

  /** The two fields' violations are reported together, not just the first. */
  lemma BothFieldsReported()
    ensures Validate(RawExpense(Some("   "), Amount(0.0), None)) == Failure([DescriptionRequired, AmountTooSmall])
  {
    assert AllWhitespace("   ");
    TrimEmptyIffBlank("   ");
    assert DescriptionError(Some("   ")) == Some(DescriptionRequired);
    assert AmountError(Amount(0.0)) == Some(AmountTooSmall);
    assert Errors(RawExpense(Some("   "), Amount(0.0), None)) == [DescriptionRequired, AmountTooSmall];
  }

  /** An empty description yields "Description is required". */
  lemma EmptyDescriptionScenario()
    ensures var r := Validate(RawExpense(Some(""), Amount(10.0), None));
      r.Failure? && r.error == [DescriptionRequired] && Message(r.error[0]) == Some("Description is required")
  {
  }

  /**
   * The bound is `min: 0.01`, not "greater than 0": half a paisa is positive yet
   * rejected, and its message still reads "greater than 0".
   */
  lemma HalfPaisaRejected()
    ensures Validate(RawExpense(Some("Tea"), Amount(0.005), None)) == Failure([AmountTooSmall])
  {
    assert IsTrimmed("Tea");
    TrimOfTrimmed("Tea");
    assert DescriptionError(Some("Tea")) == None;
    assert Errors(RawExpense(Some("Tea"), Amount(0.005), None)) == [AmountTooSmall];
  }

  /** A category given as blanks is stored empty: only the route's fallback rules that out. */
  lemma SchemaKeepsBlankCategory()
    ensures Validate(RawExpense(Some("Tea"), Amount(1.0), Some(" "))) == Success(Fields("Tea", 1.0, ""))
  {
    assert IsTrimmed("Tea");
    TrimOfTrimmed("Tea");
    assert AllWhitespace(" ");
    TrimEmptyIffBlank(" ");
  }

  /** An amount the schema accepts is never shown as "₹0.00" or with a minus sign. */
  lemma AcceptedAmountShowsPositive(amount: real)
    requires MinAmount <= amount < Money.FixedLimit
    ensures Money.ShownPaise(amount) >= 1
    ensures Money.FormattedAmount(amount)[1] != '-'
  {
  }
}
