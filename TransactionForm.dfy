/** The transaction entry form (AddTransaction): three text inputs, an
    error line and the transaction list it appends to. Every keystroke goes
    through `handleChange`, which drops amount text the pattern refuses;
    submitting runs `validateForm`, which reports the first failing check,
    and on success appends one transaction and empties the form. */
module TransactionForm {
  import opened Wrappers
  import opened Transactions
  import opened FormText
  import opened IsoDates

  /** The three inputs, named by their `id`s. */
  datatype Field = TitleField | DateField | AmountField

  /** The text of the three inputs. */
  datatype FormData = FormData(title: string, date: string, amount: string)

  const InitialFormState := FormData("", "", "")

  /** The three messages `validateForm` can show. */
  datatype Message = TitleMissing | DateMissing | AmountInvalid

  /** The text of each message. */
  function Text(m: Message): (t: string)
    ensures t != ""
  {
    match m
    case TitleMissing => "Please enter a transaction title"
    case DateMissing => "Please select a date"
    case AmountInvalid => "Please enter a valid amount"
  }

  /** The `error` string: empty when there is no message, else the text of
      the one message it holds. */
  function ErrorText(error: Option<Message>): string {
    match error
    case None => ""
    case Some(m) => Text(m)
  }

  /** The three texts differ, and none is empty, so the `error` string
      tells exactly which message (if any) is shown. */
  lemma ErrorTextInjective(a: Option<Message>, b: Option<Message>)
    ensures ErrorText(a) == ErrorText(b) ==> a == b
  {
    if a != b && a.Some? && b.Some? {
      var ta, tb := Text(a.value), Text(b.value);
      assert ta[7] != tb[7] || |ta| != |tb|;
    }
  }

  /** The keystroke filter of `handleChange`: a change to the amount input
      is dropped when its new text is not empty and does not match the
      pattern. */
  predicate ChangeRejected(field: Field, value: string) {
    field == AmountField && value != "" && !AmountPattern(value)
  }

  /** The message `validateForm` reports: the title check first, then the
      date, then the amount; None when all three pass. */
  function ValidationError(f: FormData): Option<Message> {
    if Trim(f.title) == [] then Some(TitleMissing)
    else if f.date == [] then Some(DateMissing)
    else if f.amount == [] || ParseAmount(f.amount).None? then Some(AmountInvalid)
    else None
  }

  /** The pattern accepts the empty text, so the filter's emptiness test
      changes nothing: an amount change is dropped exactly when the pattern
      refuses it, and changes to the other inputs are never dropped. */
  lemma ChangeRejectedIsPattern(field: Field, value: string)
    ensures ChangeRejected(field, value) <==> field == AmountField && !AmountPattern(value)
  {
    EmptyMatches();
  }

  /** The checks run in order and the first failing one names the message:
      a title of nothing but whitespace, else an empty date, else an amount
      that does not parse; the form is accepted only when all three pass. */
  lemma ValidationOrder(f: FormData)
    ensures ValidationError(f) == Some(TitleMissing) <==>
      forall k :: 0 <= k < |f.title| ==> IsJsWhitespace(f.title[k])
    ensures ValidationError(f) == Some(DateMissing) <==>
      (exists k :: 0 <= k < |f.title| && !IsJsWhitespace(f.title[k])) && f.date == []
    ensures ValidationError(f) == Some(AmountInvalid) <==>
      (exists k :: 0 <= k < |f.title| && !IsJsWhitespace(f.title[k])) && f.date != [] && ParseAmount(f.amount).None?
    ensures ValidationError(f) == None <==>
      (exists k :: 0 <= k < |f.title| && !IsJsWhitespace(f.title[k])) && f.date != [] && ParseAmount(f.amount).Some?
  {
    TrimEmpty(f.title);
    if f.amount == [] {
      assert NumberPrefix(f.amount).whole == [];
    }
  }

  /** For amount text the filter let through, the amount check fails
      exactly when the text holds no digit. */
  lemma AmountCheck(f: FormData)
    requires AmountPattern(f.amount) && Trim(f.title) != [] && f.date != []
    ensures ValidationError(f) == Some(AmountInvalid) <==> forall k :: 0 <= k < |f.amount| ==> !IsDigit(f.amount[k])
    ensures ValidationError(f) == None <==> exists k :: 0 <= k < |f.amount| && IsDigit(f.amount[k])
  {
    ParseNeedsDigit(f.amount);
  }

  /** "-", "." and "-." get past the keystroke filter, yet the form refuses
      them as amounts. */
  lemma SlipPastFilter(title: string, date: string, amount: string)
    requires Trim(title) != [] && date != []
    requires amount == "-" || amount == "." || amount == "-."
    ensures !ChangeRejected(AmountField, amount)
    ensures ValidationError(FormData(title, date, amount)) == Some(AmountInvalid)
  {
    assert DigitRun(amount, |amount|) == |amount|;
    if amount == "-." {
      assert DigitRun(amount, 1) == 1;
    }
    AmountCheck(FormData(title, date, amount));
  }

  /** A second point, or a minus sign after the start, is refused as it is
      typed. */
  lemma FilterRejects()
    ensures ChangeRejected(AmountField, "-12.5.")
    ensures ChangeRejected(AmountField, "12-3")
  {
    assert DigitRun("-12.5.", 1) == 3 && DigitRun("-12.5.", 4) == 5;
    assert DigitRun("12-3", 0) == 2;
  }

  /** The record `handleSubmit` builds from a form that passed validation:
      the trimmed title, the date as entered, the parsed amount, the fresh
      id and the creation time. */
  function SubmittedTransaction(f: FormData, id: string, createdAt: string): Transaction
    requires ValidationError(f) == None
  {
    Transaction(Trim(f.title), f.date, ParseAmount(f.amount).value, Some(id), Some(createdAt))
  }

  /** A submitted record has a title that is not blank and neither starts
      nor ends with whitespace, a date that is not empty, and the amount
      its text parses to. */
  lemma SubmittedFields(f: FormData, id: string, createdAt: string)
    requires ValidationError(f) == None
    ensures var t := SubmittedTransaction(f, id, createdAt);
      t.title != [] && !IsJsWhitespace(t.title[0]) && !IsJsWhitespace(t.title[|t.title| - 1]) &&
      t.date == f.date && t.date != [] && ParseAmount(f.amount) == Some(t.amount) &&
      t.id == Some(id) && t.createdAt == Some(createdAt)
  {
    TrimEnds(f.title);
  }

  /** The component's state. */
  class AddTransactionForm {
    var formData: FormData
    /** The `error` string, as the message it holds (see ErrorText). */
    var error: Option<Message>
    var transactions: seq<Transaction>

    /** The amount text always matches the pattern (it starts empty and
        only changes through the filter), and an error on display always
        describes the form as it is. */
    ghost predicate Valid()
      reads this
    {
      AmountPattern(formData.amount) && (error.None? || error == ValidationError(formData))
    }

    /** An empty form over the list the page holds. */
    constructor (transactions: seq<Transaction>)
      ensures formData == InitialFormState && error == None && this.transactions == transactions
      ensures Valid()
    {
      EmptyMatches();
      formData, error, this.transactions := InitialFormState, None, transactions;
    }

    /** `handleChange`: a dropped change leaves everything as it was; any
        other change replaces the named input's text, keeps the other two
        and clears the error. */
    method HandleChange(field: Field, value: string)
      requires Valid()
      modifies this
      ensures Valid()
      ensures transactions == old(transactions)
      ensures ChangeRejected(field, value) ==> formData == old(formData) && error == old(error)
      ensures !ChangeRejected(field, value) ==>
        formData.title == (if field == TitleField then value else old(formData.title)) &&
        formData.date == (if field == DateField then value else old(formData.date)) &&
        formData.amount == (if field == AmountField then value else old(formData.amount)) &&
        error == None
    {
      if field == AmountField {
        var isValidAmount := AmountPattern(value);
        if value != "" && !isValidAmount {
          return;
        }
      }
      match field {
        case TitleField => formData := formData.(title := value);
        case DateField => formData := formData.(date := value);
        case AmountField => formData := formData.(amount := value);
      }
      error := None;
      ChangeRejectedIsPattern(field, value);
    }

    /** `validateForm`: true exactly when every check passes; otherwise the
        error becomes the first failing check's message. */
    method ValidateForm() returns (ok: bool)
      requires Valid()
      modifies this`error
      ensures Valid()
      ensures ok <==> ValidationError(formData) == None
      ensures error == if ok then old(error) else ValidationError(formData)
    {
      if Trim(formData.title) == [] {
        error := Some(TitleMissing);
        return false;
      }
      if formData.date == [] {
        error := Some(DateMissing);
        return false;
      }
      if formData.amount == [] || ParseAmount(formData.amount).None? {
        error := Some(AmountInvalid);
        return false;
      }
      return true;
    }

    /** `handleSubmit`: a form that fails validation shows the message and
        leaves the list alone; a valid one appends exactly one transaction
        (the trimmed title, the date, the parsed amount, the fresh id and
        creation time) after the existing ones and empties the form. */
    method HandleSubmit(newId: string, createdAt: string)
      requires Valid()
      modifies this
      ensures Valid()
      ensures ValidationError(old(formData)).Some? ==>
        transactions == old(transactions) && formData == old(formData) &&
        error == ValidationError(old(formData))
      ensures ValidationError(old(formData)).None? ==>
        transactions == old(transactions) + [SubmittedTransaction(old(formData), newId, createdAt)] &&
        formData == InitialFormState && error == None
    {
      ghost var submitted := formData;
      ghost var shown := error;
      var ok := ValidateForm();
      assert formData == submitted;
      if !ok {
        return;
      }
      assert ValidationError(submitted) == None && error == shown;
      assert error == None;
      var newTransaction := SubmittedTransaction(formData, newId, createdAt);
      EmptyMatches();
      transactions, formData := transactions + [newTransaction], InitialFormState;
    }
  }
}
