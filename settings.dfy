/**
 * The portfolio settings page (src/app/dashboard/settings/page.tsx): the add/edit form,
 * its validation, the choice between inserting and updating a row, and the
 * editing / not-editing state. The datastore is foreign: the signed-in user and the
 * outcome of the write are parameters, and the method returns the write it asks for.
 */
module Settings {
  import opened Wrappers
  import Text
  import Numbers

  /** A stored portfolio row. */
  datatype Portfolio = Portfolio(id: string, name: string, accountNumber: string, fee: real)

  /** The messages the form shows, by meaning. */
  datatype SettingsError =
    | MissingName          // "please enter a portfolio name"
    | MissingAccount       // "please enter an account number"
    | InvalidFee           // "please enter a valid (positive) fee"
    | NotSignedIn          // "user is not signed in"
    | UpdateFailed         // "error updating the portfolio"
    | InsertFailed         // "error adding the portfolio"

  /** The columns a save writes. */
  datatype PortfolioFields = PortfolioFields(name: string, accountNumber: string, fee: real)

  /** The write a submission asks of the datastore. */
  datatype Write =
    | Update(id: string, userId: string, fields: PortfolioFields)
    | Insert(userId: string, fields: PortfolioFields)

  /**
   * The validation guards of `handleSubmit`, in order: the trimmed name, the trimmed account
   * number, then a fee that parses to a number that is not negative. On success, the
   * fields to store: the trimmed texts and the parsed fee.
   */
  function ValidateForm(parse: Numbers.Parser, name: string, account: string, fee: string)
    : (r: Result)
    ensures r.Invalid? <==>
      Text.Trim(name) == "" || Text.Trim(account) == "" || parse(fee).None? || parse(fee).value < 0.0
    ensures Text.Trim(name) == "" ==> r == Invalid(MissingName)
    ensures Text.Trim(name) != "" && Text.Trim(account) == "" ==> r == Invalid(MissingAccount)
    ensures r.Valid? ==> r.fields.name == Text.Trim(name) && r.fields.accountNumber == Text.Trim(account)
    ensures r.Valid? ==> Some(r.fields.fee) == parse(fee) && r.fields.fee >= 0.0
  {
    if Text.Trim(name) == "" then Invalid(MissingName)
    else if Text.Trim(account) == "" then Invalid(MissingAccount)
    else if Numbers.RejectsFee(parse, fee) then Invalid(InvalidFee)
    else Valid(PortfolioFields(Text.Trim(name), Text.Trim(account), parse(fee).value))
  }

  /**
   * A name made only of whitespace is refused before the account number is looked at;
   * an account number made only of whitespace is refused next.
   */
  lemma BlankFieldsRejected(parse: Numbers.Parser, name: string, account: string, fee: string)
    ensures Text.IsBlank(name) ==> ValidateForm(parse, name, account, fee) == Invalid(MissingName)
    ensures !Text.IsBlank(name) && Text.IsBlank(account) ==>
      ValidateForm(parse, name, account, fee) == Invalid(MissingAccount)
    ensures ValidateForm(parse, name, account, fee).Valid? ==>
      Text.Trim(name) != "" && Text.Trim(account) != ""
  {
    Text.TrimEmptyIffBlank(name);
    Text.TrimEmptyIffBlank(account);
  }

  /** Outcome of the validation guards. */
  datatype Result = Valid(fields: PortfolioFields) | Invalid(error: SettingsError)

  /** A zero fee passes validation; a negative one or one that is not a number does not. */
  lemma FeeAcceptedIffNonNegative(parse: Numbers.Parser, name: string, account: string, fee: string)
    requires Text.Trim(name) != "" && Text.Trim(account) != ""
    ensures ValidateForm(parse, name, account, fee).Valid? <==> parse(fee).Some? && parse(fee).value >= 0.0
    ensures parse(fee) == Some(0.0) ==> ValidateForm(parse, name, account, fee).Valid?
    ensures !ValidateForm(parse, name, account, fee).Valid? ==>
      ValidateForm(parse, name, account, fee) == Invalid(InvalidFee)
  {
  }

  /**
   * `if (editingId)`: a present, non-empty id selects an update of that row;
   * otherwise a new row is inserted for the user.
   */
  function ChooseWrite(editingId: Option<string>, userId: string, fields: PortfolioFields): (w: Write)
    ensures w.Update? <==> editingId.Some? && editingId.value != ""
    ensures w.Update? ==> w.id == editingId.value && w.userId == userId && w.fields == fields
    ensures w.Insert? ==> w.userId == userId && w.fields == fields
  {
    if editingId.Some? && editingId.value != "" then Update(editingId.value, userId, fields)
    else Insert(userId, fields)
  }

  /** The editable part of the form: the three inputs and which portfolio is being edited. */
  datatype FormFields = FormFields(name: string, accountNumber: string, fee: string,
                                   isEditing: bool, editingId: Option<string>)

  /** The fields after `resetForm`: empty inputs, adding a new portfolio. */
  const EmptyForm := FormFields("", "", "", false, None)

  /** What `handleSubmit` reports: the write it asks for and the error it leaves shown. */
  datatype Submission = Submission(write: Option<Write>, error: Option<SettingsError>)

  /**
   * The decisions of `handleSubmit` for a form, a signed-in user (or none) and the
   * datastore's answer: no write and the guard's message when a guard fails, no write
   * when nobody is signed in, else the chosen write and, if refused, the matching message.
   */
  function Submit(parse: Numbers.Parser, form: FormFields, user: Option<string>, refused: bool): (s: Submission)
    ensures s.write.Some? <==> ValidateForm(parse, form.name, form.accountNumber, form.fee).Valid? && user.Some?
    ensures s.error == None <==> s.write.Some? && !refused
    ensures s.write.Some? ==> (s.write.value.Update? <==> form.editingId.Some? && form.editingId.value != "")
    ensures s.write.Some? ==> s.write.value.fields.name == Text.Trim(form.name)
    ensures s.write.Some? ==> s.write.value.fields.accountNumber == Text.Trim(form.accountNumber)
    ensures var v := ValidateForm(parse, form.name, form.accountNumber, form.fee);
      (v.Invalid? ==> s.error == Some(v.error)) &&
      (v.Valid? && user.None? ==> s.error == Some(NotSignedIn)) &&
      (s.write.Some? ==> user.Some? && v.Valid? && s.write.value == ChooseWrite(form.editingId, user.value, v.fields))
    ensures s.write.Some? && refused ==>
      s.error == Some(if s.write.value.Update? then UpdateFailed else InsertFailed)
  {
    var v := ValidateForm(parse, form.name, form.accountNumber, form.fee);
    if v.Invalid? then Submission(None, Some(v.error))
    else if user.None? then Submission(None, Some(NotSignedIn))
    else
      var w := ChooseWrite(form.editingId, user.value, v.fields);
      Submission(Some(w), if refused then Some(if w.Update? then UpdateFailed else InsertFailed) else None)
  }

  /** The form's state. */
  class SettingsForm {
    var formName: string
    var formAccountNumber: string
    var formFee: string
    var isEditing: bool
    var editingId: Option<string>
    var error: Option<SettingsError>
    var saving: bool

    /** The two states of the form: editing a portfolio (with its id) or adding a new one. */
    predicate Valid()
      reads this
    {
      isEditing <==> editingId.Some?
    }

    /** The editable fields as one value. */
    function Fields(): FormFields
      reads this
    {
      FormFields(formName, formAccountNumber, formFee, isEditing, editingId)
    }

    /** The initial state: adding, every field empty. */
    constructor ()
      ensures Valid() && !isEditing && editingId == None
      ensures formName == "" && formAccountNumber == "" && formFee == "" && error == None && !saving
    {
      formName, formAccountNumber, formFee := "", "", "";
      isEditing, editingId, error, saving := false, None, None, false;
    }

    /** `resetForm`: back to adding, every field and the error cleared. */
    method ResetForm()
      modifies this`formName, this`formAccountNumber, this`formFee, this`isEditing, this`editingId, this`error
      ensures Valid() && !isEditing && editingId == None
      ensures formName == "" && formAccountNumber == "" && formFee == "" && error == None
    {
      formName := "";
      formAccountNumber := "";
      formFee := "";
      isEditing := false;
      editingId := None;
      error := None;
    }

    /**
     * `handleEdit`: the portfolio's fields are loaded into the form (the fee through
     * `toString`, a parameter), and the form edits that portfolio.
     */
    method HandleEdit(p: Portfolio, toString: real -> string)
      modifies this`formName, this`formAccountNumber, this`formFee, this`isEditing, this`editingId, this`error
      ensures Valid() && isEditing && editingId == Some(p.id)
      ensures formName == p.name && formAccountNumber == p.accountNumber && formFee == toString(p.fee)
      ensures error == None
    {
      formName := p.name;
      formAccountNumber := p.accountNumber;
      formFee := toString(p.fee);
      isEditing := true;
      editingId := Some(p.id);
      error := None;
    }

    /**
     * `handleSubmit`. The error is cleared; a failing guard sets its message and stops.
     * Otherwise `saving` is raised; with nobody signed in (`user == None`) the error says so;
     * else the update or insert chosen by `ChooseWrite` is requested and, when the datastore
     * accepts it (`!refused`), the form is reset; if it refuses, the error names the write.
     * `saving` is lowered at the end.
     */
    method HandleSubmit(parse: Numbers.Parser, user: Option<string>, refused: bool) returns (write: Option<Write>)
      requires Valid()
      modifies this`formName, this`formAccountNumber, this`formFee, this`isEditing, this`editingId, this`error, this`saving
      ensures Valid()
      ensures var s := Submit(parse, old(Fields()), user, refused); write == s.write && error == s.error
      ensures Fields() == if write.Some? && !refused then EmptyForm else old(Fields())
      ensures saving == (old(saving) && ValidateForm(parse, old(formName), old(formAccountNumber), old(formFee)).Invalid?)
    {
      error := None;
      var v := ValidateForm(parse, formName, formAccountNumber, formFee);
      if v.Invalid? {
        error := Some(v.error);
        return None;
      }
      saving := true;
      if user.None? {
        error := Some(NotSignedIn);
        saving := false;
        return None;
      }
      var w := ChooseWrite(editingId, user.value, v.fields);
      write := Some(w);
      if refused {
        error := Some(if w.Update? then UpdateFailed else InsertFailed);
      } else {
        ResetForm();
      }
      saving := false;
    }
  }

  /**
   * Editing then submitting successfully updates the edited row with the trimmed fields
   * and leaves the form in the adding state.
   */
  method EditThenSave(form: SettingsForm, p: Portfolio, toString: real -> string,
                      parse: Numbers.Parser, userId: string)
      returns (write: Option<Write>)
    requires p.id != "" && Text.Trim(p.name) != "" && Text.Trim(p.accountNumber) != ""
    requires parse(toString(p.fee)) == Some(p.fee) && p.fee >= 0.0
    modifies form
    ensures write == Some(Update(p.id, userId, PortfolioFields(Text.Trim(p.name), Text.Trim(p.accountNumber), p.fee)))
    ensures form.Valid() && !form.isEditing && form.formName == ""
  {
    form.HandleEdit(p, toString);
    write := form.HandleSubmit(parse, Some(userId), false);
  }
}
