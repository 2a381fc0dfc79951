/** The add-player dialog's form state and submit checks
    (client/src/components/AddPlayerModal.tsx). */
module AddPlayerModal {
  import opened Wrappers
  import opened DraftBoardTypes
  import Text
  import Schema

  /** The text inputs wired to `handleInputChange`. */
  datatype TextInput = NameInput | SchoolInput | NotesInput

  /** The selects wired to `handleSelectChange`. */
  datatype SelectInput = PositionSelect | TierSelect

  /** What the grade number input holds: nothing, or a number. */
  datatype NumberInput = EmptyNumber | Entered(n: int)

  /** Why a submit was refused. */
  datatype FormError = MissingName | MissingPosition

  /** The submit checks: a name that trims to nothing is refused first, then
      an empty position; a form that passes is sent with order 0, which the
      store reads as "append at the end". */
  function Validate(f: PlayerFormData): (r: Result<Schema.InsertPlayer, FormError>)
    ensures r == Failure(MissingName) <==> Text.Trim(f.name) == ""
    ensures r == Failure(MissingPosition) <==> Text.Trim(f.name) != "" && f.position == ""
    ensures r.Success? ==> r.value == Schema.InsertPlayer(f.name, f.position, f.school, f.grade, f.tier, Some(f.notes), 0)
  {
    if Text.Trim(f.name) == "" then Failure(MissingName)
    else if f.position == "" then Failure(MissingPosition)
    else Success(Schema.InsertPlayer(f.name, f.position, f.school, f.grade, f.tier, Some(f.notes), 0))
  }

  /** The request body a submitted player becomes. */
  function BodyOf(p: Schema.InsertPlayer): Schema.PlayerBody
  {
    Schema.PlayerBody(None, Some(p.name), Some(p.position), Some(p.school), Some(p.grade), Some(p.tier), p.notes, Some(p.order))
  }

  /** A form the dialog accepts, with grade and tier within the schema's
      bounds, is accepted by the create schema unchanged. */
  lemma AcceptedFormPassesSchema(f: PlayerFormData)
    requires Validate(f).Success? && Schema.ValidGrade(f.grade) && Schema.ValidTier(f.tier)
    ensures Schema.ParseNewPlayer(BodyOf(Validate(f).value)) == Success(Validate(f).value)
  {
    assert |f.name| >= 1;
  }

  /** The body the form's fields would make with order 0. */
  function FormBody(f: PlayerFormData): Schema.PlayerBody
  {
    BodyOf(Schema.InsertPlayer(f.name, f.position, f.school, f.grade, f.tier, Some(f.notes), 0))
  }

  /** The dialog is stricter than the schema: a name of blanks passes the
      schema's non-empty check but the dialog refuses it. */
  lemma BlankNameOnlyRefusedByForm(f: PlayerFormData)
    requires |f.name| > 0 && forall i :: 0 <= i < |f.name| ==> Text.IsSpace(f.name[i])
    requires f.position != "" && Schema.ValidGrade(f.grade) && Schema.ValidTier(f.tier)
    ensures Validate(f) == Failure(MissingName)
    ensures Schema.ParseNewPlayer(FormBody(f)).Success?
  {
    Text.TrimEmptyIffAllSpace(f.name);
  }

  /** A name made only of a no-break space is blank to `trim()` and refused. */
  lemma NoBreakSpaceNameRefused()
    ensures Validate(PlayerFormData("\U{A0}", "QB", "", 75, 3, "")) == Failure(MissingName)
  {
    assert Text.IsSpace('\U{A0}');
  }

  /** The values the tier select offers are the tier ids written out, and each reads back as its id. */
  lemma TierOptionsParse()
    ensures forall k :: 0 <= k < |Tiers| ==> Text.ParseInt(Text.IntToString(Tiers[k].id)) == Some(Tiers[k].id)
  {
    forall k | 0 <= k < |Tiers| ensures Text.ParseInt(Text.IntToString(Tiers[k].id)) == Some(Tiers[k].id) {
      Text.ParseIntToString(Tiers[k].id);
    }
  }

  class AddPlayerForm {
    var formData: PlayerFormData

    constructor ()
      ensures formData == DefaultPlayer
    {
      formData := DefaultPlayer;
    }

    method ResetForm()
      modifies this
      ensures formData == DefaultPlayer
    {
      formData := DefaultPlayer;
    }

    /** Resets the form; closing the dialog itself is the parent's business. */
    method HandleClose()
      modifies this
      ensures formData == DefaultPlayer
    {
      ResetForm();
    }

    /** Stores a text input's value in its field, the others unchanged. */
    method HandleInputChange(input: TextInput, value: string)
      modifies this
      ensures input == NameInput ==> formData == old(formData).(name := value)
      ensures input == SchoolInput ==> formData == old(formData).(school := value)
      ensures input == NotesInput ==> formData == old(formData).(notes := value)
    {
      match input
        case NameInput => formData := formData.(name := value);
        case SchoolInput => formData := formData.(school := value);
        case NotesInput => formData := formData.(notes := value);
    }

    /** The grade input: an emptied input stores 0, a number is stored as it is. */
    method HandleNumberChange(value: NumberInput)
      modifies this
      ensures formData == old(formData).(grade := if value.EmptyNumber? then 0 else value.n)
    {
      var numberValue := if value.EmptyNumber? then 0 else value.n;
      formData := formData.(grade := numberValue);
    }

    /** The selects: the tier is stored as the number its option text
        spells, the position as its text. The tier select only offers tier
        ids, so its text always parses. */
    method HandleSelectChange(input: SelectInput, value: string)
      requires input == TierSelect ==> Text.ParseInt(value).Some?
      modifies this
      ensures input == PositionSelect ==> formData == old(formData).(position := value)
      ensures input == TierSelect ==> formData == old(formData).(tier := Text.ParseInt(value).value)
    {
      match input
        case PositionSelect => formData := formData.(position := value);
        case TierSelect => formData := formData.(tier := Text.ParseInt(value).value);
    }

    /** Submits the form. A refused form sends nothing and stays as it is;
        an accepted one is sent, and `addSucceeded` says whether the store
        took it: then the form resets, otherwise it is left intact. */
    method HandleSubmit(addSucceeded: bool) returns (sent: Option<Schema.InsertPlayer>)
      modifies this
      ensures Validate(old(formData)).Failure? ==> sent == None && formData == old(formData)
      ensures Validate(old(formData)).Success? ==> sent == Some(Validate(old(formData)).value)
      ensures Validate(old(formData)).Success? && addSucceeded ==> formData == DefaultPlayer
      ensures Validate(old(formData)).Success? && !addSucceeded ==> formData == old(formData)
    {
      if Text.Trim(formData.name) == "" {
        return None;
      }
      if formData.position == "" {
        return None;
      }
      sent := Some(Schema.InsertPlayer(formData.name, formData.position, formData.school,
                                       formData.grade, formData.tier, Some(formData.notes), 0));
      if addSucceeded {
        HandleClose();
      }
    }
  }
}
