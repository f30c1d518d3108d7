/** The staff form for creating an event: its initial fields, the change
    handler that replaces one field, and submission. */
module CreateEvent {
  import opened Wrappers
  import opened Records

  /** A form field holds the text typed, or a number for the numeric fields. */
  datatype FieldValue = Text(text: string) | Number(number: real)

  /** The form state is a plain object keyed by input name. */
  type Form = map<string, FieldValue>

  const FIELD_NAMES: set<string> :=
    {"name", "description", "date", "location", "status", "price", "image", "max_attendees"}

  function InitialForm(): (f: Form)
    ensures f.Keys == FIELD_NAMES
    ensures forall k :: k in f ==> f[k] == if k == "status" then Text("active") else Text("")
  {
    map k | k in FIELD_NAMES :: if k == "status" then Text("active") else Text("")
  }

  predicate IsNumericField(name: string) {
    name == "price" || name == "max_attendees"
  }

  /** The value stored for an input; `toNumber` is the runtime's `Number`. */
  function Coerce(name: string, value: string, toNumber: string -> real): FieldValue {
    if IsNumericField(name) then
      (if value == "" then Text("") else Number(toNumber(value)))
    else Text(value)
  }

  /** `{ ...prev, [name]: coerced }`. */
  function ChangeField(form: Form, name: string, value: string, toNumber: string -> real): (f: Form)
    ensures f.Keys == form.Keys + {name}
    ensures forall k :: k in form && k != name ==> f[k] == form[k]
  {
    form[name := Coerce(name, value, toNumber)]
  }

  /** What a change stores: the empty string stays empty in the numeric
      fields, other numeric input becomes a number, and every other field
      keeps the text verbatim. */
  lemma ChangeStores(form: Form, name: string, value: string, toNumber: string -> real)
    ensures name in ChangeField(form, name, value, toNumber)
    ensures IsNumericField(name) && value == "" ==> ChangeField(form, name, value, toNumber)[name] == Text("")
    ensures IsNumericField(name) && value != "" ==> ChangeField(form, name, value, toNumber)[name] == Number(toNumber(value))
    ensures !IsNumericField(name) ==> ChangeField(form, name, value, toNumber)[name] == Text(value)
  {
  }

  /** The row submission inserts: the form with the organiser added. */
  function SubmittedRow(form: Form, uid: string): (row: Form)
    ensures row.Keys == form.Keys + {"organizer_id"}
    ensures row["organizer_id"] == Text(uid)
    ensures forall k :: k in form && k != "organizer_id" ==> row[k] == form[k]
  {
    form["organizer_id" := Text(uid)]
  }

  class CreateEventPage {
    const user: Option<User>
    var formData: Form
    var error: Option<string>
    /** The path navigated to, once one is. */
    var navigatedTo: Option<string>

    constructor (user: Option<User>)
      ensures this.user == user && formData == InitialForm() && error == None && navigatedTo == None
    {
      this.user := user;
      formData := InitialForm();
      error := None;
      navigatedTo := None;
    }

    method HandleChange(name: string, value: string, toNumber: string -> real)
      modifies this`formData
      ensures formData == ChangeField(old(formData), name, value, toNumber)
    {
      formData := ChangeField(formData, name, value, toNumber);
    }

    /** Clears the error, inserts exactly one row (form plus organiser) and
        goes to the management page, or shows the insert's error and stays.
        Returns the rows sent to `events`. */
    method HandleSubmit(reply: Reply) returns (inserted: seq<Form>)
      modifies this`error, this`navigatedTo
      ensures user.None? ==> inserted == [] && error == Some(NULL_USER_MESSAGE) && navigatedTo == old(navigatedTo)
      ensures user.Some? ==> inserted == [SubmittedRow(formData, user.value.id)]
      ensures user.Some? && reply.Err? ==> error == Some(reply.message) && navigatedTo == old(navigatedTo)
      ensures user.Some? && reply.Ok? ==> error == None && navigatedTo == Some("/manage-events")
    {
      error := None;
      if user.None? {
        inserted := [];
        error := Some(NULL_USER_MESSAGE);
        return;
      }
      inserted := [SubmittedRow(formData, user.value.id)];
      if reply.Err? {
        error := Some(reply.message);
        return;
      }
      navigatedTo := Some("/manage-events");
    }
  }
}
