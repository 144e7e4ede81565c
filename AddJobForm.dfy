/** The add-job form: five text fields, an optional error popup, and submission. */
module AddJobForm {
  import opened Jobs
  import App

  /** The `name` attributes of the form's inputs. */
  datatype Field = Company | JobTitle | AppliedFrom | ApplicationLink | Note

  datatype FormData = FormData(
    company: string,
    jobTitle: string,
    appliedFrom: string,
    applicationLink: string,
    note: string)

  const EmptyForm := FormData("", "", "", "", "")
  const FallbackError := "Error creating job"

  /** The value the input named `f` shows. */
  function Get(form: FormData, f: Field): string
  {
    match f
    case Company => form.company
    case JobTitle => form.jobTitle
    case AppliedFrom => form.appliedFrom
    case ApplicationLink => form.applicationLink
    case Note => form.note
  }

  /** `{ ...formData, [name]: value }`: the named field takes the new value, the others stay. */
  function Update(form: FormData, name: Field, value: string): (r: FormData)
    ensures Get(r, name) == value
    ensures forall f :: f != name ==> Get(r, f) == Get(form, f)
  {
    match name
    case Company => form.(company := value)
    case JobTitle => form.(jobTitle := value)
    case AppliedFrom => form.(appliedFrom := value)
    case ApplicationLink => form.(applicationLink := value)
    case Note => form.(note := value)
  }

  /** Two forms that agree on every field are the same form. */
  lemma FieldsDetermineForm(a: FormData, b: FormData)
    requires forall f :: Get(a, f) == Get(b, f)
    ensures a == b
  {
    assert Get(a, Company) == Get(b, Company) && Get(a, JobTitle) == Get(b, JobTitle);
    assert Get(a, AppliedFrom) == Get(b, AppliedFrom) && Get(a, ApplicationLink) == Get(b, ApplicationLink);
    assert Get(a, Note) == Get(b, Note);
  }

  /** The per-field description of `Update` determines it: a form in which the named
      field holds the new value and every other field its old one is that update. */
  lemma UpdateIsUnique(form: FormData, name: Field, value: string, r: FormData)
    requires Get(r, name) == value
    requires forall f :: f != name ==> Get(r, f) == Get(form, f)
    ensures r == Update(form, name, value)
  {
    FieldsDetermineForm(r, Update(form, name, value));
  }

  /** Writing back the value a field already holds changes nothing, and writing a field
      twice keeps only the second value. */
  lemma UpdateLaws(form: FormData, name: Field, v: string, w: string)
    ensures Update(form, name, Get(form, name)) == form
    ensures Update(Update(form, name, v), name, w) == Update(form, name, w)
  {
  }

  /** What the server says about a submission: the job it created, or a failure that
      may carry a message. */
  datatype SubmitOutcome = Created(job: Job) | Failed(serverMessage: Option<string>)

  /** `error.response?.data?.message || "Error creating job"`: the text the error popup
      shows. It is never empty, so the popup always renders. */
  function ErrorMessage(serverMessage: Option<string>): (msg: string)
    ensures msg != ""
    ensures serverMessage.Some? && serverMessage.value != "" ==> msg == serverMessage.value
    ensures serverMessage.None? || serverMessage.value == "" ==> msg == FallbackError
  {
    if serverMessage.Some? && serverMessage.value != "" then serverMessage.value else FallbackError
  }

  class AddJobFormState {
    var formData: FormData
    var error: Option<string>

    /** `{error && …}`: whenever an error is set it is a non-empty text, so it is shown. */
    ghost predicate Valid()
      reads this
    {
      error.Some? ==> error.value != ""
    }

    /** `{error && …}`: the error popup renders. */
    function ErrorShown(): (r: bool)
      reads this
      ensures r ==> error.Some?
      ensures Valid() ==> (r <==> error.Some?)
    {
      error.Some? && error.value != ""
    }

    /** The form opens with every field empty and no error. */
    constructor ()
      ensures Valid()
      ensures formData == EmptyForm && error == None
      ensures forall f :: Get(formData, f) == ""
    {
      formData := EmptyForm;
      error := None;
    }

    /** Editing the input named `name`. */
    method HandleChange(name: Field, value: string)
      requires Valid()
      modifies this`formData
      ensures Valid()
      ensures formData == Update(old(formData), name, value)
      ensures ErrorShown() == old(ErrorShown())
      ensures Get(formData, name) == value
      ensures forall f :: f != name ==> Get(formData, f) == Get(old(formData), f)
    {
      formData := Update(formData, name, value);
    }

    /** Submitting: the form data is posted; on success the server's record goes to the
        app and the form is cleared, on failure the error is set and the fields stay. */
    method HandleSubmit(app: App.AppState, outcome: SubmitOutcome) returns (posted: FormData)
      requires Valid()
      modifies this, app`jobs
      ensures Valid()
      ensures posted == old(formData)
      ensures outcome.Created? ==>
        app.jobs == [outcome.job] + old(app.jobs) && formData == EmptyForm && error == None && !ErrorShown()
      ensures outcome.Failed? ==>
        app.jobs == old(app.jobs) && formData == old(formData) &&
        error == Some(ErrorMessage(outcome.serverMessage)) && ErrorShown()
    {
      posted := formData;
      match outcome {
        case Created(job) =>
          app.HandleAddJob(job);
          formData := EmptyForm;
          error := None;
        case Failed(serverMessage) =>
          error := Some(ErrorMessage(serverMessage));
      }
    }

    /** "Close" on the error popup clears the error and nothing else. */
    method HandleCloseError()
      requires Valid()
      modifies this`error
      ensures Valid() && error == None && !ErrorShown()
      ensures formData == old(formData)
    {
      error := None;
    }
  }
}
