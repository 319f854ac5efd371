/**
 * The state of the TaskForm component (TaskForm.hooks.ts): the three field values,
 * one optional error message per field and the saving flag; validation on
 * submit, the character counter colours, and the edits that clear a
 * field's error. The save callback is a parameter holding how the awaited
 * call ended.
 */
module TaskFormHook {
  import opened Common
  import opened TaskTypes
  import TaskApi

  datatype FormData = FormData(titulo: string, descricao: string, status: string)

  /** One optional message per field; absent means the field has no error. */
  datatype FormErrors = FormErrors(titulo: Option<string>, descricao: Option<string>, status: Option<string>)

  const NO_ERRORS := FormErrors(None, None, None)

  /** `Object.keys(errors).length === 0`: no field has a message. */
  predicate NoErrors(e: FormErrors)
  {
    e.titulo.None? && e.descricao.None? && e.status.None?
  }

  const EMPTY_FORM := FormData("", "", PENDENTE)

  const TITULO_MIN := 3
  const TITULO_MAX := 100
  const DESCRICAO_MIN := 5
  const DESCRICAO_MAX := 500

  const TITULO_REQUIRED := "Título é obrigatório"
  const TITULO_TOO_SHORT := "Título deve ter pelo menos 3 caracteres"
  const TITULO_TOO_LONG := "Título não pode exceder 100 caracteres"
  const DESCRICAO_REQUIRED := "Descrição é obrigatória"
  const DESCRICAO_TOO_SHORT := "Descrição deve ter pelo menos 5 caracteres"
  const DESCRICAO_TOO_LONG := "Descrição não pode exceder 500 caracteres"
  const STATUS_REQUIRED := "Status é obrigatório"

  /**
   * The check of one text field, first failure wins: blank after trimming,
   * then shorter than min, then longer than max. The lengths are those of
   * the untrimmed value.
   */
  function TextError(value: string, min: nat, max: nat, required: string, tooShort: string, tooLong: string): (r: Option<string>)
    ensures r.None? <==> !AllSpace(JavaScript, value) && min <= |value| <= max
    ensures AllSpace(JavaScript, value) ==> r == Some(required)
    ensures r.Some? && !AllSpace(JavaScript, value) ==> r == Some(if |value| < min then tooShort else tooLong)
  {
    if IsBlank(JavaScript, value) then Some(required)
    else if |value| < min then Some(tooShort)
    else if |value| > max then Some(tooLong)
    else None
  }

  /** What the form accepts: both texts non-blank and within their bounds, a status chosen. */
  predicate FormValid(f: FormData)
  {
    && !AllSpace(JavaScript, f.titulo) && TITULO_MIN <= |f.titulo| <= TITULO_MAX
    && !AllSpace(JavaScript, f.descricao) && DESCRICAO_MIN <= |f.descricao| <= DESCRICAO_MAX
    && f.status != ""
  }

  /** The errors validateForm stores. */
  function Validate(f: FormData): (r: FormErrors)
    ensures NoErrors(r) <==> FormValid(f)
    ensures r.status.Some? <==> f.status == ""
  {
    FormErrors(
      TextError(f.titulo, TITULO_MIN, TITULO_MAX, TITULO_REQUIRED, TITULO_TOO_SHORT, TITULO_TOO_LONG),
      TextError(f.descricao, DESCRICAO_MIN, DESCRICAO_MAX, DESCRICAO_REQUIRED, DESCRICAO_TOO_SHORT, DESCRICAO_TOO_LONG),
      if f.status == "" then Some(STATUS_REQUIRED) else None)
  }

  /** The data handed to onSave: both texts trimmed, the status as chosen. */
  function Submitted(f: FormData): (r: TaskData)
    ensures r.titulo == Trim(JavaScript, f.titulo) && r.descricao == Trim(JavaScript, f.descricao)
    ensures Trimmed(JavaScript, r.titulo) && Trimmed(JavaScript, r.descricao) && r.status == f.status
    ensures |r.titulo| <= |f.titulo| && |r.descricao| <= |f.descricao|
  {
    TaskData(Trim(JavaScript, f.titulo), Trim(JavaScript, f.descricao), f.status)
  }

  /**
   * A form that validates, with one of the three statuses, sends data the
   * API client's own validation accepts, and the client's trimming then
   * leaves it as it is.
   */
  lemma SubmittedPassesClientValidation(f: FormData)
    requires FormValid(f) && IsKnownStatus(f.status)
    ensures TaskApi.TaskDataValid(Submitted(f))
    ensures TaskApi.TransformForApi(Submitted(f)) == Submitted(f)
  {
    var r := Submitted(f);
    assert !AllSpace(JavaScript, r.titulo) by { TrimmedNonEmptyNotBlank(r.titulo); }
    assert !AllSpace(JavaScript, r.descricao) by { TrimmedNonEmptyNotBlank(r.descricao); }
    TrimOfTrimmed(JavaScript, r.titulo);
    TrimOfTrimmed(JavaScript, r.descricao);
  }

  lemma TrimmedNonEmptyNotBlank(s: string)
    requires Trimmed(JavaScript, s) && s != []
    ensures !AllSpace(JavaScript, s)
  {
  }

  /**
   * The length bounds read the untrimmed text: a two-letter title padded
   * with spaces passes the form and is sent as two letters, below the
   * form's own minimum of three.
   */
  lemma PaddedShortTitleSubmitted(f: FormData)
    requires f == FormData(" ab ", "texto", PENDENTE)
    ensures FormValid(f)
    ensures Submitted(f).titulo == "ab" && |Submitted(f).titulo| < TITULO_MIN
  {
    assert FormValid(f) by {
      assert !IsSpace(JavaScript, f.titulo[1]);
      assert !IsSpace(JavaScript, f.descricao[0]);
    }
    assert Submitted(f).titulo == "ab" by {
      assert f.titulo == " " + "ab" + " ";
      TrimPadding(JavaScript, " ", "ab", " ");
    }
  }

  // ---------------------------------------------------------------------------
  // The character counters

  datatype CountLevel = Normal | Warning | Danger

  /** The two counted fields and their limits. */
  datatype CountedField = TituloCount | DescricaoCount

  function MaxLength(field: CountedField): nat
  {
    match field
    case TituloCount => TITULO_MAX
    case DescricaoCount => DESCRICAO_MAX
  }

  /** getCharacterCountClass: danger from 90% of the limit, warning from 70%. */
  function CountClass(field: CountedField, count: nat): (r: CountLevel)
    ensures r == Danger <==> 10 * count >= 9 * MaxLength(field)
    ensures r == Normal <==> 10 * count < 7 * MaxLength(field)
  {
    var max := MaxLength(field);
    if 10 * count >= 9 * max then Danger
    else if 10 * count >= 7 * max then Warning
    else Normal
  }

  function LevelRank(l: CountLevel): nat
  {
    match l
    case Normal => 0
    case Warning => 1
    case Danger => 2
  }

  /** Typing more never lowers the counter's level. */
  lemma CountClassMonotonic(field: CountedField, shorter: nat, longer: nat)
    requires shorter <= longer
    ensures LevelRank(CountClass(field, shorter)) <= LevelRank(CountClass(field, longer))
  {
  }

  /** A title at the limit is already in danger; 70 characters are a warning, 69 are not. */
  lemma TitleCountThresholds()
    ensures CountClass(TituloCount, 90) == Danger && CountClass(TituloCount, 89) == Warning
    ensures CountClass(TituloCount, 70) == Warning && CountClass(TituloCount, 69) == Normal
  {
  }

  // ---------------------------------------------------------------------------
  // The form state

  /** The text inputs handled by name: the title input and the description textarea. */
  datatype TextField = Titulo | Descricao

  /** How the awaited onSave ended. */
  datatype SaveOutcome = Saved | SaveFailed

  /** The values the form shows for a task to edit, or the empty form for a new one. */
  function LoadedForm(task: Option<TaskResponse>): (r: FormData)
    ensures task.None? ==> r == EMPTY_FORM
    ensures task.Some? ==> r.titulo == task.value.titulo && r.descricao == task.value.descricao
                           && r.status == task.value.status
  {
    if task.Some? then FormData(task.value.titulo, task.value.descricao, task.value.status) else EMPTY_FORM
  }

  class TaskFormState {
    var formData: FormData
    var errors: FormErrors
    var isLoading: bool

    /** The first render followed by the effect on `task`. */
    constructor(task: Option<TaskResponse>)
      ensures formData == LoadedForm(task) && errors == NO_ERRORS && !isLoading
    {
      formData := EMPTY_FORM;
      errors := NO_ERRORS;
      isLoading := false;
      new;
      Load(task);
    }

    /** The effect run when `task` changes: its values (or the empty form), errors cleared. */
    method Load(task: Option<TaskResponse>)
      modifies this
      ensures formData == LoadedForm(task) && errors == NO_ERRORS && isLoading == old(isLoading)
    {
      formData := LoadedForm(task);
      errors := NO_ERRORS;
    }

    /** validateForm: stores every field's error and answers whether there is none. */
    method ValidateForm() returns (ok: bool)
      modifies this
      ensures errors == Validate(formData) && formData == old(formData) && isLoading == old(isLoading)
      ensures ok <==> NoErrors(errors)
    {
      var newErrors := Validate(formData);
      ok := NoErrors(newErrors);
      errors := newErrors;
    }

    /** handleInputChange and handleTextareaChange: the field takes the value, its error is cleared. */
    method ChangeText(field: TextField, value: string)
      modifies this
      ensures field == Titulo ==> formData == old(formData).(titulo := value) && errors == old(errors).(titulo := None)
      ensures field == Descricao ==> formData == old(formData).(descricao := value) && errors == old(errors).(descricao := None)
      ensures isLoading == old(isLoading)
    {
      match field
      case Titulo =>
        formData := formData.(titulo := value);
        if errors.titulo.Some? {
          errors := errors.(titulo := None);
        }
      case Descricao =>
        formData := formData.(descricao := value);
        if errors.descricao.Some? {
          errors := errors.(descricao := None);
        }
    }

    /** handleStatusChange: the status takes the value, its error is cleared. */
    method ChangeStatus(value: string)
      modifies this
      ensures formData == old(formData).(status := value) && errors == old(errors).(status := None)
      ensures isLoading == old(isLoading)
    {
      formData := formData.(status := value);
      if errors.status.Some? {
        errors := errors.(status := None);
      }
    }

    /**
     * handleSubmit: an invalid form is never saved; a valid one hands its
     * trimmed data to onSave and closes (onCancel) only when the save
     * succeeded. A failed save is swallowed. Saving is off at the end.
     */
    method Submit(outcome: SaveOutcome) returns (sent: Option<TaskData>, closed: bool)
      modifies this
      ensures sent.Some? <==> NoErrors(errors)
      ensures sent.Some? ==> sent.value == Submitted(formData) && !isLoading
      ensures sent.None? ==> isLoading == old(isLoading)
      ensures closed <==> sent.Some? && outcome == Saved
      ensures formData == old(formData) && errors == Validate(formData)
    {
      var ok := ValidateForm();
      if !ok {
        return None, false;
      }
      isLoading := true;
      sent := Some(Submitted(formData));
      closed := outcome == Saved;
      isLoading := false;
    }

    /** resetForm: the empty form, no errors, not saving. */
    method ResetForm()
      modifies this
      ensures formData == EMPTY_FORM && errors == NO_ERRORS && !isLoading
    {
      formData := EMPTY_FORM;
      errors := NO_ERRORS;
      isLoading := false;
    }
  }
}
