/**
 * The task list of frontend/src/components/Tasks.jsx: the client-side
 * validator `validateTaskForm`, the status label and class maps, the count of
 * completed tasks, and the component state that `handleChange`, `handleEdit`,
 * `cancelEdit` and `handleSubmit` update. The submit handler is split at its
 * `await`: `Submit` runs up to the request it sends, `Receive` runs what
 * follows once the server has answered.
 */
module TasksView {
  import opened Wrappers
  import opened Text
  import opened FormErrors

  const TitleRequiredMessage := "Tytuł jest wymagany"
  const TitleTooLongMessage := "Tytuł może mieć maksymalnie 255 znaków"
  const DescriptionTooLongMessage := "Opis może mieć maksymalnie 1000 znaków"
  const StatusMessage := "Nieprawidłowy status zadania"
  const SessionExpiredMessage := "Sesja wygasła. Zaloguj się ponownie."
  const NoPermissionMessage := "Brak uprawnień do modyfikacji zadań."
  const NotFoundMessage := "Zadanie nie zostało znalezione."
  const SaveFailedMessage := "Błąd podczas zapisywania zadania"

  const Statuses: seq<string> := ["PENDING", "IN_PROGRESS", "COMPLETED"]

  /** The three inputs of the task form. */
  datatype TaskForm = TaskForm(title: string, description: string, status: string)

  /** The form as it opens and as it is reset: `{title: '', description: '', status: 'PENDING'}`. */
  const EmptyForm := TaskForm("", "", "PENDING")

  /** The `name` of an input, as `handleChange` receives it. */
  datatype Field = Title | Description | Status {
    function Key(): string {
      match this
      case Title => "title"
      case Description => "description"
      case Status => "status"
    }
  }

  /** A task as the list shows it; a missing description is `None`. */
  datatype TaskItem = TaskItem(id: nat, title: string, description: Option<string>, status: string)

  // ---------------------------------------------------------------------------
  // validateTaskForm

  /** The title's error: blank after trimming, then over 255 UTF-16 code units. */
  function TitleError(title: string): (e: Option<string>)
    ensures e.Some? ==> e.value != ""
  {
    if Trim(title) == "" then Some(TitleRequiredMessage)
    else if Utf16Length(title) > 255 then Some(TitleTooLongMessage)
    else None
  }

  /** The title has no error exactly when it is not blank and at most 255 units long; a blank one is missing, a long one too long. */
  lemma TitleErrorIff(title: string)
    ensures TitleError(title).None? <==> !IsBlank(title) && Utf16Length(title) <= 255
    ensures IsBlank(title) ==> TitleError(title) == Some(TitleRequiredMessage)
    ensures !IsBlank(title) && Utf16Length(title) > 255 ==> TitleError(title) == Some(TitleTooLongMessage)
  {
    TrimEmptyIffBlank(title);
  }

  /** The description's error: only a non-empty one over 1000 code units has one. */
  function DescriptionError(description: string): (e: Option<string>)
    ensures e.None? <==> Utf16Length(description) <= 1000
  {
    if description != "" && Utf16Length(description) > 1000 then Some(DescriptionTooLongMessage) else None
  }

  /** The status's error: anything outside the three statuses. */
  function StatusError(status: string): (e: Option<string>)
    ensures e.None? <==> status == "PENDING" || status == "IN_PROGRESS" || status == "COMPLETED"
  {
    if status !in Statuses then Some(StatusMessage) else None
  }

  /** `newErrors` as `validateTaskForm` builds it: one entry per field that has an error. */
  function ValidateTaskForm(form: TaskForm): (errors: map<string, string>)
    ensures forall k :: k in errors ==> k == "title" || k == "description" || k == "status"
  {
    Put(Put(Put(map[], "title", TitleError(form.title)), "description", DescriptionError(form.description)), "status", StatusError(form.status))
  }

  /** Each field has an entry exactly when its validator reports, holding that report. */
  lemma ValidateTaskFormEntries(form: TaskForm)
    ensures var errors := ValidateTaskForm(form);
      && ("title" in errors <==> TitleError(form.title).Some?)
      && ("title" in errors ==> errors["title"] == TitleError(form.title).value)
      && ("description" in errors <==> DescriptionError(form.description).Some?)
      && ("description" in errors ==> errors["description"] == DescriptionTooLongMessage)
      && ("status" in errors <==> StatusError(form.status).Some?)
      && ("status" in errors ==> errors["status"] == StatusMessage)
  {
    assert |"title"| == 5 && |"description"| == 11 && |"status"| == 6;
    PutThree("title", TitleError(form.title), "description", DescriptionError(form.description), "status", StatusError(form.status));
  }

  /** The form passes exactly when no field has an error. */
  lemma TaskFormValidIff(form: TaskForm)
    ensures |ValidateTaskForm(form)| == 0 <==>
      && !IsBlank(form.title) && Utf16Length(form.title) <= 255
      && Utf16Length(form.description) <= 1000
      && form.status in Statuses
  {
    var errors := ValidateTaskForm(form);
    ValidateTaskFormEntries(form);
    TitleErrorIff(form.title);
    if |errors| == 0 {
      assert "title" !in errors && "description" !in errors && "status" !in errors;
    } else {
      var k :| k in errors;
    }
  }

  /** A title of word characters passes with 255 of them and fails with 256. */
  lemma {:induction false} TitleBoundary(title: string)
    requires forall i :: 0 <= i < |title| ==> IsWordChar(title[i])
    requires |title| == 255 || |title| == 256
    ensures TitleError(title).None? <==> |title| == 255
  {
    TitleErrorIff(title);
    WordLengths(title);
    assert IsWordChar(title[0]);
  }

  // ---------------------------------------------------------------------------
  // getStatusText, getStatusClass, the completed count

  /** `getStatusText`. */
  function StatusText(status: string): (text: string)
    ensures text == "" <==> status == ""
  {
    match status
    case "PENDING" => "Oczekujące"
    case "IN_PROGRESS" => "W trakcie"
    case "COMPLETED" => "Zakończone"
    case _ => status
  }

  /** `getStatusClass`. */
  function StatusClass(status: string): (cls: string)
    ensures cls != "" <==> status in Statuses
  {
    match status
    case "PENDING" => "status-pending"
    case "IN_PROGRESS" => "status-in-progress"
    case "COMPLETED" => "status-completed"
    case _ => ""
  }

  /**
   * A status gets a label of its own exactly when it is one of the three, and
   * a non-empty class exactly then; the three labels and classes are distinct.
   */
  lemma StatusMapsTotal(status: string)
    ensures StatusText(status) != status <==> status in Statuses
    ensures StatusClass(status) != "" <==> status in Statuses
    ensures status !in Statuses ==> StatusText(status) == status && StatusClass(status) == ""
  {
  }

  lemma StatusLabelsDistinct(s: string, t: string)
    requires s in Statuses && t in Statuses && s != t
    ensures StatusText(s) != StatusText(t) && StatusClass(s) != StatusClass(t)
  {
  }

  /** `tasks.filter(task => task.status === 'COMPLETED').length`. */
  function CompletedCount(tasks: seq<TaskItem>): (n: nat)
    ensures n <= |tasks|
  {
    if tasks == [] then 0
    else (if tasks[0].status == "COMPLETED" then 1 else 0) + CompletedCount(tasks[1..])
  }

  /** The statuses of the tasks, in order. */
  function StatusesOf(tasks: seq<TaskItem>): seq<string> {
    seq(|tasks|, i requires 0 <= i < |tasks| => tasks[i].status)
  }

  /** The count is the multiplicity of 'COMPLETED' among the statuses. */
  lemma {:induction false} CompletedCountIsMultiplicity(tasks: seq<TaskItem>)
    ensures CompletedCount(tasks) == multiset(StatusesOf(tasks))["COMPLETED"]
  {
    if tasks != [] {
      CompletedCountIsMultiplicity(tasks[1..]);
      assert StatusesOf(tasks) == [tasks[0].status] + StatusesOf(tasks[1..]);
    }
  }

  /** No completed task gives 0; all completed gives the length of the list. */
  lemma {:induction false} CompletedCountBounds(tasks: seq<TaskItem>)
    ensures CompletedCount(tasks) <= |tasks|
    ensures CompletedCount(tasks) == 0 <==> forall i :: 0 <= i < |tasks| ==> tasks[i].status != "COMPLETED"
    ensures CompletedCount(tasks) == |tasks| <==> forall i :: 0 <= i < |tasks| ==> tasks[i].status == "COMPLETED"
  {
    if tasks != [] {
      CompletedCountBounds(tasks[1..]);
      assert forall i :: 1 <= i < |tasks| ==> tasks[i] == tasks[1..][i - 1];
    }
  }

  // ---------------------------------------------------------------------------
  // The component

  /** The request a valid submit sends: a PUT to the edited task, or a POST. */
  datatype SaveRequest = Update(id: nat, form: TaskForm) | Create(form: TaskForm)

  /** How the save request ended. */
  datatype Reply = Saved | Rejected(failure: Failure)

  class TasksComponent {
    var tasks: seq<TaskItem>
    var error: string
    var showForm: bool
    var editingTask: Option<TaskItem>
    var formData: TaskForm
    var formErrors: map<string, string>

    constructor ()
      ensures tasks == [] && error == "" && !showForm && editingTask.None?
      ensures formData == EmptyForm && formErrors == map[]
    {
      tasks := [];
      error := "";
      showForm := false;
      editingTask := None;
      formData := EmptyForm;
      formErrors := map[];
    }

    /** The "new task" button: `setShowForm(true)`. */
    method OpenForm()
      modifies this
      ensures showForm && editingTask == old(editingTask) && formData == old(formData)
      ensures formErrors == old(formErrors) && error == old(error) && tasks == old(tasks)
    {
      showForm := true;
    }

    /**
     * `handleChange`: the named input takes the value, and that field's error,
     * if it has a non-empty one, is set to ''; nothing else changes.
     */
    method HandleChange(name: Field, value: string)
      modifies this
      ensures formData == match name
        case Title => old(formData).(title := value)
        case Description => old(formData).(description := value)
        case Status => old(formData).(status := value)
      ensures formErrors == if name.Key() in old(formErrors) && old(formErrors)[name.Key()] != "" then old(formErrors)[name.Key() := ""] else old(formErrors)
      ensures tasks == old(tasks) && error == old(error) && showForm == old(showForm) && editingTask == old(editingTask)
    {
      match name {
        case Title => formData := formData.(title := value);
        case Description => formData := formData.(description := value);
        case Status => formData := formData.(status := value);
      }
      if name.Key() in formErrors && formErrors[name.Key()] != "" {
        formErrors := formErrors[name.Key() := ""];
      }
    }

    /** `handleEdit(task)`: the form opens on the task, a missing description as ''. */
    method HandleEdit(task: TaskItem)
      modifies this
      ensures editingTask == Some(task) && showForm && formErrors == map[]
      ensures formData == TaskForm(task.title, task.description.GetOr(""), task.status)
      ensures tasks == old(tasks) && error == old(error)
    {
      editingTask := Some(task);
      formData := TaskForm(task.title, if Truthy(task.description) then task.description.value else "", task.status);
      showForm := true;
      formErrors := map[];
    }

    /** `cancelEdit`: the form closes, empty, with nothing being edited. */
    method CancelEdit()
      modifies this
      ensures !showForm && editingTask.None? && formData == EmptyForm && formErrors == map[]
      ensures tasks == old(tasks) && error == old(error)
    {
      showForm := false;
      editingTask := None;
      formData := EmptyForm;
      formErrors := map[];
    }

    /**
     * `handleSubmit` up to its request: the banner is cleared, the form is
     * validated and its errors shown, and only a valid form is sent, to the
     * edited task when there is one.
     */
    method Submit() returns (request: Option<SaveRequest>)
      modifies this
      ensures error == "" && formErrors == ValidateTaskForm(formData)
      ensures formData == old(formData) && editingTask == old(editingTask)
      ensures showForm == old(showForm) && tasks == old(tasks)
      ensures request.Some? <==> |ValidateTaskForm(formData)| == 0
      ensures request.Some? ==>
        request.value == if editingTask.Some? then Update(editingTask.value.id, formData) else Create(formData)
    {
      error := "";
      formErrors := map[];
      formErrors := ValidateTaskForm(formData);
      if |formErrors| != 0 {
        return None;
      }
      if editingTask.Some? {
        request := Some(Update(editingTask.value.id, formData));
      } else {
        request := Some(Create(formData));
      }
    }

    /**
     * The rest of `handleSubmit`: a saved task closes and empties the form; a
     * failure shows the message of its status (401, 403, 404), else the
     * field errors of the reply, else its message, else a fixed one.
     */
    method Receive(reply: Reply)
      modifies this
      ensures tasks == old(tasks)
      ensures reply.Saved? ==>
        && !showForm && editingTask.None? && formData == EmptyForm && formErrors == map[]
        && error == old(error)
      ensures reply.Rejected? ==>
        && showForm == old(showForm) && editingTask == old(editingTask) && formData == old(formData)
        && error == SaveError(reply.failure, old(error))
        && formErrors == if reply.failure.status in {Some(401), Some(403), Some(404)} || reply.failure.data.fieldErrors.None?
                         then old(formErrors) else LastWins(reply.failure.data.fieldErrors.value)
    {
      match reply {
        case Saved =>
          formData := EmptyForm;
          showForm := false;
          editingTask := None;
          formErrors := map[];
        case Rejected(failure) =>
          var data := failure.data;
          if failure.status == Some(401) {
            error := SessionExpiredMessage;
          } else if failure.status == Some(403) {
            error := NoPermissionMessage;
          } else if failure.status == Some(404) {
            error := NotFoundMessage;
          } else if data.fieldErrors.Some? {
            formErrors := CollectFieldErrors(data.fieldErrors.value);
          } else if Truthy(data.message) {
            error := data.message.value;
          } else {
            error := SaveFailedMessage;
          }
      }
    }
  }

  /**
   * The banner after a failed save, given the banner before it: the status
   * messages take precedence, field errors leave the banner alone.
   */
  function SaveError(failure: Failure, before: string): (banner: string)
    ensures failure.status == Some(401) ==> banner == SessionExpiredMessage
    ensures failure.status == Some(403) ==> banner == NoPermissionMessage
    ensures failure.status == Some(404) ==> banner == NotFoundMessage
    ensures failure.status !in {Some(401), Some(403), Some(404)} && failure.data.fieldErrors.Some? ==> banner == before
    ensures banner != "" || banner == before
    ensures failure.status !in {Some(401), Some(403), Some(404)} && failure.data.fieldErrors.None? ==>
      banner == if Truthy(failure.data.message) then failure.data.message.value else SaveFailedMessage
  {
    if failure.status == Some(401) then SessionExpiredMessage
    else if failure.status == Some(403) then NoPermissionMessage
    else if failure.status == Some(404) then NotFoundMessage
    else if failure.data.fieldErrors.Some? then before
    else if Truthy(failure.data.message) then failure.data.message.value
    else SaveFailedMessage
  }
}
