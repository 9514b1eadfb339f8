/** The records the front end exchanges with the todo service. */
module TodoTypes {
  import opened Optional
  import opened CalendarDate

  /** One todo as the service returns it. `createdAt` is an ISO timestamp set from the
      wall clock when the record is created; the model keeps it as an uninterpreted
      string. */
  datatype Todo = Todo(
    id: int,
    title: string,
    description: string,
    completionDate: ValidDate,
    completed: bool,
    createdAt: string)

  /** The filter offered by the status selector. */
  datatype TodoStatus = All | Pending | Completed

  /** What the add/edit dialog submits. */
  datatype FormData = FormData(title: string, description: string, completionDate: ValidDate)

  /** A `Partial<Todo>` body of an update request: a field is sent exactly when it is
      `Some`. The front end never sends `id` or `createdAt` in a patch. */
  datatype Patch = Patch(
    title: Option<string>,
    description: Option<string>,
    completionDate: Option<ValidDate>,
    completed: Option<bool>)

  /** The patch that sends only `completed`. */
  function CompletedOnly(b: bool): Patch {
    Patch(None, None, None, Some(b))
  }

  /** The patch that sends the dialog's three fields and not `completed`. */
  function FormPatch(data: FormData): Patch {
    Patch(Some(data.title), Some(data.description), Some(data.completionDate), None)
  }

  /** The form's initial contents when editing `t`. */
  function FormOf(t: Todo): FormData {
    FormData(t.title, t.description, t.completionDate)
  }
}
