/** The `App` component: its three pieces of state, the list it renders, the dialog it
    configures, and the mutation requests its handlers fire. */
module AppComponent {
  import opened Optional
  import opened TodoTypes
  import opened ListView
  import opened UseTodo

  /** The dialog's `mode` prop. */
  datatype DialogMode = AddMode | EditMode

  class App {
    /** `modalOpen`, `filterStatus` and `selectedTodo` are the component's state. */
    var modalOpen: bool
    var filterStatus: TodoStatus
    var selectedTodo: Option<Todo>
    /** What the todo query currently holds (None before the first fetch lands). */
    var queryData: Option<seq<Todo>>
    /** Every mutation request the handlers have fired, oldest first. */
    var issued: seq<Request>

    constructor ()
      ensures !modalOpen && filterStatus == All && selectedTodo == None
      ensures queryData == None && issued == []
    {
      modalOpen := false;
      filterStatus := All;
      selectedTodo := None;
      queryData := None;
      issued := [];
    }

    /** `todos`: the query's list, or the empty list. */
    function Todos(): (todos: seq<Todo>)
      reads this
      ensures queryData.None? ==> todos == []
      ensures queryData.Some? ==> todos == queryData.value
    {
      DefaultTodos(queryData)
    }

    /** `filteredTodos`: sorted by completion date, a permutation of the records that
        match the filter, and holding a record exactly when it is cached and matches. */
    function FilteredTodos(): (view: seq<Todo>)
      reads this
      ensures Sorted(view)
      ensures multiset(view) == multiset(FilterByStatus(Todos(), filterStatus))
      ensures forall t :: t in view <==> t in Todos() && Matches(t, filterStatus)
    {
      ViewIsStableSort(Todos(), filterStatus);
      ViewMembership(Todos(), filterStatus);
      View(Todos(), filterStatus)
    }

    /** `mode={selectedTodo ? "edit" : "add"}`. */
    function Mode(): (m: DialogMode)
      reads this
      ensures m == EditMode <==> selectedTodo.Some?
    {
      if selectedTodo.Some? then EditMode else AddMode
    }

    /** `initialData`: the selected todo's title, description and date when editing,
        undefined when adding. */
    function InitialData(): (d: Option<FormData>)
      reads this
      ensures d.Some? <==> selectedTodo.Some?
      ensures d.Some? ==> (d.value.title == selectedTodo.value.title
                           && d.value.description == selectedTodo.value.description
                           && d.value.completionDate == selectedTodo.value.completionDate)
    {
      match selectedTodo
      case None => None
      case Some(t) => Some(FormOf(t))
    }

    /** The query delivers a freshly fetched list. */
    method ReceiveTodos(data: seq<Todo>)
      modifies this
      ensures queryData == Some(data) && Todos() == data
      ensures modalOpen == old(modalOpen) && filterStatus == old(filterStatus)
      ensures selectedTodo == old(selectedTodo) && issued == old(issued)
    {
      queryData := Some(data);
    }

    /** The status selector's `onChange`. */
    method SetFilterStatus(status: TodoStatus)
      modifies this
      ensures filterStatus == status
      ensures modalOpen == old(modalOpen) && selectedTodo == old(selectedTodo)
      ensures queryData == old(queryData) && issued == old(issued)
    {
      filterStatus := status;
    }

    /** `handleCloseModal`: closes the dialog now; the selection is cleared later, by
        ResetSelection. */
    method HandleCloseModal()
      modifies this
      ensures !modalOpen
      ensures selectedTodo == old(selectedTodo) && filterStatus == old(filterStatus)
      ensures queryData == old(queryData) && issued == old(issued)
    {
      modalOpen := false;
    }

    /** The timer that `handleCloseModal` schedules: clears the selection. */
    method ResetSelection()
      modifies this
      ensures selectedTodo == None && Mode() == AddMode && InitialData() == None
      ensures modalOpen == old(modalOpen) && filterStatus == old(filterStatus)
      ensures queryData == old(queryData) && issued == old(issued)
    {
      selectedTodo := None;
    }

    /** `handleEdit(todo)`: selects the todo and opens the dialog in edit mode. */
    method HandleEdit(t: Todo)
      modifies this
      ensures selectedTodo == Some(t) && modalOpen
      ensures Mode() == EditMode && InitialData() == Some(FormOf(t))
      ensures filterStatus == old(filterStatus)
      ensures queryData == old(queryData) && issued == old(issued)
    {
      selectedTodo := Some(t);
      modalOpen := true;
    }

    /** The "Add Todo" button: clears the selection and opens the dialog in add mode. */
    method OpenAddDialog()
      modifies this
      ensures selectedTodo == None && modalOpen
      ensures Mode() == AddMode && InitialData() == None
      ensures filterStatus == old(filterStatus)
      ensures queryData == old(queryData) && issued == old(issued)
    {
      selectedTodo := None;
      modalOpen := true;
    }

    /** `handleToggleComplete(id)`: fires the toggle request derived from the cached
        list, or nothing when no cached record has that id. */
    method HandleToggleComplete(id: int)
      modifies this
      ensures (forall t :: t in Todos() ==> t.id != id) ==> issued == old(issued)
      ensures (exists t :: t in Todos() && t.id == id) ==>
        |issued| == |old(issued)| + 1 && issued[..|old(issued)|] == old(issued)
        && issued[|old(issued)|] == ToggleRequest(Todos(), id).value
        && issued[|old(issued)|].UpdateTodo? && issued[|old(issued)|].id == id
      ensures modalOpen == old(modalOpen) && filterStatus == old(filterStatus)
      ensures selectedTodo == old(selectedTodo) && queryData == old(queryData)
    {
      match ToggleRequest(Todos(), id)
      case None =>
      case Some(r) =>
        issued := issued + [r];
    }

    /** `handleAddTodo(data)`: fires a create request with the form data. */
    method HandleAddTodo(data: FormData)
      modifies this
      ensures issued == old(issued) + [CreateTodo(data)]
      ensures modalOpen == old(modalOpen) && filterStatus == old(filterStatus)
      ensures selectedTodo == old(selectedTodo) && queryData == old(queryData)
    {
      issued := issued + [CreateTodo(data)];
    }

    /** `handleEditTodo(data)`: nothing without a selection; otherwise an update of the
        selected id that sends the three form fields. */
    method HandleEditTodo(data: FormData)
      modifies this
      ensures selectedTodo.None? ==> issued == old(issued)
      ensures selectedTodo.Some? ==>
        issued == old(issued) + [UpdateTodo(selectedTodo.value.id, FormPatch(data))]
      ensures modalOpen == old(modalOpen) && filterStatus == old(filterStatus)
      ensures selectedTodo == old(selectedTodo) && queryData == old(queryData)
    {
      if selectedTodo.Some? {
        issued := issued + [UpdateTodo(selectedTodo.value.id, FormPatch(data))];
      }
    }

    /** `handleDelete(id)`: fires a delete request. */
    method HandleDelete(id: int)
      modifies this
      ensures issued == old(issued) + [DeleteTodo(id)]
      ensures modalOpen == old(modalOpen) && filterStatus == old(filterStatus)
      ensures selectedTodo == old(selectedTodo) && queryData == old(queryData)
    {
      issued := issued + [DeleteTodo(id)];
    }

    /** The dialog's `onSubmit`: the edit handler when a todo is selected, the add
        handler otherwise. */
    method Submit(data: FormData)
      modifies this
      ensures old(Mode()) == EditMode ==>
        issued == old(issued) + [UpdateTodo(old(selectedTodo).value.id, FormPatch(data))]
      ensures old(Mode()) == AddMode ==> issued == old(issued) + [CreateTodo(data)]
      ensures modalOpen == old(modalOpen) && filterStatus == old(filterStatus)
      ensures selectedTodo == old(selectedTodo) && queryData == old(queryData)
    {
      if selectedTodo.Some? {
        HandleEditTodo(data);
      } else {
        HandleAddTodo(data);
      }
    }

    /** The dialog's submit handler: submits, then closes the dialog through
        `handleCloseModal`. */
    method SubmitDialog(data: FormData)
      modifies this
      ensures old(Mode()) == EditMode ==>
        issued == old(issued) + [UpdateTodo(old(selectedTodo).value.id, FormPatch(data))]
      ensures old(Mode()) == AddMode ==> issued == old(issued) + [CreateTodo(data)]
      ensures !modalOpen && filterStatus == old(filterStatus)
      ensures selectedTodo == old(selectedTodo) && queryData == old(queryData)
    {
      Submit(data);
      HandleCloseModal();
    }
  }

  /** A whole edit with no reset pending: choosing a todo to edit and submitting the
      dialog sends one update of that todo's id with the form's fields, and closes the
      dialog without touching the filter, the selection or the query data. */
  method EditFlow(app: App, t: Todo, data: FormData)
    modifies app
    ensures app.issued == old(app.issued) + [UpdateTodo(t.id, FormPatch(data))]
    ensures !app.modalOpen && app.filterStatus == old(app.filterStatus)
    ensures app.selectedTodo == Some(t) && app.queryData == old(app.queryData)
  {
    app.HandleEdit(t);
    app.SubmitDialog(data);
  }

  /** A whole add: the "Add Todo" button followed by a submit sends one create request,
      even when a todo was selected before. */
  method AddFlow(app: App, data: FormData)
    modifies app
    ensures app.issued == old(app.issued) + [CreateTodo(data)]
    ensures !app.modalOpen && app.filterStatus == old(app.filterStatus)
    ensures app.selectedTodo == None && app.queryData == old(app.queryData)
  {
    app.OpenAddDialog();
    app.SubmitDialog(data);
  }

  /** An edit started within 300 ms of closing the dialog: the reset scheduled by the
      close fires after `handleEdit`, clears the selection, and the submit then goes to
      the add handler, so a create is sent instead of an update. */
  method EditDuringPendingReset(app: App, t: Todo, data: FormData)
    modifies app
    ensures app.issued == old(app.issued) + [CreateTodo(data)]
    ensures !app.modalOpen && app.selectedTodo == None
    ensures app.filterStatus == old(app.filterStatus) && app.queryData == old(app.queryData)
  {
    app.HandleCloseModal();
    app.HandleEdit(t);
    app.ResetSelection();
    app.SubmitDialog(data);
  }
}
