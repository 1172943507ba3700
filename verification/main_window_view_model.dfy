/** MainWindowViewModel: the employee form controller. Every action is a pure
    transition on State. The database is the abstract table of OrganizationDb;
    decimal.TryParse and decimal.ToString are the parse and format parameters. */
module MainWindowViewModel {
  import opened Optional
  import opened Text
  import opened OrganizationDb
  import opened EmployeeList

  /** The object? parameter of the Edit and Delete commands: an Employee, or
      anything else (null included). */
  datatype Arg = AnEmployee(emp: Employee) | NotAnEmployee

  /** The exception an action lets escape: SaveChanges found no row under the
      key it was asked to update or delete (DbUpdateConcurrencyException). */
  datatype Fault = RowMissing(id: Id)

  datatype State = State(
    db: Table,                  // the database file behind OrganizationDbContext
    employees: seq<Employee>,   // Employees
    editing: Option<Employee>,  // EditingEmployee
    name: string,               // NewEmployeeName
    position: string,           // NewEmployeePosition
    salaryText: string,         // NewEmployeeSalary
    formVisible: bool)          // IsAddEmployeeFormVisible

  /** An action either returns normally or throws, leaving the state as it was
      when the exception escaped. */
  datatype Outcome = Done(state: State) | Threw(fault: Fault, state: State)

  /** SetProperty: stores the value and reports (by raising PropertyChanged) a
      change only when it differs from the current one. */
  function SetProperty<T(==)>(field: T, value: T): (r: (T, bool))
    ensures r.0 == value
    ensures r.1 <==> field != value
  {
    if field == value then (field, false) else (value, true)
  }

  /** The salary AddOrUpdateEmployee stores: what decimal.TryParse yields, and
      zero (the out parameter's default) when the text does not parse. */
  function ParsedSalary(parse: string -> Option<Salary>, text: string): (v: Salary)
    ensures parse(text).None? ==> v == 0.0
    ensures parse(text).Some? ==> v == parse(text).value
  {
    match parse(text)
    case Some(v) => v
    case None => 0.0
  }

  /** LoadEmployeesFromDatabase: clears Employees and refills it with the table. */
  function LoadEmployeesFromDatabase(s: State): (t: State)
    ensures t.employees == Listing(s.db)
    ensures t.(employees := s.employees) == s
  {
    s.(employees := Listing(s.db))
  }

  /** The constructor: empty drafts, no form, no edit target, list loaded. */
  function Init(db: Table): (s: State)
    ensures s.db == db && s.employees == Listing(db)
    ensures s.editing == None && !s.formVisible
    ensures s.name == "" && s.position == "" && s.salaryText == ""
  {
    LoadEmployeesFromDatabase(State(db, [], None, "", "", "", false))
  }

  /** Empties the three drafts and sets the form's visibility. */
  function ResetForm(s: State, visible: bool): (t: State)
    ensures t.name == "" && t.position == "" && t.salaryText == ""
    ensures t.formVisible == visible
    ensures t.db == s.db && t.employees == s.employees && t.editing == s.editing
  {
    s.(name := "", position := "", salaryText := "",
       formVisible := SetProperty(s.formVisible, visible).0)
  }

  /** StartAddEmployee: opens an empty form for a new record. */
  function StartAddEmployee(s: State): (t: State)
    ensures t.editing == None && t.formVisible
    ensures t.name == "" && t.position == "" && t.salaryText == ""
    ensures t.db == s.db && t.employees == s.employees
  {
    ResetForm(s.(editing := SetProperty(s.editing, None).0), true)
  }

  /** CancelAddOrEdit: drops the drafts and the edit target and hides the form. */
  function CancelAddOrEdit(s: State): (t: State)
    ensures t.editing == None && !t.formVisible
    ensures t.name == "" && t.position == "" && t.salaryText == ""
    ensures t.db == s.db && t.employees == s.employees
  {
    ResetForm(s.(editing := SetProperty(s.editing, None).0), false)
  }

  /** EditEmployee: targets the employee, copies its fields into the drafts and
      shows the form; any other argument is ignored. */
  function EditEmployee(s: State, arg: Arg, format: Salary -> string): (t: State)
    ensures arg.NotAnEmployee? ==> t == s
    ensures arg.AnEmployee? ==>
      && t.editing == Some(arg.emp)
      && t.name == arg.emp.name
      && t.position == arg.emp.position
      && t.salaryText == format(arg.emp.salary)
      && t.formVisible
    ensures t.db == s.db && t.employees == s.employees
  {
    match arg
    case NotAnEmployee => s
    case AnEmployee(e) =>
      s.(editing := SetProperty(s.editing, Some(e)).0,
         name := e.name, position := e.position, salaryText := format(e.salary),
         formVisible := SetProperty(s.formVisible, true).0)
  }

  /** The row the drafts describe. */
  function DraftRow(s: State, parse: string -> Option<Salary>): Row {
    Row(s.name, s.position, ParsedSalary(parse, s.salaryText))
  }

  /** AddOrUpdateEmployee. A blank name rejects the action. Otherwise the edit
      target takes the drafts and is saved through db.Employees.Update, or, with
      no target, a new row is inserted and speculatively appended to Employees;
      then the list is reloaded, the drafts emptied and the form hidden. Saving a
      target whose row is no longer in the table throws after the target has
      taken the drafts. */
  function AddOrUpdateEmployee(s: State, parse: string -> Option<Salary>): (o: Outcome)
    // rejected: nothing at all changes
    ensures IsNullOrWhiteSpace(s.name) ==> o == Done(s)
    // add path: one fresh row holding the drafts, every other row untouched
    ensures !IsNullOrWhiteSpace(s.name) && s.editing.None? ==> o.Done?
    ensures !IsNullOrWhiteSpace(s.name) && s.editing.None? && Valid(s.db) ==>
      Added(s.db, o.state.db, s.db.nextId, DraftRow(s, parse)) && Valid(o.state.db)
    // update path on a stored key: succeeds exactly when the target's row still exists
    ensures !IsNullOrWhiteSpace(s.name) && s.editing.Some? && s.editing.value.id != 0 ==>
      (o.Done? <==> s.editing.value.id in s.db.rows)
    ensures !IsNullOrWhiteSpace(s.name) && s.editing.Some? && s.editing.value.id != 0 && o.Done? ==>
      Updated(s.db, o.state.db, s.editing.value.id, DraftRow(s, parse))
      && (Valid(s.db) ==> Valid(o.state.db))
    // update path on an unsaved target (key 0): Update inserts it under a fresh key
    ensures !IsNullOrWhiteSpace(s.name) && s.editing.Some? && s.editing.value.id == 0 ==> o.Done?
    ensures !IsNullOrWhiteSpace(s.name) && s.editing.Some? && s.editing.value.id == 0 && Valid(s.db) ==>
      Added(s.db, o.state.db, s.db.nextId, DraftRow(s, parse)) && Valid(o.state.db)
    // after either path: list reloaded, form closed and emptied
    ensures !IsNullOrWhiteSpace(s.name) && o.Done? ==>
      && o.state.employees == Listing(o.state.db)
      && o.state.editing == None
      && o.state.name == "" && o.state.position == "" && o.state.salaryText == ""
      && !o.state.formVisible
    // the throw: table, list, drafts and form as before; the target holds the drafts
    ensures o.Threw? ==>
      && s.editing.Some? && s.editing.value.id != 0 && s.editing.value.id !in s.db.rows
      && o.fault == RowMissing(s.editing.value.id)
      && o.state.editing == Some(Entity(s.editing.value.id, DraftRow(s, parse)))
      && o.state.db == s.db && o.state.employees == s.employees
      && o.state.name == s.name && o.state.position == s.position
      && o.state.salaryText == s.salaryText && o.state.formVisible == s.formVisible
  {
    if IsNullOrWhiteSpace(s.name) then Done(s)
    else
      var row := DraftRow(s, parse);
      match s.editing
      case Some(target) =>
        var edited := Entity(target.id, row);
        (match UpdateEntity(s.db, edited)
         case None => Threw(RowMissing(target.id), s.(editing := Some(edited)))
         case Some((db, _)) =>
           var saved := s.(db := db, editing := SetProperty(Some(edited), None).0);
           Done(ResetForm(LoadEmployeesFromDatabase(saved), false)))
      case None =>
        var (db, id) := InsertRow(s.db, row);
        var added := s.(db := db, employees := s.employees + [Entity(id, row)]);
        Done(ResetForm(LoadEmployeesFromDatabase(added), false))
  }

  /** DeleteEmployee: deletes the employee's row and removes it from Employees
      without reloading; the form and the edit target are left alone. Any other
      argument is ignored. Deleting a row that is no longer in the table throws
      before the list is touched. */
  function DeleteEmployee(s: State, arg: Arg): (o: Outcome)
    ensures arg.NotAnEmployee? ==> o == Done(s)
    ensures arg.AnEmployee? ==> (o.Done? <==> arg.emp.id in s.db.rows)
    ensures arg.AnEmployee? && o.Done? ==>
      Removed(s.db, o.state.db, arg.emp.id)
      && o.state.employees == Remove(s.employees, arg.emp.id)
      && (Valid(s.db) ==> Valid(o.state.db))
    ensures o.Threw? ==> arg.AnEmployee? && o.fault == RowMissing(arg.emp.id) && o.state == s
    ensures o.state.editing == s.editing && o.state.formVisible == s.formVisible
    ensures o.state.name == s.name && o.state.position == s.position
    ensures o.state.salaryText == s.salaryText
  {
    match arg
    case NotAnEmployee => Done(s)
    case AnEmployee(e) =>
      match DeleteRow(s.db, e.id)
      case None => Threw(RowMissing(e.id), s)
      case Some(db) => Done(s.(db := db, employees := Remove(s.employees, e.id)))
  }

  /** What the view can do: invoke the five commands bound in the constructor,
      or write one of the view-model's public settable properties. */
  datatype UserAction =
    | ShowAddEmployeeFormCommand
    | AddEmployeeCommand
    | CancelAddEmployeeCommand
    | EditEmployeeCommand(arg: Arg)
    | DeleteEmployeeCommand(arg: Arg)
    | SetNewEmployeeName(text: string)
    | SetNewEmployeePosition(text: string)
    | SetNewEmployeeSalary(text: string)
    | SetIsAddEmployeeFormVisible(visible: bool)
    | SetEditingEmployee(target: Option<Employee>)
  {
    /** A direct write of the visibility flag or the edit target, bypassing the commands. */
    predicate WritesFormState() {
      SetIsAddEmployeeFormVisible? || SetEditingEmployee?
    }
  }

  /** One user action, dispatched as the constructor's RelayCommands do. */
  function Execute(s: State, a: UserAction, parse: string -> Option<Salary>,
                   format: Salary -> string): (o: Outcome)
    ensures o.Threw? ==> a.AddEmployeeCommand? || a.DeleteEmployeeCommand?
    ensures o.state.db != s.db ==> a.AddEmployeeCommand? || a.DeleteEmployeeCommand?
  {
    match a
    case ShowAddEmployeeFormCommand => Done(StartAddEmployee(s))
    case AddEmployeeCommand => AddOrUpdateEmployee(s, parse)
    case CancelAddEmployeeCommand => Done(CancelAddOrEdit(s))
    case EditEmployeeCommand(arg) => Done(EditEmployee(s, arg, format))
    case DeleteEmployeeCommand(arg) => DeleteEmployee(s, arg)
    case SetNewEmployeeName(v) => Done(s.(name := v))
    case SetNewEmployeePosition(v) => Done(s.(position := v))
    case SetNewEmployeeSalary(v) => Done(s.(salaryText := v))
    case SetIsAddEmployeeFormVisible(v) => Done(s.(formVisible := SetProperty(s.formVisible, v).0))
    case SetEditingEmployee(v) => Done(s.(editing := SetProperty(s.editing, v).0))
  }

  /** A sequence of user actions; an escaping exception ends the run. */
  function Run(s: State, actions: seq<UserAction>, parse: string -> Option<Salary>,
               format: Salary -> string): Outcome
    decreases |actions|
  {
    if |actions| == 0 then Done(s)
    else match Execute(s, actions[0], parse, format)
      case Threw(f, t) => Threw(f, t)
      case Done(t) => Run(t, actions[1..], parse, format)
  }

  /** The form's mode as the user sees it. */
  datatype FormMode = Hidden | Adding | Editing(id: Id)

  function Mode(s: State): FormMode {
    if !s.formVisible then Hidden
    else match s.editing
      case None => Adding
      case Some(e) => Editing(e.id)
  }

  /** What every state reachable from the constructor satisfies: a valid table
      and Employees equal to its listing. */
  predicate Consistent(s: State) {
    && Valid(s.db)
    && s.employees == Listing(s.db)
  }

  /** An edit target only while the form is shown: kept by the commands, though
      not by direct writes of the two properties. */
  predicate EditOnlyWhenShown(s: State) {
    s.editing.Some? ==> s.formVisible
  }
}
