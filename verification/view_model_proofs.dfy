/** Properties relating several MainWindowViewModel actions: the list always mirrors
    the table, the add/update/delete effects seen through Employees, the form's
    mode machine, the edit round trip, and concrete runs. */
module ViewModelProofs {
  import opened Optional
  import opened Text
  import opened OrganizationDb
  import opened EmployeeList
  import opened MainWindowViewModel

  /** The constructor starts consistent, with the form hidden. */
  lemma InitConsistent(db: Table)
    requires Valid(db)
    ensures Consistent(Init(db)) && EditOnlyWhenShown(Init(db)) && Mode(Init(db)) == Hidden
  {
  }

  /** Every action keeps the list equal to the table's listing, also when it throws. */
  lemma ExecutePreservesConsistent(s: State, a: UserAction, parse: string -> Option<Salary>,
                                   format: Salary -> string)
    requires Consistent(s)
    ensures Consistent(Execute(s, a, parse, format).state)
  {
    if a.DeleteEmployeeCommand? && a.arg.AnEmployee? && a.arg.emp.id in s.db.rows {
      ListingAfterDelete(s.db, a.arg.emp.id);
    }
  }

  /** Any sequence of actions keeps the state consistent. */
  lemma {:induction false} RunPreservesConsistent(s: State, actions: seq<UserAction>,
                                                  parse: string -> Option<Salary>,
                                                  format: Salary -> string)
    requires Consistent(s)
    ensures Consistent(Run(s, actions, parse, format).state)
    decreases |actions|
  {
    if |actions| > 0 {
      ExecutePreservesConsistent(s, actions[0], parse, format);
      match Execute(s, actions[0], parse, format)
      case Threw(f, t) =>
      case Done(t) => RunPreservesConsistent(t, actions[1..], parse, format);
    }
  }

  /** Every action except a direct write of the visibility flag or the edit
      target keeps an edit target only while the form is shown. */
  lemma ExecuteKeepsEditOnlyWhenShown(s: State, a: UserAction, parse: string -> Option<Salary>,
                                      format: Salary -> string)
    requires EditOnlyWhenShown(s)
    ensures !a.WritesFormState() ==> EditOnlyWhenShown(Execute(s, a, parse, format).state)
  {
  }

  /** A run of commands and draft writes keeps an edit target only while the form is shown. */
  lemma {:induction false} RunKeepsEditOnlyWhenShown(s: State, actions: seq<UserAction>,
                                                     parse: string -> Option<Salary>,
                                                     format: Salary -> string)
    requires EditOnlyWhenShown(s)
    requires forall i :: 0 <= i < |actions| ==> !actions[i].WritesFormState()
    ensures EditOnlyWhenShown(Run(s, actions, parse, format).state)
    decreases |actions|
  {
    if |actions| > 0 {
      ExecuteKeepsEditOnlyWhenShown(s, actions[0], parse, format);
      match Execute(s, actions[0], parse, format)
      case Threw(f, t) =>
      case Done(t) =>
        assert forall i :: 0 <= i < |actions[1..]| ==> actions[1..][i] == actions[i + 1];
        RunKeepsEditOnlyWhenShown(t, actions[1..], parse, format);
    }
  }

  /** Hiding the form by writing the flag directly leaves an edit target with no
      form shown. */
  lemma HidingWhileEditingLeavesTarget(s: State, e: Employee, parse: string -> Option<Salary>,
                                       format: Salary -> string)
    ensures var t := EditEmployee(s, AnEmployee(e), format);
      var o := Execute(t, SetIsAddEmployeeFormVisible(false), parse, format);
      o.Done? && !EditOnlyWhenShown(o.state) && Mode(o.state) == Hidden
  {
  }

  /** Adding shows exactly one more entry, the drafted one, and keeps every old
      entry: the speculative Employees.Add leaves no duplicate behind. */
  lemma AddShowsOneMoreEntry(s: State, parse: string -> Option<Salary>)
    requires Consistent(s)
    requires !IsNullOrWhiteSpace(s.name) && s.editing.None?
    ensures var o := AddOrUpdateEmployee(s, parse);
      && o.Done?
      && |o.state.employees| == |s.employees| + 1
      && Entity(s.db.nextId, DraftRow(s, parse)) in o.state.employees
      && (forall e :: e in s.employees ==> e in o.state.employees)
      && (forall e :: e in o.state.employees ==> e in s.employees || e.id == s.db.nextId)
  {
    var o := AddOrUpdateEmployee(s, parse);
    ListingMirrors(s.db);
    ListingMirrors(o.state.db);
  }

  /** Updating leaves the entry count alone and shows the drafts under the key. */
  lemma UpdateKeepsEntryCount(s: State, parse: string -> Option<Salary>)
    requires Consistent(s)
    requires !IsNullOrWhiteSpace(s.name) && s.editing.Some?
    requires s.editing.value.id in s.db.rows
    ensures var o := AddOrUpdateEmployee(s, parse);
      && o.Done?
      && |o.state.employees| == |s.employees|
      && Entity(s.editing.value.id, DraftRow(s, parse)) in o.state.employees
      && (forall e :: e in o.state.employees && e.id == s.editing.value.id ==>
            e == Entity(s.editing.value.id, DraftRow(s, parse)))
      && (forall e :: e in s.employees && e.id != s.editing.value.id ==> e in o.state.employees)
  {
    var o := AddOrUpdateEmployee(s, parse);
    var id := s.editing.value.id;
    ListingMirrors(s.db);
    ListingMirrors(o.state.db);
    assert Entity(id, DraftRow(s, parse)).ToRow() == DraftRow(s, parse);
  }

  /** An unparseable salary text is saved as zero. */
  lemma UnparseableSalaryIsZero(s: State, parse: string -> Option<Salary>)
    requires !IsNullOrWhiteSpace(s.name) && parse(s.salaryText).None?
    ensures var o := AddOrUpdateEmployee(s, parse);
      (s.editing.None? || s.editing.value.id == 0) && Valid(s.db) ==>
        o.state.db.rows[s.db.nextId].salary == 0.0
    ensures var o := AddOrUpdateEmployee(s, parse);
      o.Done? && s.editing.Some? && s.editing.value.id != 0 ==>
        o.state.db.rows[s.editing.value.id].salary == 0.0
  {
  }

  /** After a delete no entry with the key is left, the other entries stay in
      order, and the form (edit target included) is untouched. */
  lemma DeleteLeavesNoEntry(s: State, e: Employee)
    requires Consistent(s)
    requires e in s.employees
    ensures var o := DeleteEmployee(s, AnEmployee(e));
      && o.Done?
      && (forall x :: x in o.state.employees ==> x.id != e.id)
      && (forall x :: x in s.employees && x.id != e.id ==> x in o.state.employees)
      && |o.state.employees| == |s.employees| - 1
      && Mode(o.state) == Mode(s)
  {
    ListingMirrors(s.db);
    ListingAfterDelete(s.db, e.id);
    RemoveIsWithout(s.employees, e.id);
  }

  /** The form's modes: show-add opens Adding, edit opens Editing, cancel hides,
      a rejected save keeps the mode, a completed save hides. */
  lemma FormModeMachine(s: State, e: Employee, parse: string -> Option<Salary>,
                        format: Salary -> string)
    ensures Mode(StartAddEmployee(s)) == Adding
    ensures Mode(EditEmployee(s, AnEmployee(e), format)) == Editing(e.id)
    ensures Mode(CancelAddOrEdit(s)) == Hidden
    ensures IsNullOrWhiteSpace(s.name) ==> Mode(AddOrUpdateEmployee(s, parse).state) == Mode(s)
    ensures !IsNullOrWhiteSpace(s.name) && AddOrUpdateEmployee(s, parse).Done? ==>
      Mode(AddOrUpdateEmployee(s, parse).state) == Hidden
  {
  }

  /** Showing the add form twice, or cancelling twice, is the same as once. */
  lemma OpenAndCancelIdempotent(s: State)
    ensures StartAddEmployee(StartAddEmployee(s)) == StartAddEmployee(s)
    ensures CancelAddOrEdit(CancelAddOrEdit(s)) == CancelAddOrEdit(s)
  {
  }

  /** Opening a listed employee for edit and saving without touching the drafts
      leaves the table and the list as they were, when formatting the salary
      and parsing it back give the same number. */
  lemma EditThenSaveRoundTrip(s: State, e: Employee, parse: string -> Option<Salary>,
                              format: Salary -> string)
    requires Consistent(s)
    requires e in s.employees && !IsNullOrWhiteSpace(e.name)
    requires parse(format(e.salary)) == Some(e.salary)
    ensures var o := AddOrUpdateEmployee(EditEmployee(s, AnEmployee(e), format), parse);
      && o.Done?
      && o.state.db == s.db
      && o.state.employees == s.employees
      && Mode(o.state) == Hidden
  {
    ListingMirrors(s.db);
    var t := EditEmployee(s, AnEmployee(e), format);
    assert DraftRow(t, parse) == e.ToRow();
    SaveStoredRowUnchanged(t, parse);
  }

  /** Saving drafts equal to the target's stored row leaves the table as it was. */
  lemma SaveStoredRowUnchanged(t: State, parse: string -> Option<Salary>)
    requires !IsNullOrWhiteSpace(t.name) && t.editing.Some?
    requires t.editing.value.id != 0 && t.editing.value.id in t.db.rows
    requires t.db.rows[t.editing.value.id] == DraftRow(t, parse)
    ensures AddOrUpdateEmployee(t, parse).Done?
    ensures AddOrUpdateEmployee(t, parse).state.db == t.db
  {
    var o := AddOrUpdateEmployee(t, parse);
    assert Updated(t.db, o.state.db, t.editing.value.id, DraftRow(t, parse));
    assert o.state.db.rows == t.db.rows;
  }

  /** Deleting the employee being edited keeps the form open in Editing mode,
      and saving it then throws: the update finds no row. */
  lemma DeleteWhileEditingThenSaveThrows(s: State, e: Employee, parse: string -> Option<Salary>,
                                         format: Salary -> string)
    requires Consistent(s)
    requires e in s.employees && !IsNullOrWhiteSpace(e.name)
    ensures var d := DeleteEmployee(EditEmployee(s, AnEmployee(e), format), AnEmployee(e));
      && d.Done?
      && Mode(d.state) == Editing(e.id)
      && AddOrUpdateEmployee(d.state, parse).Threw?
      && AddOrUpdateEmployee(d.state, parse).fault == RowMissing(e.id)
  {
    ListingMirrors(s.db);
  }
}
