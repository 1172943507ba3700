# Organization employee form — Dafny model

This project models `MainWindowViewModel`, the controller behind the Organization
app's employee window. It keeps an `Employees` list, a form with three draft
text fields (`NewEmployeeName`, `NewEmployeePosition`, `NewEmployeeSalary`),
a visibility flag (`IsAddEmployeeFormVisible`) and an edit target
(`EditingEmployee`). It saves through Entity Framework to a SQLite
`Employees` table.

Each action is a pure function from `State` to `State`. Actions that call
`SaveChanges` return an `Outcome` instead. The outcome is either `Done`, or
`Threw` together with the state left behind when the exception escaped. The
database is an abstract table: a map from key to row, plus the next key.

Files and modules:

- `wrappers.dfy` — module `Optional`: `Option`, which stands for a C# null.
- `text.dfy` — `string.IsNullOrWhiteSpace` and `char.IsWhiteSpace`, with the
  .NET whitespace set written out.
- `organization_db.dfy` — the `Employees` table: `Employee` entities, rows,
  insert/update/delete as `SaveChanges` performs them, and the listing that
  `db.Employees.ToList()` returns.
- `employee_list.dfy` — `IndexOf` and `Remove` on the `ObservableCollection`,
  and the proof that removing an entry locally gives the same list as
  reloading after the delete.
- `main_window_view_model.dfy` — the state, `SetProperty`, the five command
  actions, `LoadEmployeesFromDatabase`, the constructor, and dispatch of user
  actions.
- `view_model_proofs.dfy` — properties that span several actions. The main
  one: every action keeps `Employees` equal to the table's listing.
- `scenarios.dfy` — concrete runs: add "Ada", raise her salary, delete her, and save an employee that was never stored.

Modelling choices:

- **External functions.** `decimal.TryParse` is the function parameter
  `parse` and `decimal.ToString` is the parameter `format`. The model uses
  only what the code relies on: when the parse fails, the salary is 0.
- **Keys.** Keys come from a counter, `nextId`. This matches SQLite
  `AUTOINCREMENT`, which Entity Framework's SQLite provider uses for integer
  keys. The first key is 1 and keys are never reused after a delete.
- **Listing order.** The table is listed in ascending key order. `ToList()`
  has no `ORDER BY`, so this is SQLite's rowid scan order.
- **Update and delete of a detached entity.** The code calls `Update` or
  `Remove` on an entity that no context is tracking, then `SaveChanges`.
  - For `Update`, an entity whose key is still the default 0 is tracked as new
    and inserted under a fresh key (`OrganizationDb.UpdateEntity`).
  - Any other key is updated or deleted by key. If no row has that key, EF
    throws `DbUpdateConcurrencyException`, which the model returns as
    `Threw(RowMissing(id), …)`.
  - On the update path the edit target has already taken the draft values
    (lines 79-81) when the exception escapes, and the model keeps that.
- **Behaviour of the code worth knowing:**
  - only a blank name is rejected, and silently: the action just returns;
  - position and salary are never checked, and a salary that does not parse
    is stored as 0;
  - delete removes the entry from `Employees` locally and does not reload;
    the form and the edit target stay as they were;
  - saving an edit whose row was deleted meanwhile throws
    `DbUpdateConcurrencyException` (`DeleteWhileEditingThenSaveThrows`);
  - deleting an employee whose row is gone throws as well. No consistent
    state can do this for an employee taken from the list, because the list
    only holds stored rows.
- **Public setters.** The view may write any public settable property. Writing
  `IsAddEmployeeFormVisible` or `EditingEmployee` directly can leave an edit
  target behind a hidden form (`HidingWhileEditingLeavesTarget`). So that
  fact is proved only for runs of commands and draft writes
  (`RunKeepsEditOnlyWhenShown`). The list mirrors the table after any
  property write, and after any delete whose argument is a list entry
  (`RunPreservesConsistent`).

## Model

| member | source | states |
|---|---|---|
| `Text.IsNullOrWhiteSpace` | Organization/ViewModels/MainWindowViewModel.cs:72 | a name is blank exactly when every character is .NET whitespace (so the empty name is blank) |
| `Text.Latin1WhiteSpaceTable` | Organization/ViewModels/MainWindowViewModel.cs:72 | below U+0100, `char.IsWhiteSpace` holds exactly for tab, line feed, vertical tab, form feed, carriage return, space, U+0085 and U+00A0 |
| `OrganizationDb.InsertRow` | Organization/ViewModels/MainWindowViewModel.cs:89-91 | the new key is the counter and the counter moves up by one, so keys are never reused; inserting into a valid table adds one row under that fresh key, leaves every existing row untouched, grows the table by one and keeps it valid |
| `OrganizationDb.UpdateRow` | Organization/ViewModels/MainWindowViewModel.cs:82-83 | the update fails exactly when no row has the key; otherwise only that row changes, and the key set and size stay the same |
| `OrganizationDb.UpdateEntity` | Organization/ViewModels/MainWindowViewModel.cs:82-83 | an entity with the default key 0 is inserted under a fresh key; any other key updates only that row, and fails exactly when no row has it |
| `OrganizationDb.DeleteRow` | Organization/ViewModels/MainWindowViewModel.cs:137-138 | the delete fails exactly when no row has the key; otherwise only that key goes, the table shrinks by one, and the counter does not move back |
| `OrganizationDb.Scan` | Organization/ViewModels/MainWindowViewModel.cs:54 | a scan yields exactly the stored rows in its key range, each matching its row, in strictly ascending key order |
| `OrganizationDb.Listing` | Organization/ViewModels/MainWindowViewModel.cs:54 | `ToList` yields only stored rows, each matching its row, in strictly ascending key order, and on a valid table every stored row appears |
| `OrganizationDb.ScanSize` | Organization/ViewModels/MainWindowViewModel.cs:54 | a scan has one entry per key in its range |
| `OrganizationDb.ListingMirrors` | Organization/ViewModels/MainWindowViewModel.cs:53-55 | listing a valid table yields each stored record exactly once (membership iff stored, count equals table size, no repeated key) |
| `EmployeeList.IndexOf` | Organization/ViewModels/MainWindowViewModel.cs:139 | the result is the first position holding the key, or none exactly when no entry has it |
| `EmployeeList.Remove` | Organization/ViewModels/MainWindowViewModel.cs:139 | removal drops only the first entry with the key and keeps the rest in order; with no match the list is unchanged |
| `EmployeeList.Without` | Organization/ViewModels/MainWindowViewModel.cs:139 | reference definition: an entry survives exactly when it was present and has a different key |
| `EmployeeList.RemoveIsWithout` | Organization/ViewModels/MainWindowViewModel.cs:139 | on a list without repeated keys, removing the first match equals dropping every entry with that key |
| `EmployeeList.ScanWithout` | Organization/ViewModels/MainWindowViewModel.cs:137-139 | scanning the table without a key equals the scan with that key's entries dropped |
| `EmployeeList.ListingAfterDelete` | Organization/ViewModels/MainWindowViewModel.cs:136-139 | after deleting a stored key, the listing of the new table equals the old listing with that entry removed locally, so no reload is needed |
| `MainWindowViewModel.SetProperty` | Organization/ViewModels/MainWindowViewModel.cs:145-151 | the field always ends up holding the value; a change is reported exactly when the old value differed |
| `MainWindowViewModel.ParsedSalary` | Organization/ViewModels/MainWindowViewModel.cs:73 | the saved salary is the parsed value, or 0 when the text does not parse |
| `MainWindowViewModel.LoadEmployeesFromDatabase` | Organization/ViewModels/MainWindowViewModel.cs:49-56 | the list becomes the table's listing and nothing else changes |
| `MainWindowViewModel.Init` | Organization/ViewModels/MainWindowViewModel.cs:38-47 | the window starts with the list loaded from the table, no edit target, empty drafts and the form hidden |
| `MainWindowViewModel.ResetForm` | Organization/ViewModels/MainWindowViewModel.cs:96-99 | the three drafts are emptied and visibility is set; table, list and edit target are untouched |
| `MainWindowViewModel.StartAddEmployee` | Organization/ViewModels/MainWindowViewModel.cs:58-68 | no edit target, empty drafts, form shown; table and list unchanged |
| `MainWindowViewModel.CancelAddOrEdit` | Organization/ViewModels/MainWindowViewModel.cs:105-115 | no edit target, empty drafts, form hidden; table and list unchanged |
| `MainWindowViewModel.EditEmployee` | Organization/ViewModels/MainWindowViewModel.cs:117-130 | an employee becomes the target, its name, position and formatted salary fill the drafts, and the form is shown; any other argument changes nothing; table and list never change |
| `MainWindowViewModel.AddOrUpdateEmployee` | Organization/ViewModels/MainWindowViewModel.cs:70-103 | blank name: complete no-op; add: one fresh row with the drafts, old rows untouched; update of a stored key: succeeds iff the row exists, then only that row changes; update of key 0: inserts under a fresh key; on success the list equals the listing, the target is cleared, drafts empty, form hidden; throwing leaves table, list, drafts and form as they were |
| `MainWindowViewModel.DeleteEmployee` | Organization/ViewModels/MainWindowViewModel.cs:132-141 | succeeds iff the row exists; then the row goes and the first entry with the key is removed from the list; a non-employee is a no-op; a throw changes nothing; drafts, visibility and edit target are never touched |
| `MainWindowViewModel.Execute` | Organization/ViewModels/MainWindowViewModel.cs:14-44 | dispatches the five commands and writes of the public properties; only the add and delete commands can throw or change the table |
| `ViewModelProofs.InitConsistent` | Organization/ViewModels/MainWindowViewModel.cs:38-56 | the window starts with the list mirroring the table, no edit target and the form hidden |
| `ViewModelProofs.ExecutePreservesConsistent` | Organization/ViewModels/MainWindowViewModel.cs:14-141 | every action, property writes included, keeps the table valid and the list equal to the table's listing, even when it throws |
| `ViewModelProofs.RunPreservesConsistent` | Organization/ViewModels/MainWindowViewModel.cs:38-141 | the same holds after any sequence of user actions |
| `ViewModelProofs.ExecuteKeepsEditOnlyWhenShown` | Organization/ViewModels/MainWindowViewModel.cs:58-141 | every command and draft write keeps an edit target only while the form is shown |
| `ViewModelProofs.RunKeepsEditOnlyWhenShown` | Organization/ViewModels/MainWindowViewModel.cs:58-141 | the same holds after any run that never writes the visibility flag or the edit target directly |
| `ViewModelProofs.HidingWhileEditingLeavesTarget` | Organization/ViewModels/MainWindowViewModel.cs:14-19 | writing `IsAddEmployeeFormVisible` false after opening an edit hides the form with the edit target still set |
| `ViewModelProofs.AddShowsOneMoreEntry` | Organization/ViewModels/MainWindowViewModel.cs:86-95 | adding yields exactly one more list entry: the drafted record under the new key, with every old entry kept; the speculative append leaves no duplicate |
| `ViewModelProofs.UpdateKeepsEntryCount` | Organization/ViewModels/MainWindowViewModel.cs:76-85 | updating keeps the entry count; the entry with the target's key shows the drafts and every other entry is kept |
| `ViewModelProofs.UnparseableSalaryIsZero` | Organization/ViewModels/MainWindowViewModel.cs:73 | a salary text that does not parse is saved as 0 on both the add and the update path |
| `ViewModelProofs.DeleteLeavesNoEntry` | Organization/ViewModels/MainWindowViewModel.cs:132-141 | deleting a listed employee leaves no entry with its key, keeps every other entry, shrinks the list by one and leaves the form mode alone |
| `ViewModelProofs.FormModeMachine` | Organization/ViewModels/MainWindowViewModel.cs:58-130 | show-add opens Adding, edit opens Editing, cancel hides, a rejected save keeps the mode, a completed save hides |
| `ViewModelProofs.OpenAndCancelIdempotent` | Organization/ViewModels/MainWindowViewModel.cs:58-115 | showing the add form twice, or cancelling twice, equals doing it once |
| `ViewModelProofs.EditThenSaveRoundTrip` | Organization/ViewModels/MainWindowViewModel.cs:70-130 | opening a listed employee and saving without edits leaves table and list unchanged, provided format and parse round-trip the salary |
| `ViewModelProofs.SaveStoredRowUnchanged` | Organization/ViewModels/MainWindowViewModel.cs:76-84 | saving drafts equal to the target's stored row completes and leaves the table as it was |
| `ViewModelProofs.DeleteWhileEditingThenSaveThrows` | Organization/ViewModels/MainWindowViewModel.cs:76-141 | deleting the employee being edited leaves the form in Editing mode, and saving then throws because the row is missing |
| `Scenarios.AddAda` | Organization/ViewModels/MainWindowViewModel.cs:58-103 | from an empty table, show-add, type Ada's details and save: the list is exactly [Ada under key 1] and the form is hidden |
| `Scenarios.RaiseAda` | Organization/ViewModels/MainWindowViewModel.cs:70-130 | editing Ada and saving with salary text 60000 leaves a single entry with salary 60000 |
| `Scenarios.DeleteAda` | Organization/ViewModels/MainWindowViewModel.cs:132-141 | deleting Ada empties the list and the table, and the next insert gets key 2 |
| `Scenarios.SaveUnsavedTarget` | Organization/ViewModels/MainWindowViewModel.cs:76-95 | opening a never-saved employee (key 0) and saving inserts it under key 1, lists it and hides the form |

## Left out

- Property-change notification (`PropertyChanged`, `OnPropertyChanged`). `SetProperty` returns its "changed" flag, but no events are recorded.
- `RelayCommand` and `ICommand` plumbing. `RelayCommand` is not part of this model. The commands are dispatched directly by `Execute`, with no `CanExecute`.
- Database setup: `OrganizationDbContext` configuration, the SQLite file and `Database.EnsureCreated`. These are replaced by the abstract `Table`.
- Store failures other than a missing row. This covers an unreachable or locked file and constraint violations. They are I/O and are not modelled.
- Null strings. The drafts and the employee fields are non-null here, so the null case of `string.IsNullOrWhiteSpace` does not arise.
- Culture-specific `decimal.TryParse` and `decimal.ToString`. They are the `parse` and `format` parameters.
- The range and precision of `decimal`. Salary is an exact `real`. An overflowing parse counts as a failed parse, so it gives 0.
- Object identity of `Employee` instances. Entries are compared by key, and `Employees.Remove` removes the first entry with the deleted key.
- `ViewModelProofs.ExecutePreservesConsistent`: the mirror invariant is proved for the model's by-key removal. `Employees.Remove` compares references, so deleting through an `Employee` object that has a stored key but is not the list's own entry would delete the row and leave the list entry in place. The view only passes list entries, so the model does not distinguish such objects. `ViewModelProofs.RunPreservesConsistent` rests on the same assumption.
- `Run` does not continue after an exception escapes an action. The exception is not caught anywhere in the code.
- Asynchrony and in-flight locking. This code is synchronous.
