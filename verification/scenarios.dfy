/** Concrete runs of the view-model on a database that starts empty. */
module Scenarios {
  import opened Optional
  import opened OrganizationDb
  import opened EmployeeList
  import opened MainWindowViewModel

  const Empty := Table(map[], 1)
  const Ada := Employee(1, "Ada", "Engineer", 50000.0)

  /** Show the form, type Ada's details and save: one row under key 1, listed,
      with the form hidden again. */
  lemma AddAda(parse: string -> Option<Salary>)
    requires parse("50000") == Some(50000.0)
    ensures var s0 := Init(Empty);
      var s1 := StartAddEmployee(s0);
      var s2 := s1.(name := "Ada", position := "Engineer", salaryText := "50000");
      var o := AddOrUpdateEmployee(s2, parse);
      o.Done? && o.state.employees == [Ada] && Mode(o.state) == Hidden
  {
    var s2 := StartAddEmployee(Init(Empty)).(name := "Ada", position := "Engineer", salaryText := "50000");
    var o := AddOrUpdateEmployee(s2, parse);
    assert o.state.db == Table(map[1 := Ada.ToRow()], 2);
    assert Listing(o.state.db) == [Entity(1, Ada.ToRow())] + Scan(o.state.db.rows, 2, 2);
  }

  /** Edit Ada, change the salary text and save: still one entry, now 60000. */
  lemma RaiseAda(parse: string -> Option<Salary>, format: Salary -> string)
    requires parse("60000") == Some(60000.0)
    ensures var s0 := Init(Table(map[1 := Ada.ToRow()], 2));
      var s1 := EditEmployee(s0, AnEmployee(Ada), format);
      var s2 := s1.(salaryText := "60000");
      var o := AddOrUpdateEmployee(s2, parse);
      o.Done? && o.state.employees == [Ada.(salary := 60000.0)]
  {
    var db := Table(map[1 := Ada.ToRow()], 2);
    assert Listing(db) == [Entity(1, Ada.ToRow())] + Scan(db.rows, 2, 2);
    var s2 := EditEmployee(Init(db), AnEmployee(Ada), format).(salaryText := "60000");
    var o := AddOrUpdateEmployee(s2, parse);
    assert o.state.db == Table(map[1 := Ada.(salary := 60000.0).ToRow()], 2);
    assert Listing(o.state.db) == [Entity(1, Ada.(salary := 60000.0).ToRow())] + Scan(o.state.db.rows, 2, 2);
  }

  /** Delete Ada: the list is empty, and the next insert gets key 2, not 1. */
  lemma DeleteAda()
    ensures var s0 := Init(Table(map[1 := Ada.ToRow()], 2));
      var o := DeleteEmployee(s0, AnEmployee(Ada));
      o.Done? && o.state.employees == [] && o.state.db.rows == map[]
      && InsertRow(o.state.db, Ada.ToRow()).1 == 2
  {
    var db := Table(map[1 := Ada.ToRow()], 2);
    assert Listing(db) == [Entity(1, Ada.ToRow())] + Scan(db.rows, 2, 2);
    assert Remove(Listing(db), 1) == [];
  }

  /** Opening an employee that was never saved (key 0) and saving inserts it:
      Update tracks an entity with the default key as new. */
  lemma SaveUnsavedTarget(parse: string -> Option<Salary>, format: Salary -> string)
    requires parse(format(1.0)) == Some(1.0)
    ensures var s1 := EditEmployee(Init(Empty), AnEmployee(Employee(0, "Bob", "Clerk", 1.0)), format);
      var o := AddOrUpdateEmployee(s1, parse);
      o.Done? && o.state.employees == [Employee(1, "Bob", "Clerk", 1.0)] && Mode(o.state) == Hidden
  {
    var s1 := EditEmployee(Init(Empty), AnEmployee(Employee(0, "Bob", "Clerk", 1.0)), format);
    var o := AddOrUpdateEmployee(s1, parse);
    assert o.state.db == Table(map[1 := Row("Bob", "Clerk", 1.0)], 2);
    assert Listing(o.state.db) == [Entity(1, Row("Bob", "Clerk", 1.0))] + Scan(o.state.db.rows, 2, 2);
  }
}
