/** The Employees table behind OrganizationDbContext, as an abstract store: rows by
    primary key plus the next key the database hands out on insert. Entity
    Framework and SQLite themselves are not modelled; only the effect of each
    SaveChanges on the table is. */
module OrganizationDb {
  import opened Optional

  /** The integer primary key Entity Framework assigns on insert. */
  type Id = int

  /** decimal, taken as an exact number. */
  type Salary = real

  /** The non-key columns of one row. */
  datatype Row = Row(name: string, position: string, salary: Salary)

  /** The Employee entity: its key and its three columns. */
  datatype Employee = Employee(id: Id, name: string, position: string, salary: Salary) {
    function ToRow(): Row {
      Row(name, position, salary)
    }
  }

  /** The entity materialised from the row stored under id. */
  function Entity(id: Id, row: Row): Employee {
    Employee(id, row.name, row.position, row.salary)
  }

  /** The table. nextId is the AUTOINCREMENT counter: one more than the largest
      key ever handed out, so keys are never reused after a delete. */
  datatype Table = Table(rows: map<Id, Row>, nextId: Id)

  /** Every key is positive and below the counter, so the counter is fresh. */
  predicate Valid(t: Table) {
    1 <= t.nextId && forall id :: id in t.rows ==> 1 <= id < t.nextId
  }

  /** after is before with one row added under the fresh key id; every row
      already present is untouched. */
  predicate Added(before: Table, after: Table, id: Id, row: Row) {
    && id !in before.rows
    && after.rows.Keys == before.rows.Keys + {id}
    && after.rows[id] == row
    && (forall k :: k in before.rows ==> after.rows[k] == before.rows[k])
    && |after.rows| == |before.rows| + 1
  }

  /** after is before with the row under id overwritten; the key set, the
      counter and every other row are untouched. */
  predicate Updated(before: Table, after: Table, id: Id, row: Row) {
    && id in before.rows
    && after.rows.Keys == before.rows.Keys
    && after.rows[id] == row
    && (forall k :: k in before.rows && k != id ==> after.rows[k] == before.rows[k])
    && |after.rows| == |before.rows|
    && after.nextId == before.nextId
  }

  /** after is before without the row under id; every other row is untouched
      and the counter does not move back. */
  predicate Removed(before: Table, after: Table, id: Id) {
    && id in before.rows
    && after.rows.Keys == before.rows.Keys - {id}
    && (forall k :: k in after.rows ==> after.rows[k] == before.rows[k])
    && |after.rows| == |before.rows| - 1
    && after.nextId == before.nextId
  }

  /** db.Employees.Add followed by SaveChanges: the row goes under the next key,
      which is returned alongside the new table. */
  function InsertRow(t: Table, row: Row): (r: (Table, Id))
    ensures Valid(t) ==> Added(t, r.0, r.1, row) && Valid(r.0)
    ensures r.1 == t.nextId && r.0.nextId == t.nextId + 1
  {
    (Table(t.rows[t.nextId := row], t.nextId + 1), t.nextId)
  }

  /** db.Employees.Update followed by SaveChanges. The UPDATE matches by key;
      when no row has that key SaveChanges throws, modelled as None. */
  function UpdateRow(t: Table, id: Id, row: Row): (r: Option<Table>)
    ensures r.None? <==> id !in t.rows
    ensures r.Some? ==> Updated(t, r.value, id, row)
    ensures r.Some? && Valid(t) ==> Valid(r.value)
  {
    if id in t.rows then Some(Table(t.rows[id := row], t.nextId)) else None
  }

  /** db.Employees.Update(e) followed by SaveChanges, for a detached entity. An
      entity whose key is still the CLR default 0 is tracked as Added and
      inserted under a fresh key; any other key is tracked as Modified and the
      UPDATE of that key fails when no row has it. Returns the table and the
      key the entity is stored under. */
  function UpdateEntity(t: Table, e: Employee): (r: Option<(Table, Id)>)
    ensures e.id == 0 ==> r == Some(InsertRow(t, e.ToRow()))
    ensures e.id != 0 ==> (r.None? <==> e.id !in t.rows)
    ensures e.id != 0 && r.Some? ==> r.value.1 == e.id && Updated(t, r.value.0, e.id, e.ToRow())
  {
    if e.id == 0 then Some(InsertRow(t, e.ToRow()))
    else match UpdateRow(t, e.id, e.ToRow())
      case None => None
      case Some(u) => Some((u, e.id))
  }

  /** db.Employees.Remove followed by SaveChanges. The DELETE matches by key;
      when no row has that key SaveChanges throws, modelled as None. */
  function DeleteRow(t: Table, id: Id): (r: Option<Table>)
    ensures r.None? <==> id !in t.rows
    ensures r.Some? ==> Removed(t, r.value, id)
    ensures r.Some? && Valid(t) ==> Valid(r.value)
  {
    if id in t.rows then Some(Table(t.rows - {id}, t.nextId)) else None
  }

  /** The rows whose keys lie in [lo, hi), as entities in ascending key order. */
  function Scan(rows: map<Id, Row>, lo: Id, hi: Id): (es: seq<Employee>)
    decreases hi - lo
    ensures forall i :: 0 <= i < |es| ==>
      lo <= es[i].id < hi && es[i].id in rows && rows[es[i].id] == es[i].ToRow()
    ensures forall id :: lo <= id < hi && id in rows ==> Entity(id, rows[id]) in es
    ensures forall i, j :: 0 <= i < j < |es| ==> es[i].id < es[j].id
  {
    if lo >= hi then []
    else if lo in rows then [Entity(lo, rows[lo])] + Scan(rows, lo + 1, hi)
    else Scan(rows, lo + 1, hi)
  }

  /** db.Employees.ToList(): the whole table in key (rowid) order. */
  function Listing(t: Table): (es: seq<Employee>)
    ensures forall i :: 0 <= i < |es| ==> es[i].id in t.rows && t.rows[es[i].id] == es[i].ToRow()
    ensures Valid(t) ==> forall id :: id in t.rows ==> Entity(id, t.rows[id]) in es
    ensures forall i, j :: 0 <= i < j < |es| ==> es[i].id < es[j].id
  {
    Scan(t.rows, 1, t.nextId)
  }

  /** The keys of rows that lie in [lo, hi). */
  function KeysIn(rows: map<Id, Row>, lo: Id, hi: Id): set<Id> {
    set id | id in rows && lo <= id < hi
  }

  /** A scan yields one entity per key in its range. */
  lemma {:induction false} ScanSize(rows: map<Id, Row>, lo: Id, hi: Id)
    decreases hi - lo
    ensures |Scan(rows, lo, hi)| == |KeysIn(rows, lo, hi)|
  {
    if lo >= hi {
      assert KeysIn(rows, lo, hi) == {};
    } else {
      ScanSize(rows, lo + 1, hi);
      KeysInStep(rows, lo, hi);
    }
  }

  /** Widening a key range by its lowest key adds that key if it is stored. */
  lemma KeysInStep(rows: map<Id, Row>, lo: Id, hi: Id)
    requires lo < hi
    ensures |KeysIn(rows, lo, hi)| == |KeysIn(rows, lo + 1, hi)| + (if lo in rows then 1 else 0)
  {
    var rest := KeysIn(rows, lo + 1, hi);
    if lo in rows {
      assert lo !in rest;
      assert KeysIn(rows, lo, hi) == rest + {lo};
    } else {
      assert KeysIn(rows, lo, hi) == rest;
    }
  }

  /** The listing of a valid table holds exactly the table's rows, once each, in
      strictly ascending key order. */
  lemma ListingMirrors(t: Table)
    requires Valid(t)
    ensures forall e :: e in Listing(t) <==> e.id in t.rows && t.rows[e.id] == e.ToRow()
    ensures |Listing(t)| == |t.rows|
    ensures forall i, j :: 0 <= i < j < |Listing(t)| ==> Listing(t)[i].id < Listing(t)[j].id
  {
    var es := Listing(t);
    forall e: Employee | e.id in t.rows && t.rows[e.id] == e.ToRow()
      ensures e in es
    {
      assert Entity(e.id, t.rows[e.id]) == e;
    }
    ScanSize(t.rows, 1, t.nextId);
    assert KeysIn(t.rows, 1, t.nextId) == t.rows.Keys;
  }
}
