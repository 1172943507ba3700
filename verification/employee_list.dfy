/** The ObservableCollection<Employee> behind MainWindowViewModel.Employees, with
    entries compared by key, and the fact that removing an entry locally leaves the
    same list a reload after the delete would produce. */
module EmployeeList {
  import opened Optional
  import opened OrganizationDb

  /** No key occurs twice. */
  predicate Distinct(es: seq<Employee>) {
    forall i, j :: 0 <= i < j < |es| ==> es[i].id != es[j].id
  }

  /** Collection.IndexOf: the first position holding an entry with that key. */
  function IndexOf(es: seq<Employee>, id: Id): (r: Option<nat>)
    ensures r.Some? ==> r.value < |es| && es[r.value].id == id
    ensures r.Some? ==> forall j :: 0 <= j < r.value ==> es[j].id != id
    ensures r.None? <==> forall j :: 0 <= j < |es| ==> es[j].id != id
  {
    if |es| == 0 then None
    else if es[0].id == id then Some(0)
    else match IndexOf(es[1..], id)
      case None => None
      case Some(j) => Some(j + 1)
  }

  /** Collection.Remove: drops the first entry with that key, if there is one,
      and keeps the others in their order. */
  function Remove(es: seq<Employee>, id: Id): (r: seq<Employee>)
    ensures IndexOf(es, id).None? ==> r == es
    ensures IndexOf(es, id).Some? ==>
      var i := IndexOf(es, id).value;
      |r| == |es| - 1 && r[..i] == es[..i] && r[i..] == es[i + 1..]
  {
    match IndexOf(es, id)
    case None => es
    case Some(i) => es[..i] + es[i + 1..]
  }

  /** Reference definition: every entry whose key differs, in order. */
  function Without(es: seq<Employee>, id: Id): (r: seq<Employee>)
    ensures forall e :: e in r <==> e in es && e.id != id
  {
    if |es| == 0 then []
    else if es[0].id == id then Without(es[1..], id)
    else [es[0]] + Without(es[1..], id)
  }

  lemma {:induction false} WithoutAbsent(es: seq<Employee>, id: Id)
    requires forall j :: 0 <= j < |es| ==> es[j].id != id
    ensures Without(es, id) == es
  {
    if |es| > 0 {
      WithoutAbsent(es[1..], id);
      assert es == [es[0]] + es[1..];
    }
  }

  /** On a list without repeated keys, removing the first match removes them all. */
  lemma {:induction false} RemoveIsWithout(es: seq<Employee>, id: Id)
    requires Distinct(es)
    ensures Remove(es, id) == Without(es, id)
  {
    if |es| == 0 {
    } else if es[0].id == id {
      assert forall j :: 0 <= j < |es[1..]| ==> es[1..][j].id == es[j + 1].id;
      WithoutAbsent(es[1..], id);
    } else {
      var tail := es[1..];
      assert Distinct(tail) by {
        forall i, j | 0 <= i < j < |tail| ensures tail[i].id != tail[j].id {
          assert tail[i] == es[i + 1] && tail[j] == es[j + 1];
        }
      }
      RemoveIsWithout(tail, id);
      RemoveCons(es, id);
    }
  }

  /** Removing past a non-matching head keeps the head. */
  lemma RemoveCons(es: seq<Employee>, id: Id)
    requires |es| > 0 && es[0].id != id
    ensures Remove(es, id) == [es[0]] + Remove(es[1..], id)
  {
    var tail := es[1..];
    match IndexOf(tail, id)
    case None =>
      assert IndexOf(es, id) == None;
      assert es == [es[0]] + tail;
    case Some(j) =>
      assert IndexOf(es, id) == Some(j + 1);
      DropAfterHead(es, j);
  }

  /** Dropping position j + 1 of a sequence is dropping position j of its tail. */
  lemma DropAfterHead<T>(s: seq<T>, j: nat)
    requires j + 1 < |s|
    ensures s[..j + 1] + s[j + 2..] == [s[0]] + (s[1..][..j] + s[1..][j + 1..])
  {
    assert s[..j + 1] == [s[0]] + s[1..][..j];
    assert s[j + 2..] == s[1..][j + 1..];
  }

  /** Scanning a table with one key dropped equals dropping that key from the scan. */
  lemma {:induction false} ScanWithout(rows: map<Id, Row>, id: Id, lo: Id, hi: Id)
    decreases hi - lo
    ensures Scan(rows - {id}, lo, hi) == Without(Scan(rows, lo, hi), id)
  {
    if lo < hi {
      ScanWithout(rows, id, lo + 1, hi);
      var rest := Scan(rows, lo + 1, hi);
      if lo in rows {
        var e := Entity(lo, rows[lo]);
        assert ([e] + rest)[1..] == rest;
      }
    }
  }

  /** The list after a local Remove equals the listing of the table after the
      delete: on a mirrored list, Employees.Remove needs no reload. */
  lemma ListingAfterDelete(t: Table, id: Id)
    requires Valid(t)
    requires id in t.rows
    ensures DeleteRow(t, id).Some?
    ensures Listing(DeleteRow(t, id).value) == Remove(Listing(t), id)
  {
    ScanWithout(t.rows, id, 1, t.nextId);
    ListingMirrors(t);
    RemoveIsWithout(Listing(t), id);
  }
}
