/**
 * The admin ProjectsController: `index` lists every project by ascending position (a
 * missing position sorts first, as the database orders NULL first), and `reorder` gives
 * each id of the posted order the position of its index plus one.
 */
module AdminProjectsController {
  import opened Wrappers
  import Queries
  import opened Projects

  /** The comparison of `order(position: :asc)`: NULL before every number. */
  predicate PositionAtMost(a: Project, b: Project) {
    a.position.None? || (b.position.Some? && a.position.value <= b.position.value)
  }

  /** `index`: every project, unscoped, sorted by ascending position. */
  function Index(rows: seq<Project>): (r: seq<Project>)
    ensures multiset(r) == multiset(rows)
    ensures forall i, j :: 0 <= i < j < |r| ==> PositionAtMost(r[i], r[j])
  {
    Queries.SortBy(rows, PositionAtMost)
  }

  /** Where `id` last occurs in `order`. */
  function LastIndex(order: seq<int>, id: int): (r: Option<nat>)
    ensures r.Some? ==> r.value < |order| && order[r.value] == id
    ensures r.Some? ==> forall j :: r.value < j < |order| ==> order[j] != id
    ensures r.None? ==> id !in order
    decreases |order|
  {
    if order == [] then None
    else if order[|order| - 1] == id then Some(|order| - 1)
    else LastIndex(order[..|order| - 1], id)
  }

  /** `update_all(position: p)` on the rows with that id. */
  function SetPosition(rows: seq<Project>, id: int, p: int): seq<Project> {
    Queries.Map(rows, (r: Project) => if r.id == id then r.(position := Some(p)) else r)
  }

  /** A row after `reorder(order)`: if its id is listed, at the last index the id has in
      the order, plus one; otherwise as it was. */
  function Repositioned(x: Project, order: seq<int>): Project {
    match LastIndex(order, x.id)
    case None => x
    case Some(i) => x.(position := Some(i + 1))
  }

  /** The table after `reorder(order)`, row by row. */
  function Reordered(rows: seq<Project>, order: seq<int>): (r: seq<Project>)
    ensures |r| == |rows| && forall k :: 0 <= k < |rows| ==> r[k] == Repositioned(rows[k], order)
  {
    Queries.Map(rows, (x: Project) => Repositioned(x, order))
  }

  /** Nothing but the position changes, and a row whose id is not listed keeps it. */
  lemma RepositionedKeeps(x: Project, order: seq<int>)
    ensures Repositioned(x, order) == x.(position := Repositioned(x, order).position)
    ensures x.id !in order ==> Repositioned(x, order) == x
  {
  }

  /** A listed id ends at the position of its last occurrence in the order, plus one: when
      an id is listed twice, the later index wins. */
  lemma RepositionedLast(x: Project, order: seq<int>, i: nat)
    requires i < |order| && order[i] == x.id
    requires forall j :: i < j < |order| ==> order[j] != x.id
    ensures Repositioned(x, order).position == Some(i + 1)
  {
    var last := LastIndex(order, x.id);
    assert last.Some?;
    if i < last.value {
      assert false;
    }
  }

  /** One more id of the order: its rows take the next position. */
  lemma ReorderedStep(rows: seq<Project>, order: seq<int>, i: nat)
    requires i < |order|
    ensures Reordered(rows, order[..i + 1]) == SetPosition(Reordered(rows, order[..i]), order[i], i + 1)
  {
    var prefix := order[..i + 1];
    assert prefix[..i] == order[..i];
    assert prefix[i] == order[i];
  }

  class ProjectTable {
    var rows: seq<Project>

    constructor (initial: seq<Project>)
      ensures rows == initial
    {
      rows := initial;
    }

    /** `reorder`: for each id of the order in turn, `where(id: id).update_all(position:
        index + 1)`. */
    method Reorder(order: seq<int>)
      modifies this
      ensures rows == Reordered(old(rows), order)
    {
      var i := 0;
      while i < |order|
        invariant 0 <= i <= |order|
        invariant rows == Reordered(old(rows), order[..i])
      {
        ReorderedStep(old(rows), order, i);
        rows := SetPosition(rows, order[i], i + 1);
        i := i + 1;
      }
      assert order[..i] == order;
    }
  }
}
