/**
 * The public ProjectsController: `index` lists the published projects, most recently
 * updated first; `show` takes the part of the URL parameter before its first dash as the
 * id and looks it up among the published projects only.
 */
module ProjectsController {
  import opened Wrappers
  import opened RubyStrings
  import Queries
  import opened Projects

  /** The comparison of `order(updated_at: :desc)`. */
  predicate UpdatedLaterOrSame(a: Project, b: Project) {
    a.updatedAt >= b.updatedAt
  }

  /** `index`: the published projects, a permutation of them sorted newest-updated first. */
  function Index(rows: seq<Project>): (r: seq<Project>)
    ensures multiset(r) == multiset(Published(rows))
    ensures forall i, j :: 0 <= i < j < |r| ==> r[i].updatedAt >= r[j].updatedAt
  {
    assert Queries.TotalPreorder(UpdatedLaterOrSame);
    Queries.SortBy(Published(rows), UpdatedLaterOrSame)
  }

  /** `params[:id].to_s.split("-").first`: nil when the split is empty. */
  function IdSegment(param: String): (r: Option<String>)
    ensures r.Some? ==> '-' !in r.value
  {
    var parts := Split(param, '-');
    SplitFree(param, '-');
    if parts == [] then None else Some(parts[0])
  }

  /** `find` among `rows` by id: the first row with that id. */
  function FindById(rows: seq<Project>, id: int): (r: Option<Project>)
    ensures r.Some? ==> r.value in rows && r.value.id == id
    ensures r.None? ==> forall k :: 0 <= k < |rows| ==> rows[k].id != id
  {
    if rows == [] then None
    else if rows[0].id == id then Some(rows[0])
    else FindById(rows[1..], id)
  }

  /** `show`: the published project whose id the parameter starts with. `None` is
      `ActiveRecord::RecordNotFound` (the not-found page): no segment, or no published
      project with that id. The id is cast as `to_i` reads it. */
  function Show(rows: seq<Project>, param: String): (r: Option<Project>)
    ensures r.Some? ==> r.value in rows && r.value.published
    ensures r.Some? ==> IdSegment(param).Some? && r.value.id == ToI(IdSegment(param).value)
    ensures r.Some? ==> !Blank(IdSegment(param).value)
    ensures IdSegment(param).Some? && !Blank(IdSegment(param).value) &&
            (exists k :: 0 <= k < |rows| && rows[k].published && rows[k].id == ToI(IdSegment(param).value))
            ==> r.Some?
  {
    match IdSegment(param)
    case None => None
    case Some(seg) => if Blank(seg) then None else FindById(Published(rows), ToI(seg))
  }

  /** A parameter with no dash is used whole as the id. */
  lemma DashlessParam(param: String)
    requires param != [] && '-' !in param
    ensures IdSegment(param) == Some(param)
  {
    FieldsOfFree(param, '-');
  }

  /** The parameter is read up to its first dash, whatever follows it. */
  lemma FirstSegment(id: String, rest: String)
    requires id != [] && '-' !in id
    ensures IdSegment(id + "-" + rest) == Some(id)
  {
    SplitFirst(id, '-', rest);
  }

  /** The round trip: `show` on the `to_param` of a published project finds that project
      (ids being unique), whatever its title parameterises to. */
  lemma ShowOfToParam(rows: seq<Project>, p: Project, parameterize: String -> String)
    requires p in rows && p.published && p.title.Some?
    requires forall i, j :: 0 <= i < j < |rows| ==> rows[i].id != rows[j].id
    ensures Show(rows, ToParam(p, parameterize).value) == Some(p)
  {
    var seg := Decimal(p.id);
    var param := ToParam(p, parameterize).value;
    FirstSegment(seg, parameterize(p.title.value));
    assert IdSegment(param) == Some(seg);
    ToIOfDecimal(p.id);
    assert !Blank(seg) by {
      assert IsDigit(seg[0]) && !IsSpace(seg[0]);
    }
    var found := FindById(Published(rows), p.id);
    assert Show(rows, param) == found;
    assert p in Published(rows);
    assert found.Some? && found.value in rows;
    UniqueIds(rows, found.value, p);
  }

  lemma UniqueIds(rows: seq<Project>, a: Project, b: Project)
    requires a in rows && b in rows && a.id == b.id
    requires forall i, j :: 0 <= i < j < |rows| ==> rows[i].id != rows[j].id
    ensures a == b
  {
    var i :| 0 <= i < |rows| && rows[i] == a;
    var j :| 0 <= j < |rows| && rows[j] == b;
    assert !(i < j) && !(j < i);
  }

  /** An unpublished project is never shown, whatever the parameter. */
  lemma UnpublishedHidden(rows: seq<Project>, param: String, p: Project)
    requires !p.published
    ensures Show(rows, param) != Some(p)
  {
  }
}
