/**
 * The sitrep_items table: the item hash both adapters emit, the row it becomes, the
 * model's validations, `find_or_create_from_data` (create-if-absent keyed by
 * `external_id`), the prune used by the refresh job, and the read scopes.
 * Timestamps are integer seconds.
 */
module SitrepItems {
  import opened Wrappers
  import opened RubyStrings
  import Queries

  const SecondsPerDay: int := 86400

  /** The values stored in the JSON `metadata` column. */
  datatype MetaValue = MNull | MStr(str: String) | MInt(num: int)

  type Metadata = map<String, MetaValue>

  /** The hash an adapter emits for one activity (`item_data` in the job). */
  datatype ItemData = ItemData(
    itemType: String,
    externalId: String,
    title: String,
    content: String,
    url: Option<String>,
    publishedAt: int,
    metadata: Option<Metadata>)

  /** One row of the sitrep_items table. */
  datatype Row = Row(
    itemType: String,
    externalId: String,
    title: String,
    content: String,
    url: Option<String>,
    publishedAt: int,
    metadata: Metadata)

  const GithubType: String := "github"
  const NostrType: String := "nostr"

  /** The validations other than uniqueness: item_type is github or nostr, and title, url
      and external_id are present (published_at is always present in this model). */
  predicate AttributesValid(r: Row) {
    && (r.itemType == GithubType || r.itemType == NostrType)
    && !Blank(r.title)
    && PresentOpt(r.url)
    && !Blank(r.externalId)
  }

  /** The unique index on external_id. */
  predicate UniqueExternalIds(rows: seq<Row>) {
    forall i, j :: 0 <= i < j < |rows| ==> rows[i].externalId != rows[j].externalId
  }

  /** What the table always satisfies: every row passed validation, and ids are unique. */
  predicate TableInvariant(rows: seq<Row>) {
    UniqueExternalIds(rows) && forall i :: 0 <= i < |rows| ==> AttributesValid(rows[i])
  }

  /** The record the block of `find_or_create_by` fills in; nil metadata becomes `{}`. */
  function NewRecord(d: ItemData): Row {
    Row(d.itemType, d.externalId, d.title, d.content, d.url, d.publishedAt, d.metadata.GetOr(map[]))
  }

  /** `find_by(external_id: id)`: the position of the row with that id, if any. */
  function Find(rows: seq<Row>, id: String): (r: Option<nat>)
    ensures r.Some? ==> r.value < |rows| && rows[r.value].externalId == id
    ensures r.None? ==> forall i :: 0 <= i < |rows| ==> rows[i].externalId != id
  {
    if rows == [] then None
    else if rows[0].externalId == id then Some(0)
    else match Find(rows[1..], id)
      case None => None
      case Some(i) => Some(i + 1)
  }

  /** An exception raised by the database while inserting (a constraint violation from a
      concurrent writer, a lost connection): the environment decides, so it is a parameter. */
  datatype StorageError = InsertRaised

  /** What `find_or_create_from_data` returns: the record and whether it is persisted. */
  datatype Record = Record(row: Row, persisted: bool)

  /** The table after `find_or_create_from_data`, and its outcome. */
  datatype Upserted = Upserted(rows: seq<Row>, result: Result<Record, StorageError>)

  /** `find_or_create_from_data(d)` on the table `rows`: an existing row with the same
      external_id is returned untouched and the data is ignored; otherwise the new record
      is validated and, if valid, inserted (unless the database raises). */
  function FindOrCreate(rows: seq<Row>, d: ItemData, insertRaises: bool): (u: Upserted)
    ensures u.rows == rows || u.rows == rows + [NewRecord(d)]
    ensures u.rows != rows <==>
              (forall i :: 0 <= i < |rows| ==> rows[i].externalId != d.externalId)
              && AttributesValid(NewRecord(d)) && !insertRaises
    ensures u.result.Failure? <==>
              (forall i :: 0 <= i < |rows| ==> rows[i].externalId != d.externalId)
              && AttributesValid(NewRecord(d)) && insertRaises
    ensures u.result.Success? && !u.result.value.persisted ==> !AttributesValid(u.result.value.row)
  {
    match Find(rows, d.externalId)
    case Some(i) => Upserted(rows, Success(Record(rows[i], true)))
    case None =>
      var row := NewRecord(d);
      if !AttributesValid(row) then Upserted(rows, Success(Record(row, false)))
      else if insertRaises then Upserted(rows, Failure(InsertRaised))
      else Upserted(rows + [row], Success(Record(row, true)))
  }

  /** With unique ids, `find_by` finds exactly the row that carries the id. */
  lemma FindUnique(rows: seq<Row>, i: nat)
    requires UniqueExternalIds(rows) && i < |rows|
    ensures Find(rows, rows[i].externalId) == Some(i)
  {
  }

  /** An existing row is returned unchanged, as persisted, and the incoming data is ignored. */
  lemma ExistingRowReturned(rows: seq<Row>, d: ItemData, insertRaises: bool, i: nat)
    requires UniqueExternalIds(rows) && i < |rows| && rows[i].externalId == d.externalId
    ensures FindOrCreate(rows, d, insertRaises) == Upserted(rows, Success(Record(rows[i], true)))
  {
    FindUnique(rows, i);
  }

  /** A new, valid item is appended, copying every field of the data. */
  lemma NewRowCreated(rows: seq<Row>, d: ItemData)
    requires forall i :: 0 <= i < |rows| ==> rows[i].externalId != d.externalId
    requires AttributesValid(NewRecord(d))
    ensures var u := FindOrCreate(rows, d, false);
      && u.result.Success? && u.result.value.persisted
      && |u.rows| == |rows| + 1 && u.rows[..|rows|] == rows
      && var row := u.rows[|rows|];
      && row.externalId == d.externalId && row.itemType == d.itemType && row.title == d.title
      && row.content == d.content && row.url == d.url && row.publishedAt == d.publishedAt
      && (d.metadata.None? ==> row.metadata == map[])
      && (d.metadata.Some? ==> row.metadata == d.metadata.value)
  {
  }

  /** The table invariant (validations and the unique index) survives every upsert. */
  lemma FindOrCreateKeepsInvariant(rows: seq<Row>, d: ItemData, insertRaises: bool)
    requires TableInvariant(rows)
    ensures TableInvariant(FindOrCreate(rows, d, insertRaises).rows)
  {
  }

  /** Filtering keeps ids unique. */
  lemma {:induction false} FilterKeepsInvariant(rows: seq<Row>, p: Row -> bool)
    requires TableInvariant(rows)
    ensures TableInvariant(Queries.Filter(rows, p))
    decreases |rows|
  {
    if rows != [] {
      FilterKeepsInvariant(rows[1..], p);
      var rest := Queries.Filter(rows[1..], p);
      forall k | 0 <= k < |rest| ensures rest[k].externalId != rows[0].externalId {
        assert rest[k] in rows[1..];
      }
    }
  }

  /** The rows the prune keeps: published at or after the cutoff. */
  predicate KeptBy(cutoff: int, r: Row) {
    r.publishedAt >= cutoff
  }

  /** The sitrep_items table. */
  class SitrepTable {
    var rows: seq<Row>

    ghost predicate Valid()
      reads this
    {
      TableInvariant(rows)
    }

    constructor (initial: seq<Row>)
      requires TableInvariant(initial)
      ensures Valid() && rows == initial
    {
      rows := initial;
    }

    /** `SitrepItem.find_or_create_from_data(data)`. */
    method FindOrCreateFromData(d: ItemData, insertRaises: bool) returns (r: Result<Record, StorageError>)
      requires Valid()
      modifies this
      ensures Valid()
      ensures Upserted(rows, r) == FindOrCreate(old(rows), d, insertRaises)
    {
      FindOrCreateKeepsInvariant(rows, d, insertRaises);
      var found := Find(rows, d.externalId);
      if found.Some? {
        r := Success(Record(rows[found.value], true));
        return;
      }
      var row := NewRecord(d);
      if !AttributesValid(row) {
        r := Success(Record(row, false));
      } else if insertRaises {
        r := Failure(InsertRaised);
      } else {
        rows := rows + [row];
        r := Success(Record(row, true));
      }
    }

    /** `where('published_at < ?', cutoff).delete_all`: removes exactly the rows published
        strictly before the cutoff and returns how many it removed. */
    method DeleteOlderThan(cutoff: int) returns (deleted: nat)
      requires Valid()
      modifies this
      ensures Valid()
      ensures rows == Queries.Filter(old(rows), r => KeptBy(cutoff, r))
      ensures deleted == Queries.Count(old(rows), r => !KeptBy(cutoff, r))
    {
      FilterKeepsInvariant(rows, r => KeptBy(cutoff, r));
      Queries.CountSplit(rows, r => KeptBy(cutoff, r), r => !KeptBy(cutoff, r));
      var kept := Queries.Filter(rows, r => KeptBy(cutoff, r));
      deleted := |rows| - |kept|;
      rows := kept;
    }
  }

  // ---------------------------------------------------------------------------
  // Scopes

  /** The comparison of `order(published_at: :desc)`. */
  predicate NewerOrSame(a: Row, b: Row) {
    a.publishedAt >= b.publishedAt
  }

  /** `recent`: every row, newest first. */
  function Recent(rows: seq<Row>): (r: seq<Row>)
    ensures multiset(r) == multiset(rows)
    ensures forall i, j :: 0 <= i < j < |r| ==> r[i].publishedAt >= r[j].publishedAt
  {
    assert Queries.TotalPreorder(NewerOrSame);
    Queries.SortBy(rows, NewerOrSame)
  }

  /** `github_items`: the rows whose item_type is github, in table order. */
  function GithubItems(rows: seq<Row>): (r: seq<Row>)
    ensures forall k :: 0 <= k < |r| ==> r[k] in rows && r[k].itemType == GithubType
    ensures forall k :: 0 <= k < |rows| && rows[k].itemType == GithubType ==> rows[k] in r
  {
    Queries.Filter(rows, (x: Row) => x.itemType == GithubType)
  }

  /** `nostr_items`: the rows whose item_type is nostr, in table order. */
  function NostrItems(rows: seq<Row>): (r: seq<Row>)
    ensures forall k :: 0 <= k < |r| ==> r[k] in rows && r[k].itemType == NostrType
    ensures forall k :: 0 <= k < |rows| && rows[k].itemType == NostrType ==> rows[k] in r
  {
    Queries.Filter(rows, (x: Row) => x.itemType == NostrType)
  }

  /** `where('published_at >= ?', boundary)`: the boundary itself is included. */
  function PublishedSince(rows: seq<Row>, boundary: int): (r: seq<Row>)
    ensures forall k :: 0 <= k < |r| ==> r[k] in rows && r[k].publishedAt >= boundary
    ensures forall k :: 0 <= k < |rows| && rows[k].publishedAt >= boundary ==> rows[k] in r
  {
    Queries.Filter(rows, (x: Row) => x.publishedAt >= boundary)
  }

  /** `last_week`: published at or after `1.week.ago`. */
  function LastWeek(rows: seq<Row>, now: int): seq<Row> {
    PublishedSince(rows, now - 7 * SecondsPerDay)
  }

  /** `last_24_hours`: published at or after `24.hours.ago`. */
  function Last24Hours(rows: seq<Row>, now: int): seq<Row> {
    PublishedSince(rows, now - SecondsPerDay)
  }

  /** A row exactly one day old is still in `last_24_hours`; one a second older is not. */
  lemma Last24HoursBoundary(rows: seq<Row>, now: int, k: nat)
    requires k < |rows|
    ensures rows[k].publishedAt == now - SecondsPerDay ==> rows[k] in Last24Hours(rows, now)
    ensures rows[k].publishedAt < now - SecondsPerDay ==> rows[k] !in Last24Hours(rows, now)
  {
    var r := Last24Hours(rows, now);
    forall m | 0 <= m < |r| ensures rows[k].publishedAt < now - SecondsPerDay ==> r[m] != rows[k] {
    }
  }
}
