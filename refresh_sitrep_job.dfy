/**
 * RefreshSitrepJob#perform: fetch the GitHub items, then the Nostr items, upsert each into
 * sitrep_items in that order counting saved and skipped records, then prune the rows older
 * than 30 days, and report the three counts.
 *
 * Whether the database raises on an insert is decided by the environment; it is given as
 * `insertRaises(k)` for the k-th item of the run.
 */
module RefreshSitrepJob {
  import opened Wrappers
  import opened RubyStrings
  import Queries
  import opened SitrepItems
  import GithubActivity
  import NostrFeed

  const RetentionDays: int := 30

  /** The table after upserting a run's items, with the two counters. */
  datatype Tally = Tally(rows: seq<Row>, saved: nat, skipped: nat)

  /** One item's effect on the counters: a persisted record counts as saved (a row that
      already existed included), a non-persisted one as skipped, and a raised insert, which
      the loop rescues, as neither. */
  function Tallied(t: Tally, u: Upserted): Tally {
    match u.result
    case Failure(_) => Tally(u.rows, t.saved, t.skipped)
    case Success(rec) =>
      if rec.persisted then Tally(u.rows, t.saved + 1, t.skipped)
      else Tally(u.rows, t.saved, t.skipped + 1)
  }

  /** The upsert loop over `items`, in order. */
  function UpsertAll(rows: seq<Row>, items: seq<ItemData>, insertRaises: nat -> bool): Tally
    decreases |items|
  {
    if items == [] then Tally(rows, 0, 0)
    else
      var t := UpsertAll(rows, items[..|items| - 1], insertRaises);
      Tallied(t, FindOrCreate(t.rows, items[|items| - 1], insertRaises(|items| - 1)))
  }

  /** The report of one run. */
  datatype Summary = Summary(saved: nat, skipped: nat, deleted: nat)

  /** Each item is counted at most once, so the two counters never exceed the items; the
      table keeps its invariant and its earlier rows, in place, and grows by at most one row
      per item. */
  lemma {:induction false} UpsertAllSpec(rows: seq<Row>, items: seq<ItemData>, insertRaises: nat -> bool)
    requires TableInvariant(rows)
    ensures var t := UpsertAll(rows, items, insertRaises);
      && t.saved + t.skipped <= |items|
      && TableInvariant(t.rows)
      && |rows| <= |t.rows| <= |rows| + |items|
      && t.rows[..|rows|] == rows
    decreases |items|
  {
    if items != [] {
      var init := items[..|items| - 1];
      UpsertAllSpec(rows, init, insertRaises);
      var t := UpsertAll(rows, init, insertRaises);
      FindOrCreateKeepsInvariant(t.rows, items[|items| - 1], insertRaises(|items| - 1));
      var u := FindOrCreate(t.rows, items[|items| - 1], insertRaises(|items| - 1));
      assert u.rows[..|rows|] == t.rows[..|rows|];
    }
  }

  /** When no insert raises, the saved and skipped counts add up to the number of items. */
  lemma {:induction false} EveryItemCounted(rows: seq<Row>, items: seq<ItemData>, insertRaises: nat -> bool)
    requires forall k: nat :: k < |items| ==> !insertRaises(k)
    ensures UpsertAll(rows, items, insertRaises).saved + UpsertAll(rows, items, insertRaises).skipped == |items|
    decreases |items|
  {
    if items != [] {
      EveryItemCounted(rows, items[..|items| - 1], insertRaises);
    }
  }

  /** Every valid item's external id is in the table. */
  predicate AllStored(rows: seq<Row>, items: seq<ItemData>) {
    forall k :: 0 <= k < |items| && AttributesValid(NewRecord(items[k])) ==> Find(rows, items[k].externalId).Some?
  }

  lemma FindInPrefix(rows: seq<Row>, extra: seq<Row>, id: String)
    requires Find(rows, id).Some?
    ensures Find(rows + extra, id).Some?
  {
    var i := Find(rows, id).value;
    assert (rows + extra)[i].externalId == id;
  }

  /** A run in which no insert raises leaves every valid item stored. */
  lemma {:induction false} UpsertAllStores(rows: seq<Row>, items: seq<ItemData>, insertRaises: nat -> bool)
    requires forall k: nat :: k < |items| ==> !insertRaises(k)
    ensures AllStored(UpsertAll(rows, items, insertRaises).rows, items)
    decreases |items|
  {
    if items != [] {
      var init := items[..|items| - 1];
      var last := items[|items| - 1];
      UpsertAllStores(rows, init, insertRaises);
      var t := UpsertAll(rows, init, insertRaises);
      var u := FindOrCreate(t.rows, last, false);
      assert UpsertAll(rows, items, insertRaises).rows == u.rows;
      forall k | 0 <= k < |items| && AttributesValid(NewRecord(items[k]))
        ensures Find(u.rows, items[k].externalId).Some?
      {
        if k < |init| {
          assert items[k] == init[k];
          FindOrCreateKeepsFound(t.rows, last, items[k].externalId);
        } else {
          FindOrCreateStores(t.rows, last);
        }
      }
    }
  }

  /** An id found before an upsert is found after it. */
  lemma FindOrCreateKeepsFound(rows: seq<Row>, d: ItemData, id: String)
    requires Find(rows, id).Some?
    ensures Find(FindOrCreate(rows, d, false).rows, id).Some?
  {
    var u := FindOrCreate(rows, d, false);
    if u.rows != rows {
      FindInPrefix(rows, [NewRecord(d)], id);
    }
  }

  /** A valid item's id is found after its upsert when the insert does not raise. */
  lemma FindOrCreateStores(rows: seq<Row>, d: ItemData)
    requires AttributesValid(NewRecord(d))
    ensures Find(FindOrCreate(rows, d, false).rows, d.externalId).Some?
  {
    var u := FindOrCreate(rows, d, false);
    if u.rows != rows {
      assert u.rows[|rows|].externalId == d.externalId;
    }
  }

  /** Upserting items that are all stored already changes nothing in the table. */
  lemma {:induction false} StoredItemsAddNothing(rows: seq<Row>, items: seq<ItemData>, insertRaises: nat -> bool)
    requires AllStored(rows, items)
    ensures UpsertAll(rows, items, insertRaises).rows == rows
    decreases |items|
  {
    if items != [] {
      var init := items[..|items| - 1];
      assert AllStored(rows, init) by {
        forall k | 0 <= k < |init| && AttributesValid(NewRecord(init[k]))
          ensures Find(rows, init[k].externalId).Some?
        {
          assert init[k] == items[k];
        }
      }
      StoredItemsAddNothing(rows, init, insertRaises);
    }
  }

  /** Running the job's upserts a second time with the same items adds no rows (when the
      first run had no failed insert). */
  lemma SecondRunAddsNothing(rows: seq<Row>, items: seq<ItemData>, first: nat -> bool, second: nat -> bool)
    requires forall k: nat :: k < |items| ==> !first(k)
    ensures var t := UpsertAll(rows, items, first).rows;
      UpsertAll(t, items, second).rows == t
  {
    UpsertAllStores(rows, items, first);
    StoredItemsAddNothing(UpsertAll(rows, items, first).rows, items, second);
  }

  /** GitHub and Nostr external ids never collide: their prefixes differ. */
  lemma SourcesDisjoint(g: ItemData, n: ItemData)
    requires StartsWith(g.externalId, "github-") && StartsWith(n.externalId, "nostr-")
    ensures g.externalId != n.externalId
  {
    assert g.externalId[0] == 'g' && n.externalId[0] == 'n';
  }

  /** The rows `perform` leaves when both fetches succeed: the upserts, then the prune. */
  function AfterRun(rows: seq<Row>, items: seq<ItemData>, insertRaises: nat -> bool, now: int): (r: (seq<Row>, Summary))
    ensures var t := UpsertAll(rows, items, insertRaises);
      && r.0 == Queries.Filter(t.rows, (x: Row) => KeptBy(now - RetentionDays * SecondsPerDay, x))
      && r.1.saved == t.saved && r.1.skipped == t.skipped
      && r.1.deleted + |r.0| == |t.rows|
  {
    var t := UpsertAll(rows, items, insertRaises);
    var cutoff := now - RetentionDays * SecondsPerDay;
    Queries.CountSplit(t.rows, (x: Row) => KeptBy(cutoff, x), (x: Row) => !KeptBy(cutoff, x));
    (Queries.Filter(t.rows, (x: Row) => KeptBy(cutoff, x)),
     Summary(t.saved, t.skipped, Queries.Count(t.rows, (x: Row) => !KeptBy(cutoff, x))))
  }

  /** A row published exactly 30 days before the run survives the prune; one a second
      older does not, and every survivor is at most 30 days old. */
  lemma PruneBoundary(rows: seq<Row>, items: seq<ItemData>, insertRaises: nat -> bool, now: int)
    ensures var kept := AfterRun(rows, items, insertRaises, now).0;
      var t := UpsertAll(rows, items, insertRaises).rows;
      && (forall k :: 0 <= k < |kept| ==> kept[k].publishedAt >= now - RetentionDays * SecondsPerDay)
      && (forall k :: 0 <= k < |t| && t[k].publishedAt == now - RetentionDays * SecondsPerDay ==> t[k] in kept)
  {
  }

  lemma UpsertAllStep(rows: seq<Row>, items: seq<ItemData>, i: nat, insertRaises: nat -> bool)
    requires i < |items|
    ensures var t := UpsertAll(rows, items[..i], insertRaises);
      UpsertAll(rows, items[..i + 1], insertRaises) == Tallied(t, FindOrCreate(t.rows, items[i], insertRaises(i)))
  {
    assert items[..i + 1][..i] == items[..i];
  }

  /** The body of the loop of `perform` for one item: `find_or_create_from_data`, then the
      counter its record calls for; an insert that raises is rescued and counts nowhere. */
  method UpsertItem(table: SitrepTable, d: ItemData, insertRaises: bool, saved: nat, skipped: nat)
    returns (saved': nat, skipped': nat)
    requires table.Valid()
    modifies table
    ensures table.Valid()
    ensures Tally(table.rows, saved', skipped') ==
            Tallied(Tally(old(table.rows), saved, skipped), FindOrCreate(old(table.rows), d, insertRaises))
  {
    saved', skipped' := saved, skipped;
    var rec := table.FindOrCreateFromData(d, insertRaises);
    if rec.Success? {
      if rec.value.persisted {
        saved' := saved + 1;
      } else {
        skipped' := skipped + 1;
      }
    }
  }

  /** The loop of `perform`: every item in turn, the loop going on past a raised insert. */
  method UpsertItems(table: SitrepTable, items: seq<ItemData>, insertRaises: nat -> bool)
    returns (saved: nat, skipped: nat)
    requires table.Valid()
    modifies table
    ensures table.Valid()
    ensures Tally(table.rows, saved, skipped) == UpsertAll(old(table.rows), items, insertRaises)
  {
    saved, skipped := 0, 0;
    var i := 0;
    while i < |items|
      invariant 0 <= i <= |items|
      invariant table.Valid()
      invariant Tally(table.rows, saved, skipped) == UpsertAll(old(table.rows), items[..i], insertRaises)
    {
      UpsertAllStep(old(table.rows), items, i, insertRaises);
      saved, skipped := UpsertItem(table, items[i], insertRaises(i), saved, skipped);
      i := i + 1;
    }
    assert items[..i] == items;
  }

  /** `perform(days:)` at time `now`. The GitHub fetch sees `eventsResponse`/`reposResponse`;
      the Nostr service sees the decoder's `decoded` and the relay signals `trace`. An
      error the GitHub service raises aborts the job before any upsert. */
  method Perform(table: SitrepTable, days: int, now: int,
                 eventsResponse: Option<seq<GithubActivity.Event>>, reposResponse: Option<seq<GithubActivity.Repo>>,
                 decoded: Option<(String, seq<int>)>, trace: seq<NostrFeed.Signal>,
                 insertRaises: nat -> bool)
    returns (r: Result<Summary, GithubActivity.GithubError>)
    requires table.Valid()
    modifies table
    ensures table.Valid()
    ensures var github := GithubActivity.ActivityItems(eventsResponse, reposResponse, GithubActivity.Cutoff(days, now));
      match github
      case Failure(e) => r == Failure(e) && table.rows == old(table.rows)
      case Success(githubItems) =>
        var items := githubItems + NostrFeed.FetchedNotes(decoded, days, now, trace);
        var after := AfterRun(old(table.rows), items, insertRaises, now);
        table.rows == after.0 && r == Success(after.1)
  {
    var githubItems := GithubActivity.FetchRecentActivity(days, now, eventsResponse, reposResponse);
    if githubItems.Failure? {
      return Failure(githubItems.error);
    }
    var nostrItems := FetchNostr(decoded, days, now, trace);
    var summary := UpsertAndPrune(table, githubItems.value + nostrItems, insertRaises, now);
    r := Success(summary);
  }

  /** `NostrFeedService.new.fetch_recent_posts(days:)`: a fresh service, so a fresh feed. */
  method FetchNostr(decoded: Option<(String, seq<int>)>, days: int, now: int, trace: seq<NostrFeed.Signal>)
    returns (items: seq<ItemData>)
    ensures items == NostrFeed.FetchedNotes(decoded, days, now, trace)
  {
    var nostr := new NostrFeed.NostrFeedService(decoded);
    items := nostr.FetchRecentPosts(days, now, trace);
  }

  /** The second half of `perform`: the upsert loop over the fetched items, then the prune
      of the rows older than the retention window, with the report of both. */
  method UpsertAndPrune(table: SitrepTable, items: seq<ItemData>, insertRaises: nat -> bool, now: int)
    returns (summary: Summary)
    requires table.Valid()
    modifies table
    ensures table.Valid()
    ensures var after := AfterRun(old(table.rows), items, insertRaises, now);
      table.rows == after.0 && summary == after.1
  {
    var saved, skipped := UpsertItems(table, items, insertRaises);
    var deleted := table.DeleteOlderThan(now - RetentionDays * SecondsPerDay);
    summary := Summary(saved, skipped, deleted);
  }
}
