/**
 * GithubActivityService: turns the organisation's event stream and repository list (already
 * fetched and parsed; HTTP is outside the model) into sitrep item hashes. Events and repos
 * are kept when their timestamp is at or after the cutoff; events are grouped by
 * (full repository name, event type), each group of a supported type yields one item built
 * from its first event, push groups sum their commit counts; then one item per active repo.
 */
module GithubActivity {
  import opened Wrappers
  import opened RubyStrings
  import opened SitrepItems
  import Queries

  const BodyLimit: nat := 200

  const PushType: String := "PushEvent"
  const PullRequestType: String := "PullRequestEvent"
  const IssuesType: String := "IssuesEvent"
  const CreateType: String := "CreateEvent"

  /** One entry of a push payload's `commits` list. */
  datatype Commit = Commit(message: Option<String>)

  /** The `pull_request` or `issue` object of a payload. */
  datatype Ticket = Ticket(id: nat, number: nat, title: Option<String>, body: Option<String>, htmlUrl: Option<String>)

  /** The payload fields the service reads; absent keys are None. */
  datatype Payload = Payload(
    commits: Option<seq<Commit>>,
    action: Option<String>,
    pullRequest: Option<Ticket>,
    issue: Option<Ticket>,
    refType: Option<String>)

  /** One event of `/orgs/:org/events`, with `created_at` already parsed. */
  datatype Event = Event(id: String, eventType: String, repoName: String, createdAt: int, payload: Payload)

  /** One repository of `/orgs/:org/repos`: `pushed_at` as sent (it goes into the external id)
      and as parsed. */
  datatype Repo = Repo(
    id: nat,
    name: String,
    description: Option<String>,
    htmlUrl: Option<String>,
    language: Option<String>,
    stars: Option<int>,
    pushedAtText: String,
    pushedAt: int)

  /** A `NoMethodError` on nil: a pull-request or issue event whose payload lacks that object.
      `process_events` does not rescue it, so it aborts the whole refresh. */
  datatype GithubError = NilPayloadObject(eventId: String)

  /** `days.days.ago` as a timestamp. */
  function Cutoff(days: int, now: int): int {
    now - days * SecondsPerDay
  }

  // ---------------------------------------------------------------------------
  // The time filters of fetch_org_events and fetch_active_repos

  predicate EventIsRecent(cutoff: int, e: Event) {
    e.createdAt >= cutoff
  }

  predicate RepoIsRecent(cutoff: int, r: Repo) {
    r.pushedAt >= cutoff
  }

  /** `fetch_org_events`: nothing on a failed request, otherwise the events created at or
      after the cutoff, in the order received. */
  function FetchOrgEvents(response: Option<seq<Event>>, cutoff: int): (r: seq<Event>)
    ensures response.None? ==> r == []
    ensures forall k :: 0 <= k < |r| ==> response.Some? && r[k] in response.value && r[k].createdAt >= cutoff
    ensures response.Some? ==> forall k :: 0 <= k < |response.value| && response.value[k].createdAt >= cutoff ==> response.value[k] in r
  {
    match response
    case None => []
    case Some(events) => Queries.Filter(events, e => EventIsRecent(cutoff, e))
  }

  /** `fetch_active_repos`: nothing on a failed request, otherwise the repos pushed at or
      after the cutoff, in the order received. */
  function FetchActiveRepos(response: Option<seq<Repo>>, cutoff: int): (r: seq<Repo>)
    ensures response.None? ==> r == []
    ensures forall k :: 0 <= k < |r| ==> response.Some? && r[k] in response.value && r[k].pushedAt >= cutoff
    ensures response.Some? ==> forall k :: 0 <= k < |response.value| && response.value[k].pushedAt >= cutoff ==> response.value[k] in r
  {
    match response
    case None => []
    case Some(repos) => Queries.Filter(repos, r => RepoIsRecent(cutoff, r))
  }

  /** The time filter keeps the received order: filtering a concatenation filters each part. */
  lemma EventFilterKeepsOrder(a: seq<Event>, b: seq<Event>, cutoff: int)
    ensures FetchOrgEvents(Some(a + b), cutoff) == FetchOrgEvents(Some(a), cutoff) + FetchOrgEvents(Some(b), cutoff)
  {
    Queries.FilterAppend(a, b, e => EventIsRecent(cutoff, e));
  }

  /** The repo filter keeps the received order too. */
  lemma RepoFilterKeepsOrder(a: seq<Repo>, b: seq<Repo>, cutoff: int)
    ensures FetchActiveRepos(Some(a + b), cutoff) == FetchActiveRepos(Some(a), cutoff) + FetchActiveRepos(Some(b), cutoff)
  {
    Queries.FilterAppend(a, b, r => RepoIsRecent(cutoff, r));
  }

  // ---------------------------------------------------------------------------
  // group_by { [repo name, type] }

  datatype GroupKey = GroupKey(repoName: String, eventType: String)

  function KeyOf(e: Event): GroupKey {
    GroupKey(e.repoName, e.eventType)
  }

  predicate HasKey(k: GroupKey, e: Event) {
    KeyOf(e) == k
  }

  /** The distinct keys in order of first occurrence (a Ruby Hash keeps insertion order). */
  function GroupKeys(events: seq<Event>): (ks: seq<GroupKey>)
    ensures forall i, j :: 0 <= i < j < |ks| ==> ks[i] != ks[j]
    ensures forall k :: 0 <= k < |events| ==> KeyOf(events[k]) in ks
    ensures forall i :: 0 <= i < |ks| ==> exists k :: 0 <= k < |events| && HasKey(ks[i], events[k])
  {
    if events == [] then []
    else
      var init := events[..|events| - 1];
      var ks := GroupKeys(init);
      assert forall k :: 0 <= k < |init| ==> events[k] == init[k];
      if KeyOf(events[|events| - 1]) in ks then ks else ks + [KeyOf(events[|events| - 1])]
  }

  /** The keys come in order of first occurrence: an event with a later key is preceded by
      an event with every earlier key. */
  lemma {:induction false} GroupKeysFirstSeen(events: seq<Event>, i: nat, j: nat, k: nat)
    requires i < j < |GroupKeys(events)| && k < |events| && KeyOf(events[k]) == GroupKeys(events)[j]
    ensures exists m :: 0 <= m < k && KeyOf(events[m]) == GroupKeys(events)[i]
  {
    var m := FirstSeenWitness(events, i, j, k);
  }

  /** The earlier event of `GroupKeysFirstSeen`, found by walking back one event at a time. */
  lemma {:induction false} FirstSeenWitness(events: seq<Event>, i: nat, j: nat, k: nat) returns (m: nat)
    requires i < j < |GroupKeys(events)| && k < |events| && KeyOf(events[k]) == GroupKeys(events)[j]
    ensures m < k && KeyOf(events[m]) == GroupKeys(events)[i]
    decreases |events|
  {
    var init := events[..|events| - 1];
    if k < |init| {
      EarlierKey(events, i, j, k);
      m := FirstSeenWitness(init, i, j, k);
      assert events[m] == init[m];
    } else {
      m := KeyBeforeLast(events, i);
    }
  }

  /** An event before the last one has a key already listed for the events before it. */
  lemma EarlierKey(events: seq<Event>, i: nat, j: nat, k: nat)
    requires i < j < |GroupKeys(events)| && k < |events| - 1 && KeyOf(events[k]) == GroupKeys(events)[j]
    ensures var init := events[..|events| - 1];
      && j < |GroupKeys(init)| && KeyOf(init[k]) == GroupKeys(init)[j]
      && GroupKeys(init)[i] == GroupKeys(events)[i]
  {
    var init := events[..|events| - 1];
    GroupKeysSnoc(events);
    assert events[k] == init[k];
    assert KeyOf(init[k]) in GroupKeys(init);
  }

  /** Every key but the last event's own new one was seen before the last event. */
  lemma KeyBeforeLast(events: seq<Event>, i: nat) returns (m: nat)
    requires events != [] && i < |GroupKeys(events[..|events| - 1])|
    ensures m < |events| - 1 && KeyOf(events[m]) == GroupKeys(events)[i]
  {
    var init := events[..|events| - 1];
    var ks := GroupKeys(init);
    GroupKeysSnoc(events);
    assert GroupKeys(events)[i] == ks[i];
    m :| 0 <= m < |init| && HasKey(ks[i], init[m]);
    assert events[m] == init[m];
  }

  /** Appending an event adds its key at the end, unless the key was seen already. */
  lemma GroupKeysSnoc(events: seq<Event>)
    requires events != []
    ensures var init := events[..|events| - 1];
      var last := KeyOf(events[|events| - 1]);
      GroupKeys(events) == if last in GroupKeys(init) then GroupKeys(init) else GroupKeys(init) + [last]
  {
  }

  /** One entry of the grouped hash: its key and its events, in the order received. */
  datatype Group = Group(key: GroupKey, events: seq<Event>)

  /** `events.group_by { |e| [e['repo']['name'], e['type']] }`. */
  function GroupBy(events: seq<Event>): (gs: seq<Group>)
    ensures |gs| == |GroupKeys(events)|
    ensures forall i :: 0 <= i < |gs| ==> gs[i].key == GroupKeys(events)[i] && |gs[i].events| > 0
  {
    var ks := GroupKeys(events);
    var gs := seq(|ks|, i requires 0 <= i < |ks| => Group(ks[i], Queries.Filter(events, e => HasKey(ks[i], e))));
    assert forall i :: 0 <= i < |gs| ==> |gs[i].events| > 0 by {
      forall i | 0 <= i < |gs| ensures |gs[i].events| > 0 {
        var k :| 0 <= k < |events| && HasKey(ks[i], events[k]);
        assert events[k] in gs[i].events;
      }
    }
    gs
  }

  /** The events of a group are exactly the received events with its key. */
  lemma GroupMembers(events: seq<Event>, i: nat)
    requires i < |GroupBy(events)|
    ensures var g := GroupBy(events)[i];
      && (forall k :: 0 <= k < |g.events| ==> g.events[k] in events && KeyOf(g.events[k]) == g.key)
      && (forall k :: 0 <= k < |events| && KeyOf(events[k]) == g.key ==> events[k] in g.events)
  {
    var g := GroupBy(events)[i];
    assert g.events == Queries.Filter(events, e => HasKey(g.key, e));
  }

  /** Every received event lands in the group of its key (keys are distinct, so in exactly one). */
  lemma GroupOfEvent(events: seq<Event>, k: nat)
    requires k < |events|
    ensures exists i :: 0 <= i < |GroupBy(events)| && GroupBy(events)[i].key == KeyOf(events[k]) && events[k] in GroupBy(events)[i].events
  {
    var gs := GroupBy(events);
    var ks := GroupKeys(events);
    var i :| 0 <= i < |ks| && ks[i] == KeyOf(events[k]);
    GroupMembers(events, i);
  }

  /** The representative of a group is the earliest-received event with that key. */
  lemma GroupHeadIsFirst(events: seq<Event>, i: nat, first: nat)
    requires i < |GroupBy(events)|
    requires first < |events| && HasKey(GroupBy(events)[i].key, events[first])
    requires forall j :: 0 <= j < first ==> !HasKey(GroupBy(events)[i].key, events[j])
    ensures GroupBy(events)[i].events[0] == events[first]
  {
    var key := GroupBy(events)[i].key;
    assert GroupBy(events)[i].events == Queries.Filter(events, e => HasKey(key, e));
    Queries.FilterHead(events, e => HasKey(key, e), first);
  }

  // ---------------------------------------------------------------------------
  // The item formats

  /** `full_name.split('/').last`, nil when the split is empty. */
  function ShortRepoName(full: String): Option<String> {
    var parts := Split(full, '/');
    if parts == [] then None else Some(parts[|parts| - 1])
  }

  /** For an `owner/repo` name the short name is `repo`. */
  lemma ShortRepoNameOf(owner: String, repo: String)
    requires '/' !in owner && '/' !in repo && repo != []
    ensures ShortRepoName(owner + "/" + repo) == Some(repo)
  {
    SplitPair(owner, '/', repo);
  }

  function MetaOpt(o: Option<String>): MetaValue {
    match o
    case None => MNull
    case Some(s) => MStr(s)
  }

  /** `e.dig('payload', 'commits')&.size || 0`. */
  function CommitCount(e: Event): nat {
    match e.payload.commits
    case None => 0
    case Some(cs) => |cs|
  }

  /** `group_events.sum { ... }`. */
  function SumCommits(events: seq<Event>): nat {
    if events == [] then 0 else CommitCount(events[0]) + SumCommits(events[1..])
  }

  /** The body of a push item: the first commit's message, or the default text. */
  function PushMessage(e: Event): String {
    match e.payload.commits
    case Some(cs) => if |cs| > 0 && cs[0].message.Some? then cs[0].message.value else "Code changes pushed"
    case None => "Code changes pushed"
  }

  /** The title of a push item; "commit" only for exactly one. */
  function PushTitle(count: nat, repo: String): (t: String) {
    "\U{1F680} " + Decimal(count) + " commit" + (if count != 1 then "s" else "") + " to " + repo
  }

  /** Singular for one commit, plural otherwise, zero included. */
  lemma PushTitleNumber(count: nat, repo: String)
    ensures count == 1 ==> PushTitle(count, repo) == "\U{1F680} 1 commit to " + repo
    ensures count == 0 ==> PushTitle(count, repo) == "\U{1F680} 0 commits to " + repo
    ensures count != 1 ==> PushTitle(count, repo) == "\U{1F680} " + Decimal(count) + " commits to " + repo
  {
    var digits := Decimal(count);
    var tail := " commit" + (if count != 1 then "s" else "") + " to " + repo;
    assert PushTitle(count, repo) == "\U{1F680} " + digits + tail;
    if count < 10 {
      assert digits == [DigitChar(count)];
    }
  }

  /** `format_push_event(event, commits_count)`. */
  function FormatPushEvent(e: Event, commitsCount: nat): ItemData {
    var repo := ShortRepoName(e.repoName);
    ItemData(
      GithubType,
      "github-push-" + e.id,
      PushTitle(commitsCount, OrEmpty(repo)),
      PushMessage(e),
      Some("https://github.com/" + e.repoName),
      e.createdAt,
      Some(map["repo_name" := MetaOpt(repo), "commits_count" := MInt(commitsCount), "event_type" := MStr("push")]))
  }

  /** `body&.truncate(200) || default`. */
  function TicketBody(body: Option<String>, default: String): (r: String)
    ensures body.None? ==> r == default
    ensures body.Some? ==> |r| <= BodyLimit
    ensures body.Some? && |body.value| <= BodyLimit ==> r == body.value
  {
    match body
    case None => default
    case Some(b) => Truncate(b, BodyLimit)
  }

  /** `format_pull_request_event(event)`; the id is the pull request's id plus the action. */
  function FormatPullRequestEvent(e: Event): Result<ItemData, GithubError> {
    match e.payload.pullRequest
    case None => Failure(NilPayloadObject(e.id))
    case Some(pr) =>
      var repo := ShortRepoName(e.repoName);
      var action := OrEmpty(e.payload.action);
      Success(ItemData(
        GithubType,
        "github-pr-" + Decimal(pr.id) + "-" + action,
        "\U{1F500} PR " + action + " in " + OrEmpty(repo) + ": " + OrEmpty(pr.title),
        TicketBody(pr.body, "Pull request activity"),
        pr.htmlUrl,
        e.createdAt,
        Some(map["repo_name" := MetaOpt(repo), "pr_number" := MInt(pr.number),
                 "event_type" := MStr("pull_request"), "action" := MetaOpt(e.payload.action)])))
  }

  /** `format_issue_event(event)`; the id is the issue's id plus the action. */
  function FormatIssueEvent(e: Event): Result<ItemData, GithubError> {
    match e.payload.issue
    case None => Failure(NilPayloadObject(e.id))
    case Some(issue) =>
      var repo := ShortRepoName(e.repoName);
      var action := OrEmpty(e.payload.action);
      Success(ItemData(
        GithubType,
        "github-issue-" + Decimal(issue.id) + "-" + action,
        "\U{1F41B} Issue " + action + " in " + OrEmpty(repo) + ": " + OrEmpty(issue.title),
        TicketBody(issue.body, "Issue activity"),
        issue.htmlUrl,
        e.createdAt,
        Some(map["repo_name" := MetaOpt(repo), "issue_number" := MInt(issue.number),
                 "event_type" := MStr("issue"), "action" := MetaOpt(e.payload.action)])))
  }

  /** `format_create_event(event)`. */
  function FormatCreateEvent(e: Event): ItemData {
    var repo := ShortRepoName(e.repoName);
    var refType := OrEmpty(e.payload.refType);
    ItemData(
      GithubType,
      "github-create-" + e.id,
      "\U{2728} New " + refType + " created in " + OrEmpty(repo),
      "A new " + refType + " was created",
      Some("https://github.com/" + e.repoName),
      e.createdAt,
      Some(map["repo_name" := MetaOpt(repo), "ref_type" := MetaOpt(e.payload.refType), "event_type" := MStr("create")]))
  }

  /** Two pull-request events about the same pull request with the same action get the same
      external id, whatever their own event ids: the store keeps only the first. */
  lemma PullRequestIdIgnoresEventId(e1: Event, e2: Event)
    requires e1.payload.pullRequest.Some? && e2.payload.pullRequest.Some?
    requires e1.payload.pullRequest.value.id == e2.payload.pullRequest.value.id
    requires e1.payload.action == e2.payload.action
    ensures FormatPullRequestEvent(e1).value.externalId == FormatPullRequestEvent(e2).value.externalId
  {
  }

  // ---------------------------------------------------------------------------
  // process_events

  predicate Supported(eventType: String) {
    eventType == PushType || eventType == PullRequestType || eventType == IssuesType || eventType == CreateType
  }

  /** The groups `process_events` makes an item for: non-empty, of a supported type. */
  predicate SupportedGroup(g: Group) {
    |g.events| > 0 && Supported(g.key.eventType)
  }

  /** What one group contributes: an item for a supported type (built from the group's first
      event), nothing for any other type, or the NoMethodError of a malformed payload. */
  function ItemForGroup(g: Group): Result<Option<ItemData>, GithubError> {
    if g.events == [] then Success(None)
    else
    var latest := g.events[0];
    if g.key.eventType == PushType then Success(Some(FormatPushEvent(latest, SumCommits(g.events))))
    else if g.key.eventType == PullRequestType then
      match FormatPullRequestEvent(latest)
      case Failure(err) => Failure(err)
      case Success(item) => Success(Some(item))
    else if g.key.eventType == IssuesType then
      match FormatIssueEvent(latest)
      case Failure(err) => Failure(err)
      case Success(item) => Success(Some(item))
    else if g.key.eventType == CreateType then Success(Some(FormatCreateEvent(latest)))
    else Success(None)
  }

  /** Whether one step of the loop appended an item. */
  predicate Yields<T, E>(o: Result<Option<T>, E>) {
    o.Success? && o.value.Some?
  }

  /** `items << ...` over a list of per-step outcomes: the appended values in order, or the
      first error, which leaves the loop. */
  function Collect<T, E>(os: seq<Result<Option<T>, E>>): Result<seq<T>, E> {
    if os == [] then Success([])
    else
      match os[0]
      case Failure(err) => Failure(err)
      case Success(o) =>
        match Collect(os[1..])
        case Failure(err) => Failure(err)
        case Success(rest) => Success((if o.Some? then [o.value] else []) + rest)
  }

  /** `items` followed by the result `r`, or r's error. */
  function Prepend<T, E>(items: seq<T>, r: Result<seq<T>, E>): Result<seq<T>, E> {
    match r
    case Failure(err) => Failure(err)
    case Success(rest) => Success(items + rest)
  }

  /** One step of the loop: the next outcome's value (if any) joins the collected ones, or
      its error ends the whole. */
  lemma CollectStep<T, E>(items: seq<T>, os: seq<Result<Option<T>, E>>)
    requires |os| > 0
    ensures os[0].Failure? ==> Prepend(items, Collect(os)) == Failure(os[0].error)
    ensures os[0].Success? && os[0].value.None? ==> Prepend(items, Collect(os)) == Prepend(items, Collect(os[1..]))
    ensures os[0].Success? && os[0].value.Some? ==> Prepend(items, Collect(os)) == Prepend(items + [os[0].value.value], Collect(os[1..]))
  {
    if os[0].Success? {
      match Collect(os[1..]) {
        case Success(rest) =>
          if os[0].value.Some? {
            assert items + ([os[0].value.value] + rest) == items + [os[0].value.value] + rest;
          } else {
            assert [] + rest == rest;
          }
        case Failure(_) =>
      }
    }
  }

  /** `CollectStep` at position `i` of the outcomes, for the loop that walks them. */
  lemma CollectAdvance<T, E>(whole: Result<seq<T>, E>, items: seq<T>, os: seq<Result<Option<T>, E>>, i: nat)
    requires i < |os| && whole == Prepend(items, Collect(os[i..]))
    ensures os[i].Failure? ==> whole == Failure(os[i].error)
    ensures os[i].Success? && os[i].value.None? ==> whole == Prepend(items, Collect(os[i + 1..]))
    ensures os[i].Success? && os[i].value.Some? ==> whole == Prepend(items + [os[i].value.value], Collect(os[i + 1..]))
  {
    CollectStep(items, os[i..]);
    assert os[i..][1..] == os[i + 1..];
  }

  /** Collecting succeeds exactly when no step fails, and then yields one value per step that
      yields one, in order. */
  lemma {:induction false} CollectSpec<T, E>(os: seq<Result<Option<T>, E>>)
    ensures Collect(os).Success? <==> forall i :: 0 <= i < |os| ==> os[i].Success?
    ensures Collect(os).Success? ==>
      var items := Collect(os).value;
      var yielding := Queries.Filter(os, Yields);
      && |items| == |yielding|
      && forall j :: 0 <= j < |items| ==> yielding[j] == Success(Some(items[j]))
    decreases |os|
  {
    if os != [] {
      var tail := os[1..];
      CollectSpec(tail);
      assert forall i :: 0 <= i < |tail| ==> tail[i] == os[i + 1];
      if Collect(os).Success? {
        assert Queries.Filter(os, Yields) == (if Yields(os[0]) then [os[0]] else []) + Queries.Filter(tail, Yields);
      }
    }
  }

  /** Every collected value satisfies what every yielded value satisfies. */
  lemma {:induction false} CollectAll<T, E>(os: seq<Result<Option<T>, E>>, p: T -> bool)
    requires forall i :: 0 <= i < |os| && Yields(os[i]) ==> p(os[i].value.value)
    ensures Collect(os).Success? ==> forall k :: 0 <= k < |Collect(os).value| ==> p(Collect(os).value[k])
    decreases |os|
  {
    if os != [] {
      assert forall i :: 0 <= i < |os| - 1 ==> os[1..][i] == os[i + 1];
      CollectAll(os[1..], p);
    }
  }

  /** The items of the groups in order; the first failing group's error ends it. */
  function ItemsOfGroups(gs: seq<Group>): Result<seq<ItemData>, GithubError>
  {
    Collect(Queries.Map(gs, ItemForGroup))
  }

  /** `process_events(events)`. */
  function EventItems(events: seq<Event>): Result<seq<ItemData>, GithubError> {
    ItemsOfGroups(GroupBy(events))
  }

  /** The loop of `process_events`: one pass over the groups, appending with `<<`; an
      exception from a formatter leaves the method. */
  method ProcessEvents(events: seq<Event>) returns (r: Result<seq<ItemData>, GithubError>)
    ensures r == EventItems(events)
  {
    var groups := GroupBy(events);
    ghost var outcomes := Queries.Map(groups, ItemForGroup);
    var items: seq<ItemData> := [];
    var i := 0;
    assert outcomes[i..] == outcomes;
    if Collect(outcomes).Success? {
      assert items + Collect(outcomes).value == Collect(outcomes).value;
    }
    while i < |groups|
      invariant 0 <= i <= |groups|
      invariant Collect(outcomes) == Prepend(items, Collect(outcomes[i..]))
    {
      CollectAdvance(Collect(outcomes), items, outcomes, i);
      var next := ItemForGroup(groups[i]);
      assert next == outcomes[i];
      if next.Failure? {
        return Failure(next.error);
      }
      if next.value.Some? {
        items := items + [next.value.value];
      }
      i := i + 1;
    }
    assert outcomes[i..] == [];
    assert items + [] == items;
    r := Success(items);
  }

  /** A group yields an item exactly when it is non-empty and its type is supported. */
  lemma YieldsIffSupported(g: Group)
    requires ItemForGroup(g).Success?
    ensures Yields(ItemForGroup(g)) <==> SupportedGroup(g)
  {
  }

  /** When every step succeeds and a step yields exactly for the elements `sup` selects, the
      yielding outcomes are the outcomes of the selected elements, in order. */
  lemma {:induction false} YieldingAreSelected<A, T, E>(xs: seq<A>, f: A -> Result<Option<T>, E>, sup: A -> bool)
    requires forall i :: 0 <= i < |xs| ==> f(xs[i]).Success? && (Yields(f(xs[i])) <==> sup(xs[i]))
    ensures var selected := Queries.Filter(xs, sup);
      var yielding := Queries.Filter(Queries.Map(xs, f), Yields);
      && |yielding| == |selected|
      && forall j :: 0 <= j < |selected| ==> yielding[j] == f(selected[j])
    decreases |xs|
  {
    if xs != [] {
      var tail := xs[1..];
      assert forall i :: 0 <= i < |tail| ==> tail[i] == xs[i + 1];
      YieldingAreSelected(tail, f, sup);
      var outcomes := Queries.Map(xs, f);
      assert outcomes[0] == f(xs[0]) && outcomes[1..] == Queries.Map(tail, f);
      var yielding := Queries.Filter(outcomes, Yields);
      var selected := Queries.Filter(xs, sup);
      var restYielding := Queries.Filter(Queries.Map(tail, f), Yields);
      var restSelected := Queries.Filter(tail, sup);
      if sup(xs[0]) {
        assert yielding == [f(xs[0])] + restYielding;
        assert selected == [xs[0]] + restSelected;
        ConsPairs(yielding, selected, f, restYielding, restSelected);
      } else {
        assert yielding == restYielding;
        assert selected == restSelected;
      }
      assert |yielding| == |selected|;
    }
  }

  /** Prepending a pair related by `f` keeps two sequences related position by position. */
  lemma ConsPairs<A, B>(ys: seq<B>, xs: seq<A>, f: A -> B, restY: seq<B>, restX: seq<A>)
    requires |xs| > 0 && ys == [f(xs[0])] + restY && xs == [xs[0]] + restX
    requires |restY| == |restX| && forall j :: 0 <= j < |restX| ==> restY[j] == f(restX[j])
    ensures |ys| == |xs| && forall j :: 0 <= j < |xs| ==> ys[j] == f(xs[j])
  {
    forall j | 0 < j < |xs| ensures ys[j] == f(xs[j]) {
      assert ys[j] == restY[j - 1] && xs[j] == restX[j - 1];
    }
  }

  /** Exactly one item per non-empty group of a supported type, in group order, each the
      group's own item; other groups contribute nothing, and the whole fails exactly when
      some group's formatter fails (a representative lacking its payload object). */
  lemma ItemsOfGroupsSpec(gs: seq<Group>)
    ensures ItemsOfGroups(gs).Success? <==> forall i :: 0 <= i < |gs| ==> ItemForGroup(gs[i]).Success?
    ensures ItemsOfGroups(gs).Success? ==>
      var items := ItemsOfGroups(gs).value;
      var supported := Queries.Filter(gs, SupportedGroup);
      && |items| == |supported| <= |gs|
      && forall j :: 0 <= j < |items| ==> ItemForGroup(supported[j]) == Success(Some(items[j]))
  {
    var os := Queries.Map(gs, ItemForGroup);
    CollectSpec(os);
    if ItemsOfGroups(gs).Success? {
      forall i | 0 <= i < |gs| ensures ItemForGroup(gs[i]).Success? && (Yields(ItemForGroup(gs[i])) <==> SupportedGroup(gs[i])) {
        assert os[i] == ItemForGroup(gs[i]);
        YieldsIffSupported(gs[i]);
      }
      YieldingAreSelected(gs, ItemForGroup, SupportedGroup);
    }
  }

  /** As many event items as supported groups. */
  lemma ItemsOfGroupsCount(gs: seq<Group>)
    ensures ItemsOfGroups(gs).Success? ==> |ItemsOfGroups(gs).value| == |Queries.Filter(gs, SupportedGroup)|
  {
    ItemsOfGroupsSpec(gs);
  }

  /** A push group's item: named after the first event, counting the commits of the whole
      group (a missing list counts as 0), titled with that count. */
  lemma PushGroupItem(g: Group)
    requires |g.events| > 0 && g.key.eventType == PushType
    ensures ItemForGroup(g).Success? && ItemForGroup(g).value.Some?
    ensures var item := ItemForGroup(g).value.value;
      && item.externalId == "github-push-" + g.events[0].id
      && item.metadata.Some? && "commits_count" in item.metadata.value
      && item.metadata.value["commits_count"] == MInt(SumCommits(g.events))
      && item.title == PushTitle(SumCommits(g.events), OrEmpty(ShortRepoName(g.events[0].repoName)))
  {
  }

  /** Commit counts add up over a burst: the count of a concatenation is the sum of counts. */
  lemma {:induction false} SumCommitsAppend(a: seq<Event>, b: seq<Event>)
    ensures SumCommits(a + b) == SumCommits(a) + SumCommits(b)
    decreases |a|
  {
    if a == [] {
      assert a + b == b;
    } else {
      assert (a + b)[0] == a[0] && (a + b)[1..] == a[1..] + b;
      SumCommitsAppend(a[1..], b);
    }
  }

  /** Pull-request and issue bodies: at most 200 characters, unchanged when already that
      short, and the default text when nil. */
  lemma TicketItemBody(e: Event)
    ensures e.payload.pullRequest.Some? ==>
      var body := e.payload.pullRequest.value.body;
      var content := FormatPullRequestEvent(e).value.content;
      && (body.None? ==> content == "Pull request activity")
      && (body.Some? ==> |content| <= BodyLimit)
      && (body.Some? && |body.value| <= BodyLimit ==> content == body.value)
    ensures e.payload.issue.Some? ==>
      var body := e.payload.issue.value.body;
      var content := FormatIssueEvent(e).value.content;
      && (body.None? ==> content == "Issue activity")
      && (body.Some? ==> |content| <= BodyLimit)
      && (body.Some? && |body.value| <= BodyLimit ==> content == body.value)
  {
  }

  // ---------------------------------------------------------------------------
  // process_repos

  /** The external id of a repository-update item. */
  function RepoExternalId(repo: Repo): String {
    "github-repo-" + Decimal(repo.id) + "-" + repo.pushedAtText
  }

  /** One element of the `repos.map` in `process_repos`. */
  function RepoItem(repo: Repo): ItemData {
    ItemData(
      GithubType,
      RepoExternalId(repo),
      "\U{1F4C2} " + repo.name + " updated",
      repo.description.GetOr("Repository activity"),
      repo.htmlUrl,
      repo.pushedAt,
      Some(map["repo_name" := MStr(repo.name), "language" := MetaOpt(repo.language),
               "stars" := (if repo.stars.Some? then MInt(repo.stars.value) else MNull),
               "event_type" := MStr("repository_update")]))
  }

  /** `process_repos(repos)`: one item per repo, in order. */
  function RepoItems(repos: seq<Repo>): (r: seq<ItemData>)
    ensures |r| == |repos|
    ensures forall k :: 0 <= k < |r| ==> r[k] == RepoItem(repos[k])
  {
    seq(|repos|, k requires 0 <= k < |repos| => RepoItem(repos[k]))
  }

  /** `x + "-" + s == y + "-" + t` with no dash in `x` or `y` splits the same way. */
  lemma SplitAtFirstDash(x: String, s: String, y: String, t: String)
    requires '-' !in x && '-' !in y
    requires x + "-" + s == y + "-" + t
    ensures x == y && s == t
  {
    var l := x + "-" + s;
    FieldsAfterFirst(x, '-', s);
    FieldsAfterFirst(y, '-', t);
    assert x == Fields(l, '-')[0] == y;
    assert s == l[|x| + 1..] == t;
  }

  /** Repository-update ids are collision-free: equal ids mean the same repo id and the same
      pushed_at text, so a repo pushed again gets a new item. */
  lemma RepoExternalIdInjective(a: Repo, b: Repo)
    requires RepoExternalId(a) == RepoExternalId(b)
    ensures a.id == b.id && a.pushedAtText == b.pushedAtText
  {
    var p := "github-repo-";
    assert RepoExternalId(a) == p + (Decimal(a.id) + "-" + a.pushedAtText);
    assert RepoExternalId(b) == p + (Decimal(b.id) + "-" + b.pushedAtText);
    assert Decimal(a.id) + "-" + a.pushedAtText == RepoExternalId(a)[|p|..];
    assert Decimal(b.id) + "-" + b.pushedAtText == RepoExternalId(b)[|p|..];
    SplitAtFirstDash(Decimal(a.id), a.pushedAtText, Decimal(b.id), b.pushedAtText);
    DecimalInjective(a.id, b.id);
  }

  // ---------------------------------------------------------------------------
  // fetch_recent_activity

  /** What `fetch_recent_activity` returns: the event items, then the repo items; a
      malformed pull-request or issue payload aborts it before the repos are fetched. */
  function ActivityItems(eventsResponse: Option<seq<Event>>, reposResponse: Option<seq<Repo>>, cutoff: int)
    : Result<seq<ItemData>, GithubError>
  {
    Concat(EventItems(FetchOrgEvents(eventsResponse, cutoff)), RepoItems(FetchActiveRepos(reposResponse, cutoff)))
  }

  /** `items.concat(more)` after the event items were built, or their error. */
  function Concat(first: Result<seq<ItemData>, GithubError>, more: seq<ItemData>): (r: Result<seq<ItemData>, GithubError>)
    ensures r.Success? <==> first.Success?
    ensures r.Failure? ==> r == first
    ensures r.Success? ==> r.value == first.value + more
  {
    match first
    case Failure(err) => Failure(err)
    case Success(items) => Success(items + more)
  }

  /** `fetch_recent_activity(days:)`: `items.concat` of both parts. */
  method FetchRecentActivity(days: int, now: int, eventsResponse: Option<seq<Event>>, reposResponse: Option<seq<Repo>>)
    returns (r: Result<seq<ItemData>, GithubError>)
    ensures r == ActivityItems(eventsResponse, reposResponse, Cutoff(days, now))
  {
    var cutoff := Cutoff(days, now);
    var items: seq<ItemData> := [];
    var events := FetchOrgEvents(eventsResponse, cutoff);
    var eventItems := ProcessEvents(events);
    if eventItems.Failure? {
      return Failure(eventItems.error);
    }
    items := items + eventItems.value;
    var repos := FetchActiveRepos(reposResponse, cutoff);
    assert items == eventItems.value;
    items := items + RepoItems(repos);
    r := Success(items);
  }

  /** Whether an item is a GitHub one: item_type github and an external id in the
      `github-` namespace. */
  predicate IsGithubItem(item: ItemData) {
    item.itemType == GithubType && StartsWith(item.externalId, "github-")
  }

  /** An id built as `github-` followed by anything is in the GitHub namespace. */
  lemma GithubPrefixed(kind: String, rest: String)
    ensures StartsWith("github-" + kind + rest, "github-")
  {
    assert ("github-" + kind + rest)[..7] == "github-";
  }

  /** A group's item, when it has one, is a GitHub item. */
  lemma GroupItemIsGithub(g: Group)
    ensures Yields(ItemForGroup(g)) ==> IsGithubItem(ItemForGroup(g).value.value)
  {
    if g.events != [] {
      var e := g.events[0];
      if g.key.eventType == PushType {
        assert "github-push-" + e.id == "github-" + "push-" + e.id;
        GithubPrefixed("push-", e.id);
      } else if g.key.eventType == PullRequestType {
        if e.payload.pullRequest.Some? {
          var rest := Decimal(e.payload.pullRequest.value.id) + "-" + OrEmpty(e.payload.action);
          assert "github-pr-" + Decimal(e.payload.pullRequest.value.id) + "-" + OrEmpty(e.payload.action) == "github-" + "pr-" + rest;
          GithubPrefixed("pr-", rest);
        }
      } else if g.key.eventType == IssuesType {
        if e.payload.issue.Some? {
          var rest := Decimal(e.payload.issue.value.id) + "-" + OrEmpty(e.payload.action);
          assert "github-issue-" + Decimal(e.payload.issue.value.id) + "-" + OrEmpty(e.payload.action) == "github-" + "issue-" + rest;
          GithubPrefixed("issue-", rest);
        }
      } else if g.key.eventType == CreateType {
        assert "github-create-" + e.id == "github-" + "create-" + e.id;
        GithubPrefixed("create-", e.id);
      }
    }
  }

  /** The event items are all GitHub items. */
  lemma EventItemsAreGithub(gs: seq<Group>)
    ensures ItemsOfGroups(gs).Success? ==> forall k :: 0 <= k < |ItemsOfGroups(gs).value| ==> IsGithubItem(ItemsOfGroups(gs).value[k])
  {
    var os := Queries.Map(gs, ItemForGroup);
    forall i | 0 <= i < |os| && Yields(os[i]) ensures IsGithubItem(os[i].value.value) {
      GroupItemIsGithub(gs[i]);
    }
    CollectAll(os, IsGithubItem);
  }

  /** A repository item is a GitHub item. */
  lemma RepoItemIsGithub(repo: Repo)
    ensures IsGithubItem(RepoItem(repo))
  {
    var rest := Decimal(repo.id) + "-" + repo.pushedAtText;
    assert RepoExternalId(repo) == "github-" + "repo-" + rest;
    GithubPrefixed("repo-", rest);
  }

  /** `fetch_recent_activity` succeeds exactly when the events do; the event items come
      first, one per supported group, and the last `|repos|` items are the repo items in the
      order the repos were kept. */
  lemma ActivityItemsShape(eventsResponse: Option<seq<Event>>, reposResponse: Option<seq<Repo>>, cutoff: int)
    ensures ActivityItems(eventsResponse, reposResponse, cutoff).Success? <==>
              EventItems(FetchOrgEvents(eventsResponse, cutoff)).Success?
    ensures ActivityItems(eventsResponse, reposResponse, cutoff).Success? ==>
      var items := ActivityItems(eventsResponse, reposResponse, cutoff).value;
      var groups := GroupBy(FetchOrgEvents(eventsResponse, cutoff));
      var repos := FetchActiveRepos(reposResponse, cutoff);
      && |items| == |Queries.Filter(groups, SupportedGroup)| + |repos|
      && items[|items| - |repos|..] == RepoItems(repos)
  {
    var groups := GroupBy(FetchOrgEvents(eventsResponse, cutoff));
    var repos := FetchActiveRepos(reposResponse, cutoff);
    var first := ItemsOfGroups(groups);
    var rs := RepoItems(repos);
    var r := Concat(first, rs);
    if r.Success? {
      ItemsOfGroupsCount(groups);
      assert r.value[|first.value|..] == rs;
    }
  }

  /** Every item `fetch_recent_activity` returns is a GitHub item. */
  lemma ActivityItemsAreGithub(eventsResponse: Option<seq<Event>>, reposResponse: Option<seq<Repo>>, cutoff: int)
    ensures ActivityItems(eventsResponse, reposResponse, cutoff).Success? ==>
      forall k :: 0 <= k < |ActivityItems(eventsResponse, reposResponse, cutoff).value| ==>
        IsGithubItem(ActivityItems(eventsResponse, reposResponse, cutoff).value[k])
  {
    var groups := GroupBy(FetchOrgEvents(eventsResponse, cutoff));
    var repos := FetchActiveRepos(reposResponse, cutoff);
    var first := ItemsOfGroups(groups);
    var rs := RepoItems(repos);
    var r := Concat(first, rs);
    if r.Success? {
      EventItemsAreGithub(groups);
      forall k | 0 <= k < |rs| ensures IsGithubItem(rs[k]) {
        RepoItemIsGithub(repos[k]);
      }
      ConcatAll(first.value, rs, r.value);
    }
  }

  /** Both parts GitHub items, so is their concatenation. */
  lemma ConcatAll(a: seq<ItemData>, b: seq<ItemData>, c: seq<ItemData>)
    requires c == a + b
    requires forall k :: 0 <= k < |a| ==> IsGithubItem(a[k])
    requires forall k :: 0 <= k < |b| ==> IsGithubItem(b[k])
    ensures forall k :: 0 <= k < |c| ==> IsGithubItem(c[k])
  {
    forall k | 0 <= k < |c| ensures IsGithubItem(c[k]) {
      if k >= |a| {
        assert c[k] == b[k - |a|];
      }
    }
  }
}
