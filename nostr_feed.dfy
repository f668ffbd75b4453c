/**
 * NostrFeedService: the notes of one Nostr author (NIP-01) tagged `#11bdev`, fetched from a
 * few relays and turned into sitrep items.
 *
 * The websocket client and its event loop are replaced by a trace of signals delivered one
 * at a time: a relay connection opening (with the subscription id `SecureRandom` drew), a
 * relay message (already parsed), the 8-second timer of a connection firing, a connection
 * closing or failing, and the 10-second overall timeout. The handlers are methods of the
 * service object, which keeps the collected events and the open-connection counter in its
 * fields as the source does; what the handlers send is recorded in an outbox.
 */
module NostrFeed {
  import opened Wrappers
  import opened RubyStrings
  import Queries
  import Bech32
  import opened SitrepItems

  const Npub: String := "npub13hyx3qsqk3r7ctjqrr49uskut4yqjsxt8uvu4rekr55p08wyhf0qq90nt7"
  const Hashtag: String := "#11bdev"
  const Relays: seq<String> := ["wss://relay.damus.io", "wss://relay.primal.net", "wss://premium.primal.net"]
  const NoteKind: int := 1
  const RequestLimit: int := 50
  const ContentLimit: nat := 300

  // ---------------------------------------------------------------------------
  // Relay messages (NIP-01)

  /** A JSON value, as `to_json` serialises it (object members keep their order). */
  datatype Json = JNull | JStr(str: String) | JInt(num: int) | JArr(elems: seq<Json>) | JObj(members: seq<(String, Json)>)

  /** The value of the first member named `key` of an object's members. */
  function Lookup(members: seq<(String, Json)>, key: String): Option<Json> {
    if members == [] then None
    else if members[0].0 == key then Some(members[0].1)
    else Lookup(members[1..], key)
  }

  /** The verb and subscription id of a client message `[verb, sid, ...]`. */
  function Verb(m: Json): Option<String> {
    if m.JArr? && |m.elems| >= 2 && m.elems[0].JStr? then Some(m.elems[0].str) else None
  }

  function SubscriptionOf(m: Json): Option<String> {
    if m.JArr? && |m.elems| >= 2 && m.elems[1].JStr? then Some(m.elems[1].str) else None
  }

  /** The filter of a `REQ` (its third element), if it has one. */
  function FilterOf(m: Json): Option<seq<(String, Json)>> {
    if m.JArr? && |m.elems| == 3 && m.elems[2].JObj? then Some(m.elems[2].members) else None
  }

  /** `["REQ", sid, {"authors": [hex], "kinds": [1], "since": since, "limit": 50}]`. */
  function ReqMessage(sid: String, hex: String, since: int): (m: Json)
    ensures Verb(m) == Some("REQ") && SubscriptionOf(m) == Some(sid)
    ensures m.JArr? && |m.elems| == 3 && FilterOf(m).Some? && |FilterOf(m).value| == 4
    ensures Lookup(FilterOf(m).value, "authors") == Some(JArr([JStr(hex)]))
    ensures Lookup(FilterOf(m).value, "kinds") == Some(JArr([JInt(NoteKind)]))
    ensures Lookup(FilterOf(m).value, "since") == Some(JInt(since))
    ensures Lookup(FilterOf(m).value, "limit") == Some(JInt(RequestLimit))
  {
    var filter := [
      ("authors", JArr([JStr(hex)])),
      ("kinds", JArr([JInt(NoteKind)])),
      ("since", JInt(since)),
      ("limit", JInt(RequestLimit))];
    assert filter[1..][1..] == filter[2..] && filter[2..][1..] == filter[3..];
    assert Lookup(filter[3..], "limit") == Some(JInt(RequestLimit));
    assert Lookup(filter[2..], "limit") == Lookup(filter[3..], "limit");
    assert Lookup(filter[1..], "limit") == Lookup(filter[2..], "limit");
    assert Lookup(filter[2..], "since") == Some(JInt(since));
    JArr([JStr("REQ"), JStr(sid), JObj(filter)])
  }

  /** `["CLOSE", sid]`. */
  function CloseMessage(sid: String): (m: Json)
    ensures Verb(m) == Some("CLOSE") && SubscriptionOf(m) == Some(sid) && FilterOf(m).None?
    ensures m.JArr? && |m.elems| == 2
  {
    JArr([JStr("CLOSE"), JStr(sid)])
  }

  /** The subscription id of a `CLOSE`, if `m` is one. */
  function ClosedSubscription(m: Json): Option<String> {
    if Verb(m) == Some("CLOSE") then SubscriptionOf(m) else None
  }

  /** A `CLOSE` ends exactly the subscription its `REQ` opened, and the two cannot be
      confused. */
  lemma {:induction false} CloseMatchesReq(sid: String, hex: String, since: int, other: String)
    ensures ClosedSubscription(CloseMessage(sid)) == Some(sid)
    ensures ClosedSubscription(ReqMessage(other, hex, since)).None?
    ensures CloseMessage(sid) == CloseMessage(other) <==> sid == other
    ensures ReqMessage(sid, hex, since) != CloseMessage(other)
  {
    if CloseMessage(sid) == CloseMessage(other) {
      assert CloseMessage(sid).elems[1] == CloseMessage(other).elems[1];
    }
    assert ReqMessage(sid, hex, since).elems[0] != CloseMessage(other).elems[0];
  }

  /** The fields of a note the service reads (`id`, `content`, `created_at`); a missing
      key is `None`. */
  datatype NostrEvent = NostrEvent(id: Option<String>, content: Option<String>, createdAt: Option<int>)

  /** An incoming relay message after `JSON.parse`:
      - `Unparsable`: not JSON; the handler rescues the parser error;
      - `Unindexable`: JSON `null`, `true`, `false` or a float, on which `data[0]` raises an
        error the handler does not rescue;
      - `Indexed(head, third)`: an array, object, string or integer, with the string at index 0
        (if any) and the event object at index 2 (if it is present and not `null`/`false`). */
  datatype Incoming = Unparsable | Unindexable | Indexed(head: Option<String>, third: Option<NostrEvent>)

  /** The signals the event loop delivers. */
  datatype Signal =
    | Opened(relay: String, sid: String)
    | Received(relay: String, msg: Incoming)
    | Lingered(relay: String)
    | Closed(relay: String)
    | Errored(relay: String)
    | TimedOut

  /** A message the service sent on a relay connection. */
  datatype Outgoing = Outgoing(relay: String, msg: Json)

  // ---------------------------------------------------------------------------
  // The handlers as transitions

  /** The service's fields: the collected events, the open-connection counter, what was
      sent, and the subscription id each connection's timer closes. */
  datatype Feed = Feed(events: seq<NostrEvent>, connections: int, outbox: seq<Outgoing>, subscriptions: map<String, String>)

  /** A handler's effect: the new fields, whether it stopped the event loop, and whether it
      raised an error that escapes the event loop. */
  datatype Reaction = Reaction(feed: Feed, stop: bool, raised: bool)

  /** No two collected events share an id. */
  predicate DistinctIds(events: seq<NostrEvent>) {
    forall i, j :: 0 <= i < j < |events| ==> events[i].id != events[j].id
  }

  predicate HasId(events: seq<NostrEvent>, id: Option<String>) {
    exists k :: 0 <= k < |events| && events[k].id == id
  }

  /** `@events << e unless @events.any? { |x| x['id'] == e['id'] }`. */
  function AddEvent(events: seq<NostrEvent>, e: NostrEvent): (r: seq<NostrEvent>)
    ensures HasId(events, e.id) ==> r == events
    ensures !HasId(events, e.id) ==> r == events + [e]
  {
    if HasId(events, e.id) then events else events + [e]
  }

  /** The `:message` handler on the collected events; `None` when it raises. */
  function Deliver(events: seq<NostrEvent>, m: Incoming): Option<seq<NostrEvent>> {
    match m
    case Unparsable => Some(events)
    case Unindexable => None
    case Indexed(head, third) =>
      if head == Some("EVENT") && third.Some? then Some(AddEvent(events, third.value))
      else Some(events)
  }

  /** The `:close` and `:error` handlers: one connection fewer, and the event loop stops
      once none is counted open. */
  function Disconnect(f: Feed): (r: Reaction)
    ensures r.feed == f.(connections := f.connections - 1)
    ensures r.stop <==> f.connections <= 1
    ensures !r.raised
  {
    Reaction(f.(connections := f.connections - 1), f.connections - 1 <= 0, false)
  }

  /** One signal delivered to the service. */
  function Step(f: Feed, s: Signal, hex: String, since: int): (r: Reaction)
    ensures s.Opened? ==> r.feed.connections == f.connections + 1 && !r.stop
    ensures s.Closed? || s.Errored? ==>
      r.feed.connections == f.connections - 1 && (r.stop <==> r.feed.connections <= 0)
    ensures s.Received? || s.Lingered? ==> r.feed.connections == f.connections && !r.stop
    ensures s.TimedOut? ==> r.feed == f && r.stop
    ensures r.raised <==> s.Received? && s.msg.Unindexable?
    ensures !s.Received? ==> r.feed.events == f.events
  {
    match s
    case Opened(relay, sid) =>
      Reaction(f.(connections := f.connections + 1,
                  outbox := f.outbox + [Outgoing(relay, ReqMessage(sid, hex, since))],
                  subscriptions := f.subscriptions[relay := sid]), false, false)
    case Received(_, m) =>
      (match Deliver(f.events, m)
       case None => Reaction(f, false, true)
       case Some(es) => Reaction(f.(events := es), false, false))
    case Lingered(relay) =>
      if relay in f.subscriptions
      then Reaction(f.(outbox := f.outbox + [Outgoing(relay, CloseMessage(f.subscriptions[relay]))]), false, false)
      else Reaction(f, false, false)
    case Closed(_) => Disconnect(f)
    case Errored(_) => Disconnect(f)
    case TimedOut => Reaction(f, true, false)
  }

  /** The event loop: signals are handled in order until a handler stops the loop or raises. */
  function Run(f: Feed, trace: seq<Signal>, hex: String, since: int): Reaction
    decreases |trace|
  {
    if trace == [] then Reaction(f, false, false)
    else
      var r := Step(f, trace[0], hex, since);
      if r.stop || r.raised then r else Run(r.feed, trace[1..], hex, since)
  }

  // ---------------------------------------------------------------------------
  // What the handlers keep

  /** A message is added only when no collected event has its id, so ids stay distinct,
      the earlier events stay in place and the message's id is then collected. */
  lemma {:induction false} DeliverKeeps(events: seq<NostrEvent>, m: Incoming)
    requires DistinctIds(events)
    ensures Deliver(events, m).Some? ==>
      var es := Deliver(events, m).value;
      && DistinctIds(es)
      && |events| <= |es| <= |events| + 1
      && es[..|events|] == events
      && (m.Indexed? && m.head == Some("EVENT") && m.third.Some? ==> HasId(es, m.third.value.id))
  {
    if m.Indexed? && m.head == Some("EVENT") && m.third.Some? {
      var e := m.third.value;
      var es := AddEvent(events, e);
      if !HasId(events, e.id) {
        assert es[|events|] == e;
        forall i, j | 0 <= i < j < |es| ensures es[i].id != es[j].id {
          if j == |events| {
            assert events[i].id != e.id;
          }
        }
      } else {
        var k :| 0 <= k < |events| && events[k].id == e.id;
        assert es[k].id == e.id;
      }
    }
  }

  /** `EOSE`, any other verb, an `EVENT` without an event object and unparsable text leave
      the collected events as they are; of the messages, only an unindexable one raises. */
  lemma NonEventKeepsEvents(events: seq<NostrEvent>, m: Incoming)
    requires !(m.Indexed? && m.head == Some("EVENT") && m.third.Some?)
    ensures Deliver(events, m) == if m.Unindexable? then None else Some(events)
  {
  }

  /** The bookkeeping invariant of the outbox: every `CLOSE` sent on a connection ends a
      subscription whose `REQ` was sent earlier on that connection, and each subscription a
      timer will close was requested. */
  predicate ReqSent(outbox: seq<Outgoing>, relay: String, sid: String, hex: String, since: int) {
    exists j :: 0 <= j < |outbox| && outbox[j] == Outgoing(relay, ReqMessage(sid, hex, since))
  }

  predicate ClosesMatched(f: Feed, hex: String, since: int) {
    && (forall r :: r in f.subscriptions ==> ReqSent(f.outbox, r, f.subscriptions[r], hex, since))
    && (forall k :: 0 <= k < |f.outbox| && ClosedSubscription(f.outbox[k].msg).Some? ==>
          ReqSent(f.outbox[..k], f.outbox[k].relay, ClosedSubscription(f.outbox[k].msg).value, hex, since))
  }

  lemma ReqSentExtends(outbox: seq<Outgoing>, extra: seq<Outgoing>, relay: String, sid: String, hex: String, since: int)
    requires ReqSent(outbox, relay, sid, hex, since)
    ensures ReqSent(outbox + extra, relay, sid, hex, since)
  {
    var j :| 0 <= j < |outbox| && outbox[j] == Outgoing(relay, ReqMessage(sid, hex, since));
    assert (outbox + extra)[j] == outbox[j];
  }

  lemma {:induction false} StepKeepsClosesMatched(f: Feed, s: Signal, hex: String, since: int)
    requires ClosesMatched(f, hex, since)
    ensures ClosesMatched(Step(f, s, hex, since).feed, hex, since)
  {
    var g := Step(f, s, hex, since).feed;
    if g.outbox != f.outbox {
      var extra := [g.outbox[|f.outbox|]];
      assert g.outbox == f.outbox + extra;
      forall r | r in f.subscriptions ensures ReqSent(g.outbox, r, f.subscriptions[r], hex, since) {
        ReqSentExtends(f.outbox, extra, r, f.subscriptions[r], hex, since);
      }
      forall k | 0 <= k < |g.outbox| && ClosedSubscription(g.outbox[k].msg).Some?
        ensures ReqSent(g.outbox[..k], g.outbox[k].relay, ClosedSubscription(g.outbox[k].msg).value, hex, since)
      {
        if k < |f.outbox| {
          assert g.outbox[..k] == f.outbox[..k];
        } else {
          assert g.outbox[..k] == f.outbox;
          CloseMatchesReq(f.subscriptions[s.relay], hex, since, s.relay);
        }
      }
      if s.Opened? {
        forall r | r in g.subscriptions ensures ReqSent(g.outbox, r, g.subscriptions[r], hex, since) {
          if r == s.relay {
            assert g.outbox[|f.outbox|] == Outgoing(r, ReqMessage(s.sid, hex, since));
          }
        }
      }
    }
  }

  /** The event loop keeps ids distinct, never drops or reorders a collected event, and keeps
      every `CLOSE` matched to its `REQ`. */
  lemma {:induction false} RunKeeps(f: Feed, trace: seq<Signal>, hex: String, since: int)
    requires DistinctIds(f.events) && ClosesMatched(f, hex, since)
    ensures var g := Run(f, trace, hex, since).feed;
      && DistinctIds(g.events)
      && |f.events| <= |g.events| && g.events[..|f.events|] == f.events
      && ClosesMatched(g, hex, since)
    decreases |trace|
  {
    if trace != [] {
      var r := Step(f, trace[0], hex, since);
      StepKeepsClosesMatched(f, trace[0], hex, since);
      if trace[0].Received? {
        DeliverKeeps(f.events, trace[0].msg);
      }
      if !(r.stop || r.raised) {
        RunKeeps(r.feed, trace[1..], hex, since);
        var g := Run(r.feed, trace[1..], hex, since).feed;
        assert g.events[..|f.events|] == g.events[..|r.feed.events|][..|f.events|];
      }
    }
  }

  /** A relay that fails before it ever connects drives the counter below zero, and the
      `<= 0` test then stops the loop even while other connections may be pending. */
  lemma ErrorBeforeOpen(relay: String, hex: String, since: int)
    ensures var r := Run(Feed([], 0, [], map[]), [Errored(relay), Opened(relay, "s")], hex, since);
      r.stop && r.feed.connections == -1 && r.feed.outbox == []
  {
  }

  // ---------------------------------------------------------------------------
  // Selection and formatting

  /** `content.downcase.include?(HASHTAG.downcase)` on a note that has content. */
  predicate HasHashtag(e: NostrEvent) {
    e.content.Some? && Contains(Downcase(e.content.value), Downcase(Hashtag))
  }

  /** Seven characters of `c` from index `i` spell `#11bdev` once lowered. */
  predicate TagAt(c: String, i: nat) {
    i + |Hashtag| <= |c| && Downcase(c[i..i + |Hashtag|]) == Hashtag
  }

  /** The tag matches in any letter case: a note is kept exactly when its content has the
      tag somewhere, whatever the case of its letters. */
  lemma HashtagAnyCase(e: NostrEvent)
    ensures HasHashtag(e) <==> e.content.Some? && exists i: nat :: TagAt(e.content.value, i)
  {
    assert Downcase(Hashtag) == Hashtag;
    if e.content.Some? {
      var c := e.content.value;
      if HasHashtag(e) {
        var i: nat :| i <= |Downcase(c)| && OccursAt(Downcase(c), Hashtag, i);
        DowncaseSlice(c, i, i + |Hashtag|);
        assert TagAt(c, i);
      }
      if exists i: nat :: TagAt(c, i) {
        var i: nat :| TagAt(c, i);
        DowncaseSlice(c, i, i + |Hashtag|);
        assert OccursAt(Downcase(c), Hashtag, i);
      }
    }
  }

  /** The hashtag filter: the notes carrying the tag, in collection order. */
  function FilterHashtag(events: seq<NostrEvent>): (r: seq<NostrEvent>)
    ensures forall k :: 0 <= k < |r| ==> r[k] in events && HasHashtag(r[k])
    ensures forall k :: 0 <= k < |events| && HasHashtag(events[k]) ==> events[k] in r
  {
    Queries.Filter(events, HasHashtag)
  }

  /** `format_nostr_note`: a nil id interpolates as empty, nil content becomes empty and is
      truncated to 300 characters, and a missing `created_at` reads as 0. */
  function FormatNote(e: NostrEvent): (d: ItemData)
    ensures d.itemType == NostrType
    ensures d.externalId == "nostr-" + OrEmpty(e.id)
    ensures d.url == Some("https://njump.me/" + OrEmpty(e.id))
    ensures |d.content| <= ContentLimit
    ensures |OrEmpty(e.content)| <= ContentLimit ==> d.content == OrEmpty(e.content)
    ensures d.publishedAt == e.createdAt.GetOr(0)
  {
    ItemData(
      NostrType,
      "nostr-" + OrEmpty(e.id),
      "\U{26A1} Note from Nostr",
      Truncate(OrEmpty(e.content), ContentLimit),
      Some("https://njump.me/" + OrEmpty(e.id)),
      e.createdAt.GetOr(0),
      Some(map[
        "event_id" := if e.id.Some? then MStr(e.id.value) else MNull,
        "platform" := MStr("nostr"),
        "npub" := MStr(Npub)]))
  }

  /** The items `fetch_recent_posts` returns for the collected events. */
  function Notes(events: seq<NostrEvent>): seq<ItemData> {
    Queries.Map(FilterHashtag(events), FormatNote)
  }

  /** Every note item passes the sitrep validations, so none is ever skipped, and each
      one is the formatted form of a tagged collected event. */
  lemma NotesValid(events: seq<NostrEvent>)
    ensures forall k :: 0 <= k < |Notes(events)| ==>
      && AttributesValid(NewRecord(Notes(events)[k]))
      && StartsWith(Notes(events)[k].externalId, "nostr-")
      && exists j :: 0 <= j < |events| && HasHashtag(events[j]) && Notes(events)[k] == FormatNote(events[j])
  {
    var tagged := FilterHashtag(events);
    forall k | 0 <= k < |Notes(events)|
      ensures AttributesValid(NewRecord(Notes(events)[k]))
      ensures StartsWith(Notes(events)[k].externalId, "nostr-")
      ensures exists j :: 0 <= j < |events| && HasHashtag(events[j]) && Notes(events)[k] == FormatNote(events[j])
    {
      var d := FormatNote(tagged[k]);
      assert d.title[0] == '\U{26A1}';
      assert d.url.value[0] == 'h';
      assert d.externalId[0] == 'n';
      assert d.externalId[..6] == "nostr-";
      var j :| 0 <= j < |events| && events[j] == tagged[k];
    }
  }

  /** What a fresh service's `fetch_recent_posts(days:)` returns at time `now` when the
      decoder returned `decoded` and the event loop delivers `trace`. */
  function FetchedNotes(decoded: Option<(String, seq<int>)>, days: int, now: int, trace: seq<Signal>): seq<ItemData> {
    match Bech32.NpubKey(decoded)
    case None => []
    case Some(hex) =>
      var r := Run(Feed([], 0, [], map[]), trace, hex, now - days * SecondsPerDay);
      if r.raised then [] else Notes(r.feed.events)
  }

  /** A fresh service returns only valid `nostr-` items, and none at all when the key does
      not decode. */
  lemma FetchedNotesValid(decoded: Option<(String, seq<int>)>, days: int, now: int, trace: seq<Signal>)
    ensures Bech32.NpubKey(decoded).None? ==> FetchedNotes(decoded, days, now, trace) == []
    ensures forall k :: 0 <= k < |FetchedNotes(decoded, days, now, trace)| ==>
      var d := FetchedNotes(decoded, days, now, trace)[k];
      AttributesValid(NewRecord(d)) && d.itemType == NostrType && StartsWith(d.externalId, "nostr-")
  {
    if Bech32.NpubKey(decoded).Some? {
      var r := Run(Feed([], 0, [], map[]), trace, Bech32.NpubKey(decoded).value, now - days * SecondsPerDay);
      NotesValid(r.feed.events);
    }
  }

  // ---------------------------------------------------------------------------
  // The service object

  class NostrFeedService {
    /** `@hex_pubkey`: the author's key, or nil when `NPUB` did not decode. */
    const hexPubkey: Option<String>
    var events: seq<NostrEvent>
    var connections: int
    var outbox: seq<Outgoing>
    var subscriptions: map<String, String>

    function State(): Feed
      reads this
    {
      Feed(events, connections, outbox, subscriptions)
    }

    /** `initialize`: `decoded` is what `Bech32.decode(NPUB)` returned. */
    constructor (decoded: Option<(String, seq<int>)>)
      ensures hexPubkey == Bech32.NpubKey(decoded)
      ensures State() == Feed([], 0, [], map[])
    {
      var key := Bech32.NpubToHex(decoded);
      hexPubkey := key;
      events := [];
      connections := 0;
      outbox := [];
      subscriptions := map[];
    }

    /** The `:open` handler: count the connection and send the `REQ`; the connection's
        timer will close subscription `sid`. */
    method OnOpen(relay: String, sid: String, since: int)
      requires hexPubkey.Some?
      modifies this
      ensures connections == old(connections) + 1
      ensures outbox == old(outbox) + [Outgoing(relay, ReqMessage(sid, hexPubkey.value, since))]
      ensures subscriptions == old(subscriptions)[relay := sid]
      ensures events == old(events)
    {
      connections := connections + 1;
      outbox := outbox + [Outgoing(relay, ReqMessage(sid, hexPubkey.value, since))];
      subscriptions := subscriptions[relay := sid];
    }

    /** The `:message` handler; `raised` when the message raised past the handler. */
    method OnMessage(m: Incoming) returns (raised: bool)
      modifies this
      ensures raised <==> m.Unindexable?
      ensures !raised ==> events == Deliver(old(events), m).value
      ensures raised ==> events == old(events)
      ensures connections == old(connections) && outbox == old(outbox) && subscriptions == old(subscriptions)
    {
      match m
      case Unparsable =>
        raised := false;
      case Unindexable =>
        raised := true;
      case Indexed(head, third) =>
        raised := false;
        if head == Some("EVENT") && third.Some? {
          var e := third.value;
          var seen := false;
          var k := 0;
          while k < |events|
            invariant 0 <= k <= |events|
            invariant seen <==> exists j :: 0 <= j < k && events[j].id == e.id
          {
            if events[k].id == e.id {
              seen := true;
            }
            k := k + 1;
          }
          if !seen {
            events := events + [e];
          }
        }
    }

    /** The 8-second timer of connection `relay`: send `CLOSE` for its subscription (the
        socket's own close then arrives as a separate signal). */
    method OnLinger(relay: String)
      modifies this
      ensures relay in subscriptions ==>
        outbox == old(outbox) + [Outgoing(relay, CloseMessage(subscriptions[relay]))]
      ensures relay !in subscriptions ==> outbox == old(outbox)
      ensures events == old(events) && connections == old(connections) && subscriptions == old(subscriptions)
    {
      if relay in subscriptions {
        outbox := outbox + [Outgoing(relay, CloseMessage(subscriptions[relay]))];
      }
    }

    /** The `:close` and `:error` handlers: returns whether the event loop is stopped. */
    method OnDisconnect() returns (stop: bool)
      modifies this
      ensures connections == old(connections) - 1
      ensures stop <==> connections <= 0
      ensures events == old(events) && outbox == old(outbox) && subscriptions == old(subscriptions)
    {
      connections := connections - 1;
      stop := connections <= 0;
    }

    /** `fetch_recent_posts(days:)` at time `now`, with the event loop delivering `trace`:
        nothing is contacted without a key; otherwise the signals are handled until the loop
        stops, and the tagged notes are formatted, unless a handler raised, when the rescue
        returns no items. */
    method FetchRecentPosts(days: int, now: int, trace: seq<Signal>) returns (items: seq<ItemData>)
      modifies this
      ensures hexPubkey.None? ==> items == [] && State() == old(State())
      ensures hexPubkey.Some? ==>
        var r := Run(old(State()), trace, hexPubkey.value, now - days * SecondsPerDay);
        State() == r.feed && items == (if r.raised then [] else Notes(r.feed.events))
    {
      if hexPubkey.None? {
        return [];
      }
      var since := now - days * SecondsPerDay;
      var hex := hexPubkey.value;
      var stop, raised := false, false;
      var i := 0;
      while i < |trace| && !stop && !raised
        invariant 0 <= i <= |trace|
        invariant !stop && !raised ==>
          Run(State(), trace[i..], hex, since) == Run(old(State()), trace, hex, since)
        invariant stop || raised ==>
          Run(old(State()), trace, hex, since) == Reaction(State(), stop, raised)
      {
        ghost var before := State();
        assert trace[i..][0] == trace[i] && trace[i..][1..] == trace[i + 1..];
        match trace[i] {
          case Opened(relay, sid) =>
            OnOpen(relay, sid, since);
          case Received(_, m) =>
            raised := OnMessage(m);
          case Lingered(relay) =>
            OnLinger(relay);
          case Closed(_) =>
            stop := OnDisconnect();
          case Errored(_) =>
            stop := OnDisconnect();
          case TimedOut =>
            stop := true;
        }
        assert Step(before, trace[i], hex, since) == Reaction(State(), stop, raised);
        i := i + 1;
      }
      if raised {
        return [];
      }
      items := Notes(events);
    }
  }
}
