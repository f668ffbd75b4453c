# 11bdev-home: the sitrep pipeline and the small model helpers

This Dafny project models the core logic of the 11bDev company site, a Rails application.
It covers two parts.

The "sitrep" activity pipeline:

- **GitHubActivityService** turns the organisation's recent events and repositories into feed items. It filters them by a time cutoff and groups events by repository and type. Each supported group becomes one item, built from its first event; a push item's commit count is summed over the whole group.
- **NostrFeedService** does four things:
  - decodes the site owner's `npub` into a hex key;
  - sends a NIP-01 `REQ` to each relay, and a `CLOSE` after a delay;
  - folds the relays' messages into a de-duplicated list of events while counting open connections;
  - keeps the notes that mention `#11bdev` in any letter case, formatted as feed items.
- **RefreshSitrepJob** upserts every item into the `sitrep_items` table:
  - `SitrepItem.find_or_create_from_data` creates a row only when the `external_id` is new;
  - the job counts saved and skipped items;
  - it then deletes the rows older than thirty days.

The small model helpers:

- `Post`: the tag list and its normalisation, the publish rules, the excerpt, and `save` with its callbacks in Rails order.
- `Project`: `to_param`, which `ProjectsController#show` parses back into an id, and its validations, scopes and excerpt.
- The admin `reorder` action and the admin index ordering.
- `Testimonial#display_name`.

Modules follow the source files:

| module | file | source |
|---|---|---|
| `Wrappers` | `wrappers.dfy` | `Option`, `Result` |
| `RubyStrings` | `ruby_strings.dfy` | the Ruby and ActiveSupport string operations the core uses: `split`, `strip`, `blank?`, `truncate`, `to_i`, `downcase`, `include?` |
| `Queries` | `queries.dfy` | `where` and `order` over a table held as a sequence of rows |
| `SitrepItems` | `sitrep_item.dfy` | `app/models/sitrep_item.rb` |
| `GithubActivity` | `github_activity.dfy` | `app/services/github_activity_service.rb` |
| `Bech32` | `bech32.dfy` | the 5-to-8-bit regrouping and hex encoding of `npub_to_hex` |
| `NostrFeed` | `nostr_feed.dfy` | `app/services/nostr_feed_service.rb` |
| `RefreshSitrepJob` | `refresh_sitrep_job.dfy` | `app/jobs/refresh_sitrep_job.rb` |
| `Posts` | `post.dfy` | `app/models/post.rb` |
| `Projects` | `project.dfy` | `app/models/project.rb` |
| `ProjectsController` | `projects_controller.dfy` | `app/controllers/projects_controller.rb` |
| `AdminProjectsController` | `admin_projects_controller.dfy` | `app/controllers/admin/projects_controller.rb` |
| `Testimonials` | `testimonial.dfy` | `app/models/testimonial.rb` |

Times are integer seconds, and `n.days.ago` is `now - n * 86400`.

The table and the service objects are classes whose methods change their fields:

- `SitrepTable`, the table;
- `NostrFeedService`, with its event list and connection counter;
- `Post`, with its callbacks;
- `ProjectTable`, for `reorder`.

Each such method is stated against a function on values, and the properties are proved about that function.

## Behaviours worth noting

The model does what the code does in these places, which a reader might not expect:

- A duplicate counts as saved. The job counts every record that comes back persisted as saved, and an existing row comes back persisted (app/jobs/refresh_sitrep_job.rb:27-29). Only items that fail validation are counted as skipped.
- Relay `EVENT`s are not matched to a subscription. The `:message` handler never reads `data[1]`, so an `EVENT` for any subscription is collected (app/services/nostr_feed_service.rb:109-111).
- The representative of a group is its first event (app/services/github_activity_service.rb:74). It is the most recent one only when the API lists events newest first.
- The connection counter can go below zero. Both the `close` and the `error` handler decrement it, so a connection that errors and then closes counts twice (app/services/nostr_feed_service.rb:124, :132).
- A malformed pull-request or issue payload aborts the whole job. `process_events` has no `rescue`, so a nil `pull_request` or `issue` object raises in its formatter before any upsert (app/services/github_activity_service.rb:132, :153).

## Model

| member | source | states |
|---|---|---|
| `SitrepItems.Find` | app/models/sitrep_item.rb:15 | finds a row carrying the id, or none exists |
| `SitrepItems.FindOrCreate` | app/models/sitrep_item.rb:2-23 | the table grows by exactly the new record iff no row has the id, the data is valid and the insert does not raise; an unpersisted record failed validation |
| `SitrepItems.FindUnique` | app/models/sitrep_item.rb:5 | with unique ids, looking up a row's id finds that row |
| `SitrepItems.ExistingRowReturned` | app/models/sitrep_item.rb:15 | an existing id returns the stored row, persisted, and ignores the incoming data |
| `SitrepItems.NewRowCreated` | app/models/sitrep_item.rb:16-22 | a new valid id appends a row copying every field of the data, with nil metadata becoming `{}` |
| `SitrepItems.FindOrCreateKeepsInvariant` | app/models/sitrep_item.rb:2-6 | every stored row stays valid and ids stay unique |
| `SitrepItems.FilterKeepsInvariant` | app/models/sitrep_item.rb:2-6 | deleting rows keeps the table valid |
| `SitrepItems.SitrepTable.FindOrCreateFromData` | app/models/sitrep_item.rb:14-23 | the new table and the result are those of `FindOrCreate`, and the table stays valid |
| `SitrepItems.SitrepTable.DeleteOlderThan` | app/jobs/refresh_sitrep_job.rb:41 | keeps exactly the rows at or after the cutoff, in order, and returns how many were removed |
| `SitrepItems.Recent` | app/models/sitrep_item.rb:8 | a permutation of the rows, newest `published_at` first |
| `SitrepItems.GithubItems` | app/models/sitrep_item.rb:9 | exactly the rows of type `github` |
| `SitrepItems.NostrItems` | app/models/sitrep_item.rb:10 | exactly the rows of type `nostr` |
| `SitrepItems.PublishedSince` | app/models/sitrep_item.rb:11-12 | exactly the rows published at or after the boundary (which `last_week` and `last_24_hours` use) |
| `SitrepItems.Last24HoursBoundary` | app/models/sitrep_item.rb:12 | a row exactly 24 hours old is included and an older one is not |
| `GithubActivity.FetchOrgEvents` | app/services/github_activity_service.rb:40-46 | exactly the events created at or after the cutoff; none when the request failed |
| `GithubActivity.FetchActiveRepos` | app/services/github_activity_service.rb:56-62 | exactly the repositories pushed at or after the cutoff; none when the request failed |
| `GithubActivity.RepoFilterKeepsOrder` | app/services/github_activity_service.rb:59 | the repository filter keeps the received order: it distributes over concatenation |
| `GithubActivity.EventFilterKeepsOrder` | app/services/github_activity_service.rb:43 | the time filter keeps the events' order |
| `GithubActivity.GroupKeys` | app/services/github_activity_service.rb:69 | the group keys are distinct, and every event's key is one, and each has an event |
| `GithubActivity.GroupKeysFirstSeen` | app/services/github_activity_service.rb:69 | the keys come in first-seen order: an event with a later key is preceded by an event with each earlier key |
| `GithubActivity.GroupBy` | app/services/github_activity_service.rb:69-72 | one non-empty group per key, in the key order of `GroupKeys` (first-seen order, by `GroupKeysFirstSeen`) |
| `GithubActivity.GroupMembers` | app/services/github_activity_service.rb:69 | a group holds exactly the events with its (repository, type) key |
| `GithubActivity.GroupOfEvent` | app/services/github_activity_service.rb:69 | every event lands in the group of its key |
| `GithubActivity.GroupHeadIsFirst` | app/services/github_activity_service.rb:74 | a group's representative is the earliest received event with that key |
| `GithubActivity.ShortRepoNameOf` | app/services/github_activity_service.rb:115 | the repository name is the part after the `/` |
| `GithubActivity.PushTitleNumber` | app/services/github_activity_service.rb:119 | "commit" for exactly one, "commits" otherwise, zero included |
| `GithubActivity.TicketBody` | app/services/github_activity_service.rb:140-161 | a nil body gives the default; a body is cut to 200 characters, unchanged when already short |
| `GithubActivity.PullRequestIdIgnoresEventId` | app/services/github_activity_service.rb:138 | a PR item's id depends on the PR id and action only, not on the event id |
| `GithubActivity.CollectStep` | app/services/github_activity_service.rb:71-89 | one group of the loop: its item is appended, nothing is, or its error ends the loop |
| `GithubActivity.CollectSpec` | app/services/github_activity_service.rb:71-89 | the loop succeeds iff every group does, and the items are exactly the groups' items, in order |
| `GithubActivity.CollectAll` | app/services/github_activity_service.rb:71-89 | a property of every group's item holds of every collected item |
| `GithubActivity.ProcessEvents` | app/services/github_activity_service.rb:65-90 | the loop over groups returns `EventItems` of the events |
| `GithubActivity.YieldsIffSupported` | app/services/github_activity_service.rb:76-86 | a group yields an item iff its type is push, pull request, issues or create |
| `GithubActivity.ItemsOfGroupsSpec` | app/services/github_activity_service.rb:71-89 | one item per supported group, in group order, each that group's own item; fails iff a formatter fails |
| `GithubActivity.ItemsOfGroupsCount` | app/services/github_activity_service.rb:71-89 | as many event items as supported groups, so no more than groups |
| `GithubActivity.PushGroupItem` | app/services/github_activity_service.rb:77-128 | a push item is named after the first event, counts the commits of the whole group and is titled with that count |
| `GithubActivity.SumCommitsAppend` | app/services/github_activity_service.rb:78 | commit counts add up over concatenated groups |
| `GithubActivity.TicketItemBody` | app/services/github_activity_service.rb:131-171 | PR and issue item bodies: default when nil, at most 200 characters, unchanged when short |
| `GithubActivity.RepoItems` | app/services/github_activity_service.rb:92-108 | exactly one item per repository, in order |
| `GithubActivity.RepoExternalIdInjective` | app/services/github_activity_service.rb:96 | a repository item's id determines the repository id and push time |
| `GithubActivity.Concat` | app/services/github_activity_service.rb:21-25 | the event items followed by the repository items, or the event error |
| `GithubActivity.FetchRecentActivity` | app/services/github_activity_service.rb:16-28 | the imperative concatenation returns `ActivityItems` |
| `GithubActivity.GroupItemIsGithub` | app/services/github_activity_service.rb:114-190 | every formatted event item has type `github` and a `github-` id |
| `GithubActivity.EventItemsAreGithub` | app/services/github_activity_service.rb:65-90 | every event item is a GitHub item |
| `GithubActivity.RepoItemIsGithub` | app/services/github_activity_service.rb:92-108 | every repository item is a GitHub item |
| `GithubActivity.ActivityItemsShape` | app/services/github_activity_service.rb:16-28 | succeeds iff the event items do; one item per supported group, then the repository items last, in order |
| `GithubActivity.ActivityItemsAreGithub` | app/services/github_activity_service.rb:16-28 | every item returned is a GitHub item |
| `Bech32.Pow2Add` | app/services/nostr_feed_service.rb:66 | powers of two multiply by adding exponents |
| `Bech32.ToBytesOfFromDigits` | app/services/nostr_feed_service.rb:66-67 | reading bytes as a number and writing it back gives the bytes |
| `Bech32.AbsorbStep` | app/services/nostr_feed_service.rb:66 | taking in a 5-bit group keeps the accumulator invariant of `convert_bits` |
| `Bech32.EmitStep` | app/services/nostr_feed_service.rb:66 | emitting a byte keeps the accumulator invariant |
| `Bech32.FinishStep` | app/services/nostr_feed_service.rb:66 | without padding, leftover bits of 5 or more, or non-zero, fail |
| `Bech32.ConvertBits` | app/services/nostr_feed_service.rb:66 | the regrouping loop returns `Regrouped` of the groups |
| `Bech32.RegroupedValue` | app/services/nostr_feed_service.rb:66 | a successful regrouping gives `5n/8` bytes carrying exactly the groups' bits, the leftover bits zero |
| `Bech32.Hex` | app/services/nostr_feed_service.rb:67 | two lowercase hex digits per byte |
| `Bech32.UnhexOfHex` | app/services/nostr_feed_service.rb:67 | the hex text decodes back to the bytes |
| `Bech32.NpubKey` | app/services/nostr_feed_service.rb:60-71 | no key unless the decoded prefix is `npub`; a key is hex digits |
| `Bech32.NpubToHex` | app/services/nostr_feed_service.rb:60-71 | the conversion returns `NpubKey` of the decoder's result |
| `Bech32.NpubKeyLength` | app/services/nostr_feed_service.rb:60-71 | 52 groups of an `npub` give a 64-digit key whose bytes carry the groups' value |
| `Bech32.OnlyNpubHasKey` | app/services/nostr_feed_service.rb:64 | a key exists only for the `npub` prefix and a regrouping that succeeds |
| `NostrFeed.ReqMessage` | app/services/nostr_feed_service.rb:82-92 | exactly three elements `["REQ", sid, filter]`, the filter holding exactly the four members `authors: [hex]`, `kinds: [1]`, `since` and `limit: 50` |
| `NostrFeed.CloseMessage` | app/services/nostr_feed_service.rb:99 | exactly the two elements `["CLOSE", sid]` |
| `NostrFeed.CloseMatchesReq` | app/services/nostr_feed_service.rb:82-100 | a `CLOSE` names its subscription, a `REQ` closes nothing, and distinct ids give distinct `CLOSE`s |
| `NostrFeed.AddEvent` | app/services/nostr_feed_service.rb:112 | an event is appended iff no collected event has its id |
| `NostrFeed.DeliverKeeps` | app/services/nostr_feed_service.rb:107-120 | handling a message keeps ids distinct and collected events in first-arrival order |
| `NostrFeed.NonEventKeepsEvents` | app/services/nostr_feed_service.rb:110-120 | `EOSE`, other verbs, an `EVENT` with no third element and unparsable text leave the events unchanged |
| `NostrFeed.Disconnect` | app/services/nostr_feed_service.rb:123-135 | the counter drops by one, and the loop stops iff it is then at most zero |
| `NostrFeed.Step` | app/services/nostr_feed_service.rb:76-135 | +1 on open, -1 on close or error, stop when at most zero, a raise iff the message cannot be indexed, events change only on a message |
| `NostrFeed.ReqSentExtends` | app/services/nostr_feed_service.rb:94 | a sent `REQ` stays sent |
| `NostrFeed.StepKeepsClosesMatched` | app/services/nostr_feed_service.rb:82-102 | every `CLOSE` sent follows the `REQ` with the same subscription on that relay |
| `NostrFeed.RunKeeps` | app/services/nostr_feed_service.rb:30-135 | the loop keeps ids distinct, never drops or reorders events, and keeps `CLOSE`s matched |
| `NostrFeed.ErrorBeforeOpen` | app/services/nostr_feed_service.rb:131-134 | an error before any open drives the counter to -1 and stops the loop |
| `NostrFeed.HashtagAnyCase` | app/services/nostr_feed_service.rb:44-46 | a note is kept iff its content is present and holds `#11bdev` in some letter case |
| `NostrFeed.FilterHashtag` | app/services/nostr_feed_service.rb:44-46 | exactly the tagged events, in order |
| `NostrFeed.FormatNote` | app/services/nostr_feed_service.rb:138-156 | type `nostr`, id `nostr-<id>`, url `https://njump.me/<id>`, content at most 300 characters (nil is empty), time `created_at.to_i` |
| `NostrFeed.NotesValid` | app/services/nostr_feed_service.rb:44-52 | every note item passes the sitrep validations and formats a tagged collected event |
| `NostrFeed.FetchedNotesValid` | app/services/nostr_feed_service.rb:24-56 | no items when the key does not decode; otherwise only valid `nostr-` items |
| `NostrFeed.NostrFeedService.constructor` | app/services/nostr_feed_service.rb:17-22 | the key is `NpubKey` of the decoder's result, with no events and no connections |
| `NostrFeed.NostrFeedService.OnOpen` | app/services/nostr_feed_service.rb:76-95 | counter +1 and the `REQ` sent on that relay |
| `NostrFeed.NostrFeedService.OnMessage` | app/services/nostr_feed_service.rb:105-121 | events become `Deliver` of the message; a raise iff it cannot be indexed |
| `NostrFeed.NostrFeedService.OnLinger` | app/services/nostr_feed_service.rb:98-102 | the `CLOSE` for that relay's subscription is sent |
| `NostrFeed.NostrFeedService.OnDisconnect` | app/services/nostr_feed_service.rb:123-135 | counter -1, stop iff at most zero |
| `NostrFeed.NostrFeedService.FetchRecentPosts` | app/services/nostr_feed_service.rb:24-56 | no key: nothing is contacted and nothing returned; otherwise the signals are handled until a stop, then the tagged notes are formatted, or none if a handler raised |
| `RefreshSitrepJob.UpsertAllSpec` | app/jobs/refresh_sitrep_job.rb:25-38 | saved + skipped is at most the item count, the table stays valid, and rows are only appended |
| `RefreshSitrepJob.EveryItemCounted` | app/jobs/refresh_sitrep_job.rb:25-38 | with no raise, every item is counted exactly once |
| `RefreshSitrepJob.FindInPrefix` | app/jobs/refresh_sitrep_job.rb:27 | a stored id stays found when rows are appended |
| `RefreshSitrepJob.UpsertAllStores` | app/jobs/refresh_sitrep_job.rb:25-38 | after a run with no raise, every valid item's id is stored |
| `RefreshSitrepJob.StoredItemsAddNothing` | app/jobs/refresh_sitrep_job.rb:27 | items whose ids are already stored add no rows |
| `RefreshSitrepJob.SecondRunAddsNothing` | app/jobs/refresh_sitrep_job.rb:25-38 | running the same items again adds no rows |
| `RefreshSitrepJob.SourcesDisjoint` | app/jobs/refresh_sitrep_job.rb:20 | a GitHub item and a Nostr item never share an id |
| `RefreshSitrepJob.AfterRun` | app/jobs/refresh_sitrep_job.rb:25-49 | the upserts then the prune: the counts are the loop's, and `deleted` plus the kept rows is the table's size |
| `RefreshSitrepJob.PruneBoundary` | app/jobs/refresh_sitrep_job.rb:41 | kept rows are at most 30 days old, and a row exactly 30 days old is kept |
| `RefreshSitrepJob.UpsertAllStep` | app/jobs/refresh_sitrep_job.rb:25-38 | one more item of the loop is one more upsert, tallied |
| `RefreshSitrepJob.UpsertItem` | app/jobs/refresh_sitrep_job.rb:26-37 | saved +1 when persisted, skipped +1 when not, neither when the insert raises |
| `RefreshSitrepJob.UpsertItems` | app/jobs/refresh_sitrep_job.rb:25-38 | the loop's table and counts are `UpsertAll` of the items |
| `RefreshSitrepJob.Perform` | app/jobs/refresh_sitrep_job.rb:4-50 | a GitHub formatter error aborts with the table unchanged; otherwise the GitHub then Nostr items are upserted, old rows pruned, and `{saved, skipped, deleted}` returned |
| `RefreshSitrepJob.FetchNostr` | app/jobs/refresh_sitrep_job.rb:14-15 | a fresh service's fetch yields `FetchedNotes` of the key and the relay trace |
| `RefreshSitrepJob.UpsertAndPrune` | app/jobs/refresh_sitrep_job.rb:20-48 | the table and the report are those of `AfterRun`: the upsert loop, then the 30-day prune |
| `Posts.TagParts` | app/models/post.rb:16-18 | every tag is stripped, not blank and comma-free |
| `Posts.TagPartsDropNul` | app/models/post.rb:16-18 | `strip` removes NUL, so a part that is only a NUL is dropped |
| `Posts.TagPartsOfTags` | app/models/post.rb:16-22 | splitting tags joined by commas gives the tags back |
| `Posts.FilterKeepsAll` | app/models/post.rb:17 | dropping blanks keeps every tag |
| `Posts.TagListRoundTrip` | app/models/post.rb:16-68 | after saving a value, `tag_list` is its normalised parts, and normalising again changes nothing |
| `Posts.PublishedScopeAgrees` | app/models/post.rb:8-31 | the `published` scope holds exactly the rows `published?` accepts |
| `Posts.Excerpt` | app/models/post.rb:45-47 | at most 200 characters, nil is empty, unchanged when short, keeping the prefix otherwise |
| `Posts.Post.constructor` | app/models/post.rb:1 | a new, unsaved post with the given attributes |
| `Posts.Post.SetTitle` | app/models/post.rb:11 | only the title changes |
| `Posts.Post.SetPublished` | app/models/post.rb:35-39 | only the published flag changes |
| `Posts.Post.AssignTagList` | app/models/post.rb:20-22 | only the cached tag list changes |
| `Posts.Post.GenerateSlug` | app/models/post.rb:56-58 | the slug is regenerated only when the title changed and is present |
| `Posts.Post.SetDefaultAuthor` | app/models/post.rb:60-62 | a blank author becomes "Tim", another stays |
| `Posts.Post.SerializeTags` | app/models/post.rb:64-68 | tags are rewritten only when a tag list was assigned, to its normalised form |
| `Posts.Post.SetPublishedAt` | app/models/post.rb:35-39 | `published_at` is set to now only when `published` changes to true and it is blank; never overwritten |
| `Posts.Post.Save` | app/models/post.rb:4-68 | the callbacks in Rails order; saved iff title, content and a unique slug are present; the before-save callbacks apply only when saved |
| `Projects.Featured` | app/models/project.rb:9 | exactly the featured rows |
| `Projects.Published` | app/models/project.rb:10 | exactly the published rows |
| `Projects.ToParam` | app/models/project.rb:12-14 | the decimal id, `-`, the parameterised title; none when the title is nil |
| `Projects.Excerpt` | app/models/project.rb:20-22 | the description cut to 200 characters, nil is empty |
| `Projects.DescriptionHtml` | app/models/project.rb:24-26 | the description, or empty when nil |
| `Projects.ValidExcerpt` | app/models/project.rb:5-22 | a valid project's excerpt is never empty |
| `ProjectsController.Index` | app/controllers/projects_controller.rb:3 | a permutation of the published projects, most recently updated first |
| `ProjectsController.IdSegment` | app/controllers/projects_controller.rb:7 | the part before the first `-` |
| `ProjectsController.FindById` | app/controllers/projects_controller.rb:8 | a row with the id, or none has it |
| `ProjectsController.Show` | app/controllers/projects_controller.rb:6-9 | a published project whose id the segment casts to is found, and only such a project |
| `ProjectsController.DashlessParam` | app/controllers/projects_controller.rb:7 | a parameter with no dash is used whole |
| `ProjectsController.FirstSegment` | app/controllers/projects_controller.rb:7 | whatever follows the first dash is ignored |
| `ProjectsController.ShowOfToParam` | app/controllers/projects_controller.rb:7-8 | `show` of a published project's `to_param` finds that project |
| `ProjectsController.UnpublishedHidden` | app/controllers/projects_controller.rb:8 | an unpublished project is never shown |
| `AdminProjectsController.Index` | app/controllers/admin/projects_controller.rb:5 | every project, a permutation sorted by ascending position, nil first |
| `AdminProjectsController.LastIndex` | app/controllers/admin/projects_controller.rb:38 | the last index of an id in the order, or it is absent |
| `AdminProjectsController.Reordered` | app/controllers/admin/projects_controller.rb:38-39 | one row per row, each repositioned by the order |
| `AdminProjectsController.RepositionedKeeps` | app/controllers/admin/projects_controller.rb:39 | only positions change; an unlisted row keeps its position |
| `AdminProjectsController.RepositionedLast` | app/controllers/admin/projects_controller.rb:38-39 | a listed id at last index i gets position i + 1, so the later occurrence wins |
| `AdminProjectsController.ReorderedStep` | app/controllers/admin/projects_controller.rb:38-39 | one more id of the order updates its rows to the next position |
| `AdminProjectsController.ProjectTable.Reorder` | app/controllers/admin/projects_controller.rb:37-42 | the loop's table is `Reordered` of the order |
| `Testimonials.Featured` | app/models/testimonial.rb:7 | exactly the featured rows |
| `Testimonials.DisplayName` | app/models/testimonial.rb:9-11 | "client, company" when the company is present, the client name otherwise |
| `Testimonials.DisplayNameOfValid` | app/models/testimonial.rb:4-11 | a valid testimonial's name starts with the client name, and is just that name iff the company is blank |

## Left out

- HTTP requests (HTTParty, response status, JSON parsing) are left out. A response is an `Option` of the parsed list, and `None` stands for a failed request or a rescued error.
- The EventMachine and Faye event loop, its timers and the websocket client are left out. The handlers' firings are a trace of signals processed one at a time, and `EM.stop` takes effect at the next signal.
- `SecureRandom.hex(8)` is left out. The subscription id is a field of the `Opened` signal.
- `Bech32.decode` and its checksum are left out. The decoder's result is an input. `convert_bits` follows the BIP-173 reference algorithm with padding off.
- `Time.parse`, `Time.at`, `Time.current` and `n.days.ago` are left out. Times are integer seconds, and calendar or time-zone effects are not modelled.
- `String#parameterize` is a function parameter.
- JSON text rendering (`to_json`) is left out. Messages are modelled as JSON values.
- Nostr events with a non-hash payload, and content or ids that are not strings, are left out. They are records with optional fields. A relay message that is `null`, `true`, `false` or a float raises in `data[0]`; it is modelled as the rescue in `fetch_recent_posts`, which returns no items. An integer or a string message can be indexed and is ignored.
- `strip`, `blank?`, `to_i` and `downcase` cover ASCII only; Unicode white space and case folding are not modelled. `strip` removes NUL as well as white space, while `blank?` and `to_i` do not skip NUL; the model keeps that difference.
- Logging (`Rails.logger`), Markdown rendering (`content_html`), attachments (`featured_image_url`, `has_one_attached`) and the other CRUD actions of the admin controller are left out.
- `Post#to_param` (the slug) and the `recent` scope of posts are not modelled.
- `ProjectsController.Show`: the id cast follows `to_i` for a non-blank segment. A blank segment is not found. Database-specific casting beyond that is not modelled.
- `AdminProjectsController.ProjectTable.Reorder`: ids are integers. The string-to-integer cast of the posted ids is not modelled.
- `SitrepItems.FindOrCreate`: a concurrent insert racing on the unique index is not modelled. An insert failure is an input.
- `RefreshSitrepJob.Perform`: a GitHub formatter error (an event lacking its `pull_request` or `issue` object) aborts the job. Other exceptions raised inside the HTTP wrappers are modelled as an empty response.
- `AdminProjectsController.Index`: nil positions sort first, as SQLite and MySQL order NULL on `ASC`. PostgreSQL puts NULL last; that ordering is not modelled.
- `AdminProjectsController.ProjectTable.Reorder`: a request without an `order` parameter raises on `nil.each_with_index`. This error path is not modelled.
- `GithubActivity.RepoItems`: the `rescue` in `process_repos` only catches a `pushed_at` that `Time.parse` rejects. Timestamps arrive already parsed, so the model never takes that path.
