# Live-stream notifier: the polling core

This project models the decision core of a notifier. The notifier polls YouTube channels and posts one Discord webhook message per event. An event is one of these:

- a video that was announced as an upcoming broadcast and has now gone live;
- a normal upload published less than 55 seconds ago.

The program has no memory between runs except a watchlist of video ids (`data.json`). Each run of `script()` does the following:

1. reads the newest video id from each channel's feed (`getRSS`);
2. forms the duplicate-free union of the watchlist with those ids;
3. classifies the union with one metadata request (`getVidsDetails`) into `upcoming`, `live` and `none` (just published);
4. adds the upcoming ids to the watchlist;
5. notifies each live id that is on the watchlist and drops it from the list;
6. notifies every just-published id;
7. writes the list back only when the `update` flag is set.

The message for each notification (`sendNotify`) holds the role mentions for the channel and the title, followed by the watch link.

Modules, one per component (all files form one program):

- `feed.dfy` (`Feed`): the id extraction in `getRSS`. It is proved against a reference definition of the regular expression `<yt:videoId>([^<]+)</yt:videoId>`.
- `classifier.dfy` (`Classifier`): `getVidsDetails`. It is a method with a loop over the reply items, proved equal to the left fold `ClassifyAll`. The lemmas characterise each bucket.
- `notify.dfy` (`Notify`): the mention and message text of `sendNotify`. It is a method with a loop over the roles, proved equal to `Mention`/`Message`.
- `engine.dfy` (`Engine`): `script`. It is a method whose two `for...in` loops are the methods `NotifyLive` and `NotifyJustPublished`. All three are proved equal to the fold `Reconcile`. The lemmas state what a run does to the calls, the list and the flag, and what happens across two runs.
- `ordered_map.dfy` (`OrderedMap`): a JavaScript object as an insertion-ordered list of entries. `obj[k] = v` is `Put`; `for...in` follows the entry order.
- `seqs.dfy` (`Seqs`): `[...new Set(xs)]` (`InsertAll`, `Dedup`) and `filter` (`Without`, `Keep`).
- `wrappers.dfy` (`Wrappers`): `Option`. `None` stands for `false` from `getRSS` and for the empty object `{}` from `getVidsDetails`.

I/O is turned into parameters and results:
- `fetchFeed` answers each feed request (`None` when it throws).
- `stored` is the watchlist as read.
- `fetchDetails` answers the metadata request for the candidate ids.
- `now` is the clock.
- `Script` returns the `sendNotify` calls and their message bodies, the final `inList` and `update`, and `written`: the list written to `data.json`, or `None` when nothing is written.

Behaviour of the code worth knowing, as modelled:
- `update` is set whenever the `upcoming` bucket is non-empty, even if every id in it was already listed (app.js:164-166).
- A failed request, a missing `items` or an empty `items` makes `getVidsDetails` return `{}` (app.js:98-106), and `script` then returns at once without writing (app.js:160-162). A non-empty reply in which nothing qualifies gives three empty buckets, and the run goes on. Both end with no call and no write (`ReconcileNoBatch`, `ReconcileNothingQualifies`).
- The mention for a channel match is the bare `role_id`, with no separating space (app.js:125). Only a title match adds `" " + role_id` (app.js:128).

## Model

| member | source | states |
|---|---|---|
| `Feed.ExtractVideoId` | app.js:52-58 | the extracted id is non-empty and contains no `<` |
| `Feed.GetRss` | app.js:47-63 | a request that throws yields `false` (None); any id returned is non-empty and free of `<` |
| `Feed.RunEnd` | app.js:52 | the greedy `[^<]+` run starting at `j` ends at the first `<` after `j`, or at the end of the text |
| `Feed.RunEndAt` | app.js:52 | any end point with no `<` before it and a `<` (or the end of the text) at it is the one `RunEnd` finds |
| `Feed.MatchAtIff` | app.js:52 | trying the pattern at one position (greedy `[^<]+`, then the closing tag) succeeds with `id` exactly when the reference semantics of the pattern matches there, capturing `id` |
| `Feed.SearchFromSound` | app.js:52 | scanning from `p` returns the capture of the first position at or after `p` where the pattern matches, or nothing when it matches at no position from `p` on |
| `Feed.ExtractLeftmost` | app.js:52-55 | `getRSS` returns `id` if and only if `id` is the capture of the leftmost match in the feed |
| `Feed.ExtractNone` | app.js:52-58 | `getRSS` returns `false` if and only if the pattern matches nowhere in the feed |
| `Feed.ExtractFirstEntry` | app.js:52-55 | round trip: a feed starting with `<yt:videoId>id</yt:videoId>` yields `id` for any valid id and any rest |
| `Classifier.Classify` | app.js:78-105 | the result is `{}` exactly when the request failed, the reply has no items, or the items array is empty |
| `Classifier.GetVidsDetails` | app.js:66-107 | the `forEach` loop builds exactly the buckets of the fold `Classify` over the items |
| `Classifier.UpcomingMembers` | app.js:80-82 | an id is in `upcoming` iff some item with that id has live details and status `'upcoming'` |
| `Classifier.LiveMembers` | app.js:80-88 | an id is a key of `live` iff some item with that id has live details and status `'live'`; keys are distinct |
| `Classifier.NoneMembers` | app.js:89-95 | an id is a key of `none` iff some item with that id has no live details and `now - publishedTime < 55000`; keys are distinct |
| `Classifier.ClassifyAllMembers` | app.js:79-97 | the three membership rules together; any other status with live details, or an old upload, lands in no bucket |
| `Classifier.ClassifyAllLiveValue` | app.js:84-87 | a live entry holds the channel id and title of the last live item with that id |
| `Classifier.ClassifyAllNoneValue` | app.js:92-94 | a `none` entry holds the channel id of the last fresh item with that id |
| `Classifier.ClassifyAllDisjoint` | app.js:80-96 | with distinct item ids, no id is in two buckets |
| `Classifier.ClassifyEmpty` | app.js:78-105 | a failed request, a missing or an empty items array gives `{}`; a non-empty reply in which nothing qualifies gives three empty buckets |
| `Classifier.NothingQualifies` | app.js:79-98 | items that all fall outside the buckets leave the three buckets empty |
| `OrderedMap.Put` | app.js:84-87 | assigning a key keeps an existing key in place with the new value, or appends a new key; other keys are unaffected |
| `OrderedMap.PutNoDup` | app.js:92-94 | assignment keeps the keys of an object distinct |
| `Seqs.InsertAll` | app.js:156 | adding elements to an insertion-ordered set keeps the old elements as a prefix, adds exactly the new ones, and keeps it duplicate-free |
| `Seqs.Dedup` | app.js:165 | `[...new Set(xs)]` is duplicate-free and has exactly the elements of `xs` |
| `Seqs.DedupAppend` | app.js:165 | de-duplicating `a ++ b` with `a` duplicate-free is `a` followed by the new elements of `b` |
| `Seqs.UnionIdempotent` | app.js:165 | a second union with the same elements changes nothing |
| `Seqs.Without` | app.js:176 | `filter(item => item !== id)` removes every occurrence of `id` and keeps every other element |
| `Seqs.Keep` | app.js:176 | filtering out a list of ids keeps exactly the other elements and keeps the result duplicate-free |
| `Seqs.WithoutKeep` | app.js:176 | filtering out ids one at a time equals filtering out all of them at once |
| `Engine.Candidates` | app.js:156 | `idsToCheck` is duplicate-free and holds exactly the stored ids and the feed results, `false` included |
| `Engine.CandidatesOnce` | app.js:154-156 | every stored id and every feed result occurs exactly once; a duplicate-free stored list comes first, in order |
| `Engine.NotifyLive` | app.js:169-180 | the `live` loop makes exactly the state change of the fold over the live entries, and posts one message per call it adds |
| `Engine.NotifyJustPublished` | app.js:182-188 | the `none` loop makes exactly the state change of the fold over the `none` entries, and posts one message per call it adds |
| `Engine.Script` | app.js:152-192 | one run produces exactly the calls, list and flag of `Reconcile` applied to the classification of the candidate ids; each call's message is `Message`; the list is written if and only if `update` |
| `Engine.MergeUpcomingSpec` | app.js:164-167 | the list gains exactly the upcoming ids, loses none, keeps its order and stays duplicate-free; `update` is set whenever `upcoming` is non-empty, even if the list does not change |
| `Engine.MergeUpcomingIdempotent` | app.js:164-167 | merging the same upcoming ids twice gives the same state as merging them once |
| `Engine.FoldLiveCalls` | app.js:169-180 | the live loop makes the calls of `LiveCalls` and removes exactly the live ids from the list |
| `Engine.FoldLiveUpdate` | app.js:169-180 | the live loop sets `update` exactly when some live id was listed |
| `Engine.FoldLiveSpec` | app.js:169-180 | the live loop's calls, list and flag against the reference definitions |
| `Engine.FoldNoneSpec` | app.js:182-188 | the `none` loop appends one call per entry, with an empty title, and changes neither the list nor the flag |
| `Engine.LiveCallsCount` | app.js:171-178 | a live id causes exactly one call if the list holds it and none otherwise |
| `Engine.LiveCallsHas` | app.js:172-175 | a listed live id is notified with its channel id and title |
| `Engine.NoneCallsCount` | app.js:184-187 | each just-published id causes exactly one call |
| `Engine.ReconcileSpec` | app.js:158-188 | a run makes the live calls and then the just-published calls; the list is the merged list without the live ids; the flag is set iff there were upcoming ids or a stored id went live |
| `Engine.ReconcileNoBatch` | app.js:157-162 | a failed, itemless or empty metadata reply ends the run with no call, the list unchanged and no write |
| `Engine.ReconcileNothingQualifies` | app.js:78-98 | a non-empty reply in which nothing qualifies also ends with no call and no write |
| `Engine.ReconcileWatchlist` | app.js:164-180 | after a run the list holds exactly the stored and upcoming ids that are not live, and stays duplicate-free |
| `Engine.ReconcileLiveId` | app.js:169-180 | a live id is notified exactly once, with its channel and title, if it was listed or upcoming, and not at all otherwise; it is never in the list afterwards |
| `Engine.ReconcileNoneId` | app.js:182-188 | a just-published id is notified exactly once, with its channel and an empty title, whether listed or not |
| `Engine.ReconcileIdsLeaveOnlyWhenLive` | app.js:176 | a stored id missing after the run was live and was notified |
| `Engine.ReconcileQuiet` | app.js:164-192 | with no upcoming ids, no listed live id and nothing just published, the run changes nothing and writes nothing |
| `Engine.NoUpdateNoChange` | app.js:164-191 | every change to the list sets `update` (app.js:165-166, 176-177): a run that does not write leaves the list equal to the stored one, so the list the next run reads is always the run's final list |
| `Engine.NotifyOnceAcrossRuns` | app.js:169-191 | after a live id has been notified, the next run, starting from what the first run persisted, does not notify it again while it is only live |
| `Engine.ScenarioUpcoming` | app.js:164-167 | watchlist `[]`, upcoming `v1`: list `[v1]`, no call, update set |
| `Engine.ScenarioListedGoesLive` | app.js:169-180 | watchlist `[v1]`, `v1` live: one call `(c1, v1, Stream)`, list `[]`, update set |
| `Engine.ScenarioUnlistedGoesLive` | app.js:169-180 | watchlist `[]`, `v9` live: no call, list `[]`, no update |
| `Engine.ScenarioJustPublished` | app.js:182-188 | `v5` just published: one call `(c2, v5, "")`, list and flag unchanged |
| `Engine.Messages` | app.js:175-186 | one message body per notification call; the `i`-th body is the `sendNotify` message of the `i`-th call |
| `Engine.LatestIdsSpec` | app.js:154 | `latestIds` has one entry per channel key; an entry is `false` when that feed request threw, and otherwise it is `id` exactly when `id` is the capture of the leftmost match in that feed |
| `Notify.SendNotify` | app.js:121-132 | the loop over roles builds exactly `Mention`, and the message is the mentions, `" \n https://youtu.be/"` and the video id |
| `Notify.ContainsIff` | app.js:127 | `title.includes(username)` holds iff `username` occurs at some position of `title` |
| `Notify.MentionAppend` | app.js:123-130 | the mentions of a roster are the mentions of its parts, in order |
| `Notify.MentionUnmatched` | app.js:123-130 | roles keyed to another channel whose username is absent from the title contribute nothing |
| `Notify.MentionUntitled` | app.js:121-130 | a call without a title mentions exactly its own channel's role id, when keys are distinct and no username is empty |
| `Notify.MentionTwice` | app.js:124-129 | a role matching by channel and by title is mentioned twice, `role_id + " " + role_id`; mentions are not de-duplicated |

## Left out

- HTTP calls: the axios requests for the feed, the video metadata and the webhook (app.js:50, 69, 134-149). Their answers are the parameters `fetchFeed` and `fetchDetails`. A posted message is a recorded call plus its body. The webhook's 204 check and its error handling only log, so they are not modelled.
- The watchlist file: reading and parsing `data.json` (`getUpcomingVids`, app.js:109-119) and writing it back (app.js:191). The parsed list is the parameter `stored`, and the write is the result `written`. A parse failure giving `[]` is the caller passing `[]`.
- Logging: `logMessage` and `getLogFilePath` (app.js:18-45), with their locale and time-zone formatting and stack inspection. They only write to a log.
- Time: `Date.now()` is the parameter `now`. The source reads the clock afresh for each item without live details inside the `forEach` (app.js:91); the model judges the whole reply against one `now`. `publishedAt` is given already converted to milliseconds. A date that fails to parse (NaN in the source, which never counts as fresh) is not modelled.
- Concurrency: `Promise.all` (app.js:154) is modelled as a map over the channel keys in order. The order of results is the same as in the source.
- Configuration: the dotenv reading of the API key, webhook URL and roles (app.js:5-10). The roles are an explicit sequence, and the channel list is their keys in order. Missing `role_id` or `username` fields (which JavaScript turns into `"undefined"`) are not modelled.
- JavaScript object key order: integer-like keys are enumerated before other keys. This is not modelled. Video ids are 11 characters long and are never array indices.
- Malformed metadata: an item without `snippet` would throw inside the `forEach`, and the whole reply would become `{}`. Items are always assumed well-formed.
- The request URL: `vIds.join(',')` turns a `false` candidate into the text `"false"`. The model hands the candidate list, `None` included, to `fetchDetails` unchanged.
- The outer `try/catch` of `script` (app.js:193-195): no modelled step throws.
- Classifier.ClassifyAllDisjoint: assumes the reply holds each id once, as the metadata service answers one item per requested id. With a repeated id in the reply, that id can land in two buckets.
- Engine.ReconcileLiveId: assumes the live id is not also a just-published id. The classifier guarantees this for replies with distinct ids (`ClassifyAllDisjoint`).
- Engine.ReconcileNoneId: assumes the just-published id is not also a live id. The classifier guarantees this for replies with distinct ids (`ClassifyAllDisjoint`).
