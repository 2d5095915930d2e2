# npsp2 — a Dafny model of the announcement bot's core

npsp2 is a chat bot for the Code Golf and Language Design Stack Exchange
sites. It watches the sites' real-time socket for new questions and for new
answers to the sandbox question, and posts each new item once in the sites'
chat rooms. It also covers socket downtime by reading the API. On the chat
side, it acknowledges mentions and replies and seeds its memory with the
items already linked in the room.

This project models the logic at the centre of that bot and proves what it
promises:

- **Registry** (`registry.dfy`): the four first-seen sets. There is one per
  feed: Code Golf, Code Golf Meta, Language Design and Language Design Meta.
  Every producer announces an item only when inserting it reports it as new.
  - `Snapshot` is the registry as a value.
  - The class `Ids` is the shared object the producers update.
- **Watch** (`watch.dfy`, `src/watch.rs`):
  - Reading the chat cooldown out of a 409 reply, and the two-attempt post.
  - The bounded probe loop that waits for an item to reach the API.
  - The socket dispatch table with its de-duplicating insert.
  - The reconciliation pass over five API listings, with its 20-second grace
    window.
  - The reconnect loop with its staggered first lifetime.
- **Chat** (`chat.dfy`, `src/chat.rs`):
  - The search for the chat start-up script, and the slicing of its
    acknowledgement list.
  - The acknowledgement set that makes every message acknowledged at most
    once, across reconnects.
  - Link collection over a message's HTML, and classification of link paths
    into item identifiers.
  - Seeding the registry from the room's history.
  - The filter on event types 8 and 18, the liveness watchdog, the
    connection lifetimes and the reconnect loop.
- **Login** (`login.dfy`, `src/login.rs`):
  - The three searches over a page: the `fkey` input, a logout link and the
    user identifier.
  - The two-hour freshness rule for stored credentials.
  - The order of the login steps, and the choice between reusing stored
    credentials and logging in.
- **LegacyLogin** (`legacy_login.dfy`, `login.rs`): the older two-account
  login.
  - Its searches, login sequence and freshness test are the same as in
    `src/login.rs` line for line, so it uses `Login`'s.
  - It adds one shared timestamp for both accounts and the joint
    reuse-or-login decision.
- **Config** (`config.dfy`, `src/config.rs`): linking a decoded
  configuration and resolving its routes.
- **Supporting modules**:
  - `Results` holds `Option` and `Result`.
  - `Strings` holds the Rust string operations the code uses, written out:
    `find`, `split_once`, `rsplit_once`, `split`, `trim_start`, `u8`/`u64`
    parsing and decimal rendering.
  - `Dom` holds the parsed HTML tree and the generic pre-order search all
    the tree walks share. Its two reference definitions:
    - `Frontier`: the elements a search stops at.
    - `Elements`: all elements.

How the model represents the program:

- A panic (`unwrap`, `panic!`) that the model covers is an explicit outcome of
  the operation, never a precondition. The panics it leaves out are listed
  under "Left out".
- A network response is a parameter, and so is the clock. A page is the
  parsed node forest, or `None` when the request or the parse fails.
- Where the program updates shared state step by step, the model is a method
  on a class. Examples: inserting into the registry, the acknowledgement
  set, the loops over socket messages and listings, and the reconnect loops.
  Each such method is proved against a function that gives its result and
  new state. The lemmas then prove the promised properties about that
  function.

## Model

| member | source | states |
|---|---|---|
| Registry.Snapshot.Add | src/main.rs:21-27 | inserting an id into one feed's set adds exactly it to that set and leaves the other three feeds unchanged |
| Registry.Snapshot.AddAll | src/chat.rs:172-178 | inserting a set of ids into one feed adds exactly those ids and leaves the other feeds unchanged |
| Registry.Ids.constructor | src/main.rs:53-59 | the registry starts with four empty sets |
| Registry.Ids.Observe | src/watch.rs:134 | `HashSet::insert` on a feed: the answer is true iff the id was not in that feed's set; the set gains the id; the other feeds are unchanged |
| Registry.Ids.ObserveAll | src/chat.rs:172-178 | inserting every id of a set one at a time leaves exactly the union in that feed |
| Registry.Record | src/watch.rs:257-265 | recording a sequence of sightings keeps what was there, contains every sighting, and adds nothing else |
| Registry.RecordAppend | src/watch.rs:257-307 | recording two sequences one after the other is recording their concatenation |
| Registry.Sequential | src/watch.rs:315-318 | two producers run one after the other, each announcing only first sightings, together announce only first sightings with no id announced twice |
| Strings.Find | src/chat.rs:91-92 | `str::find`: the index of the first occurrence of the pattern, and `None` exactly when it does not occur |
| Strings.FindFirst | src/chat.rs:91-92 | a pattern that occurs at `i` and at no earlier index is found at exactly `i` |
| Strings.SplitOnce | src/watch.rs:23 | `split_once`: the text before and after the first separator, where the part before has no separator, and `None` exactly when there is no separator |
| Strings.RSplitOnce | src/chat.rs:93 | `rsplit_once`: the parts around the last separator, where the part after has no separator, and `None` exactly when there is no separator |
| Strings.RSplitOnceOf | src/chat.rs:93 | a text whose last separator is followed by a separator-free tail splits into exactly the part before it and that tail |
| Strings.Split | src/chat.rs:96 | `split` gives at least one piece, and no piece contains the separator |
| Strings.JoinSplit | src/chat.rs:96 | joining the pieces of a split with the separator gives the original text back |
| Strings.SplitJoin | src/chat.rs:96 | splitting a join of separator-free pieces gives the pieces back |
| Strings.SplitOnceOf | src/login.rs:105 | a text whose first separator follows a separator-free prefix splits into exactly that prefix and the rest |
| Strings.TrimStartStrips | src/chat.rs:93 | `trim_start` drops exactly the leading run of Unicode white space: the result is a suffix, all dropped characters are white space, and the result does not start with white space |
| Strings.TrimStartOf | src/chat.rs:93 | white space followed by a text that does not start with white space trims to exactly that text |
| Strings.ParseUnsigned | src/watch.rs:23 | `parse::<u8>` and `parse::<u64>`: succeed exactly when the text is one or more ASCII digits, after at most one leading `+`, whose value is below the type's bound, and then give that value |
| Strings.Decimal | src/watch.rs:164 | `to_string` of an integer is a non-empty string of digits |
| Strings.DecimalValue | src/watch.rs:164 | the digits of `to_string(n)` denote `n` |
| Strings.ParseDecimal | src/watch.rs:23 | parsing a rendered number below the bound gives the number back |
| Dom.FirstHit | src/login.rs:70-78 | the first answer among the candidates in order: a `Some` result comes from some candidate with none before it answering; `None` exactly when no candidate answers |
| Dom.SearchIsFirstHit | src/login.rs:47-78 | the recursive early-return search over a forest equals the first answer among the elements where the walk stops, in pre-order |
| Dom.SearchNodeIsFirstHit | src/login.rs:47-65 | the same for the search from one node |
| Dom.SearchNodesFirstTree | src/login.rs:70-78 | the loop over the top-level trees returns the answer of the first tree whose search answers, and nothing exactly when no tree's search answers |
| Dom.FirstHitAppend | src/login.rs:70-76 | the first answer of a concatenation is the first part's answer if it has one, else the second part's |
| Dom.FrontierEmptyIff | src/login.rs:82-97 | every element where the walk stops passes the test, and the walk stops nowhere exactly when no element of the forest passes the test |
| Dom.FrontierOfEmptyIff | src/login.rs:82-92 | the same for one node |
| Dom.FrontierAppend | src/login.rs:70-76 | the stopping points of a concatenated forest are those of its parts, in order |
| Watch.SightingsAppend | src/watch.rs:257-307 | the sightings of concatenated announcement lists are the concatenated sightings |
| Watch.Extend | src/watch.rs:315-318 | two steps that each announce only first sightings and record exactly them compose into one such step |
| Watch.AccountedStep | src/watch.rs:134-140 | inserting one new id and announcing it, or doing nothing, is such a step |
| Watch.TryPost | src/watch.rs:12-29 | a cooldown or a panic is possible only for a failed 409 reply whose body starts with the 37-character cooldown sentence, and a cooldown fits in a `u8` |
| Watch.ReadCooldown | src/watch.rs:23 | the tail of a cooldown sentence never reads as "no cooldown": it gives a `u8` cooldown or a panic |
| Watch.CooldownRead | src/watch.rs:19-23 | a 409 reply "You can perform this action again in N ..." with N below 256 gives a cooldown of exactly N seconds |
| Watch.CooldownOverflowPanics | src/watch.rs:23 | the same reply with N of 256 or more panics in `parse::<u8>().unwrap()` |
| Watch.CooldownWithoutSpacePanics | src/watch.rs:23 | a cooldown sentence with no space after the number panics in `split_once(' ').unwrap()` |
| Watch.Post | src/watch.rs:31-40 | one attempt if the first attempt saw no cooldown. After a cooldown of N seconds: a sleep of N*1000+2000 ms and exactly one more attempt. A second cooldown panics through `xor(Some(0)).unwrap()` |
| Watch.WaitForApi | src/watch.rs:57-73 | returns at the first of at most 8 probes that sees the item, having slept 200 ms after each of the first four probes and 1000 ms after later ones; gives up (panics) exactly when all 8 probes fail |
| Watch.QuestionRoute | src/watch.rs:128-201 | exactly the four new-question topics have a route, each posted from the main account as a question link |
| Watch.Offer | src/watch.rs:134-140 | the key is inserted into the route's feed; it is announced exactly when the feed did not hold it, and reported as already seen exactly when it did |
| Watch.Handle | src/watch.rs:118-207 | a `hb` frame answers with a pong and changes nothing. A new id of one of the five topics is inserted and announced. A seen id changes nothing. An unknown action panics. Nothing but an announcement changes the registry |
| Watch.HandleComplete | src/watch.rs:128-206 | a new-question frame with an id announces it on its topic's route exactly when the feed does not hold it. An `answer-add` update on question 2140 does the same for the decimal answer id in the Code Golf Meta feed. Any other update on 2140 is ignored, and so is a non-text message |
| Watch.AnswerAddAnnouncesAnswer | src/watch.rs:155-171 | an `answer-add` update on question 2140 announces `https://codegolf.meta.stackexchange.com/a/<answerid>` from the sandbox account and records the id in the Code Golf Meta set |
| Watch.HandleTwice | src/watch.rs:134 | handling the same message again announces nothing and leaves the registry unchanged |
| Watch.Run | src/watch.rs:118-208 | the socket task handles every message, unless one panics, and then that panic is the last step handled |
| Watch.RunStep | src/watch.rs:118-121 | step k of the log is `Handle` of message k on the registry the messages before it left |
| Watch.RunFirstSightings | src/watch.rs:118-208 | a socket run announces only first sightings, none twice; the registry afterwards is the one before plus exactly what was announced; a panic is the last thing handled |
| Watch.HandleMessage | src/watch.rs:121-206 | the handler on the shared registry object computes exactly `Handle` of the registry before it |
| Watch.OfferTo | src/watch.rs:134-140 | insert then announce only if new, on the shared registry object |
| Watch.RunWatch | src/watch.rs:118-208 | the read loop on the shared registry object computes exactly `Run` and stops at the first panic |
| Watch.Reconcile | src/watch.rs:257-265 | one listing's loop announces at most one item per listing entry, only grows its own feed, and leaves the other feeds unchanged |
| Watch.ReconcileAnnouncesWindowed | src/watch.rs:257-265 | every item a reconciliation loop announces is an item of the listing created after `down_since - 20000` (strictly), announced without probing |
| Watch.ReconcileFirstSightings | src/watch.rs:257-265 | a reconciliation loop announces only first sightings and records exactly them |
| Watch.ReconcileCovers | src/watch.rs:257-265 | after a loop, every windowed item of the listing is recorded, and nothing recorded before is lost |
| Watch.ReconcileNothingNew | src/watch.rs:257-265 | a loop over items that are all recorded already announces nothing and changes nothing |
| Watch.ReconcileIdempotent | src/watch.rs:257-265 | re-running a loop over the same listing with the same or a later cut-off announces nothing and changes nothing |
| Watch.ReconcileUnfold | src/watch.rs:257-265 | one iteration of the loop at position i: insert the item if it is in the window, announce it if new, and go on |
| Watch.ReconcileFeed | src/watch.rs:257-265 | the loop on the shared registry object computes exactly `Reconcile` |
| Watch.ReconcileAll | src/watch.rs:249-310 | the loops in turn only grow the registry, and leave every feed no listing targets unchanged |
| Watch.ReconcileAllFirstSightings | src/watch.rs:249-310 | a whole `post_from_api` pass announces only first sightings and records exactly them |
| Watch.ReconcileAllCovers | src/watch.rs:249-310 | after a pass, every windowed item of all five listings is recorded in its feed |
| Watch.ReconcileAllNothingNew | src/watch.rs:249-310 | a pass over listings that are all covered already announces nothing |
| Watch.ReconcileAllIdempotent | src/watch.rs:249-310 | a second pass over the same listings, with the same or a later cut-off, announces nothing and changes nothing |
| Watch.PostFromApi | src/watch.rs:257-307 | the five loops in source order (codegolf, codegolf.meta, sandbox answers, languagedesign, languagedesign.meta) on the shared registry object |
| Watch.ConcatFive | src/watch.rs:257-307 | the concatenation of five announcement lists, in order |
| Watch.LoopsCompose | src/watch.rs:257-307 | loops run one after the other, each on the state the previous one left, make up one pass |
| Watch.WatchLifetimeMs | src/watch.rs:111-115 | a watch connection lives 720000 ms with the kill offset and 1440000 ms otherwise |
| Watch.WindowOfRound | src/watch.rs:258 | with the cut-off `now - 1200000` of src/watch.rs:316, a round reconciles exactly the items created less than 1220000 ms before `now` |
| Watch.WatchRoundRun | src/watch.rs:315-322 | a connection opens exactly when the listings and the connection arrive, with the lifetime for the flag, and a round that does not end the task opens one |
| Watch.WatchRoundAccounted | src/watch.rs:315-318 | a round announces only first sightings, none twice, and the registry afterwards records exactly them |
| Watch.WatchRoundCovers | src/watch.rs:316 | after a round whose listings arrived, every item of the five listings inside the round's window is recorded in its feed |
| Watch.WatchRounds | src/watch.rs:312-324 | connection k lives `WatchLifetimeMs(id == 1 && k == 0)`. There is at most one connection per round, and without a panic every round's listings and connection arrived |
| Watch.WatchRoundsAccounted | src/watch.rs:312-324 | over all rounds only first sightings are announced, none twice, and the registry records exactly them |
| Watch.WatchOnce | src/watch.rs:315-318 | one round on the shared registry computes exactly `WatchRoundRun`: `post_from_api` from `now - 1200000` over the five listings, then `Run` over the connection's messages. It announces only first sightings and records exactly them |
| Watch.WatchWs | src/watch.rs:312-324 | the reconnect loop computes exactly the fold `WatchRounds` over the rounds. Connection k lives `WatchLifetimeMs(id == 1 && k == 0)`, so only watcher 1's first connection is shortened. Without a panic every round connects. Only first sightings are announced |
| Chat.FindScript | src/chat.rs:51-85 | the first pre-order `script` element with exactly one child, where the walk does not descend into such a script, and the child is text containing `var chat = StartChat` |
| Chat.ScriptLeafIsOpaque | src/chat.rs:55-59 | a single-child script is never descended into: it yields its text if the text holds the marker, and nothing otherwise |
| Chat.AckIdList | src/chat.rs:91-96 | the ids read from the script's acknowledgement list contain no comma and no colon |
| Chat.AckIdListReadsLastLine | src/chat.rs:91-96 | after the marker and up to the first `);`, the last line, with its leading white space trimmed, is the object literal whose keys are read |
| Chat.AckIdListUnclosed | src/chat.rs:92 | a script with no `);` after the marker is `MissingAckBack` |
| Chat.AckIdListOnMarkerLine | src/chat.rs:93 | arguments with no line break before the `);` are `MissingAckBack` |
| Chat.DictKeys | src/chat.rs:95-96 | the keys of `{k:v,...}` contain no comma and no colon; `{}` has none; a malformed object panics |
| Chat.Keys | src/chat.rs:96 | cutting every pair at its first colon succeeds exactly when every pair has a colon, and then gives the part before it, pair by pair; a pair without a colon panics |
| Chat.KeysOfPairs | src/chat.rs:96 | cutting pairs built from colon-free keys gives the keys back |
| Chat.DictKeysOfLiteral | src/chat.rs:93-96 | the keys of an object literal `{k1:v1,...,kn:vn}` are read back exactly |
| Chat.AckSet.constructor | src/chat.rs:315 | the acknowledgement set starts empty, once per `chat_ws` |
| Chat.AckSet.Insert | src/chat.rs:99 | `insert` answers true exactly when the id was absent, and the set gains it |
| Chat.AcksNewCompose | src/chat.rs:320-322 | two rounds that each acknowledge only ids new to the set, none twice, together acknowledge only new ids, none twice |
| Chat.Acknowledge | src/chat.rs:98-107 | the set only grows, and every acknowledgement is a listed id that was not in the set |
| Chat.AcknowledgeOnce | src/chat.rs:98-107 | the set afterwards is the set before plus all ids. An id is acknowledged exactly when it is listed and was not in the set. No id is acknowledged twice |
| Chat.UntilMissing | src/chat.rs:98-99 | the ids before the first key that is not a `u64`, or all of them when every key parses, and whether such a key exists |
| Chat.AckUntilMissing | src/chat.rs:98-107 | the id loop on the shared set acknowledges exactly the new ids before the first bad key, and only ids new to the set |
| Chat.AckBackKeys | src/chat.rs:87-96 | the keys come from the first chat script on a page that loaded; a failed request or a missing script or list is an error; a malformed list is a panic |
| Chat.AckBackEnds | src/chat.rs:87-110 | a page, script or list fault ends `ack_back` with that error and acknowledges nothing. A normal end means every key parsed as a `u64` and is in the set. A bad-id end means some key does not parse |
| Chat.AckBackAcksNew | src/chat.rs:98-107 | `ack_back` acknowledges only ids new to the set, none twice, and the set gains exactly those |
| Chat.AckBack | src/chat.rs:50-111 | `ack_back` on the shared set: new ids are acknowledged once; the first bad key ends the call with an error after the acknowledgements before it |
| Chat.AnchorUrls | src/chat.rs:117-120 | an `a` element with an `href` adds at most one URL (none when the href does not resolve); a bare `href` panics in `unwrap` |
| Chat.LinkUrls | src/chat.rs:117-124 | the resolved hrefs of a sequence of anchors panic exactly when one anchor panics |
| Chat.LinkUrlsAppend | src/chat.rs:131-137 | the URLs of concatenated anchors are the concatenated URLs |
| Chat.UrlsFromDomSnoc | src/chat.rs:133-135 | collecting over one more top-level node appends that node's URLs |
| Chat.UrlsFromDomPrefixPanics | src/chat.rs:133-135 | a panic in a prefix of the forest is a panic of the whole collection |
| Chat.SearchLinks | src/chat.rs:114-129 | the recursive `search_node` appends, in pre-order, the resolved href of every `a` with an `href`, without descending into such anchors |
| Chat.SearchAll | src/chat.rs:113-138 | `urls_from_dom` collects exactly `LinkUrls` of the anchors where the walk stops, and panics exactly when one of them has a bare `href` |
| Chat.PathIds | src/chat.rs:147-157 | `questions/x` or `q/x` with 2 or 3 segments gives `{x}`; `questions/x/_/y` gives `{x, y}`; every other shape, `q/x/_/y` included, gives nothing |
| Chat.IdsOf | src/chat.rs:144 | a URL gives ids only when its domain equals the site exactly |
| Chat.UrlIdsOfNamed | src/chat.rs:140-163 | an id is collected exactly when some URL on the site names it |
| Chat.UrlIds | src/chat.rs:140-163 | the loop building the `HashSet` computes exactly that set |
| Chat.Seed | src/chat.rs:165-181 | seeding only adds ids, and never touches the Language Design feeds |
| Chat.LinkedFromTail | src/chat.rs:166 | an id linked from later events is linked from the whole history |
| Chat.SeedCoversLinks | src/chat.rs:165-181 | without a panic, every Code Golf id linked from a posted message (event type 1 with content) is in the Code Golf set, and every Code Golf Meta id is in the Meta set |
| Chat.SeedOnlyLinks | src/chat.rs:165-181 | every id in those sets afterwards was there before or is linked from a posted message on that site |
| Chat.KnownIds | src/chat.rs:165-181 | `known_ids` on the shared registry computes exactly `Seed` |
| Chat.EventTargets | src/chat.rs:269-282 | the message ids of exactly the events of type 8 or 18, in both directions |
| Chat.AckTargets | src/chat.rs:267-285 | the targets are exactly the message ids of the 8/18 events of the rooms' event lists, in both directions |
| Chat.Deliver | src/chat.rs:261-287 | handling one frame only appends acknowledgements |
| Chat.ChatRun | src/chat.rs:258-289 | a panicked handler stays as it is, and the set and the acknowledgement list only grow |
| Chat.DeliverAcksNew | src/chat.rs:272 | the acknowledgements one frame adds are ids new to the set, none twice |
| Chat.ChatRunAcksNew | src/chat.rs:258-289 | over a whole connection, acknowledgements are only ids new to the set, none twice |
| Chat.ChatRunAcksTargets | src/chat.rs:267-282 | every acknowledgement a connection makes is the message id of a type 8 or 18 event it received |
| Chat.ChatRunAcksComplete | src/chat.rs:267-279 | the message id of a type 8 or 18 event in a frame handled without a panic ends up in the set, and the connection acknowledges it when the set did not hold it |
| Chat.ChatRunExtends | src/chat.rs:258-289 | a connection never withdraws an acknowledgement |
| Chat.RefreshOnText | src/chat.rs:262-265 | every text frame refreshes the liveness timestamp to the time it arrived |
| Chat.ChatRunAppend | src/chat.rs:258-289 | handling messages in two batches is handling them in one |
| Chat.ChatSocket | src/chat.rs:257-291 | the read loop on the shared set computes exactly `ChatRun`, and acknowledges only new ids |
| Chat.FirstStale | src/chat.rs:240-248 | the first tick at which more than 45000 ms have passed since the last refresh |
| Chat.Watchdog | src/chat.rs:236-250 | the watchdog loop fires exactly at that first stale tick |
| Chat.SilenceCloses | src/chat.rs:240-248 | on a connection silent since `last`, the watchdog fires by `last + 45000 + 15000` |
| Chat.ChatLifetimeMs | src/chat.rs:228-232 | a chat connection lives 3600000 ms with the kill offset and 7200000 ms otherwise |
| Chat.ChatRoundRun | src/chat.rs:320-322 | a round opens a connection, with the lifetime for the flag, unless it ends the task, and it only grows the Code Golf feeds |
| Chat.ChatRoundAcksNew | src/chat.rs:320-322 | a round acknowledges only ids new to the set, none twice, and the set gains exactly those |
| Chat.ChatRounds | src/chat.rs:314-327 | connection k lives `ChatLifetimeMs(log_id == "sandbox" && k == 0)`. There is at most one connection per round, and one for every round without a panic. Only the Code Golf feeds grow |
| Chat.ChatRoundsAcksNew | src/chat.rs:314-327 | across all rounds through the one set, only ids new to it are acknowledged, none twice |
| Chat.ChatOnce | src/chat.rs:320-322 | one round on the shared set and registry computes exactly `ChatRoundRun`: `ack_back`, then seeding from the history, then the handler over the stream. Only new ids are acknowledged, the lifetime follows the flag, and only the Code Golf feeds grow |
| Chat.ChatWsLoop | src/chat.rs:319-327 | the reconnect loop on a given set computes exactly the fold `ChatRounds` |
| Chat.ChatWs | src/chat.rs:314-328 | computes exactly `ChatRounds` from an empty set. No message id is acknowledged twice. Only the sandbox task's first connection is shortened. Without a panic every round connects. Only the Code Golf feeds grow |
| Login.ExtractFkey | src/login.rs:46-79 | the `value` of the first `fkey` input where the walk stops. An input with no `value` attribute answers nothing, and the search goes on. `MissingFkey` when no input answers |
| Login.FkeyFromInput | src/login.rs:50-51 | an `fkey` input met first gives its value, or `""` when the value is bare |
| Login.FkeyInputWithoutValueSkipped | src/login.rs:50-51 | an `fkey` input without a `value` attribute is skipped, and the result is that of the rest of the page |
| Login.ContainsLogout | src/login.rs:81-98 | true exactly when some element of the page is an `a` whose `href` ends with `logout` |
| Login.ExtractUserId | src/login.rs:100-133 | the id from the first `/users/` link where the walk stops, with no `/` in it, or `MissingUserId` when there is no such link |
| Login.UserIdFromProfileLink | src/login.rs:104-105 | a first link `/users/<id>/<rest>` gives exactly `<id>` |
| Login.Fresh | src/login.rs:213-215 | stored credentials are fresh exactly when `stored <= now <= stored + 7200000`: an age of exactly two hours is accepted |
| Login.RetrieveCredentials | src/login.rs:206-218 | stored credentials are returned exactly when they exist and are fresh |
| Login.Authenticate | src/login.rs:135-180 | success needs the validation response to be exactly `Login-OK`, then a logout link on the second page; the identity is read from the favourite page; a logout failure implies `Login-OK` was seen |
| Login.ValidationFirst | src/login.rs:151-157 | a validation response other than `Login-OK` fails with that error whatever the later pages hold |
| Login.TryLogin | src/login.rs:135-186 | `try_login` succeeds exactly when the login sequence does, and stamps the credentials with the time |
| Login.LogIn | src/login.rs:225-259 | fresh credentials: load the cookie jar and reuse the stored key without logging in. Otherwise: log in, and on success store and use the new credentials |
| Login.StoredReusedForTwoHours | src/login.rs:238-246 | credentials stored at `now` are reused by every call up to `now + 7200000`, and one millisecond later the bot logs in again |
| LegacyLogin.RetrieveCredentials | login.rs:208-220 | the shared record is returned exactly when it exists and its one timestamp is fresh |
| LegacyLogin.LogInBoth | login.rs:227-282 | a fresh record reuses both keys. Otherwise main logs in, then sandbox; any failure aborts with nothing stored. On success both identities are stored under one timestamp |
| LegacyLogin.MainFailureWins | login.rs:254-255 | when the main login fails, its error is the result, whatever the sandbox pages hold |
| LegacyLogin.BothReusedTogether | login.rs:249-264 | both keys are reused together up to two hours after a joint login, and both accounts log in again one millisecond later |
| Config.DecodeRoute | src/config.rs:137-146 | an absent `forceUserClientForWatchSocket` is false |
| Config.Link | src/config.rs:53-65 | linking succeeds exactly when every visited route names a known user, and returns the configuration unchanged |
| Config.LinkReportsFirstUnknown | src/config.rs:54-59 | a failure names the first route, in iteration order, with an unknown user: ``missing user `U` in route `R` `` |
| Config.LinkChecksUsers | src/config.rs:53-65 | in any iteration order, linking succeeds exactly when every route's user exists |
| Config.RouteConfigs | src/config.rs:30-38 | one resolved route per route name, with the named user, socket and room and the copied force flag; a panic exactly when some name is undefined |
| Config.LinkedButUnresolvable | src/config.rs:32-34 | a configuration whose route names an undefined watch socket links and then panics when resolved |
| Config.RouteFault | src/config.rs:54-59 | the first undefined name of a route (user, then socket, then room); the user message is the original one |
| Config.LinkChecked | src/config.rs:53-65 | linking that checks all three names succeeds exactly when every visited route resolves |
| Config.CheckedLinkResolves | src/config.rs:30-38 | a configuration the checked linking accepts always resolves without a panic |
| Config.CheckedLinkStricter | src/config.rs:53-65 | whatever the checked linking accepts, the original linking accepts too |

## Left out

- HTTP requests, websockets, JSON decoding, HTML parsing and URL parsing are
  foreign libraries. Responses arrive as values:
  - a status and body;
  - a parsed node forest, or `None` when the request or the parse failed;
  - decoded frames and events;
  - resolved URLs, as a domain and path segments.
- The clock is a parameter, and so are the probe outcomes of
  `wait_for_api`. The sleeps appear only as their durations.
- Watch.Post: takes the outcome of each `try_post` rather than performing it.
  The reply-to-outcome step is `TryPost`.
- Concurrency is not modelled: `tokio::spawn`, `select!` and `abort`, and
  the mutexes. Consequences:
  - Which branch of `select!` ends a connection is an input: the messages
    read before the end.
  - The watchdog is modelled on its own, over the pings it observes.
  - The watch socket's and the chat socket's handlers are not interleaved
    with each other.
- Watch.Handle: records the decision to announce. The waiting and posting
  after it are modelled by `WaitForApi` and `Post`, but their panics are not
  threaded back into the handler's run.
- Watch.Reconcile, Watch.ReconcileAll, Watch.PostFromApi, Watch.WatchOnce:
  the `post` of each reconciliation loop (src/watch.rs:261-263) panics on a
  second cooldown (src/watch.rs:36-37). The loops record the announcement
  and go on, so that panic does not end the round. `Post` models it on its
  own.
- Watch.Handle: the `unwrap` on the pong send (src/watch.rs:126) is not
  modelled, and a pong always succeeds. A failed `is_on_api` request panics
  in `WaitForApi` (`ProbeFailed`), but that panic, like the others of
  waiting and posting, is not threaded into the handler's run.
- Watch.Payload, Watch.ApiItem: the answer and question ids are unbounded
  `nat` where the program decodes a `u64`. An id beyond it would fail to
  decode.
- The 2000 ms pause between rounds of `watch_ws` and `chat_ws` is not
  modelled. A round's time is an input.
- Watch.WatchWs, Chat.ChatWs: run over a finite list of rounds, where the
  program loops forever.
- `down_since - 20000` on `u128`: its underflow, for a clock under 20 seconds
  past the epoch, is not modelled. Integers are unbounded, and the window is
  compared as written.
- Chat.AckTargets: the `HashMap` of rooms in a frame is a sequence. Its
  iteration order is an input, not a property.
- Rust's byte-indexed string slicing is not modelled: a slice that is not on
  a character boundary would panic. Strings are sequences of characters.
- The acknowledgement POST requests are not modelled: their failures end
  `ack_back` with an error and the socket task with a panic. The model
  records only which ids are acknowledged.
- The cookie jar files are not modelled: saving them, and the files of
  stored credentials. A stored credential arrives as a value, `None` when
  missing or undecodable. Whether the stored cookie jar loads is a flag.
- Login.TryLogin, LegacyLogin.LogInBoth: the time stamped on stored
  credentials is the `now` of the call, where the program reads the clock
  again after the requests.
- Config: the accessors (`get_api_key`, `get_sites`, ...) only return
  references, so they are not modelled. The iteration order of the route map
  is a parameter.
- `src/main.rs` and `main.rs` are process wiring, and they are not part of
  this model. Of them, only the four feed sets of `Ids` are modelled.

## Findings

| source | as written | input that shows it | evidently intended | confidence | as-written member | corrected member |
|---|---|---|---|---|---|---|
| src/config.rs:53-65 | `link` checks only that each route's `user` exists, while `get_route_configs` (src/config.rs:32-34) `unwrap`s the lookups of `watch_socket` and `room` too | one route `main` with user `u` defined, watch socket `w` undefined and room `r` defined: `link` succeeds and `get_route_configs` panics | linking rejects every undefined name a route uses, so a linked configuration always resolves | high for the gap, medium for the intent; not executed | Config.LinkedButUnresolvable | Config.CheckedLinkResolves |
