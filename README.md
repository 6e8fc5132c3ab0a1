# clawchat core, modelled in Dafny

clawchat is a self-hosted chat between a person in a browser and an agent
process that talks to the server over HTTP. This project models the logic at
the centre of it and proves properties of that model:

- the server's event stream: the set of subscribers, `broadcast` and the
  heartbeat;
- the request decisions of the server's route handlers: content checks, the
  authentication gate, invite checks, the agent-notification outcome, the
  defaults of a new message and its push preview, the app-state and widget-log
  checks, the prompt ordering and the de-duplication of upload names;
- the SQLite tables, as an in-memory class whose methods are the statements;
- the chat client's feed: the event reducer, the merge of a refetched page,
  the splice of older history, the agent-status toast, the busy label and the
  grouping of internal messages;
- the widget protocol: the host page (`WidgetPage`), the runtime injected into
  the widget's iframe (both the wrapper's and the framework's), the HTML
  injection rewrite and the widget id hash;
- the widget frame's height clamp, the scroll compensation, block extraction,
  the launch URL, the display formats and the invite expiry text;
- the service worker's unread counter, notification defaults and click
  choice, the base64url key decoder, and the push-permission state of the
  client hook.

The model is built as follows:

- Code that changes state in place is a `class`. This covers the subscriber
  hub, the database, the feed signals, the injected runtimes, the widget page,
  the widget frame, the scroll container, the service worker and the push
  hook. Every method states its whole new state.
- Each loop in the source is a method with its invariants. Examples are
  `resolveFilename`, `extractWidgets`, `extractWidgetId`, `getGroup`,
  `mergeMessages`, the notification-click loop and the key decoder.
- Each such method is proved equal to a function, and the source's promises
  are proved about that function.
- Pure code is functions and lemmas.

The program's inputs are passed in as parameters:

- the time;
- fresh ids;
- the outcome of every `fetch`, `atob`-adjacent browser call, permission
  prompt or service-worker call;
- DOM measurements;
- the result of JSON parsing.

Each message the program posts is recorded in a sequence on its object.
Strings are sequences of Unicode scalar values. Where JavaScript counts or
slices UTF-16 units (the widget id hash, the push preview, the app-state size
limit) the model converts to code units explicitly with `Common.Utf16`.

Modules and the source files they model:

| module | file |
|---|---|
| Common, Sorting | shared helpers: options, JS truthiness, `trim`, decimal and base-36 text, filter, insertion sort |
| ChatTypes | `shared/src/index.ts`, `shared/src/widget.ts` |
| EventStream | `server/src/index.ts` |
| UploadNames | `server/src/index.ts` |
| ServerRoutes | `server/src/index.ts` |
| Store | `server/src/db.ts` |
| Feed | `client/src/Main.tsx` |
| HtmlInject | `client/src/widget/wrapper.ts`, `client/src/widgetFramework.ts` |
| GuestRuntime | the injected scripts of the same two files |
| WidgetId | `client/src/widgetFramework.ts` |
| WidgetParser | `client/src/widget/parser.ts` |
| WidgetPage | `client/src/WidgetPage.tsx` |
| WidgetFrame | `client/src/components/Widget.tsx` |
| ScrollAnchor | `client/src/scrollAnchor.ts` |
| Launcher | `client/src/widget/launcher.ts`, `client/src/index.tsx` |
| Format | `client/src/format.ts` |
| InviteFormat | `server/src/invite.ts` |
| Base64Url | `client/public/sw.js` and `client/src/hooks/usePushNotifications.ts` |
| ServiceWorker | `client/public/sw.js` |
| PushState | `client/src/hooks/usePushNotifications.ts` |

## How the files disagree, as the model follows them

The source files are modelled as written even where they disagree with each
other.

- `index.ts` imports `getMessage`, `getAppState`, `setAppState` and
  `createPushSubscription`, which `db.ts` does not define.
  - `Store.Database.GetMessage` is a plain lookup that loads a row the way
    `getMessages` does.
  - The app-state store stays abstract (`ServerRoutes.AppStatePost` returns
    the write it asks for).
- The messages table has no `type` or `name` column, so a message read back
  has neither.
  - `Store.StoredRoundTrip` proves this.
  - `ServerRoutes.StoredMessagesNotEditable` proves the consequence: with such
    a lookup, the PATCH route refuses every stored message as "internal".
- The app-state route of `index.ts` (lines 764-785) takes only `:appId` and
  broadcasts `{type: 'appStateUpdated', appId}` with no conversation.
  - The widget page (`WidgetPage.tsx`, lines 122-126) forwards an event only
    when its conversation equals the page's.
  - So the page never forwards one the server sends
    (`WidgetPage.ServerEventsNeverForwarded`).
- The shared `SSEEventType` has no `AGENT_STATE`. The client's
  `case SSEEventType.AGENT_STATE` is therefore `case undefined`, taken by
  events without a `type` field (`ChatTypes.Event.Untyped`).
- The invite command passes 24 hours to `createInvite()`, which takes no
  argument. So invites still last 5 minutes (`Store.Database.CreateInvite`),
  while the command prints "24 hours" (`InviteFormat.ExpiryExamples`).
- `GET /api/messages` in `index.ts` (lines 597-599) answers with the bare
  array of all messages and ignores `before` and `around`. The client
  (`Main.tsx`, lines 106-112, 155-172 and 180-204) reads `messages` and
  `hasMore` from that answer.
  - The model follows the client: the `Page` passed to
    `Feed.FeedState.Refresh`, `Feed.FeedState.FinishLoadOlder` and
    `Feed.FeedState.FinishScrollFetch` has the shape the client expects.
    Against the server as written, `messages` would be undefined.
- `Main.tsx` (line 14) imports `initScrollTracking` and `scrollToBottom` from
  `./scrollAnchor`, which exports neither. No modelled code calls
  `compensateScroll` or `stayAtBottomIfNeeded`. `ScrollAnchor` models the two
  functions as `scrollAnchor.ts` defines them, for whatever caller uses them.
- By its source text, `WidgetMessageType` and `WidgetApi.appAction`,
  `.widgetError` and `.events` are not in the shared package. The model gives
  the message kinds their evident meaning, and the API paths are not modelled.

## Model

| member | source | states |
|---|---|---|
| `Common.TrimShape` | server/src/index.ts:120 | `trim` cuts off only leading and trailing whitespace, leaving a slice that neither starts nor ends with whitespace |
| `Common.TrimIdempotent` | server/src/index.ts:165 | trimming twice is trimming once |
| `Common.TrimEmptyIffBlank` | server/src/index.ts:157 | the trimmed text is empty exactly when every character is whitespace |
| `Common.ContainsIff` | server/src/index.ts:798 | `includes` holds exactly when the pattern occurs at some index |
| `Common.ParseNatToRadix` | client/src/widgetFramework.ts:108 | the base-36 (or decimal) text of a number reads back as that number |
| `Common.NatToRadixInjective` | client/src/widgetFramework.ts:108 | distinct numbers have distinct texts |
| `Common.Filter` | server/src/index.ts:681 | the kept elements are the elements satisfying the test, with their multiplicities, as a subsequence |
| `Sorting.Sort` | server/src/index.ts:682-690 | the result is a permutation of the input, sorted by any total preorder |
| `ChatTypes.TypeTag` | shared/src/widget.ts:8-16 | only an untyped event lacks a `type` tag |
| `ChatTypes.TypeTagInjective` | shared/src/widget.ts:8-16 | equal tags mean the same kind of event, so the client's dispatch recovers what the server sent |
| `EventStream.DataFrame` | server/src/index.ts:104 | a broadcast frame is `data: `, the JSON text and a blank line |
| `EventStream.DataFrameRoundTrip` | server/src/index.ts:104 | an event-stream reader gets the JSON text back from the frame |
| `EventStream.HeartbeatIsNotData` | server/src/index.ts:110 | the heartbeat is a comment and carries no data |
| `EventStream.ProbeEvent` | server/src/index.ts:586-593 | the status event the health probe writes to the new subscriber is connected iff the probe answered ok, with "Agent unreachable" when it failed or timed out |
| `EventStream.Hub.constructor` | server/src/index.ts:101 | no subscribers at start |
| `EventStream.Hub.Connect` | server/src/index.ts:582 | a new subscriber joins the set with an empty stream |
| `EventStream.Hub.Close` | server/src/index.ts:583 | closing removes exactly that subscriber |
| `EventStream.Hub.Write` | server/src/index.ts:589 | a write reaches only that subscriber, and only while it is connected |
| `EventStream.Hub.WriteAll` | server/src/index.ts:105 | every connected subscriber receives the chunk once; closed streams are untouched |
| `EventStream.Hub.Broadcast` | server/src/index.ts:103-106 | every connected subscriber receives the same one frame |
| `EventStream.Hub.Heartbeat` | server/src/index.ts:109-111 | every connected subscriber receives one heartbeat |
| `UploadNames.LastDot` | server/src/index.ts:77 | the last `.` of the name, or none |
| `UploadNames.Ext` | server/src/index.ts:77 | `extname`: a suffix that is empty or a dot with no dot after it, empty for dot-files and names without a dot |
| `UploadNames.ExtExamples` | server/src/index.ts:77 | `extname` of "report.txt", "archive.tar.gz" and "..." is ".txt", ".gz" and "." |
| `UploadNames.NoExtExamples` | server/src/index.ts:77 | ".." and "README" have no extension |
| `UploadNames.DotFileExample` | server/src/index.ts:77 | a dot-file such as ".bashrc" has no extension |
| `UploadNames.Base` | server/src/index.ts:78 | base and extension put back together give the name |
| `UploadNames.Candidate` | server/src/index.ts:82 | a candidate name is longer than the original |
| `UploadNames.CandidateInjective` | server/src/index.ts:82 | different counters give different candidate names |
| `UploadNames.ResolveFilename` | server/src/index.ts:76-86 | the name is not taken; it is the original when free, else `base(n)ext` for the least n >= 2 that is free |
| `ServerRoutes.CheckContent` | server/src/index.ts:157 | content passes iff it is a string with a non-whitespace character, and what passes is the trimmed, non-empty text |
| `ServerRoutes.CheckedContentIsTrimmed` | server/src/index.ts:165 | the second trim in `createMessage` changes nothing |
| `ServerRoutes.Send` | server/src/index.ts:155-167 | `/send` replies 400 exactly when the content check fails; otherwise it clears typing iff the type is absent or 'message' and hands on the trimmed content |
| `ServerRoutes.PatchLetsBlankThrough` | server/src/index.ts:240-244 | PATCH accepts blank text and stores it as an empty content, where the creation check refuses the same text |
| `ServerRoutes.Patch` | server/src/index.ts:234-244 | PATCH: 404 for a missing message, 400 for a non-'message' type, 400 for non-string content, and otherwise the trimmed content is stored |
| `ServerRoutes.StoredMessagesNotEditable` | server/src/index.ts:236-238 | a message loaded from the store has no type, so PATCH refuses it |
| `ServerRoutes.NewMessage` | server/src/index.ts:114-124 | a new message has the fresh id, the time, the trimmed content, conversation 'default' and type 'message' unless given |
| `ServerRoutes.SendsPushIff` | server/src/index.ts:128 | a push is sent exactly for agent messages whose type is absent or 'message' |
| `ServerRoutes.CreateMessage` | server/src/index.ts:114-138 | the new message is inserted, a duplicate id changes nothing; one `message` event is broadcast to every open connection; a push carrying the preview of the untrimmed content is made exactly for regular agent messages |
| `ServerRoutes.Preview` | server/src/index.ts:129 | the preview, in UTF-16 code units, is the content when at most 100 units long, else its first 100 units and "..." |
| `ServerRoutes.PreviewOfBmp` | server/src/index.ts:129 | for text of the Basic Multilingual Plane the preview is the content or its first 100 characters and "..." |
| `ServerRoutes.PreviewOfAstral` | server/src/index.ts:129 | text of more than 50 characters outside the Basic Multilingual Plane is cut after 50 of them |
| `ServerRoutes.NotifyEvents` | server/src/index.ts:53-69 | ok: only connected; non-ok: disconnected with the body's error or `HTTP <status>`, then typing off; unreachable: the error message, then typing off |
| `ServerRoutes.NotifyEventsShape` | server/src/index.ts:53-69 | the first event is a status, connected iff the agent answered ok, and typing is turned off exactly when it is not |
| `ServerRoutes.EventStreamNeedsSession` | server/src/index.ts:290-291 | the event stream is not public |
| `ServerRoutes.PublicPrefixIsTextual` | server/src/index.ts:295 | any path that merely starts with `/invite` passes without a session |
| `ServerRoutes.InviteVerdict` | server/src/index.ts:319-341 | missing token 400, unknown 404, used 410, expired 410, in that order; success exactly for a present, unused, unexpired invite |
| `ServerRoutes.VersionOrOne` | server/src/index.ts:779 | the version used (1 for a missing or zero one) is never 0 and keeps a non-zero version |
| `ServerRoutes.AppStatePost` | server/src/index.ts:764-785 | an absent state or one whose JSON text exceeds 1048576 UTF-16 units is a 400 with no write; otherwise the state is written with its version, 1 when missing or zero, and one `appStateUpdated` is broadcast |
| `ServerRoutes.StateLimitCountsUnits` | server/src/index.ts:773-777 | a JSON text refused by its character count is refused; text of the Basic Multilingual Plane is refused exactly above 1048576 characters, other text above half of that |
| `ServerRoutes.AppStateEventHasNoConversation` | server/src/index.ts:782 | the broadcast names the app and no conversation |
| `ServerRoutes.CheckWidgetPath` | server/src/index.ts:792-801 | a path passes iff it is a non-empty string without `..` made only of word characters, `-` and `/`, with each error message otherwise |
| `ServerRoutes.AcceptedPathHasNoDot` | server/src/index.ts:798 | an accepted path has no dot and no backslash at all |
| `ServerRoutes.LogLineIsOneLine` | server/src/index.ts:804-807 | with a time and data free of line breaks, the line starts with the time and holds one line break, at its end |
| `ServerRoutes.LexLeTotal` | server/src/index.ts:689 | the name order is total |
| `ServerRoutes.LexLeTransitive` | server/src/index.ts:689 | the name order is transitive |
| `ServerRoutes.LexLeAntisymmetric` | server/src/index.ts:689 | the name order is antisymmetric |
| `ServerRoutes.Rank` | server/src/index.ts:683-685 | system.md, user.md and memory.md rank 0, 1 and 2; every other name ranks after them |
| `ServerRoutes.PromptLeTotal` | server/src/index.ts:682-690 | the comparator is a total preorder, so the sort is well defined |
| `ServerRoutes.PromptName` | server/src/index.ts:692 | the name is the file name without `.md` |
| `ServerRoutes.PromptNames` | server/src/index.ts:691-692 | every listed name plus `.md` is its file |
| `ServerRoutes.PromptFiles` | server/src/index.ts:680-690 | the listed files are exactly the directory's prompt files with multiplicity, in comparator order |
| `ServerRoutes.PromptList` | server/src/index.ts:677-701 | one name per listed file, in the same order |
| `ServerRoutes.KnownPromptsFirst` | server/src/index.ts:686-688 | a file of lower rank always comes first |
| `ServerRoutes.DescriptionsNotListed` | server/src/index.ts:681 | no `.description.md` file is listed as a prompt |
| `Store.StoredRoundTrip` | server/src/db.ts:12-19 | a stored message reads back with exactly its type and tool name lost |
| `Store.LoadedAll` | server/src/db.ts:80-86 | one message per row, in row order |
| `Store.CreatedLeTotal` | server/src/db.ts:81 | ordering by creation time is a total preorder |
| `Store.DeleteRows` | server/src/db.ts:101-104 | no row with the id remains, every other row does, in order, and the table shrinks iff the id was present |
| `Store.UpdateRows` | server/src/db.ts:106-116 | only the matching rows change, and only in content |
| `Store.MarkUsed` | server/src/db.ts:197-200 | reports a change iff the invite exists unused, and only that invite's flag changes |
| `Store.MarkUsedOnce` | server/src/db.ts:197-200 | a second marking reports no change and changes nothing |
| `Store.ExpiredKeysLaws` | server/src/db.ts:243-253 | a row expired at one instant stays expired later, and after a cleanup at `now` no remaining row is expired at `now` |
| `Store.Database.constructor` | server/src/db.ts:12-56 | all tables start empty |
| `Store.Database.GetMessages` | server/src/db.ts:80-86 | all rows, as messages without type or name, ascending by creation time |
| `Store.Database.AddMessage` | server/src/db.ts:88-99 | returns its argument and appends its stored row; a duplicate id is a constraint violation that changes nothing |
| `Store.Database.DeleteMessage` | server/src/db.ts:101-104 | true iff a row with the id existed; afterwards none does |
| `Store.Database.UpdateMessage` | server/src/db.ts:106-116 | null iff the id is absent; otherwise only the content changes and the updated row is returned |
| `Store.Database.GetMessage` | server/src/index.ts:236 | the stored row with that id, loaded without type, or null |
| `Store.Database.GetWidgetState` | server/src/db.ts:126-139 | the entry for the key, or null |
| `Store.Database.SetWidgetState` | server/src/db.ts:141-153 | last writer wins for the key, version unchecked; other keys untouched |
| `Store.Database.CreateInvite` | server/src/db.ts:184-189 | a fresh invite is unused and expires five minutes after now |
| `Store.Database.GetInvite` | server/src/db.ts:191-195 | the invite for the token, or null |
| `Store.Database.MarkInviteUsed` | server/src/db.ts:197-200 | the table and result of `MarkUsed` |
| `Store.Database.CreateSession` | server/src/db.ts:202-209 | a new session lasts thirty days; duplicate token or id is a constraint violation |
| `Store.Database.GetSessionByToken` | server/src/db.ts:211-220 | null for an unknown token; an expired session is deleted and null returned; a live one is returned unchanged |
| `Store.Database.DeleteSession` | server/src/db.ts:222-225 | true iff the token existed; afterwards it does not |
| `Store.Database.CleanupExpiredSessions` | server/src/db.ts:243-247 | deletes exactly the sessions expired before now and returns how many |
| `Store.Database.CleanupExpiredInvites` | server/src/db.ts:249-253 | deletes exactly the invites expired before now and returns how many |
| `Feed.RemoveId` | client/src/Main.tsx:77 | a delete keeps exactly the entries with other ids, in order |
| `Feed.ReplaceById` | client/src/Main.tsx:80 | an update replaces exactly the entries with that id and keeps the length |
| `Feed.ReducerLaws` | client/src/Main.tsx:73-81 | message appends, delete removes that id only, update keeps the others, other events leave the list alone |
| `Feed.AppendThenDelete` | client/src/Main.tsx:73-78 | deleting a message just appended is deleting its id from the old list |
| `Feed.IndexById` | client/src/Main.tsx:134 | the map holds every id of `prev`, each with the last message of that id |
| `Feed.Picks` | client/src/Main.tsx:136-141 | each result entry is the old object when its content is equal, else the fetched one |
| `Feed.MergeAsWrittenKeepsOldOrder` | client/src/Main.tsx:135-142 | as written, a reordered refetch with equal contents keeps the old order |
| `Feed.MergeFollowsNext` | client/src/Main.tsx:136-141 | the merge has the fetched page's length, ids and contents, reusing old objects only |
| `Feed.MergeAsWrittenAgreesOrReturnsPrev` | client/src/Main.tsx:142 | the code as written either agrees with the merge or returns `prev` |
| `Feed.MergeMessagesAsWritten` | client/src/Main.tsx:132-143 | the loop with the `changed` flag computes the as-written merge |
| `Feed.MergeMessages` | client/src/Main.tsx:132-143 | the corrected loop computes the merge that follows the fetched page |
| `Feed.OlderKept` | client/src/Main.tsx:162-164 | the kept older messages are, in old order, those created before the page's first and not in it; none for an empty page |
| `Feed.RefreshShape` | client/src/Main.tsx:160-167 | the refreshed list is the kept older messages followed by the merged page; an empty page empties the list |
| `Feed.StatusToast` | client/src/Main.tsx:88-98 | "Agent connected" exactly on a false to true flip; the offline toast exactly when disconnected after being connected or with an error, with the error or 'Connection failed' |
| `Feed.FailedNotifyShowsOffline` | client/src/Main.tsx:94-95 | a failed agent notification shows its error in the offline toast |
| `Feed.StateOrIdle` | client/src/Main.tsx:100 | a missing or empty state reads as 'idle', any other as itself |
| `Feed.MissingStateIsIdle` | client/src/Main.tsx:26 | busy exactly when a state other than 'idle' was given |
| `Feed.Run` | client/src/Main.tsx:340-345 | the maximal run of internal messages starting at the index, empty when that message is not internal |
| `Feed.RunEnds` | client/src/Main.tsx:343 | the run reaches the end of the list iff every message from the index on is internal |
| `Feed.RunStart` | client/src/Main.tsx:437-441 | every internal message lies inside the group of a rendered block that opens at or before it |
| `Feed.InternalShownOnce` | client/src/Main.tsx:437-440 | every internal message lies in the group of exactly one rendered block, and the messages of a group after its first render nothing |
| `Feed.BlockIsLastIffRunEnds` | client/src/Main.tsx:442 | a block is last iff every message from it on is internal |
| `Feed.FeedState.constructor` | client/src/Main.tsx:21-36 | the signals' initial values |
| `Feed.FeedState.OnEvent` | client/src/Main.tsx:69-124 | the list follows the reducer; status events set the flag and the toast by the toast rule; app-state events post on their channel; untyped events set the agent state; a scroll event whose element is not shown starts the fetch around its message, and no other event does |
| `Feed.FeedState.FinishScrollFetch` | client/src/Main.tsx:106-112 | an ok answer replaces the whole list and `hasMore`; any other leaves both as they were |
| `Feed.FeedState.ToastExpired` | client/src/Main.tsx:93 | the toast timer clears the toast |
| `Feed.FeedState.OnAgentState` | client/src/Main.tsx:145-153 | a polled state sets the agent state, missing meaning 'idle' |
| `Feed.FeedState.Refresh` | client/src/Main.tsx:155-172 | the list becomes the refresh splice and `hasMore` the page's |
| `Feed.FeedState.BeginLoadOlder` | client/src/Main.tsx:174-179 | loading starts iff not already loading, more exist and the list is non-empty, from the oldest message's time |
| `Feed.FeedState.FinishLoadOlder` | client/src/Main.tsx:180-204 | a page is prepended and `hasMore` taken from it, a failure keeps both, and loading ends either way |
| `Feed.FeedState.GetGroup` | client/src/Main.tsx:340-345 | the loop collects exactly the run of internal messages |
| `HtmlInject.OpenTagFrom` | client/src/widget/wrapper.ts:172-173 | first index of `<html` or `<head` in any case followed by whitespace or `>` |
| `HtmlInject.HasOpenTagIff` | client/src/widget/wrapper.ts:172-173 | the tag test holds iff such an index exists |
| `HtmlInject.TagMatch` | client/src/widget/wrapper.ts:179 | the match of `<head([^>]*)>`: the first opening that some `>` follows, up to the first `>` |
| `HtmlInject.ReplaceTagKeepsAttributes` | client/src/widget/wrapper.ts:179 | replacing with `<name$1>` and text keeps the tag's attributes and puts the text right after it |
| `HtmlInject.InjectAfterHead` | client/src/widget/wrapper.ts:178-179 | with both tags the style and script go right after the first head tag |
| `HtmlInject.InjectNewHead` | client/src/widget/wrapper.ts:180-181 | with no head tag a new head holding them follows the html tag |
| `HtmlInject.InjectFragment` | client/src/widget/wrapper.ts:184-194 | a fragment is placed in the body of a fixed document whose head holds the injection |
| `HtmlInject.UnclosedHtmlTagLeftAlone` | client/src/widget/wrapper.ts:177-181 | an `<html ` with no closing `>` passes the test but is left unchanged |
| `HtmlInject.ResetCss` | client/src/widget/wrapper.ts:199-200 | the fullscreen reset exactly in fullscreen mode, both extending the base reset |
| `HtmlInject.DefaultModeIsEmbedded` | client/src/widget/wrapper.ts:199 | the default mode is embedded |
| `HtmlInject.FrameworkWrapAgrees` | client/src/widgetFramework.ts:116-123 | for a full document the framework wraps as the wrapper does |
| `HtmlInject.FrameworkWrapFragment` | client/src/widgetFramework.ts:126-137 | for a fragment the framework's document differs from the wrapper's by one line break |
| `GuestRuntime.SettleWrapper` | client/src/widget/wrapper.ts:86-92 | error rejects; falsy `ok` rejects with the error or 'Request failed'; otherwise resolves with `data?.result` |
| `GuestRuntime.SettlementsDiffer` | client/src/widget/wrapper.ts:88-89 | a reply with falsy `ok` rejects in the wrapper but resolves in the framework |
| `GuestRuntime.WrapperRuntime.constructor` | client/src/widget/wrapper.ts:42-44 | no height, id 0, nothing pending or tracked |
| `GuestRuntime.WrapperRuntime.OnState` | client/src/widget/wrapper.ts:26-32 | a non-function callback is reported and not registered |
| `GuestRuntime.WrapperRuntime.ReportHeight` | client/src/widget/wrapper.ts:58-64 | posts a resize only when the height changed |
| `GuestRuntime.WrapperRuntime.GetStateCall` | client/src/widget/wrapper.ts:103-110 | tracks and asks for the app only for a non-empty string id, else reports an error |
| `GuestRuntime.WrapperRuntime.SetStateCall` | client/src/widget/wrapper.ts:112-118 | posts the state only for a non-empty string id, else reports an error |
| `GuestRuntime.WrapperRuntime.RequestCall` | client/src/widget/wrapper.ts:120-130 | an invalid app id or action rejects at once with nothing posted; otherwise the next id is pending and posted |
| `GuestRuntime.WrapperRuntime.Timeout` | client/src/widget/wrapper.ts:131-136 | a timeout rejects only a still-pending request |
| `GuestRuntime.WrapperRuntime.OnMessage` | client/src/widget/wrapper.ts:75-101 | a response settles its pending id once; a state reaches the callback; an update refetches a tracked app only |
| `GuestRuntime.FrameworkRuntime.constructor` | client/src/widgetFramework.ts:13-17 | no height, id 0, nothing pending |
| `GuestRuntime.FrameworkRuntime.OnState` | client/src/widgetFramework.ts:42-56 | the callback counts exactly when the value given is truthy, so `onState(null)` silences state messages |
| `GuestRuntime.FrameworkRuntime.ReportHeight` | client/src/widgetFramework.ts:20-26 | posts a resize only when the height changed |
| `GuestRuntime.FrameworkRuntime.GetStateCall` | client/src/widgetFramework.ts:59-61 | always posts a state request |
| `GuestRuntime.FrameworkRuntime.SetStateCall` | client/src/widgetFramework.ts:64-66 | always posts the state |
| `GuestRuntime.FrameworkRuntime.RequestCall` | client/src/widgetFramework.ts:69-73 | the next id becomes pending and is posted |
| `GuestRuntime.FrameworkRuntime.Timeout` | client/src/widgetFramework.ts:74-79 | a timeout rejects only a still-pending request |
| `GuestRuntime.FrameworkRuntime.OnMessage` | client/src/widgetFramework.ts:39-51 | a response settles its pending id once; a state reaches the callback |
| `WidgetId.FirstToken` | client/src/widgetFramework.ts:99-100 | the token after the first `widget-id:` marker (any case) that is followed by an id |
| `WidgetId.MarkerExamples` | client/src/widgetFramework.ts:99 | a marker in upper case followed by spaces is found, and its token ends at the first character outside `[\w-]` |
| `WidgetId.MarkerWithoutToken` | client/src/widgetFramework.ts:99 | a marker followed by no id character is no match |
| `WidgetId.Wrap32` | client/src/widgetFramework.ts:106 | the `or`-with-zero gives the signed 32-bit value congruent modulo 2^32 |
| `WidgetId.StepAsWrittenIsFold` | client/src/widgetFramework.ts:105-106 | the shift-and-subtract step is `h*31 + c` wrapped to 32 bits |
| `WidgetId.Hash` | client/src/widgetFramework.ts:103-107 | the hash is a signed 32-bit value |
| `Common.Utf16` | client/src/widgetFramework.ts:104-105 | the code units `charCodeAt` reads, at least one per character and each below 65536 |
| `WidgetId.ExtractWidgetId` | client/src/widgetFramework.ts:98-109 | the loop computes the identifier function |
| `WidgetId.IdShape` | client/src/widgetFramework.ts:98-109 | a marked token is the id; otherwise 'w' and the base-36 text of the hash's absolute value, which reads back |
| `WidgetId.HashIdsDiffer` | client/src/widgetFramework.ts:108 | unmarked code with different hash magnitudes gets different ids |
| `WidgetId.EmptyCodeId` | client/src/widgetFramework.ts:103-108 | empty code gets 'w0' |
| `WidgetParser.NextBlock` | client/src/widget/parser.ts:3 | one match of the block pattern, inside the text |
| `WidgetParser.NextBlockIsFirst` | client/src/widget/parser.ts:3 | the match is a block at the first opener found, ending at the first fence after it |
| `WidgetParser.NextBlockNoneIff` | client/src/widget/parser.ts:8 | no match iff no complete block remains |
| `WidgetParser.Blocks` | client/src/widget/parser.ts:7-10 | the matches are inside the text, in order and not overlapping |
| `WidgetParser.BlocksStep` | client/src/widget/parser.ts:8-10 | each round takes the next match and continues after its fence |
| `WidgetParser.BlocksStart` | client/src/widget/parser.ts:8 | the first match starts at the first opener, and there is none iff no complete block exists |
| `WidgetParser.BlocksAreBlocks` | client/src/widget/parser.ts:3 | every match is an opener, a body without a fence and a fence |
| `WidgetParser.WidgetsAreBodies` | client/src/widget/parser.ts:7-10 | the results are the trimmed bodies of the matches, one for one and in order |
| `WidgetParser.TrimmedBodiesStep` | client/src/widget/parser.ts:8-9 | a round that finds a match puts its trimmed body in front of the later results |
| `WidgetParser.WidgetsStep` | client/src/widget/parser.ts:8-9 | each round contributes the trimmed body of its match |
| `WidgetParser.ExtractWidgets` | client/src/widget/parser.ts:5-12 | the `exec` loop returns the trimmed bodies of all matches in order |
| `WidgetParser.WidgetsAreTrimmed` | client/src/widget/parser.ts:9 | each result is already trimmed |
| `WidgetParser.NoLineBreakNoWidgets` | client/src/widget/parser.ts:3 | text without a line break has no blocks |
| `WidgetParser.LeadingBlock` | client/src/widget/parser.ts:3-9 | a block at the start gives its trimmed body first |
| `WidgetPage.ChooseConversation` | client/src/WidgetPage.tsx:105 | URL parameter, else the message's conversation, else 'default' |
| `WidgetPage.AsWrittenShowsUndefined` | client/src/WidgetPage.tsx:112 | as written, every widget page shows the text "undefined" |
| `WidgetPage.PageShowsFragment` | client/src/WidgetPage.tsx:112 | corrected, the page shows the widget's own code |
| `WidgetPage.ServerEventsNeverForwarded` | client/src/WidgetPage.tsx:122-126 | no event from the app-state route is forwarded to the widget |
| `WidgetPage.LaunchedConversationChosen` | client/src/WidgetPage.tsx:104-105 | a page opened by the launcher picks the conversation it was launched for |
| `WidgetPage.Page.constructor` | client/src/WidgetPage.tsx:10-16 | no error, no widget, conversation 'default', nothing tracked |
| `WidgetPage.Page.Mount` | client/src/WidgetPage.tsx:92-129 | a failed load shows its error; a message without exactly one widget shows that error and does not listen; otherwise the widget is shown and the event stream heard |
| `WidgetPage.Page.HandleMessage` | client/src/WidgetPage.tsx:22-83 | messages not from the frame are ignored; each kind tracks, fetches and replies as the switch does, with invalid requests answered without a fetch |
| `WidgetPage.Page.OnStreamEvent` | client/src/WidgetPage.tsx:119-128 | an update is forwarded only for the page's conversation and a tracked app |
| `WidgetPage.TrackedReadThenInvalidate` | client/src/WidgetPage.tsx:29-31 | after a widget reads an app, an update for it reaches the widget |
| `WidgetFrame.Ceil` | client/src/components/Widget.tsx:29 | `Math.ceil` is the least integer not below the value |
| `WidgetFrame.Clamp` | client/src/components/Widget.tsx:29 | the height is kept in [60, 5000], unchanged when inside |
| `WidgetFrame.ClampNearest` | client/src/components/Widget.tsx:29 | the clamped height is the nearest allowed height |
| `WidgetFrame.AppliedHeight` | client/src/components/Widget.tsx:29 | the applied height is always in [60, 5000] |
| `WidgetFrame.AppliedInRange` | client/src/components/Widget.tsx:3-4 | a measured height inside the bounds is applied rounded up |
| `WidgetFrame.Widget.Render` | client/src/components/Widget.tsx:64-73 | the iframe exactly when visible, with the source and its sandbox; the placeholder otherwise; both at the current height |
| `WidgetFrame.Widget.constructor` | client/src/components/Widget.tsx:15-20 | invisible, height 100 in all three places |
| `WidgetFrame.Widget.OnIntersection` | client/src/components/Widget.tsx:53-60 | visibility follows the entry; nothing else changes |
| `WidgetFrame.Widget.UpdateHeight` | client/src/components/Widget.tsx:24-35 | with a readable body the height becomes the applied height, written only when it changed |
| `WidgetFrame.Widget.HandleLoad` | client/src/components/Widget.tsx:37-51 | the observer is dropped; for a `data:` source or no body nothing else happens; otherwise the style is injected, observing starts and the height is updated |
| `ScrollAnchor.Decide` | client/src/scrollAnchor.ts:5-24 | no change for delta 0; shift when the element ends above centre; otherwise pin iff at the bottom |
| `ScrollAnchor.AboveCentreWins` | client/src/scrollAnchor.ts:16-18 | above centre shifts even when at the bottom |
| `ScrollAnchor.Container.CompensateScroll` | client/src/scrollAnchor.ts:5-24 | the scroll position moves by delta above centre; a pin is scheduled at the bottom; nothing otherwise |
| `ScrollAnchor.Container.AnimationFrame` | client/src/scrollAnchor.ts:20-22 | a scheduled pin scrolls to the scroll height of the frame, which leaves the list at its bottom |
| `ScrollAnchor.Container.StayAtBottomIfNeeded` | client/src/scrollAnchor.ts:29-37 | scrolls to the bottom iff within 50 pixels of it, and the list is at its bottom afterwards exactly when it was before |
| `ScrollAnchor.ResizeBelowCentreAtBottom` | client/src/scrollAnchor.ts:12-23 | a list at its bottom, resized below the middle, is at the new bottom after the next frame |
| `ScrollAnchor.CompensateAsDecided` | client/src/scrollAnchor.ts:16-23 | the effect on the container is the decision |
| `Launcher.Hex` | client/src/widget/launcher.ts:7 | a hex digit is one of `0-9` or `A-F` |
| `Launcher.Utf8` | client/src/widget/launcher.ts:7 | one to four bytes, every byte after the first a continuation byte |
| `Launcher.PercentBytes` | client/src/widget/launcher.ts:7 | three characters per byte |
| `Launcher.Utf8RoundTrip` | client/src/widget/launcher.ts:7 | the UTF-8 bytes of a character decode back to it |
| `Launcher.EncodeRoundTrip` | client/src/widget/launcher.ts:7 | `decodeURIComponent` undoes `encodeURIComponent` |
| `Launcher.EncodedCharacters` | client/src/widget/launcher.ts:7 | the encoding holds only unreserved characters, `%` and hex digits |
| `Launcher.EncodeUnreserved` | client/src/widget/launcher.ts:7 | unreserved text is left as it is |
| `Launcher.RouteMatch` | client/src/index.tsx:7 | the router captures an id iff the path is `/message/<id>/widget` with a non-empty id without `/` |
| `Launcher.WidgetPathInjective` | client/src/widget/launcher.ts:5 | different messages get different paths |
| `Launcher.Pathname` | client/src/index.tsx:6 | the path is the URL up to its query or fragment |
| `Launcher.LaunchedPathRoutes` | client/src/index.tsx:6-7 | the opened URL routes back to the same message |
| `Launcher.RouteMatchesPath` | client/src/index.tsx:7 | every widget path of a valid id is routed to that id |
| `Launcher.LaunchedQuery` | client/src/widget/launcher.ts:6-8 | a query only for a non-empty, non-default conversation, which decodes back |
| `Launcher.DefaultUrlExample` | client/src/widget/launcher.ts:5-6 | the default conversation gives a URL without a query |
| `Launcher.EncodeSpaceExample` | client/src/widget/launcher.ts:7 | a space is written `%20` |
| `Format.JsRem` | client/src/format.ts:19 | the remainder has the dividend's sign |
| `Format.JsRemOdd` | client/src/format.ts:19 | the remainder of a negated dividend is negated |
| `Format.PadStart2` | client/src/format.ts:20 | texts of two or more characters unchanged, shorter ones filled to two with leading zeros |
| `Format.DurationRoundTrip` | client/src/format.ts:17-21 | a non-negative duration prints as minutes, a colon and exactly two digits, which read back as the duration |
| `Format.NegativeDurationExample` | client/src/format.ts:17-21 | -5 seconds prints as "-1:-5" |
| `Format.FormatSize` | client/src/format.ts:11-15 | exact below 1024 bytes, else a quotient that times its unit gives the size |
| `Format.SizeUnits` | client/src/format.ts:13-14 | KB exactly below 1048576, MB from there; the quotient is at least 1, and below 1024 in KB |
| `Format.SmallSizeExact` | client/src/format.ts:12 | a small size prints its digits and " B", which read back as the size |
| `InviteFormat.FloorDiv` | server/src/invite.ts:13 | `Math.floor(a / b)` for a positive divisor |
| `InviteFormat.ExpiryUnit` | server/src/invite.ts:12-17 | hours from one hour on, minutes below, each the whole count the span holds |
| `InviteFormat.PluralRule` | server/src/invite.ts:14 | the text ends in `s` iff the count is not one |
| `InviteFormat.ExpiryExamples` | server/src/invite.ts:28 | the invite span prints "24 hours" and no time prints "0 minutes" |
| `InviteFormat.SingularExamples` | server/src/invite.ts:14-16 | an hour and a minute print in the singular |
| `Base64Url.Padding` | client/public/sw.js:99 | `(4 - len % 4) % 4` characters `=`, making the length a multiple of 4 |
| `Base64Url.Translate` | client/public/sw.js:100 | `-` becomes `+`, `_` becomes `/`, everything else unchanged |
| `Base64Url.StripSpace` | client/public/sw.js:101 | `atob` drops ASCII whitespace and keeps the rest in order |
| `Base64Url.StripPadding` | client/public/sw.js:101 | up to two trailing `=` of a length-4 multiple are dropped |
| `Base64Url.Values` | client/public/sw.js:101 | each alphabet character stands for its sextet |
| `Base64Url.DecodeSextets` | client/public/sw.js:101 | every four sextets give three bytes and a final two or three give one or two |
| `Base64Url.Atob` | client/public/sw.js:101 | the forgiving-base64 decode of the HTML Living Standard, failing on a stray character or a length of remainder 1 |
| `Base64Url.BinaryString` | client/public/sw.js:102-105 | one character per byte, with that code |
| `Base64Url.Codes` | client/public/sw.js:103-105 | one byte per character of the binary string, equal to its code |
| `Base64Url.CopyCodes` | client/public/sw.js:102-105 | the loop fills a fresh array of the string's length with the character codes in order |
| `Base64Url.CodesOfBinary` | client/public/sw.js:101-105 | reading the codes of the binary string `atob` returns gives back the decoded bytes |
| `Base64Url.UrlBase64ToUint8Array` | client/public/sw.js:98-107 | fails exactly when `atob` throws; otherwise a fresh array holding one byte per decoded character |
| `Base64Url.DecodeEncodeUrl` | client/src/hooks/usePushNotifications.ts:5-14 | the base64url text of any bytes decodes back to them |
| `Base64Url.OneOverRefused` | client/public/sw.js:99-101 | a key of length 1 modulo 4 without whitespace is refused, since three `=` are added and `atob` rejects the third |
| `ServiceWorker.NotificationFor` | client/public/sw.js:32-41 | each falsy field takes its default: 'New message', 'clawchat-message' or `{}`; icon and badge fixed |
| `ServiceWorker.UnparseableShowsText` | client/public/sw.js:27 | a non-JSON body is shown under the default title, as it is unless empty |
| `ServiceWorker.NotificationClick` | client/public/sw.js:55-69 | the first same-origin focusable client is focused; '/' is opened iff there is none |
| `ServiceWorker.Worker.constructor` | client/public/sw.js:3 | the counter starts at 0 |
| `ServiceWorker.Worker.OnMessage` | client/public/sw.js:13-18 | 'clearBadge' resets the counter and closes the notifications; anything else changes nothing |
| `ServiceWorker.Worker.OnPush` | client/public/sw.js:20-31 | a push without data changes nothing; one with data adds exactly one to the counter and starts its notification |
| `ServiceWorker.Worker.ShowPending` | client/public/sw.js:40-52 | a shown notification sets the badge to the counter as it then is; a visible window clears counter, badge and notifications; a failure changes nothing more |
| `PushState.CheckedState` | client/src/hooks/usePushNotifications.ts:19-45 | unsupported, then denied, then subscribed exactly when a subscription exists, unsubscribed on every other path; never loading |
| `PushState.SubscribeOutcome` | client/src/hooks/usePushNotifications.ts:47-92 | true exactly when every step succeeds, then subscribed; a refused permission sets denied; every other failure changes nothing |
| `PushState.UnsubscribeOutcome` | client/src/hooks/usePushNotifications.ts:94-118 | unsubscribed and true when nothing throws, with or without a subscription; otherwise false and untouched |
| `PushState.PushNotifications.constructor` | client/src/hooks/usePushNotifications.ts:17 | the state starts loading |
| `PushState.PushNotifications.CheckState` | client/src/hooks/usePushNotifications.ts:19-45 | the state becomes the checked state |
| `PushState.PushNotifications.Subscribe` | client/src/hooks/usePushNotifications.ts:47-92 | result and state are those of the subscribe outcome, decoding the key with the array method |
| `PushState.PushNotifications.Unsubscribe` | client/src/hooks/usePushNotifications.ts:94-118 | result and state are those of the unsubscribe outcome |
| `PushState.NeverLoadingAgain` | client/src/hooks/usePushNotifications.ts:17 | once checked, no action returns the state to loading |
| `PushState.FailedSaveKeepsState` | client/src/hooks/usePushNotifications.ts:82-84 | a subscription the server did not save returns false and leaves the state |

## Left out

- HTTP and express plumbing is not modelled: listeners, cookies, static
  serving, proxies, multer storage, the app handler loader. Routes are
  functions over the fields of their requests.
- SQLite, `crypto.randomUUID` and `Date` are foreign. Tables are maps and
  sequences, ids and the time are parameters, and ISO timestamps are integers
  with the same order.
- `JSON.stringify` and `JSON.parse` are foreign. Events carry the serialized
  text, app state is its JSON text, and a push carries its parse result.
- `fetch`, `EventSource`, `BroadcastChannel`, `postMessage`, the permission
  prompt and the service-worker registration are I/O. Each call's outcome is
  a parameter, and each outbound message is recorded.
- `setTimeout` and `requestAnimationFrame` are not modelled as such. A timeout
  or frame is an explicit method call (`Timeout`, `AnimationFrame`,
  `ShowPending`, `ToastExpired`).
- DOM measurement and observers are foreign (`getBoundingClientRect`,
  `ResizeObserver`, `IntersectionObserver`, `MutationObserver`). Measured
  numbers are `real` inputs.
- The browser's clamping of `scrollTop` to its range is not modelled.
- `hasWidgets` is left out. It depends on the `lastIndex` of a global regular
  expression, an engine quirk rather than behaviour anyone relies on.
- `server/src/push.ts` is not part of this model, and neither are the
  UI-only components, markdown rendering, `formatTime` and the thin fetch
  wrappers. `sendPushToAll` is represented by the `PushRequest` that
  `ServerRoutes.CreateMessage` returns.
- The service worker's `install`, `activate` and `pushsubscriptionchange`
  handlers are not modelled. The last shares only the key decoder, which is
  modelled.
- The `window.open` call of the launcher is not modelled; its URL is.
- The widget log's file append and the directory it names are I/O. Only the
  path check and the line text are modelled.
- The widget errors forwarded by the page are recorded as calls; their
  endpoint path is not modelled.
- `Format.FormatSize`: the one-decimal `toFixed` text of KB and MB sizes is
  not modelled, only the unit and the exact quotient.
- `Format.FormatDuration`: only integer seconds are modelled; fractional
  seconds, which print with a fraction, are not.
- `ServerRoutes.PromptFiles`: names outside the three known prompts are
  ordered by code point instead of `localeCompare`, whose order depends on
  the locale.
- `ScrollAnchor.Container.CompensateScroll`: the early return when there is no
  `.messages` container is not modelled; the container is an object that
  exists.
- `ServiceWorker.Worker.ShowPending`: the tag-based replacement of a
  notification with the same tag is not modelled; notifications are appended.
  The interleaving of several pending chains is modelled only as the order in
  which `ShowPending` is called.
- `ServiceWorker.Worker.OnPush`: payload fields that are JSON values other
  than strings are not modelled; they are strings or absent.
- `Feed.FeedState.Refresh`: it splices with the corrected merge
  (`Feed.Merge`), not the merge as written, which keeps `prev` for a refetch
  that only reorders equal contents; see "## Findings".
- `WidgetPage.Page.Mount`: it shows `widgets[0]`, the corrected page, not
  the text "undefined" the code as written shows; see "## Findings".
- `Feed.StateLabel`: the lookup `stateLabels[agentState()]` is on a plain
  object, so a state named after an inherited member such as "constructor"
  or "toString" yields that function, not 'Working…'. The model gives
  'Working…' for every state other than the three known ones.
- `ServiceWorker.Worker.OnPush`: a push whose body is the JSON `null` throws
  when its fields are read, after the counter has been incremented. The
  model's parse result is a payload record or a failure, so this case is
  not represented.
- `ServerRoutes.LogLine`: `data` is taken as text. The route interpolates any
  JSON value, which prints as `[object Object]` or its `String` form; that
  conversion is not modelled. The line mark is modelled for an integer or
  absent `line` only.
- `GuestRuntime.FrameworkRuntime.OnState`: a truthy value that is not a
  function is stored as the callback; the `TypeError` it raises when a state
  arrives is not modelled, and the state is recorded as delivered.
- `Feed.FeedState.OnEvent`: the `scrollIntoView` calls, and the animation
  frame that scrolls to the message after the fetch, are DOM effects and not
  modelled.
- `EventStream.ProbeEvent`: the probe is an asynchronous `fetch` with a
  two-second timeout, so a status broadcast by `notifyAgent` can reach the
  new subscriber before the probe's event; without an `agentUrl` no probe
  runs at all. The model states the probe's event, not its order in the
  stream.
- `ServerRoutes.Gate`: it models `authMiddleware` itself. The middleware is
  mounted at index.ts:547, so the routes registered before that line pass
  without it: `/api/auth/*`, `/api/health`, `/api/agent/*`,
  `/api/push/vapid-public-key`, `/api/push/subscribe` (POST and DELETE),
  `/api/visibility` and `/invite`. `ServerRoutes.EventStreamNeedsSession`
  concerns `/api/events`, registered after it.
- `Launcher.Pathname`: the path is taken as the URL's literal text. A
  browser's URL parser also resolves dot segments, turns `\` into `/` and
  percent-encodes spaces and non-ASCII characters, so an id such as "..",
  "a\b" or "a b" would not route back. Message ids come from
  `crypto.randomUUID()`, which yields none of these.
- `ServiceWorker.NotificationClick`: the `event.notification.close()` of the
  clicked notification is not modelled; `Worker.notifications` is left as it
  was.
- `GuestRuntime.WrapperRuntime.OnMessage`: a callback that throws is caught
  and reported as 'Message handler error: …' (wrapper.ts:98-100); callbacks
  are not run in the model, so this report is not modelled.
- `Base64Url.Padding`: JavaScript counts the length in UTF-16 units. The
  model counts characters, which agree for every character of the base64url
  alphabet.
- `WidgetFrame.Widget.UpdateHeight`: the `try`/`catch` around a cross-origin
  `contentDocument` is modelled as the `hasBody` input being false.
- `WidgetPage.Page.HandleMessage`: the asynchronous interleaving of several
  messages is not modelled; each message's fetches complete before the next
  is handled.

## Findings

| source | as written | input that shows it | evidently intended | confidence | as-written member | corrected member |
|---|---|---|---|---|---|---|
| client/src/Main.tsx:135-142 | `changed` becomes true only for a different length or an entry without an equal-content match, so a refetch with the same messages in another order returns `prev` | `prev = [a, b]`, `next = [b, a]` with equal contents | the merged list follows `next`'s order and reuses old objects, as the doc comment says | medium, not executed | `Feed.MergeAsWrittenKeepsOldOrder` | `Feed.MergeFollowsNext` |
| client/src/WidgetPage.tsx:112 | `extractWidgets` returns strings, so `widgets[0].code` is undefined and the page shows the text "undefined" | any message with exactly one widget block | the page shows `widgets[0]` | high, not executed | `WidgetPage.AsWrittenShowsUndefined` | `WidgetPage.PageShowsFragment` |

The rest of the model uses the corrected merge (`Feed.Merge`, computed by
`Feed.MergeMessages`) and the corrected page (`WidgetPage.PageHtml`). The code
as written is `Feed.MergeAsWritten` / `Feed.MergeMessagesAsWritten` and
`WidgetPage.PageHtmlAsWritten`.
