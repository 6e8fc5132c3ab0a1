/** The decisions the server's route handlers make before and after they
    touch the store: request validation, the authentication gate, invite
    checks, the agent-notification outcome, new-message defaults and the
    push preview, the app-state and widget-log checks, and the prompt
    listing order. Bodies of JSON requests are read field by field as
    `Field` values. */
module ServerRoutes {
  import opened Common
  import opened ChatTypes
  import Sorting
  import Store
  import EventStream

  /** What a handler answers, by HTTP status. */
  datatype Reply =
    | Done                       // 200 with a JSON body
    | BadRequest(error: string)  // 400
    | Unauthorized               // 401
    | NotFound(error: string)    // 404
    | Gone(error: string)        // 410
    | Redirect(location: string) // 302

  function Status(r: Reply): (s: int)
    ensures 200 <= s < 500
  {
    match r
    case Done => 200
    case BadRequest(_) => 400
    case Unauthorized => 401
    case NotFound(_) => 404
    case Gone(_) => 410
    case Redirect(_) => 302
  }

  // ---------------------------------------------------------------------------
  // Message content

  /** The content check of `/send` and `POST /api/messages`:
      `!content || typeof content !== 'string' || !content.trim()` is a 400;
      otherwise the handler goes on with the trimmed text. */
  function CheckContent(content: Field): (r: Option<string>)
    ensures r.Some? <==> content.Str? && exists i :: 0 <= i < |content.s| && !IsJsSpace(content.s[i])
    ensures r.Some? ==> r.value == Trim(content.s) && r.value != ""
  {
    TrimEmptyIffBlank(if content.Str? then content.s else "");
    if content.Str? && content.s != "" && Trim(content.s) != "" then
      Some(Trim(content.s))
    else
      None
  }

  /** Whatever passes the check is already trimmed, so the second `trim` in
      `createMessage` changes nothing. */
  lemma CheckedContentIsTrimmed(content: Field)
    requires CheckContent(content).Some?
    ensures Trim(CheckContent(content).value) == CheckContent(content).value
  {
    TrimIdempotent(content.s);
  }

  /** The content check of PATCH, which lets an empty string through. */
  function CheckPatchContent(content: Field): (r: Option<string>)
    ensures r.Some? <==> content.Str?
    ensures r.Some? ==> r.value == Trim(content.s)
  {
    if content.Str? then Some(Trim(content.s)) else None
  }

  /** The two checks differ on blank text: PATCH accepts it and stores an
      empty content, where creation refuses it. */
  lemma PatchLetsBlankThrough(s: string)
    requires forall i :: 0 <= i < |s| ==> IsJsSpace(s[i])
    ensures CheckPatchContent(Str(s)) == Some("")
    ensures CheckContent(Str(s)).None?
  {
    TrimEmptyIffBlank(s);
  }

  /** `/send` clears the typing indicator when `type` is falsy or 'message'. */
  predicate ClearsTyping(kind: Option<string>) {
    !Present(kind) || kind.value == "message"
  }

  /** `/send` up to `createMessage`: the reply, the events broadcast before
      the message is created, and the content handed on. */
  function Send(content: Field, kind: Option<string>): (r: (Reply, seq<Event>, Option<string>))
    ensures r.0 == Done <==> CheckContent(content).Some?
    ensures r.0 != Done ==> r == (BadRequest("Content required"), [], None)
    ensures r.0 == Done ==> r.2 == CheckContent(content)
    ensures r.0 == Done ==> (r.1 == [AgentTyping(false)] <==> ClearsTyping(kind))
    ensures r.0 == Done && !ClearsTyping(kind) ==> r.1 == []
  {
    match CheckContent(content)
    case None => (BadRequest("Content required"), [], None)
    case Some(text) => (Done, if ClearsTyping(kind) then [AgentTyping(false)] else [], Some(text))
  }

  /** `PATCH /messages/:id` up to `updateMessage`: the reply and the content
      to store. Only a message whose type is 'message' may be edited, and
      only with a string. */
  function Patch(existing: Option<Message>, content: Field): (r: (Reply, Option<string>))
    ensures r.1.Some? <==> r.0 == Done
    ensures existing.None? ==> r.0 == NotFound("Message not found")
    ensures existing.Some? && existing.value.kind != Some("message") ==>
      r.0 == BadRequest("Cannot edit internal messages")
    ensures r.0 == Done <==> existing.Some? && existing.value.kind == Some("message") && content.Str?
    ensures existing.Some? && existing.value.kind == Some("message") && !content.Str? ==>
      r.0 == BadRequest("Content required")
    ensures r.1.Some? ==> r.1 == CheckPatchContent(content)
  {
    if existing.None? then (NotFound("Message not found"), None)
    else if existing.value.kind != Some("message") then (BadRequest("Cannot edit internal messages"), None)
    else match CheckPatchContent(content)
      case None => (BadRequest("Content required"), None)
      case Some(text) => (Done, Some(text))
  }

  /** A message read back from the store has no type, so the PATCH route
      refuses it as internal, whatever the content. */
  lemma StoredMessagesNotEditable(row: Store.Row, content: Field)
    ensures Patch(Some(Store.Loaded(row)), content).0 == BadRequest("Cannot edit internal messages")
    ensures Patch(Some(Store.Loaded(row)), content).1.None?
  {
  }

  // ---------------------------------------------------------------------------
  // createMessage

  datatype CreateOptions = CreateOptions(
    conversationId: Option<string>,
    attachment: Option<Attachment>,
    kind: Option<string>,
    name: Option<string>)

  const NoOptions := CreateOptions(None, None, None, None)

  /** The message `createMessage` builds from a fresh id and the time. */
  function NewMessage(role: Role, content: string, opts: CreateOptions, id: string, now: Time): (m: Message)
    ensures m.id == id && m.role == role && m.createdAt == now
    ensures m.content == Trim(content)
    ensures m.conversationId == (if Present(opts.conversationId) then opts.conversationId.value else "default")
    ensures m.kind == Some(if Present(opts.kind) then opts.kind.value else "message")
    ensures m.name == opts.name && m.attachment == opts.attachment
  {
    Message(id, OrElse(opts.conversationId, "default"), role, Some(OrElse(opts.kind, "message")),
            Trim(content), opts.name, opts.attachment, now)
  }

  /** Only regular agent messages trigger a push notification. */
  predicate SendsPush(role: Role, opts: CreateOptions) {
    role == Agent && OrElse(opts.kind, "message") == "message"
  }

  lemma SendsPushIff(role: Role, opts: CreateOptions)
    ensures SendsPush(role, opts) <==> role == Agent && (!Present(opts.kind) || opts.kind.value == "message")
  {
  }

  const PreviewLength: nat := 100

  /** The notification body, in the UTF-16 code units that `length` and
      `slice` count: the content when it is at most 100 units long,
      otherwise its first 100 units and '...'. A cut inside a surrogate
      pair keeps the lone high surrogate, as `slice` does. */
  function Preview(content: string): (r: seq<nat>)
    ensures |Utf16(content)| <= PreviewLength ==> r == Utf16(content)
    ensures |Utf16(content)| > PreviewLength ==>
      |r| == PreviewLength + 3 && r[..PreviewLength] == Utf16(content)[..PreviewLength] && r[PreviewLength..] == Utf16("...")
  {
    var u := Utf16(content);
    if |u| > PreviewLength then u[..PreviewLength] + Utf16("...") else u
  }

  /** For text of the Basic Multilingual Plane the preview is the first
      100 characters and '...', or the content when it is not longer. */
  lemma PreviewOfBmp(content: string)
    requires forall i :: 0 <= i < |content| ==> InBmp(content[i])
    ensures |content| <= PreviewLength ==> Preview(content) == Utf16(content)
    ensures |content| > PreviewLength ==> Preview(content) == Utf16(content[..PreviewLength] + "...")
  {
    Utf16OfBmp(content);
    if |content| > PreviewLength {
      Utf16OfBmp(content[..PreviewLength]);
      Utf16Prefix(content, PreviewLength);
      Utf16Append(content[..PreviewLength], "...");
    }
  }

  /** Characters outside the Basic Multilingual Plane count twice: content
      of more than 50 of them is cut after the first 50. */
  lemma PreviewOfAstral(content: string)
    requires forall i :: 0 <= i < |content| ==> !InBmp(content[i])
    requires |content| > 50
    ensures Preview(content) == Utf16(content[..50] + "...")
  {
    var head := content[..50];
    Utf16OfAstral(content);
    Utf16OfAstral(head);
    Utf16Prefix(content, 50);
    Utf16Append(head, "...");
  }

  /** What `createMessage` hands to `sendPushToAll`: the app name as title,
      the fixed tag, the preview as body and the message's id as data. */
  datatype PushRequest = PushRequest(body: seq<nat>, messageId: string)

  /** `createMessage` as a whole: the message built by `NewMessage` is
      inserted, `{type: 'message', message}` is broadcast once to every
      open connection, and a regular agent message is pushed with the
      preview of the content as given, before trimming. `json` stands for
      `JSON.stringify`. An insert that breaks the id's uniqueness throws
      before anything is broadcast or pushed. */
  method CreateMessage(db: Store.Database, hub: EventStream.Hub, role: Role, content: string,
                       opts: CreateOptions, id: string, now: Time, json: Event -> string)
    returns (r: Store.Result<Message>, push: Option<PushRequest>)
    requires db.Valid() && hub.Valid()
    modifies db`messages, hub`streams
    ensures db.Valid() && hub.Valid()
    ensures r.ConstraintViolation? <==> Store.HasId(old(db.messages), id)
    ensures r.ConstraintViolation? ==>
      db.messages == old(db.messages) && hub.streams == old(hub.streams) && push.None?
    ensures r.Ok? ==>
      r.value == NewMessage(role, content, opts, id, now) &&
      db.messages == old(db.messages) + [Store.Stored(r.value)]
    ensures r.Ok? ==> hub.streams.Keys == old(hub.streams).Keys
    ensures r.Ok? ==> forall c :: c in hub.streams ==>
      hub.streams[c] ==
        if c in hub.clients then old(hub.streams)[c] + [EventStream.DataFrame(json(MessageCreated(r.value)))]
        else old(hub.streams)[c]
    ensures push.Some? <==> r.Ok? && SendsPush(role, opts)
    ensures push.Some? ==> push.value == PushRequest(Preview(content), id)
  {
    var m := NewMessage(role, content, opts, id, now);
    r := db.AddMessage(m);
    if r.ConstraintViolation? {
      return r, None;
    }
    hub.Broadcast(json(MessageCreated(m)));
    if role == Agent && OrElse(opts.kind, "message") == "message" {
      push := Some(PushRequest(Preview(content), m.id));
    } else {
      push := None;
    }
  }

  // ---------------------------------------------------------------------------
  // notifyAgent

  /** How the POST to the agent's `/events` ended. `bodyError` is the
      `error` field of the reply body when it parsed as JSON and had one. */
  datatype AgentOutcome =
    | Answered(ok: bool, status: int, bodyError: Option<string>)
    | Unreachable(message: string)

  /** The events `notifyAgent` broadcasts once the outcome is known. */
  function NotifyEvents(o: AgentOutcome): (r: seq<Event>)
    ensures o.Answered? && o.ok ==> r == [AgentStatus(true, None)]
    ensures !(o.Answered? && o.ok) ==> |r| == 2 && r[1] == AgentTyping(false)
    ensures !(o.Answered? && o.ok) ==> r[0].AgentStatus? && !r[0].connected && r[0].error.Some?
    ensures o.Unreachable? ==> r[0].error == Some(o.message)
    ensures o.Answered? && !o.ok && Present(o.bodyError) ==> r[0].error == o.bodyError
    ensures o.Answered? && !o.ok && !Present(o.bodyError) ==>
      r[0].error == Some("HTTP " + IntToString(o.status))
  {
    match o
    case Answered(ok, status, bodyError) =>
      if ok then [AgentStatus(true, None)]
      else [AgentStatus(false, Some(OrElse(bodyError, "HTTP " + IntToString(status)))), AgentTyping(false)]
    case Unreachable(message) =>
      [AgentStatus(false, Some(message)), AgentTyping(false)]
  }

  /** Every failure ends with the typing indicator cleared, and the status
      event always comes first. */
  lemma NotifyEventsShape(o: AgentOutcome)
    ensures |NotifyEvents(o)| >= 1 && NotifyEvents(o)[0].AgentStatus?
    ensures NotifyEvents(o)[0].connected <==> o.Answered? && o.ok
    ensures AgentTyping(false) in NotifyEvents(o) <==> !NotifyEvents(o)[0].connected
  {
  }

  // ---------------------------------------------------------------------------
  // Authentication gate

  const PublicPaths: seq<string> := ["/api/auth/invite", "/api/health", "/invite"]

  predicate IsPublicPath(path: string) {
    exists i :: 0 <= i < |PublicPaths| && StartsWith(path, PublicPaths[i])
  }

  datatype GateVerdict = Pass | Reject401 | RedirectToInvite

  /** `authMiddleware`, with `authenticated` the outcome of
      `isAuthenticated(req)`. */
  function Gate(path: string, authenticated: bool): (v: GateVerdict)
    ensures IsPublicPath(path) ==> v == Pass
    ensures !IsPublicPath(path) && authenticated ==> v == Pass
    ensures !IsPublicPath(path) && !authenticated && StartsWith(path, "/api/") ==> v == Reject401
    ensures !IsPublicPath(path) && !authenticated && !StartsWith(path, "/api/") ==> v == RedirectToInvite
  {
    if IsPublicPath(path) then Pass
    else if authenticated then Pass
    else if StartsWith(path, "/api/") then Reject401
    else RedirectToInvite
  }

  /** The event stream is not public: without a session it is refused. */
  lemma EventStreamNeedsSession()
    ensures Gate("/api/events", false) == Reject401
  {
    assert !StartsWith("/api/events", PublicPaths[0]) by {
      assert "/api/events"[5] != PublicPaths[0][5];
    }
    assert !StartsWith("/api/events", PublicPaths[1]) by {
      assert "/api/events"[5] != PublicPaths[1][5];
    }
    assert !StartsWith("/api/events", PublicPaths[2]) by {
      assert "/api/events"[1] != PublicPaths[2][1];
    }
    assert StartsWith("/api/events", "/api/");
  }

  /** A prefix test, not a path test: anything beginning with '/invite',
      such as '/invitex', passes unauthenticated. */
  lemma PublicPrefixIsTextual(rest: string)
    ensures Gate("/invite" + rest, false) == Pass
  {
    assert StartsWith("/invite" + rest, PublicPaths[2]) by {
      assert ("/invite" + rest)[..7] == "/invite";
    }
  }

  // ---------------------------------------------------------------------------
  // Invite verification

  /** The checks of `GET /api/auth/invite` in their order; `Done` means the
      invite may be spent and a session created. */
  function InviteVerdict(token: Option<string>, invite: Option<Store.Invite>, now: Time): (r: Reply)
    ensures !Present(token) ==> r == BadRequest("Token required")
    ensures Present(token) && invite.None? ==> r == NotFound("Invalid invite")
    ensures Present(token) && invite.Some? && invite.value.used ==> r == Gone("Invite already used")
    ensures Present(token) && invite.Some? && !invite.value.used && invite.value.expiresAt < now ==>
      r == Gone("Invite expired")
    ensures r == Done <==> Present(token) && invite.Some? && !invite.value.used && invite.value.expiresAt >= now
  {
    if !Present(token) then BadRequest("Token required")
    else if invite.None? then NotFound("Invalid invite")
    else if invite.value.used then Gone("Invite already used")
    else if invite.value.expiresAt < now then Gone("Invite expired")
    else Done
  }

  // ---------------------------------------------------------------------------
  // App state

  const MaxStateLength: nat := 1024 * 1024

  /** `version || 1` for a numeric version field. */
  function VersionOrOne(version: Option<int>): (v: int)
    ensures v != 0
    ensures version.Some? && version.value != 0 ==> v == version.value
  {
    if version.Some? && version.value != 0 then version.value else 1
  }

  /** `POST /api/app-state/:appId`. `stateJson` is `JSON.stringify(state)`,
      absent when `state` is undefined. The write, when there is one, is
      the app id, the JSON text and the version stored. */
  datatype AppStateWrite = AppStateWrite(appId: string, stateJson: string, version: int)

  function AppStatePost(appId: string, stateJson: Option<string>, version: Option<int>)
    : (r: (Reply, Option<AppStateWrite>, seq<Event>))
    ensures stateJson.None? ==> r == (BadRequest("State required"), None, [])
    ensures stateJson.Some? && |Utf16(stateJson.value)| > MaxStateLength ==>
      r == (BadRequest("State too large (max 1MB)"), None, [])
    ensures r.0 == Done <==> stateJson.Some? && |Utf16(stateJson.value)| <= MaxStateLength
    ensures r.0 == Done ==>
      r.1 == Some(AppStateWrite(appId, stateJson.value, VersionOrOne(version))) &&
      r.2 == [AppStateUpdated(None, appId)]
  {
    if stateJson.None? then (BadRequest("State required"), None, [])
    else if |Utf16(stateJson.value)| > MaxStateLength then (BadRequest("State too large (max 1MB)"), None, [])
    else (Done, Some(AppStateWrite(appId, stateJson.value, VersionOrOne(version))), [AppStateUpdated(None, appId)])
  }

  /** The size limit counts UTF-16 units of the JSON text: a text longer
      than the limit in characters is always refused, text of the Basic
      Multilingual Plane is refused exactly when it is longer than the
      limit, and text outside it already at half the limit. */
  lemma StateLimitCountsUnits(appId: string, json: string, version: Option<int>)
    ensures |json| > MaxStateLength ==> AppStatePost(appId, Some(json), version).0 != Done
    ensures (forall i :: 0 <= i < |json| ==> InBmp(json[i])) ==>
      (AppStatePost(appId, Some(json), version).0 == Done <==> |json| <= MaxStateLength)
    ensures (forall i :: 0 <= i < |json| ==> !InBmp(json[i])) ==>
      (AppStatePost(appId, Some(json), version).0 == Done <==> |json| <= MaxStateLength / 2)
  {
    if forall i :: 0 <= i < |json| ==> InBmp(json[i]) {
      Utf16OfBmp(json);
    }
    if forall i :: 0 <= i < |json| ==> !InBmp(json[i]) {
      Utf16OfAstral(json);
    }
  }

  /** The event the app-state route broadcasts names no conversation. */
  lemma AppStateEventHasNoConversation(appId: string, stateJson: Option<string>, version: Option<int>)
    ensures forall e :: e in AppStatePost(appId, stateJson, version).2 ==>
      e.AppStateUpdated? && e.conversationId.None? && e.appId == appId
  {
  }

  // ---------------------------------------------------------------------------
  // Widget log

  predicate IsLogPathChar(c: char) {
    IsWordChar(c) || c == '-' || c == '/'
  }

  /** `/^[\w\-/]+$/`. */
  predicate MatchesLogPath(p: string) {
    |p| >= 1 && forall i :: 0 <= i < |p| ==> IsLogPathChar(p[i])
  }

  /** The `widgetPath` checks of `POST /api/widget-log`. */
  function CheckWidgetPath(widgetPath: Field): (r: Option<string>)
    ensures r.None? <==> widgetPath.Str? && widgetPath.s != "" && !Contains(widgetPath.s, "..") && MatchesLogPath(widgetPath.s)
    ensures !(widgetPath.Str? && widgetPath.s != "") ==> r == Some("widgetPath required")
    ensures widgetPath.Str? && widgetPath.s != "" && r.Some? ==> r == Some("Invalid widgetPath")
  {
    if !widgetPath.Str? || widgetPath.s == "" then Some("widgetPath required")
    else if Contains(widgetPath.s, "..") || !MatchesLogPath(widgetPath.s) then Some("Invalid widgetPath")
    else None
  }

  /** An accepted path has no '..' segment anywhere and only word
      characters, '-' and '/'; in particular no '.', so no '..' at all. */
  lemma AcceptedPathHasNoDot(widgetPath: Field)
    requires CheckWidgetPath(widgetPath).None?
    ensures forall i :: 0 <= i < |widgetPath.s| ==> widgetPath.s[i] != '.' && widgetPath.s[i] != '\\'
  {
  }

  /** The appended line: time, ` L<line>` when `line` is truthy, the data. */
  function LogLine(time: string, line: Option<int>, data: string): (r: string)
    ensures (line.Some? && line.value != 0) ==> r == time + " L" + IntToString(line.value) + " " + data + "\n"
    ensures !(line.Some? && line.value != 0) ==> r == time + " " + data + "\n"
  {
    time + (if line.Some? && line.value != 0 then " L" + IntToString(line.value) else "") + " " + data + "\n"
  }

  /** The log stays line-based: with a time and data free of line breaks,
      the appended text is one line, ending in its only line break. */
  lemma LogLineIsOneLine(time: string, line: Option<int>, data: string)
    requires '\n' !in time && '\n' !in data
    ensures var r := LogLine(time, line, data);
      |r| > |time| && r[..|time|] == time && r[|r| - 1] == '\n' && '\n' !in r[..|r| - 1]
  {
    var mark := if line.Some? && line.value != 0 then " L" + IntToString(line.value) else "";
    assert '\n' !in mark by {
      if line.Some? && line.value != 0 {
        var digits := NatToString(if line.value < 0 then -line.value else line.value);
        assert '\n' !in digits;
      }
    }
    var r := LogLine(time, line, data);
    assert r == (time + mark + " " + data) + "\n";
  }

  // ---------------------------------------------------------------------------
  // Prompt listing

  /** Ordinal comparison of strings (code point by code point). */
  predicate LexLe(a: string, b: string)
    decreases |a|
  {
    a == [] || (b != [] && (a[0] < b[0] || (a[0] == b[0] && LexLe(a[1..], b[1..]))))
  }

  lemma {:induction false} LexLeTotal(a: string, b: string)
    ensures LexLe(a, b) || LexLe(b, a)
    decreases |a|
  {
    if a != [] && b != [] && a[0] == b[0] {
      LexLeTotal(a[1..], b[1..]);
    }
  }

  lemma {:induction false} LexLeTransitive(a: string, b: string, c: string)
    requires LexLe(a, b) && LexLe(b, c)
    ensures LexLe(a, c)
    decreases |a|
  {
    if a != [] && b != [] && c != [] && a[0] == b[0] && b[0] == c[0] {
      LexLeTransitive(a[1..], b[1..], c[1..]);
    }
  }

  lemma {:induction false} LexLeAntisymmetric(a: string, b: string)
    requires LexLe(a, b) && LexLe(b, a)
    ensures a == b
    decreases |a|
  {
    if a != [] && b != [] {
      LexLeAntisymmetric(a[1..], b[1..]);
      assert a == [a[0]] + a[1..] && b == [b[0]] + b[1..];
    }
  }

  const PromptOrder: seq<string> := ["system.md", "user.md", "memory.md"]

  /** The position in the fixed order, 3 for every other file. */
  function Rank(f: string): (r: nat)
    ensures r <= 3
    ensures r < 3 <==> f in PromptOrder
    ensures r < 3 ==> PromptOrder[r] == f
  {
    if f == PromptOrder[0] then 0
    else if f == PromptOrder[1] then 1
    else if f == PromptOrder[2] then 2
    else 3
  }

  /** The comparator of `getPromptList` as an order: the three known files
      first and in their fixed order, the rest by name. */
  predicate PromptLe(a: string, b: string) {
    Rank(a) < Rank(b) || (Rank(a) == Rank(b) && (Rank(a) < 3 || LexLe(a, b)))
  }

  lemma PromptLeTotal()
    ensures Sorting.TotalPreorder(PromptLe)
  {
    forall a, b ensures PromptLe(a, b) || PromptLe(b, a) {
      LexLeTotal(a, b);
    }
    forall a, b, c | PromptLe(a, b) && PromptLe(b, c) ensures PromptLe(a, c) {
      if Rank(a) == Rank(b) == Rank(c) == 3 {
        LexLeTransitive(a, b, c);
      }
    }
  }

  predicate IsPromptFile(f: string) {
    EndsWith(f, ".md") && !EndsWith(f, ".description.md")
  }

  /** `path.basename(f, '.md')` for a file name ending in '.md'. */
  function PromptName(f: string): (n: string)
    requires EndsWith(f, ".md")
    ensures n + ".md" == f
  {
    f[..|f| - 3]
  }

  function PromptNames(files: seq<string>): (r: seq<string>)
    requires forall i :: 0 <= i < |files| ==> EndsWith(files[i], ".md")
    ensures |r| == |files|
    ensures forall i :: 0 <= i < |files| ==> r[i] + ".md" == files[i]
  {
    if files == [] then [] else [PromptName(files[0])] + PromptNames(files[1..])
  }

  /** The files `getPromptList` lists, in its order. */
  function PromptFiles(dir: seq<string>): (r: seq<string>)
    ensures forall f :: f in r <==> f in dir && IsPromptFile(f)
    ensures multiset(r) == multiset(Filter(dir, IsPromptFile))
    ensures forall i, j :: 0 <= i < j < |r| ==> PromptLe(r[i], r[j])
    ensures forall i :: 0 <= i < |r| ==> EndsWith(r[i], ".md")
  {
    PromptLeTotal();
    var kept := Filter(dir, IsPromptFile);
    var r := Sorting.Sort(kept, PromptLe);
    Sorting.SameMembers(r, kept);
    AllPromptFiles(r);
    r
  }

  lemma AllPromptFiles(r: seq<string>)
    requires forall f :: f in r ==> IsPromptFile(f)
    ensures forall i :: 0 <= i < |r| ==> EndsWith(r[i], ".md")
  {
    forall i | 0 <= i < |r| ensures EndsWith(r[i], ".md") {
      assert IsPromptFile(r[i]);
    }
  }

  /** The prompt names of `getPromptList` for a directory listing. */
  function PromptList(dir: seq<string>): (r: seq<string>)
    ensures |r| == |PromptFiles(dir)|
    ensures forall i :: 0 <= i < |r| ==> r[i] + ".md" == PromptFiles(dir)[i]
  {
    PromptNames(PromptFiles(dir))
  }

  /** system.md, user.md and memory.md lead in that order whenever they are
      in the directory, ahead of every other prompt. */
  lemma KnownPromptsFirst(dir: seq<string>, i: nat, j: nat)
    requires i < |PromptFiles(dir)| && j < |PromptFiles(dir)|
    requires Rank(PromptFiles(dir)[i]) < Rank(PromptFiles(dir)[j])
    ensures i < j
  {
  }

  /** Description files and non-markdown files are never listed. */
  lemma DescriptionsNotListed(dir: seq<string>, f: string)
    requires f in PromptFiles(dir)
    ensures EndsWith(f, ".md") && !EndsWith(f, ".description.md") && f in dir
  {
  }
}
