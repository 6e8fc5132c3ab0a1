/** The SQLite tables of the server and the statements run against them,
    held in memory: messages, widget state, invites and sessions. Fresh
    UUIDs and the current time are parameters; an INSERT that violates a
    primary-key or UNIQUE constraint, which throws in the source, returns
    `Err`. */
module Store {
  import opened Common
  import opened ChatTypes
  import Sorting

  const SessionDurationMs: int := 30 * 24 * 60 * 60 * 1000
  const InviteDurationMs: int := 5 * 60 * 1000

  /** A row of `messages`: the table has no column for `type` or `name`. */
  datatype Row = Row(
    id: string,
    conversationId: string,
    role: Role,
    content: string,
    attachment: Option<Attachment>,
    createdAt: Time)

  datatype WidgetState = WidgetState(
    conversationId: string,
    widgetId: string,
    state: string,
    version: int,
    updatedAt: Time)

  datatype Invite = Invite(token: string, expiresAt: Time, used: bool)

  datatype Session = Session(id: string, token: string, createdAt: Time, expiresAt: Time)

  datatype Result<T> = Ok(value: T) | ConstraintViolation

  /** The columns `addMessage` writes. */
  function Stored(m: Message): Row {
    Row(m.id, m.conversationId, m.role, m.content, m.attachment, m.createdAt)
  }

  /** The object `getMessages` and `updateMessage` build from a row. */
  function Loaded(r: Row): Message {
    Message(r.id, r.conversationId, r.role, None, r.content, None, r.attachment, r.createdAt)
  }

  /** A message read back has lost exactly its type and tool name. */
  lemma StoredRoundTrip(m: Message)
    ensures Loaded(Stored(m)) == m.(kind := None, name := None)
    ensures Loaded(Stored(m)) == m <==> m.kind.None? && m.name.None?
  {
  }

  function LoadedAll(rows: seq<Row>): (r: seq<Message>)
    ensures |r| == |rows|
    ensures forall i :: 0 <= i < |rows| ==> r[i] == Loaded(rows[i])
  {
    if rows == [] then [] else [Loaded(rows[0])] + LoadedAll(rows[1..])
  }

  predicate CreatedLe(a: Message, b: Message) {
    a.createdAt <= b.createdAt
  }

  lemma CreatedLeTotal()
    ensures Sorting.TotalPreorder(CreatedLe)
  {
  }

  predicate HasId(rows: seq<Row>, id: string) {
    exists i :: 0 <= i < |rows| && rows[i].id == id
  }

  ghost predicate UniqueIds(rows: seq<Row>) {
    forall i, j :: 0 <= i < j < |rows| ==> rows[i].id != rows[j].id
  }

  /** `DELETE FROM messages WHERE id = ?`. */
  function DeleteRows(rows: seq<Row>, id: string): (r: seq<Row>)
    ensures !HasId(r, id)
    ensures |r| <= |rows|
    ensures |r| < |rows| <==> HasId(rows, id)
    ensures forall x :: x in r <==> x in rows && x.id != id
    ensures IsSubsequence(r, rows)
  {
    if rows == [] then []
    else
      var rest := DeleteRows(rows[1..], id);
      if rows[0].id == id then
        FilterSubsequenceSkip(rest, rows);
        rest
      else
        assert ([rows[0]] + rest)[1..] == rest;
        assert forall x :: x in rows <==> x == rows[0] || x in rows[1..];
        [rows[0]] + rest
  }

  /** `UPDATE messages SET content = ? WHERE id = ?`. */
  function UpdateRows(rows: seq<Row>, id: string, content: string): (r: seq<Row>)
    ensures |r| == |rows|
    ensures forall i :: 0 <= i < |rows| ==>
      r[i] == if rows[i].id == id then rows[i].(content := content) else rows[i]
  {
    if rows == [] then []
    else [if rows[0].id == id then rows[0].(content := content) else rows[0]]
         + UpdateRows(rows[1..], id, content)
  }

  /** `UPDATE invites SET used = 1 WHERE token = ? AND used = 0`, with
      whether it changed a row. */
  function MarkUsed(invites: map<string, Invite>, token: string): (r: (map<string, Invite>, bool))
    ensures r.1 <==> token in invites && !invites[token].used
    ensures r.0.Keys == invites.Keys
    ensures token in invites ==> r.0[token] == invites[token].(used := true)
    ensures forall t :: t in invites && t != token ==> r.0[t] == invites[t]
  {
    if token in invites && !invites[token].used
    then (invites[token := invites[token].(used := true)], true)
    else (invites, false)
  }

  /** An invite can be spent once: whatever happened before, a second
      `markInviteUsed` with the same token reports no change. */
  lemma MarkUsedOnce(invites: map<string, Invite>, token: string)
    ensures !MarkUsed(MarkUsed(invites, token).0, token).1
    ensures MarkUsed(MarkUsed(invites, token).0, token).0 == MarkUsed(invites, token).0
  {
    var once := MarkUsed(invites, token).0;
    if token in invites {
      assert once[token].used;
    }
  }

  /** The keys of the rows `DELETE … WHERE expiresAt < ?` removes. */
  function ExpiredKeys<V>(table: map<string, V>, expiry: V -> Time, now: Time): (k: set<string>)
    ensures k <= table.Keys
    ensures forall t :: t in k <==> t in table && expiry(table[t]) < now
  {
    set t | t in table && expiry(table[t]) < now
  }

  /** What a cleanup promises over time: a row expired at one instant is
      expired at every later one, and right after a cleanup at `now`
      nothing left is expired at `now`, so a second cleanup removes
      nothing. */
  lemma ExpiredKeysLaws<V>(table: map<string, V>, expiry: V -> Time, now: Time, later: Time)
    requires now <= later
    ensures ExpiredKeys(table, expiry, now) <= ExpiredKeys(table, expiry, later)
    ensures ExpiredKeys(table - ExpiredKeys(table, expiry, now), expiry, now) == {}
  {
    var rest := table - ExpiredKeys(table, expiry, now);
    forall t | t in rest ensures !(expiry(rest[t]) < now) {
      assert rest[t] == table[t];
    }
  }

  function InviteExpiry(i: Invite): Time { i.expiresAt }
  function SessionExpiry(s: Session): Time { s.expiresAt }

  class Database {
    var messages: seq<Row>
    var widgetStates: map<(string, string), WidgetState>
    var invites: map<string, Invite>
    /** Sessions by token; the token column is UNIQUE and so is the id. */
    var sessions: map<string, Session>

    ghost predicate Valid()
      reads this
    {
      && UniqueIds(messages)
      && (forall k :: k in widgetStates ==> (widgetStates[k].conversationId, widgetStates[k].widgetId) == k)
      && (forall t :: t in invites ==> invites[t].token == t)
      && (forall t :: t in sessions ==> sessions[t].token == t)
      && (forall t, u :: t in sessions && u in sessions && sessions[t].id == sessions[u].id ==> t == u)
    }

    constructor ()
      ensures Valid()
      ensures messages == [] && widgetStates == map[] && invites == map[] && sessions == map[]
    {
      messages := [];
      widgetStates := map[];
      invites := map[];
      sessions := map[];
    }

    /** `getMessages`: every row, ordered by ascending `createdAt`. */
    method GetMessages() returns (r: seq<Message>)
      requires Valid()
      ensures multiset(r) == multiset(LoadedAll(messages))
      ensures forall i, j :: 0 <= i < j < |r| ==> r[i].createdAt <= r[j].createdAt
      ensures forall m :: m in r ==> m.kind.None? && m.name.None?
    {
      CreatedLeTotal();
      r := Sorting.Sort(LoadedAll(messages), CreatedLe);
      forall m | m in r ensures m.kind.None? && m.name.None? {
        assert m in multiset(LoadedAll(messages));
      }
    }

    /** `addMessage`: inserts the stored columns and returns its argument. */
    method AddMessage(m: Message) returns (r: Result<Message>)
      requires Valid()
      modifies this`messages
      ensures Valid()
      ensures r.ConstraintViolation? <==> HasId(old(messages), m.id)
      ensures r.Ok? ==> r.value == m && messages == old(messages) + [Stored(m)]
      ensures r.ConstraintViolation? ==> messages == old(messages)
    {
      if HasId(messages, m.id) {
        return ConstraintViolation;
      }
      messages := messages + [Stored(m)];
      return Ok(m);
    }

    /** `deleteMessage`: true iff a row with that id was removed. */
    method DeleteMessage(id: string) returns (deleted: bool)
      requires Valid()
      modifies this`messages
      ensures Valid()
      ensures deleted <==> HasId(old(messages), id)
      ensures messages == DeleteRows(old(messages), id)
    {
      deleted := HasId(messages, id);
      var before := messages;
      messages := DeleteRows(messages, id);
      forall i, j | 0 <= i < j < |messages| ensures messages[i].id != messages[j].id {
        FilterKeepsUnique(before, id, i, j);
      }
    }

    /** `updateMessage`: null when no row matched; otherwise the row read
        back after the update. */
    method UpdateMessage(id: string, content: string) returns (r: Option<Message>)
      requires Valid()
      modifies this`messages
      ensures Valid()
      ensures messages == UpdateRows(old(messages), id, content)
      ensures r.None? <==> !HasId(old(messages), id)
      ensures r.Some? ==> exists i ::
        && 0 <= i < |old(messages)| && old(messages)[i].id == id
        && r.value == Loaded(old(messages)[i].(content := content))
    {
      var before := messages;
      messages := UpdateRows(messages, id, content);
      if !HasId(before, id) {
        return None;
      }
      var i :| 0 <= i < |before| && before[i].id == id;
      assert messages[i] == before[i].(content := content);
      r := Some(Loaded(messages[i]));
    }

    /** `getMessage`, which `server/src/index.ts` imports; the store defines
        no such export, and this is the lookup it would be. */
    method GetMessage(id: string) returns (r: Option<Message>)
      requires Valid()
      ensures r.None? <==> !HasId(messages, id)
      ensures r.Some? ==> exists i :: 0 <= i < |messages| && messages[i].id == id && r.value == Loaded(messages[i])
    {
      var i := 0;
      while i < |messages|
        invariant 0 <= i <= |messages|
        invariant forall j :: 0 <= j < i ==> messages[j].id != id
      {
        if messages[i].id == id {
          return Some(Loaded(messages[i]));
        }
        i := i + 1;
      }
      return None;
    }

    method GetWidgetState(conversationId: string, widgetId: string) returns (r: Option<WidgetState>)
      requires Valid()
      ensures r.Some? <==> (conversationId, widgetId) in widgetStates
      ensures r.Some? ==> r.value == widgetStates[(conversationId, widgetId)]
      ensures r.Some? ==> r.value.conversationId == conversationId && r.value.widgetId == widgetId
    {
      if (conversationId, widgetId) in widgetStates {
        return Some(widgetStates[(conversationId, widgetId)]);
      }
      return None;
    }

    /** `setWidgetState`: an upsert on (conversationId, widgetId). The
        version is stored as given and never compared with the old one. */
    method SetWidgetState(conversationId: string, widgetId: string, state: string, version: int, now: Time)
      returns (r: WidgetState)
      requires Valid()
      modifies this`widgetStates
      ensures Valid()
      ensures r == WidgetState(conversationId, widgetId, state, version, now)
      ensures widgetStates == old(widgetStates)[(conversationId, widgetId) := r]
    {
      r := WidgetState(conversationId, widgetId, state, version, now);
      widgetStates := widgetStates[(conversationId, widgetId) := r];
    }

    /** `createInvite`: unused, expiring five minutes from now. */
    method CreateInvite(token: string, now: Time) returns (r: Result<Invite>)
      requires Valid()
      modifies this`invites
      ensures Valid()
      ensures r.ConstraintViolation? <==> token in old(invites)
      ensures r.Ok? ==> r.value == Invite(token, now + InviteDurationMs, false)
      ensures r.Ok? ==> invites == old(invites)[token := r.value]
      ensures r.ConstraintViolation? ==> invites == old(invites)
    {
      if token in invites {
        return ConstraintViolation;
      }
      var inv := Invite(token, now + InviteDurationMs, false);
      invites := invites[token := inv];
      return Ok(inv);
    }

    method GetInvite(token: string) returns (r: Option<Invite>)
      requires Valid()
      ensures r.Some? <==> token in invites
      ensures r.Some? ==> r.value == invites[token] && r.value.token == token
    {
      if token in invites {
        return Some(invites[token]);
      }
      return None;
    }

    /** `markInviteUsed`. */
    method MarkInviteUsed(token: string) returns (changed: bool)
      requires Valid()
      modifies this`invites
      ensures Valid()
      ensures (invites, changed) == MarkUsed(old(invites), token)
    {
      var next := MarkUsed(invites, token);
      invites, changed := next.0, next.1;
    }

    /** `createSession`: expires thirty days from now. */
    method CreateSession(id: string, token: string, now: Time) returns (r: Result<Session>)
      requires Valid()
      modifies this`sessions
      ensures Valid()
      ensures r.ConstraintViolation? <==>
        token in old(sessions) || exists t :: t in old(sessions) && old(sessions)[t].id == id
      ensures r.Ok? ==> r.value == Session(id, token, now, now + SessionDurationMs)
      ensures r.Ok? ==> sessions == old(sessions)[token := r.value]
      ensures r.ConstraintViolation? ==> sessions == old(sessions)
    {
      if token in sessions || exists t :: t in sessions && sessions[t].id == id {
        return ConstraintViolation;
      }
      var s := Session(id, token, now, now + SessionDurationMs);
      sessions := sessions[token := s];
      return Ok(s);
    }

    /** `getSessionByToken`: an expired session is deleted (by its id) and
        reported as absent. */
    method GetSessionByToken(token: string, now: Time) returns (r: Option<Session>)
      requires Valid()
      modifies this`sessions
      ensures Valid()
      ensures r.Some? <==> token in old(sessions) && !(old(sessions)[token].expiresAt < now)
      ensures r.Some? ==> r.value == old(sessions)[token] && sessions == old(sessions)
      ensures token !in old(sessions) ==> sessions == old(sessions)
      ensures token in old(sessions) && old(sessions)[token].expiresAt < now ==>
        sessions == old(sessions) - {token}
    {
      if token !in sessions {
        return None;
      }
      var s := sessions[token];
      if s.expiresAt < now {
        var before := sessions;
        sessions := map t | t in sessions && sessions[t].id != s.id :: sessions[t];
        assert sessions == before - {token};
        return None;
      }
      return Some(s);
    }

    /** `deleteSession`: true iff a session had that token. */
    method DeleteSession(token: string) returns (deleted: bool)
      requires Valid()
      modifies this`sessions
      ensures Valid()
      ensures deleted <==> token in old(sessions)
      ensures sessions == old(sessions) - {token}
    {
      deleted := token in sessions;
      sessions := sessions - {token};
    }

    /** `cleanupExpiredSessions`: deletes exactly the expired rows and
        returns how many there were. */
    method CleanupExpiredSessions(now: Time) returns (n: nat)
      requires Valid()
      modifies this`sessions
      ensures Valid()
      ensures n == |ExpiredKeys(old(sessions), SessionExpiry, now)|
      ensures sessions == old(sessions) - ExpiredKeys(old(sessions), SessionExpiry, now)
      ensures forall t :: t in sessions ==> sessions[t].expiresAt >= now
    {
      var gone := ExpiredKeys(sessions, SessionExpiry, now);
      n := |gone|;
      sessions := sessions - gone;
    }

    /** `cleanupExpiredInvites`, the same for invites. */
    method CleanupExpiredInvites(now: Time) returns (n: nat)
      requires Valid()
      modifies this`invites
      ensures Valid()
      ensures n == |ExpiredKeys(old(invites), InviteExpiry, now)|
      ensures invites == old(invites) - ExpiredKeys(old(invites), InviteExpiry, now)
      ensures forall t :: t in invites ==> invites[t].expiresAt >= now
    {
      var gone := ExpiredKeys(invites, InviteExpiry, now);
      n := |gone|;
      invites := invites - gone;
    }
  }

  lemma FilterKeepsUnique(rows: seq<Row>, id: string, i: nat, j: nat)
    requires UniqueIds(rows)
    requires i < j < |DeleteRows(rows, id)|
    ensures DeleteRows(rows, id)[i].id != DeleteRows(rows, id)[j].id
  {
    var r := DeleteRows(rows, id);
    SubsequenceUnique(r, rows, i, j);
  }

  /** A subsequence of a sequence of distinct ids has distinct ids. */
  lemma {:induction false} SubsequenceUnique(a: seq<Row>, b: seq<Row>, i: nat, j: nat)
    requires IsSubsequence(a, b) && UniqueIds(b)
    requires i < j < |a|
    ensures a[i].id != a[j].id
    decreases |b|
  {
    if a[0] == b[0] {
      assert IsSubsequence(a[1..], b[1..]);
      if i == 0 {
        // a[j] is an element of b[1..], whose ids all differ from b[0]'s
        SubsequenceMember(a[1..], b[1..], j - 1);
        var k :| 0 <= k < |b[1..]| && b[1..][k] == a[j];
        assert b[k + 1] == a[j];
      } else {
        SubsequenceUnique(a[1..], b[1..], i - 1, j - 1);
      }
    } else {
      SubsequenceUnique(a, b[1..], i, j);
    }
  }

  lemma {:induction false} SubsequenceMember<T>(a: seq<T>, b: seq<T>, i: nat)
    requires IsSubsequence(a, b) && i < |a|
    ensures a[i] in b
    decreases |b|
  {
    if a[0] == b[0] {
      if i > 0 {
        SubsequenceMember(a[1..], b[1..], i - 1);
      }
    } else {
      SubsequenceMember(a, b[1..], i);
    }
  }
}
