/** The chat client's message feed: the event-stream reducer, the merge of a
    refetched page into the list on screen, older-history loading, the
    agent-status toast, the busy label, and the grouping of internal work
    (thoughts and tool traffic) into one collapsible block per run. */
module Feed {
  import opened Common
  import opened ChatTypes
  import ServerRoutes

  // ---------------------------------------------------------------------------
  // Event-stream reducer for the message list

  /** `msgs.filter(m => m.id !== id)`. */
  function RemoveId(msgs: seq<Message>, id: string): (r: seq<Message>)
    ensures |r| <= |msgs|
    ensures forall m :: m in r <==> m in msgs && m.id != id
    ensures IsSubsequence(r, msgs)
  {
    Filter(msgs, (m: Message) => m.id != id)
  }

  /** `msgs.map(m => m.id === u.id ? u : m)`. */
  function ReplaceById(msgs: seq<Message>, u: Message): (r: seq<Message>)
    ensures |r| == |msgs|
    ensures forall i :: 0 <= i < |msgs| ==> r[i] == if msgs[i].id == u.id then u else msgs[i]
  {
    if msgs == [] then []
    else [if msgs[0].id == u.id then u else msgs[0]] + ReplaceById(msgs[1..], u)
  }

  /** The effect of one event on the list: append, delete by id, update by
      id; every other event leaves the list alone. */
  function ApplyToList(msgs: seq<Message>, e: Event): seq<Message> {
    match e
    case MessageCreated(m) => msgs + [m]
    case MessageDeleted(id) => RemoveId(msgs, id)
    case MessageUpdated(m) => ReplaceById(msgs, m)
    case _ => msgs
  }

  /** A delete leaves no entry with that id and keeps the others in order;
      an update keeps the length and changes only the matching entries. */
  lemma ReducerLaws(msgs: seq<Message>, e: Event)
    ensures e.MessageCreated? ==> ApplyToList(msgs, e) == msgs + [e.message]
    ensures e.MessageDeleted? ==>
      (forall m :: m in ApplyToList(msgs, e) ==> m.id != e.id) &&
      IsSubsequence(ApplyToList(msgs, e), msgs) &&
      (forall m :: m in msgs && m.id != e.id ==> m in ApplyToList(msgs, e))
    ensures e.MessageUpdated? ==>
      |ApplyToList(msgs, e)| == |msgs| &&
      forall i :: 0 <= i < |msgs| && msgs[i].id != e.message.id ==> ApplyToList(msgs, e)[i] == msgs[i]
    ensures !(e.MessageCreated? || e.MessageDeleted? || e.MessageUpdated?) ==> ApplyToList(msgs, e) == msgs
  {
  }

  /** Deleting what was just appended leaves the old list without that id. */
  lemma AppendThenDelete(msgs: seq<Message>, m: Message)
    ensures ApplyToList(ApplyToList(msgs, MessageCreated(m)), MessageDeleted(m.id)) == RemoveId(msgs, m.id)
  {
    FilterAppend(msgs, [m], (x: Message) => x.id != m.id);
  }

  lemma {:induction false} FilterAppend<T(!new)>(a: seq<T>, b: seq<T>, keep: T -> bool)
    ensures Filter(a + b, keep) == Filter(a, keep) + Filter(b, keep)
    decreases |a|
  {
    if a == [] {
      assert a + b == b;
    } else {
      TailOfAppend(a, b);
      FilterAppend(a[1..], b, keep);
      var head := if keep(a[0]) then [a[0]] else [];
      AppendAssoc(head, Filter(a[1..], keep), Filter(b, keep));
    }
  }

  // ---------------------------------------------------------------------------
  // mergeMessages

  /** `new Map(prev.map(m => [m.id, m]))`: for a repeated id the last entry
      wins. */
  function IndexById(ms: seq<Message>): (r: map<string, Message>)
    ensures forall id :: id in r ==> r[id].id == id && r[id] in ms
    ensures forall i :: 0 <= i < |ms| ==> ms[i].id in r
    ensures forall i :: 0 <= i < |ms| && (forall j :: i < j < |ms| ==> ms[j].id != ms[i].id) ==> r[ms[i].id] == ms[i]
  {
    if ms == [] then map[]
    else
      var init, last := ms[..|ms| - 1], ms[|ms| - 1];
      SplitLast(ms);
      LastWins(ms, IndexById(init));
      IndexById(init)[last.id := last]
  }

  /** Indexing one more message: it wins over any earlier one with its id. */
  lemma LastWins(ms: seq<Message>, index: map<string, Message>)
    requires ms != []
    requires forall i :: 0 <= i < |ms| - 1 ==> ms[i].id in index
    requires forall i :: 0 <= i < |ms| - 1 && (forall j :: i < j < |ms| - 1 ==> ms[j].id != ms[i].id) ==>
      index[ms[i].id] == ms[i]
    ensures var r := index[ms[|ms| - 1].id := ms[|ms| - 1]];
      forall i :: 0 <= i < |ms| && (forall j :: i < j < |ms| ==> ms[j].id != ms[i].id) ==> r[ms[i].id] == ms[i]
  {
  }

  /** Whether the `next` entry is replaced by the `prev` entry with its id. */
  predicate Reuses(index: map<string, Message>, m: Message) {
    m.id in index && index[m.id].content == m.content
  }

  function Pick(index: map<string, Message>, m: Message): Message {
    if Reuses(index, m) then index[m.id] else m
  }

  function Picks(index: map<string, Message>, next: seq<Message>): (r: seq<Message>)
    ensures |r| == |next|
    ensures forall i :: 0 <= i < |next| ==> r[i] == Pick(index, next[i])
  {
    if next == [] then [] else [Pick(index, next[0])] + Picks(index, next[1..])
  }

  lemma PicksSnoc(index: map<string, Message>, s: seq<Message>, m: Message)
    ensures Picks(index, s + [m]) == Picks(index, s) + [Pick(index, m)]
  {
    assert Picks(index, s + [m]) == Picks(index, s) + [Pick(index, m)];
  }

  lemma PicksPrefix(index: map<string, Message>, next: seq<Message>, i: nat)
    requires i < |next|
    ensures Picks(index, next[..i + 1]) == Picks(index, next[..i]) + [Pick(index, next[i])]
  {
    PrefixSnoc(next, i);
    PicksSnoc(index, next[..i], next[i]);
  }

  predicate AllReused(index: map<string, Message>, s: seq<Message>) {
    forall i :: 0 <= i < |s| ==> Reuses(index, s[i])
  }

  /** `mergeMessages` as written: `prev` itself is returned whenever the
      lengths agree and every entry of `next` found an equal-content entry
      of `prev`, whatever the order. */
  function MergeAsWritten(prev: seq<Message>, next: seq<Message>): seq<Message> {
    if prev == [] then next
    else
      var index := IndexById(prev);
      var changed := |prev| != |next| || !AllReused(index, next);
      if changed then Picks(index, next) else prev
  }

  /** A refetch that returns the same messages in a different order keeps
      the old order on screen. */
  lemma MergeAsWrittenKeepsOldOrder()
    ensures var a := Message("a", "default", User, None, "x", None, None, 1);
            var b := Message("b", "default", User, None, "y", None, None, 2);
            MergeAsWritten([a, b], [b, a]) == [a, b] && [a, b][0].id != [b, a][0].id
  {
    var a := Message("a", "default", User, None, "x", None, None, 1);
    var b := Message("b", "default", User, None, "y", None, None, 2);
    var index := IndexById([a, b]);
    assert [a, b][..1] == [a] && [a][..0] == [];
    assert IndexById([a]) == map["a" := a];
    assert index == map["a" := a, "b" := b];
    assert Reuses(index, [b, a][0]) && Reuses(index, [b, a][1]);
  }

  /** The corrected merge: the order and the contents are those of `next`,
      and an entry keeps its `prev` object when its content is unchanged. */
  function Merge(prev: seq<Message>, next: seq<Message>): seq<Message> {
    if prev == [] then next else Picks(IndexById(prev), next)
  }

  lemma MergeFollowsNext(prev: seq<Message>, next: seq<Message>, i: nat)
    requires i < |next|
    ensures |Merge(prev, next)| == |next|
    ensures Merge(prev, next)[i].id == next[i].id
    ensures Merge(prev, next)[i].content == next[i].content
    ensures Merge(prev, next)[i] == next[i] || Merge(prev, next)[i] in prev
  {
  }

  /** Where the source's merge does give a fresh list, it is the corrected
      one; it differs only by handing back `prev`. */
  lemma MergeAsWrittenAgreesOrReturnsPrev(prev: seq<Message>, next: seq<Message>)
    ensures MergeAsWritten(prev, next) == Merge(prev, next) || MergeAsWritten(prev, next) == prev
  {
  }

  lemma AllReusedPrefix(index: map<string, Message>, next: seq<Message>, i: nat)
    requires i < |next|
    ensures AllReused(index, next[..i + 1]) <==> AllReused(index, next[..i]) && Reuses(index, next[i])
  {
    PrefixSnoc(next, i);
  }

  /** `mergeMessages` as written, with its `changed` flag set inside `map`. */
  method MergeMessagesAsWritten(prev: seq<Message>, next: seq<Message>) returns (r: seq<Message>)
    ensures r == MergeAsWritten(prev, next)
  {
    if |prev| == 0 {
      return next;
    }
    var index := IndexById(prev);
    var changed := |prev| != |next|;
    var result: seq<Message> := [];
    var i := 0;
    while i < |next|
      invariant 0 <= i <= |next|
      invariant result == Picks(index, next[..i])
      invariant changed <==> |prev| != |next| || !AllReused(index, next[..i])
    {
      var m := next[i];
      PicksPrefix(index, next, i);
      AllReusedPrefix(index, next, i);
      if m.id in index && index[m.id].content == m.content {
        result := result + [index[m.id]];
      } else {
        changed := true;
        result := result + [m];
      }
      i := i + 1;
    }
    WholePrefix(next);
    r := if changed then result else prev;
  }

  /** The corrected `mergeMessages`: the flag is also raised when an entry
      is not the `prev` entry at the same position, so `prev` is handed back
      only when it is exactly the merged list. */
  method MergeMessages(prev: seq<Message>, next: seq<Message>) returns (r: seq<Message>)
    ensures r == Merge(prev, next)
  {
    if |prev| == 0 {
      return next;
    }
    var index := IndexById(prev);
    var changed := |prev| != |next|;
    var result: seq<Message> := [];
    var i := 0;
    while i < |next|
      invariant 0 <= i <= |next|
      invariant result == Picks(index, next[..i])
      invariant !changed ==> |prev| == |next| && result == prev[..i]
    {
      var m := next[i];
      var pick := if m.id in index && index[m.id].content == m.content then index[m.id] else m;
      PicksPrefix(index, next, i);
      if i < |prev| {
        PrefixSnoc(prev, i);
      }
      if i >= |prev| || pick != prev[i] {
        changed := true;
      }
      result := result + [pick];
      i := i + 1;
    }
    WholePrefix(next);
    r := if changed then result else prev;
  }

  // ---------------------------------------------------------------------------
  // refreshMessages

  predicate Fetched(fetched: seq<Message>, id: string) {
    exists j :: 0 <= j < |fetched| && fetched[j].id == id
  }

  /** The older messages kept in front of a refetched page: those created
      strictly before its first message and not in it. With an empty page
      the cursor is '' and nothing is older. */
  function OlderKept(prev: seq<Message>, fetched: seq<Message>): (r: seq<Message>)
    ensures IsSubsequence(r, prev)
    ensures forall m :: m in r <==>
      m in prev && fetched != [] && m.createdAt < fetched[0].createdAt && !Fetched(fetched, m.id)
    ensures fetched == [] ==> r == []
  {
    if fetched == [] then
      FilterNone(prev);
      []
    else
      var oldest := fetched[0].createdAt;
      Filter(prev, (m: Message) => m.createdAt < oldest && !Fetched(fetched, m.id))
  }

  lemma FilterNone(prev: seq<Message>)
    ensures IsSubsequence([], prev)
  {
  }

  /** The list `refreshMessages` installs. */
  function RefreshList(prev: seq<Message>, fetched: seq<Message>): seq<Message> {
    if prev == [] then fetched else OlderKept(prev, fetched) + Merge(prev, fetched)
  }

  /** The refetched page ends the list; in front of it stay, in their old
      order, exactly the older messages it does not contain. */
  lemma RefreshShape(prev: seq<Message>, fetched: seq<Message>)
    requires prev != []
    ensures var r := RefreshList(prev, fetched);
      && |r| == |OlderKept(prev, fetched)| + |fetched|
      && r[|OlderKept(prev, fetched)|..] == Merge(prev, fetched)
    ensures fetched == [] ==> RefreshList(prev, fetched) == []
  {
    var r := RefreshList(prev, fetched);
    assert r[|OlderKept(prev, fetched)|..] == Merge(prev, fetched);
  }

  // ---------------------------------------------------------------------------
  // Agent status and activity

  /** The toast the `agentStatus` handler sets, if any. */
  function StatusToast(wasConnected: bool, connected: bool, error: Option<string>): (r: Option<string>)
    ensures r == Some("Agent connected") <==> connected && !wasConnected
    ensures r.Some? && r != Some("Agent connected") <==> !connected && (wasConnected || Present(error))
    ensures !connected && (wasConnected || Present(error)) ==>
      r == Some("Agent offline: " + OrElse(error, "Connection failed"))
  {
    if connected && !wasConnected then Some("Agent connected")
    else if !connected && (wasConnected || Present(error)) then
      var t := "Agent offline: " + OrElse(error, "Connection failed");
      assert t[6] != "Agent connected"[6];
      Some(t)
    else None
  }

  /** A failed agent notification reaches the client as an offline toast
      naming the failure whenever the failure has a message. */
  lemma FailedNotifyShowsOffline(o: ServerRoutes.AgentOutcome, wasConnected: bool)
    requires !(o.Answered? && o.ok)
    ensures var e := ServerRoutes.NotifyEvents(o)[0];
      Present(e.error) ==> StatusToast(wasConnected, e.connected, e.error) == Some("Agent offline: " + e.error.value)
  {
  }

  const Idle: string := "idle"

  /** `data.state || 'idle'`. */
  function StateOrIdle(state: Option<string>): (r: string)
    ensures r != ""
    ensures Present(state) ==> r == state.value
    ensures !Present(state) ==> r == Idle
  {
    OrElse(state, Idle)
  }

  predicate Busy(state: string) {
    state != Idle
  }

  /** A missing or empty state reads as not busy. */
  lemma MissingStateIsIdle(state: Option<string>)
    ensures Busy(StateOrIdle(state)) <==> Present(state) && state.value != Idle
  {
  }

  /** `stateLabels[state] || 'Working…'`. */
  function StateLabel(state: string): (r: string)
    ensures state == "inference" ==> r == "Thinking\U{2026}"
    ensures state == "tool_execution" ==> r == "Running tool\U{2026}"
    ensures state == "compaction" ==> r == "Compacting\U{2026}"
    ensures state !in {"inference", "tool_execution", "compaction"} ==> r == "Working\U{2026}"
  {
    if state == "inference" then "Thinking\U{2026}"
    else if state == "tool_execution" then "Running tool\U{2026}"
    else if state == "compaction" then "Compacting\U{2026}"
    else "Working\U{2026}"
  }

  // ---------------------------------------------------------------------------
  // Internal-work groups

  /** Agent output of a type other than 'message'. */
  predicate IsInternal(m: Message) {
    m.role == Agent && Present(m.kind) && m.kind.value != "message"
  }

  /** The run of internal messages starting at `idx`. */
  function Run(msgs: seq<Message>, idx: nat): (r: seq<Message>)
    ensures idx + |r| <= |msgs| || r == []
    ensures idx <= |msgs| ==> r == msgs[idx..idx + |r|]
    ensures forall k :: 0 <= k < |r| ==> IsInternal(r[k])
    ensures idx + |r| < |msgs| ==> !IsInternal(msgs[idx + |r|])
    decreases |msgs| - idx
  {
    if idx < |msgs| && IsInternal(msgs[idx]) then [msgs[idx]] + Run(msgs, idx + 1) else []
  }

  /** What the list renders at position `idx`. */
  datatype Item = Bubble(message: Message) | Block(group: seq<Message>, isLast: bool) | Hidden

  function RenderAt(msgs: seq<Message>, idx: nat): Item
    requires idx < |msgs|
  {
    if !IsInternal(msgs[idx]) then Bubble(msgs[idx])
    else if idx > 0 && IsInternal(msgs[idx - 1]) then Hidden
    else
      var g := Run(msgs, idx);
      Block(g, idx + |g| >= |msgs|)
  }

  /** Every internal message is shown in exactly one block: the one opened
      by the first message of its run. */
  lemma InternalShownOnce(msgs: seq<Message>, i: nat)
    requires i < |msgs| && IsInternal(msgs[i])
    ensures exists s: nat :: s <= i && RenderAt(msgs, s).Block? && i < s + |RenderAt(msgs, s).group|
    ensures forall s: nat :: s < |msgs| && RenderAt(msgs, s).Block? && s <= i < s + |RenderAt(msgs, s).group| ==>
      forall t: nat :: s < t <= i ==> RenderAt(msgs, t).Hidden?
  {
    var s := RunStart(msgs, i);
    assert RenderAt(msgs, s).Block? && i < s + |RenderAt(msgs, s).group|;
    forall s: nat | s < |msgs| && RenderAt(msgs, s).Block? && s <= i < s + |RenderAt(msgs, s).group|
      ensures forall t: nat :: s < t <= i ==> RenderAt(msgs, t).Hidden?
    {
      forall t: nat | s < t <= i ensures RenderAt(msgs, t).Hidden? {
        InsideRunHidden(msgs, s, t);
      }
    }
  }

  /** The block that shows position `i`: it opens where the run through `i`
      begins. */
  lemma {:induction false} RunStart(msgs: seq<Message>, i: nat) returns (s: nat)
    requires i < |msgs| && IsInternal(msgs[i])
    ensures s <= i && RenderAt(msgs, s).Block? && i < s + |RenderAt(msgs, s).group|
    decreases i
  {
    if i > 0 && IsInternal(msgs[i - 1]) {
      s := RunStart(msgs, i - 1);
      RunReaches(msgs, s, i);
    } else {
      s := i;
    }
  }

  /** A message inside a block's run, after its first, renders nothing. */
  lemma InsideRunHidden(msgs: seq<Message>, s: nat, t: nat)
    requires s < t < |msgs| && t < s + |Run(msgs, s)|
    ensures RenderAt(msgs, t).Hidden?
  {
    var g := Run(msgs, s);
    assert msgs[t] == g[t - s] && msgs[t - 1] == g[t - 1 - s];
  }

  /** A run that covers position `i - 1` and finds `i` internal covers `i`. */
  lemma RunReaches(msgs: seq<Message>, s: nat, i: nat)
    requires s < i < |msgs| && IsInternal(msgs[i])
    requires i - 1 < s + |Run(msgs, s)|
    ensures i < s + |Run(msgs, s)|
  {
  }

  /** One more internal message taken into the group. */
  lemma RunStep(msgs: seq<Message>, i: nat, group: seq<Message>, all: seq<Message>)
    requires i < |msgs| && IsInternal(msgs[i]) && group + Run(msgs, i) == all
    ensures (group + [msgs[i]]) + Run(msgs, i + 1) == all
  {
    assert Run(msgs, i) == [msgs[i]] + Run(msgs, i + 1);
    AppendAssoc(group, [msgs[i]], Run(msgs, i + 1));
  }

  /** A block is the last thing on screen exactly when its run reaches the
      end of the list. */
  lemma BlockIsLastIffRunEnds(msgs: seq<Message>, idx: nat)
    requires idx < |msgs| && RenderAt(msgs, idx).Block?
    ensures RenderAt(msgs, idx).isLast <==> forall k :: idx <= k < |msgs| ==> IsInternal(msgs[k])
  {
    RunEnds(msgs, idx);
  }

  lemma {:induction false} RunEnds(msgs: seq<Message>, idx: nat)
    ensures idx + |Run(msgs, idx)| >= |msgs| <==> forall k :: idx <= k < |msgs| ==> IsInternal(msgs[k])
    decreases |msgs| - idx
  {
    if idx < |msgs| && IsInternal(msgs[idx]) {
      RunEnds(msgs, idx + 1);
      assert |Run(msgs, idx)| == 1 + |Run(msgs, idx + 1)|;
    } else if idx < |msgs| {
      assert Run(msgs, idx) == [];
      assert !IsInternal(msgs[idx]);
    }
  }

  // ---------------------------------------------------------------------------
  // The component's state

  datatype ChannelPost = ChannelPost(channel: string, appId: string)

  /** A page of history as the messages endpoint answers it. */
  datatype Page = Page(messages: seq<Message>, hasMore: bool)

  class FeedState {
    var messages: seq<Message>
    var agentConnected: bool
    var agentState: string
    var toast: Option<string>
    var hasMore: bool
    var loadingOlder: bool
    /** `{type: 'stateUpdated', appId}` posted on the channel `app:<appId>`. */
    var posts: seq<ChannelPost>

    constructor ()
      ensures messages == [] && agentConnected && agentState == Idle && toast.None?
      ensures !hasMore && !loadingOlder && posts == []
    {
      messages := [];
      agentConnected := true;
      agentState := Idle;
      toast := None;
      hasMore := false;
      loadingOlder := false;
      posts := [];
    }

    /** `events.onmessage` for one decoded event. A typing event has no
        case here. A scroll event scrolls an element already on the page
        (not modelled) or, when `elementShown` is false, starts the fetch
        of the page around the message, whose id is returned and whose
        completion is `FinishScrollFetch`. An event without `type` matches
        the `AGENT_STATE` case, whose constant the shared module does not
        define. */
    method OnEvent(e: Event, elementShown: bool) returns (around: Option<string>)
      modifies this
      ensures around.Some? <==> e.ScrollToMessage? && !elementShown
      ensures around.Some? ==> around.value == e.messageId
      ensures messages == ApplyToList(old(messages), e)
      ensures hasMore == old(hasMore) && loadingOlder == old(loadingOlder)
      ensures e.AppStateUpdated? ==> posts == old(posts) + [ChannelPost("app:" + e.appId, e.appId)]
      ensures !e.AppStateUpdated? ==> posts == old(posts)
      ensures e.AgentStatus? ==> agentConnected == e.connected
      ensures !e.AgentStatus? ==> agentConnected == old(agentConnected)
      ensures e.AgentStatus? ==>
        toast == (var t := StatusToast(old(agentConnected), e.connected, e.error); if t.Some? then t else old(toast))
      ensures !e.AgentStatus? ==> toast == old(toast)
      ensures e.Untyped? ==> agentState == StateOrIdle(e.state)
      ensures !e.Untyped? ==> agentState == old(agentState)
    {
      match e {
        case MessageCreated(m) =>
          messages := messages + [m];
        case MessageDeleted(id) =>
          messages := RemoveId(messages, id);
        case MessageUpdated(m) =>
          messages := ReplaceById(messages, m);
        case AppStateUpdated(_, appId) =>
          posts := posts + [ChannelPost("app:" + appId, appId)];
        case AgentStatus(connected, error) =>
          var wasConnected := agentConnected;
          agentConnected := connected;
          var t := StatusToast(wasConnected, connected, error);
          if t.Some? {
            toast := t;
          }
        case Untyped(state) =>
          agentState := StateOrIdle(state);
        case AgentTyping(_) =>
        case ScrollToMessage(messageId) =>
          if !elementShown {
            return Some(messageId);
          }
      }
      return None;
    }

    /** The end of the fetch a scroll event started: a page (`None` when
        the answer was not ok) replaces the whole list and `hasMore`. */
    method FinishScrollFetch(page: Option<Page>)
      modifies this`messages, this`hasMore
      ensures page.Some? ==> messages == page.value.messages && hasMore == page.value.hasMore
      ensures page.None? ==> messages == old(messages) && hasMore == old(hasMore)
    {
      if page.None? {
        return;
      }
      messages := page.value.messages;
      hasMore := page.value.hasMore;
    }

    /** The four-second timer after a toast. */
    method ToastExpired()
      modifies this`toast
      ensures toast.None?
    {
      toast := None;
    }

    /** `pollAgentState` with a successful answer. */
    method OnAgentState(state: Option<string>)
      modifies this`agentState
      ensures agentState == StateOrIdle(state)
    {
      agentState := StateOrIdle(state);
    }

    /** `refreshMessages` with the page it fetched. */
    method Refresh(page: Page)
      modifies this`messages, this`hasMore
      ensures messages == RefreshList(old(messages), page.messages)
      ensures hasMore == page.hasMore
    {
      var prev := messages;
      if |prev| == 0 {
        messages := page.messages;
      } else {
        var merged := MergeMessages(prev, page.messages);
        messages := OlderKept(prev, page.messages) + merged;
      }
      hasMore := page.hasMore;
    }

    /** The start of `loadOlderMessages`: nothing happens while a load is in
        flight, when there is no more history, or when the list is empty;
        otherwise the load starts with the oldest message's time as cursor. */
    method BeginLoadOlder() returns (before: Option<Time>)
      modifies this`loadingOlder
      ensures before.Some? <==> !old(loadingOlder) && hasMore && messages != []
      ensures before.Some? ==> before.value == messages[0].createdAt && loadingOlder
      ensures before.None? ==> loadingOlder == old(loadingOlder)
    {
      if loadingOlder || !hasMore {
        return None;
      }
      if |messages| == 0 {
        return None;
      }
      loadingOlder := true;
      return Some(messages[0].createdAt);
    }

    /** The end of `loadOlderMessages`: a page (`None` when the request
        failed or was not ok) is prepended when it is not empty. */
    method FinishLoadOlder(page: Option<Page>)
      modifies this`messages, this`hasMore, this`loadingOlder
      ensures !loadingOlder
      ensures page.Some? ==> messages == page.value.messages + old(messages) && hasMore == page.value.hasMore
      ensures page.None? ==> messages == old(messages) && hasMore == old(hasMore)
    {
      if page.Some? {
        if |page.value.messages| > 0 {
          messages := page.value.messages + messages;
        }
        loadingOlder := false;
        hasMore := page.value.hasMore;
        return;
      }
      loadingOlder := false;
    }

    /** `getGroup(idx)`: the for-loop that collects the run of internal
        messages starting at `idx`. */
    method GetGroup(idx: nat) returns (group: seq<Message>)
      ensures group == Run(messages, idx)
    {
      var msgs := messages;
      group := [];
      var i := idx;
      while i < |msgs| && IsInternal(msgs[i])
        invariant idx <= i
        invariant group + Run(msgs, i) == Run(msgs, idx)
        decreases |msgs| - i
      {
        RunStep(msgs, i, group, Run(msgs, idx));
        group := group + [msgs[i]];
        i := i + 1;
      }
    }
  }
}
