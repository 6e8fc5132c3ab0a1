/** The full-page view of one widget: it loads the message, picks the
    conversation, shows the message's single widget in a sandboxed frame,
    answers the frame's messages (state reads and writes, app actions, error
    reports) and forwards app-state invalidations from the event stream to
    the frame. Network calls are recorded with their outcomes passed in. */
module WidgetPage {
  import opened Common
  import opened ChatTypes
  import HtmlInject
  import WidgetParser
  import ServerRoutes
  import Launcher

  /** A JSON value as its text and its JavaScript truthiness. */
  datatype Json = Json(text: string, truthy: bool)

  /** `e.data` of a message from the frame, by its `type`. */
  datatype FrameMessage =
    | GetStateMsg(appId: Field)
    | SetStateMsg(appId: Field, state: Option<Json>)
    | RequestMsg(id: Option<int>, appId: Field, action: Field, payload: Option<Json>)
    | ResizeMsg
    | ErrorMsg(error: Option<string>, stack: Option<string>)
    | OtherMsg

  /** What the page posts to the frame. `StateReply.state` is `None` for a
      `null` state. */
  datatype FrameReply =
    | StateReply(state: Option<Json>)
    | Response(id: Option<int>, data: Option<Json>, error: Option<string>)
    | StateUpdated(appId: string)

  /** The requests the page sends to the server, for the current
      conversation. */
  datatype HostCall =
    | ReadState(conversationId: string, appId: Field)
    | WriteState(conversationId: string, appId: Field, state: Option<Json>)
    | RunAction(conversationId: string, appId: Field, action: Field, payload: Option<Json>)
    | LogError(conversationId: string, error: Option<string>, stack: Option<string>)

  /** How the state read went: the fetch threw, the reply was not ok, or
      the body had this `state` field. */
  datatype StateFetch = ReadFailed | ReadNotOk | ReadBody(state: Option<Json>)

  /** How an action call went: it threw with a message, or the body was this. */
  datatype ActionFetch = ActionThrew(message: string) | ActionBody(data: Json)

  /** How loading the message went. */
  datatype Load =
    | LoadThrew
    | LoadNotOk(error: Option<string>)
    | Loaded(conversationId: Option<string>, content: string)

  const LoadFailed: string := "Failed to load widget"
  const NotOneWidget: string := "Message does not contain exactly one widget"
  const InvalidRequest: string := "Invalid request"

  /** `data?.state || null`: a truthy state, else null. */
  function StateOf(f: StateFetch): (r: Option<Json>)
    ensures r.Some? <==> f.ReadBody? && f.state.Some? && f.state.value.truthy
    ensures r.Some? ==> r == f.state
  {
    if f.ReadBody? && f.state.Some? && f.state.value.truthy then f.state else None
  }

  /** The reply to a request whose app id and action are both truthy. */
  function ActionReply(id: Option<int>, f: ActionFetch): (r: FrameReply)
    ensures r.Response? && r.id == id
    ensures f.ActionBody? <==> r.data.Some?
    ensures f.ActionBody? ==> r.data == Some(f.data) && r.error.None?
    ensures f.ActionThrew? ==> r.error == Some(f.message)
  {
    match f
    case ActionThrew(m) => Response(id, None, Some(m))
    case ActionBody(d) => Response(id, Some(d), None)
  }

  /** `params.get('conversationId') || message.conversationId || 'default'`. */
  function ChooseConversation(urlParam: Option<string>, messageConversation: Option<string>): (r: string)
    ensures r != ""
    ensures Present(urlParam) ==> r == urlParam.value
    ensures !Present(urlParam) && Present(messageConversation) ==> r == messageConversation.value
    ensures !Present(urlParam) && !Present(messageConversation) ==> r == "default"
  {
    OrElse(urlParam, OrElse(messageConversation, "default"))
  }

  /** The page's document: the one widget, wrapped for full-screen display. */
  function PageHtml(widgets: seq<string>, framework: HtmlInject.Mode -> string): string
    requires |widgets| == 1
  {
    HtmlInject.WrapWidgetHtml(widgets[0], framework, HtmlInject.Fullscreen)
  }

  /** What the page shows as written: `widgets[0].code` reads a property of
      a string, which is `undefined`, and wrapping it writes the text
      "undefined". */
  function PageHtmlAsWritten(widgets: seq<string>, framework: HtmlInject.Mode -> string): string
    requires |widgets| == 1
  {
    HtmlInject.WrapWidgetHtml("undefined", framework, HtmlInject.Fullscreen)
  }

  /** As written, every widget shows the same document. */
  lemma AsWrittenShowsUndefined(framework: HtmlInject.Mode -> string)
    ensures PageHtmlAsWritten(["<p>a</p>"], framework) == PageHtmlAsWritten(["<p>b</p>"], framework)
    ensures !HtmlInject.HasOpenTag("undefined", "html")
    ensures StartsWith(PageHtmlAsWritten(["<p>a</p>"], framework), HtmlInject.DocHead)
    ensures EndsWith(PageHtmlAsWritten(["<p>a</p>"], framework), "undefined" + HtmlInject.DocEnd)
  {
    assert !HtmlInject.HasOpenTag("undefined", "html") by {
      forall k: nat ensures !HtmlInject.OpenTagAt("undefined", "html", k) {
        if k + 5 <= 9 {
          assert "undefined"[k] != '<';
        }
      }
      HtmlInject.HasOpenTagIff("undefined", "html");
    }
    var css := HtmlInject.ResetCss(HtmlInject.Fullscreen);
    var js := framework(HtmlInject.Fullscreen);
    HtmlInject.InjectFragment("undefined", css, js);
    assert StartsWith(HtmlInject.DocHead + HtmlInject.Injection(css, js) + HtmlInject.DocBody, HtmlInject.DocHead);
  }

  /** With the widget's own code, a fragment ends up in the page's body. */
  lemma PageShowsFragment(code: string, framework: HtmlInject.Mode -> string)
    requires !HtmlInject.HasOpenTag(code, "html")
    ensures EndsWith(PageHtml([code], framework), code + HtmlInject.DocEnd)
  {
    HtmlInject.InjectFragment(code, HtmlInject.ResetCss(HtmlInject.Fullscreen), framework(HtmlInject.Fullscreen));
  }

  /** The forwarding rule of the event stream handler. */
  predicate Forwards(e: Event, conversationId: string, tracked: set<Field>) {
    e.AppStateUpdated? && e.conversationId == Some(conversationId) && Str(e.appId) in tracked
  }

  /** The app-state route broadcasts events without a conversation, so the
      page never forwards them, whatever it tracks. */
  lemma ServerEventsNeverForwarded(appId: string, stateJson: Option<string>, version: Option<int>,
                                   conversationId: string, tracked: set<Field>)
    ensures forall e :: e in ServerRoutes.AppStatePost(appId, stateJson, version).2 ==> !Forwards(e, conversationId, tracked)
  {
    ServerRoutes.AppStateEventHasNoConversation(appId, stateJson, version);
  }

  /** A conversation passed in the launched URL is the one the page picks. */
  lemma LaunchedConversationChosen(conversationId: string, messageConversation: Option<string>)
    requires Launcher.PassesConversation(conversationId)
    ensures ChooseConversation(Launcher.DecodeURIComponent(Launcher.EncodeURIComponent(conversationId)), messageConversation) == conversationId
  {
    Launcher.EncodeRoundTrip(conversationId);
  }

  class Page {
    var tracked: set<Field>
    var conversationId: string
    var error: Option<string>
    /** The widget code whose wrapped document is the `widgetHtml` signal. */
    var shown: Option<string>
    /** The text of the runtime script for a mode. */
    const framework: HtmlInject.Mode -> string
    var mounted: bool
    var listening: bool
    var posted: seq<FrameReply>
    var calls: seq<HostCall>

    /** An error replaces the frame, only a mounted page listens, and no
        error is set before mounting. */
    ghost predicate Valid()
      reads this
    {
      (shown.Some? ==> error.None? && listening) && (listening ==> mounted) && conversationId != "" &&
      (!mounted ==> error.None?)
    }

    /** The frame exists while there is html and no error. */
    predicate HasFrame()
      reads this
    {
      error.None? && shown.Some?
    }

    /** The `widgetHtml` signal: the shown widget wrapped for the full page. */
    function WidgetHtml(): Option<string>
      reads this
    {
      if shown.Some? then Some(PageHtml([shown.value], framework)) else None
    }

    constructor (framework: HtmlInject.Mode -> string)
      ensures Valid() && !mounted && !listening && this.framework == framework
      ensures tracked == {} && conversationId == "default" && error.None? && shown.None?
      ensures posted == [] && calls == []
    {
      tracked := {};
      conversationId := "default";
      error := None;
      shown := None;
      this.framework := framework;
      mounted := false;
      listening := false;
      posted := [];
      calls := [];
    }

    /** `onMount`: load the message, pick the conversation, extract the one
        widget and start listening to the event stream. */
    method Mount(urlParam: Option<string>, load: Load)
      requires Valid() && !mounted
      modifies this
      ensures Valid() && mounted
      ensures tracked == old(tracked) && posted == old(posted) && calls == old(calls)
      ensures load.LoadThrew? ==> error == Some(LoadFailed) && listening && conversationId == old(conversationId)
      ensures load.LoadNotOk? ==> error == Some(OrElse(load.error, LoadFailed)) && !listening && conversationId == old(conversationId)
      ensures load.Loaded? ==> conversationId == ChooseConversation(urlParam, load.conversationId)
      ensures load.Loaded? && |WidgetParser.Widgets(load.content, 0)| != 1 ==>
        error == Some(NotOneWidget) && shown == old(shown) && !listening
      ensures load.Loaded? && |WidgetParser.Widgets(load.content, 0)| == 1 ==>
        error == old(error) && listening && shown == Some(WidgetParser.Widgets(load.content, 0)[0])
    {
      mounted := true;
      match load
      case LoadThrew =>
        error := Some(LoadFailed);
        listening := true;
      case LoadNotOk(e) =>
        error := Some(OrElse(e, LoadFailed));
      case Loaded(c, content) =>
        conversationId := ChooseConversation(urlParam, c);
        var widgets := WidgetParser.ExtractWidgets(content);
        if |widgets| != 1 {
          error := Some(NotOneWidget);
          return;
        }
        shown := Some(widgets[0]);
        listening := true;
    }

    /** `handleMessage`: messages from anything but the frame are ignored;
        the rest are dispatched on their type. */
    method HandleMessage(fromFrame: bool, msg: FrameMessage, stateFetch: StateFetch, actionFetch: ActionFetch)
      requires Valid()
      modifies this
      ensures Valid()
      ensures conversationId == old(conversationId) && error == old(error) && shown == old(shown)
      ensures mounted == old(mounted) && listening == old(listening)
      ensures !(old(HasFrame()) && fromFrame) ==> tracked == old(tracked) && posted == old(posted) && calls == old(calls)
      ensures old(HasFrame()) && fromFrame ==>
        match msg
        case GetStateMsg(a) =>
          if Truthy(a) then
            tracked == old(tracked) + {a} && calls == old(calls) + [ReadState(conversationId, a)] &&
            posted == old(posted) + [StateReply(StateOf(stateFetch))]
          else tracked == old(tracked) && posted == old(posted) && calls == old(calls)
        case SetStateMsg(a, s) =>
          tracked == old(tracked) && posted == old(posted) &&
          calls == old(calls) + (if Truthy(a) then [WriteState(conversationId, a, s)] else [])
        case RequestMsg(id, a, act, p) =>
          tracked == old(tracked) &&
          if Truthy(a) && Truthy(act) then
            calls == old(calls) + [RunAction(conversationId, a, act, p)] && posted == old(posted) + [ActionReply(id, actionFetch)]
          else calls == old(calls) && posted == old(posted) + [Response(id, None, Some(InvalidRequest))]
        case ErrorMsg(e, st) =>
          tracked == old(tracked) && posted == old(posted) && calls == old(calls) + [LogError(conversationId, e, st)]
        case _ => tracked == old(tracked) && posted == old(posted) && calls == old(calls)
    {
      if !(HasFrame() && fromFrame) {
        return;
      }
      var convId := conversationId;
      match msg
      case GetStateMsg(a) =>
        if !Truthy(a) {
          return;
        }
        tracked := tracked + {a};
        calls := calls + [ReadState(convId, a)];
        posted := posted + [StateReply(StateOf(stateFetch))];
      case SetStateMsg(a, s) =>
        if !Truthy(a) {
          return;
        }
        calls := calls + [WriteState(convId, a, s)];
      case RequestMsg(id, a, act, p) =>
        if !Truthy(a) || !Truthy(act) {
          posted := posted + [Response(id, None, Some(InvalidRequest))];
          return;
        }
        calls := calls + [RunAction(convId, a, act, p)];
        posted := posted + [ActionReply(id, actionFetch)];
      case ResizeMsg =>
      case ErrorMsg(e, st) =>
        calls := calls + [LogError(convId, e, st)];
      case OtherMsg =>
    }

    /** `eventsRef.onmessage`: an app-state event for this conversation and
        a tracked app is passed on as `state-updated`; `None` is a message
        that does not parse. */
    method OnStreamEvent(e: Option<Event>)
      requires Valid()
      modifies this`posted
      ensures Valid()
      ensures posted == old(posted) + (if listening && HasFrame() && e.Some? && Forwards(e.value, conversationId, tracked)
                                       then [StateUpdated(e.value.appId)] else [])
    {
      if listening && e.Some? && Forwards(e.value, conversationId, tracked) && HasFrame() {
        posted := posted + [StateUpdated(e.value.appId)];
      }
    }
  }

  /** A read is tracked before it is answered, so the app's later
      invalidations for this conversation reach the frame. */
  method TrackedReadThenInvalidate(p: Page, appId: string, stateFetch: StateFetch, actionFetch: ActionFetch)
    requires p.Valid() && p.HasFrame() && appId != ""
    modifies p
    ensures p.posted == old(p.posted) + [StateReply(StateOf(stateFetch)), StateUpdated(appId)]
  {
    p.HandleMessage(true, GetStateMsg(Str(appId)), stateFetch, actionFetch);
    p.OnStreamEvent(Some(AppStateUpdated(Some(p.conversationId), appId)));
  }
}
