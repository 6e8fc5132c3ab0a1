/** The runtime script injected into a widget's iframe, in its two versions:
    the wrapper's (validated app ids, tracked app ids, app-scoped requests)
    and the widget framework's (no ids, no validation). Both keep a map of
    pending requests keyed by increasing ids, settle each at most once (by
    a response or by the 30-second timeout), and report the body height to
    the parent only when it changes. `postMessage` to the parent is a
    recorded list of outbound messages; settlements of the promises are a
    recorded list too. */
module GuestRuntime {
  import opened Common

  /** A JSON value, held as its serialized text. */
  datatype Value = Value(json: string)

  /** How a request's promise ends. */
  datatype Settlement =
    | Resolved(result: Option<Value>)
    | ResolvedWithData(data: Option<ResponseData>)
    | Rejected(reason: string)

  /** What `widget.request` hands back at once. */
  datatype Issued = Pending(id: nat) | RejectedNow(reason: string)

  /** `data` of a response as the host sends it: the truth of `data.ok`,
      `data.error` and `data.result`. */
  datatype ResponseData = ResponseData(ok: bool, error: Option<string>, result: Option<Value>)

  /** Messages from the wrapper runtime to its parent. */
  datatype Outbound =
    | ErrorReport(error: string)
    | Resize(height: int)
    | GetState(appId: string)
    | SetState(appId: string, state: Value)
    | Request(id: nat, appId: string, action: string, payload: Value)
    | FrameworkGetState
    | FrameworkSetState(state: Value)
    | FrameworkRequest(id: nat, action: string, payload: Value)

  /** Messages from the parent, by their `type`. */
  datatype Inbound =
    | StateMsg(state: Value)
    | ResponseMsg(id: int, data: Option<ResponseData>, error: Option<string>)
    | StateUpdatedMsg(appId: Option<string>)
    | OtherMsg

  /** How the wrapper runtime settles a response: an error rejects with it,
      data whose `ok` is false rejects with its error or 'Request failed',
      and anything else resolves with `data.result`. */
  function SettleWrapper(data: Option<ResponseData>, error: Option<string>): (s: Settlement)
    ensures s.Rejected? <==> Present(error) || (data.Some? && !data.value.ok)
    ensures Present(error) ==> s == Rejected(error.value)
    ensures !Present(error) && data.Some? && !data.value.ok ==> s == Rejected(OrElse(data.value.error, "Request failed"))
    ensures s.Resolved? ==> s.result == if data.Some? then data.value.result else None
  {
    if Present(error) then Rejected(error.value)
    else if data.Some? && !data.value.ok then Rejected(OrElse(data.value.error, "Request failed"))
    else Resolved(if data.Some? then data.value.result else None)
  }

  /** The framework runtime resolves with the whole `data` unless there is
      an error. */
  function SettleFramework(data: Option<ResponseData>, error: Option<string>): (s: Settlement)
    ensures s.Rejected? <==> Present(error)
    ensures Present(error) ==> s == Rejected(error.value)
    ensures !Present(error) ==> s == ResolvedWithData(data)
  {
    if Present(error) then Rejected(error.value) else ResolvedWithData(data)
  }

  /** The two runtimes agree on errors and differ on data that is not ok:
      the wrapper rejects it, the framework resolves it. */
  lemma SettlementsDiffer(data: ResponseData)
    requires !data.ok
    ensures SettleWrapper(Some(data), None).Rejected? && !SettleFramework(Some(data), None).Rejected?
  {
  }

  /** Whether a value passes `!appId || typeof appId !== 'string'`. */
  predicate ValidId(f: Field) {
    f.Str? && f.s != []
  }

  const TimeoutMessage: string := "Request timeout after 30s"
  const FrameworkTimeoutMessage: string := "Request timeout"

  /** The wrapper's runtime (`createWidgetFramework`). */
  class WrapperRuntime {
    var lastHeight: int
    var requestId: nat
    var pending: set<nat>
    var tracked: set<string>
    var hasCallback: bool
    var posted: seq<Outbound>
    var settled: seq<(nat, Settlement)>
    var delivered: seq<Value>

    /** Ids are handed out from 1; a pending id was handed out and is not
        settled; no id is settled twice. */
    ghost predicate Valid()
      reads this
    {
      && (forall id :: id in pending ==> 1 <= id <= requestId)
      && (forall k :: 0 <= k < |settled| ==> 1 <= settled[k].0 <= requestId && settled[k].0 !in pending)
      && (forall k, l :: 0 <= k < l < |settled| ==> settled[k].0 != settled[l].0)
    }

    constructor ()
      ensures Valid()
      ensures lastHeight == 0 && requestId == 0 && pending == {} && tracked == {} && !hasCallback
      ensures posted == [] && settled == [] && delivered == []
    {
      lastHeight := 0;
      requestId := 0;
      pending := {};
      tracked := {};
      hasCallback := false;
      posted := [];
      settled := [];
      delivered := [];
    }

    /** `widget.onState(callback)`; `isFunction` says whether the argument
        is a function. */
    method OnState(isFunction: bool)
      modifies this`hasCallback, this`posted
      ensures isFunction ==> hasCallback && posted == old(posted)
      ensures !isFunction ==>
        hasCallback == old(hasCallback) && posted == old(posted) + [ErrorReport("onState requires a function callback")]
    {
      if !isFunction {
        posted := posted + [ErrorReport("onState requires a function callback")];
        return;
      }
      hasCallback := true;
    }

    /** `reportHeight` with the measured body height. */
    method ReportHeight(height: int)
      modifies this`lastHeight, this`posted
      ensures lastHeight == height
      ensures height == old(lastHeight) ==> posted == old(posted)
      ensures height != old(lastHeight) ==> posted == old(posted) + [Resize(height)]
    {
      if height != lastHeight {
        lastHeight := height;
        posted := posted + [Resize(height)];
      }
    }

    /** `widget.getState(appId)`. */
    method GetStateCall(appId: Field)
      modifies this`tracked, this`posted
      ensures ValidId(appId) ==> tracked == old(tracked) + {appId.s} && posted == old(posted) + [GetState(appId.s)]
      ensures !ValidId(appId) ==>
        tracked == old(tracked) && posted == old(posted) + [ErrorReport("getState: appId must be a non-empty string")]
    {
      if !(appId.Str? && appId.s != []) {
        posted := posted + [ErrorReport("getState: appId must be a non-empty string")];
        return;
      }
      tracked := tracked + {appId.s};
      posted := posted + [GetState(appId.s)];
    }

    /** `widget.setState(appId, state)`. */
    method SetStateCall(appId: Field, state: Value)
      modifies this`posted
      ensures ValidId(appId) ==> posted == old(posted) + [SetState(appId.s, state)]
      ensures !ValidId(appId) ==> posted == old(posted) + [ErrorReport("setState: appId must be a non-empty string")]
    {
      if !(appId.Str? && appId.s != []) {
        posted := posted + [ErrorReport("setState: appId must be a non-empty string")];
        return;
      }
      posted := posted + [SetState(appId.s, state)];
    }

    /** `widget.request(appId, action, payload)`: an invalid app id or
        action rejects at once and changes nothing; otherwise the next id is
        taken, recorded as pending and sent. */
    method RequestCall(appId: Field, action: Field, payload: Value) returns (r: Issued)
      requires Valid()
      modifies this`requestId, this`pending, this`posted
      ensures Valid()
      ensures !ValidId(appId) ==> r == RejectedNow("request: appId must be a non-empty string")
      ensures ValidId(appId) && !ValidId(action) ==> r == RejectedNow("request: action must be a non-empty string")
      ensures r.RejectedNow? ==> requestId == old(requestId) && pending == old(pending) && posted == old(posted)
      ensures r.Pending? <==> ValidId(appId) && ValidId(action)
      ensures r.Pending? ==>
        && r.id == old(requestId) + 1 == requestId
        && r.id !in old(pending) && pending == old(pending) + {r.id}
        && posted == old(posted) + [Request(r.id, appId.s, action.s, payload)]
    {
      if !(appId.Str? && appId.s != []) {
        return RejectedNow("request: appId must be a non-empty string");
      }
      if !(action.Str? && action.s != []) {
        return RejectedNow("request: action must be a non-empty string");
      }
      requestId := requestId + 1;
      var id := requestId;
      pending := pending + {id};
      posted := posted + [Request(id, appId.s, action.s, payload)];
      return Pending(id);
    }

    /** The 30-second timer of request `id`. */
    method Timeout(id: nat)
      requires Valid()
      modifies this`pending, this`settled
      ensures Valid()
      ensures id in old(pending) ==> pending == old(pending) - {id} && settled == old(settled) + [(id, Rejected(TimeoutMessage))]
      ensures id !in old(pending) ==> pending == old(pending) && settled == old(settled)
    {
      if id in pending {
        pending := pending - {id};
        settled := settled + [(id, Rejected(TimeoutMessage))];
      }
    }

    /** The `message` listener. */
    method OnMessage(m: Inbound)
      requires Valid()
      modifies this`pending, this`settled, this`delivered, this`tracked, this`posted
      ensures Valid()
      ensures tracked == old(tracked)
      ensures m.StateMsg? && hasCallback ==> delivered == old(delivered) + [m.state]
      ensures !(m.StateMsg? && hasCallback) ==> delivered == old(delivered)
      ensures m.ResponseMsg? && m.id >= 0 && m.id as nat in old(pending) ==>
        && pending == old(pending) - {m.id as nat}
        && settled == old(settled) + [(m.id as nat, SettleWrapper(m.data, m.error))]
      ensures !(m.ResponseMsg? && m.id >= 0 && m.id as nat in old(pending)) ==>
        pending == old(pending) && settled == old(settled)
      ensures m.StateUpdatedMsg? && Present(m.appId) && m.appId.value in old(tracked) ==>
        posted == old(posted) + [GetState(m.appId.value)]
      ensures !(m.StateUpdatedMsg? && Present(m.appId) && m.appId.value in old(tracked)) ==> posted == old(posted)
    {
      match m {
        case StateMsg(state) =>
          if hasCallback {
            delivered := delivered + [state];
          }
        case ResponseMsg(id, data, error) =>
          if id >= 0 && id as nat in pending {
            pending := pending - {id as nat};
            settled := settled + [(id as nat, SettleWrapper(data, error))];
          }
        case StateUpdatedMsg(appId) =>
          if appId.Some? && appId.value != [] && appId.value in tracked {
            GetStateCall(Str(appId.value));
          }
        case OtherMsg =>
      }
    }
  }

  /** The widget framework's runtime. */
  class FrameworkRuntime {
    var lastHeight: int
    var requestId: nat
    var pending: set<nat>
    var hasCallback: bool
    var posted: seq<Outbound>
    var settled: seq<(nat, Settlement)>
    var delivered: seq<Value>

    ghost predicate Valid()
      reads this
    {
      && (forall id :: id in pending ==> 1 <= id <= requestId)
      && (forall k :: 0 <= k < |settled| ==> 1 <= settled[k].0 <= requestId && settled[k].0 !in pending)
      && (forall k, l :: 0 <= k < l < |settled| ==> settled[k].0 != settled[l].0)
    }

    constructor ()
      ensures Valid()
      ensures lastHeight == 0 && requestId == 0 && pending == {} && !hasCallback
      ensures posted == [] && settled == [] && delivered == []
    {
      lastHeight := 0;
      requestId := 0;
      pending := {};
      hasCallback := false;
      posted := [];
      settled := [];
      delivered := [];
    }

    /** `widget.onState(callback)` stores whatever it is given, and only a
        truthy value receives states; `onState(null)` silences them. */
    method OnState(truthy: bool)
      modifies this`hasCallback
      ensures hasCallback == truthy
    {
      hasCallback := truthy;
    }

    method ReportHeight(height: int)
      modifies this`lastHeight, this`posted
      ensures lastHeight == height
      ensures height == old(lastHeight) ==> posted == old(posted)
      ensures height != old(lastHeight) ==> posted == old(posted) + [Resize(height)]
    {
      if height != lastHeight {
        lastHeight := height;
        posted := posted + [Resize(height)];
      }
    }

    method GetStateCall()
      modifies this`posted
      ensures posted == old(posted) + [FrameworkGetState]
    {
      posted := posted + [FrameworkGetState];
    }

    method SetStateCall(state: Value)
      modifies this`posted
      ensures posted == old(posted) + [FrameworkSetState(state)]
    {
      posted := posted + [FrameworkSetState(state)];
    }

    /** `widget.request(action, payload)`: always takes the next id. */
    method RequestCall(action: string, payload: Value) returns (id: nat)
      requires Valid()
      modifies this`requestId, this`pending, this`posted
      ensures Valid()
      ensures id == old(requestId) + 1 == requestId
      ensures id !in old(pending) && pending == old(pending) + {id}
      ensures posted == old(posted) + [FrameworkRequest(id, action, payload)]
    {
      requestId := requestId + 1;
      id := requestId;
      pending := pending + {id};
      posted := posted + [FrameworkRequest(id, action, payload)];
    }

    method Timeout(id: nat)
      requires Valid()
      modifies this`pending, this`settled
      ensures Valid()
      ensures id in old(pending) ==> pending == old(pending) - {id} && settled == old(settled) + [(id, Rejected(FrameworkTimeoutMessage))]
      ensures id !in old(pending) ==> pending == old(pending) && settled == old(settled)
    {
      if id in pending {
        pending := pending - {id};
        settled := settled + [(id, Rejected(FrameworkTimeoutMessage))];
      }
    }

    method OnMessage(m: Inbound)
      requires Valid()
      modifies this`pending, this`settled, this`delivered
      ensures Valid()
      ensures m.StateMsg? && hasCallback ==> delivered == old(delivered) + [m.state]
      ensures !(m.StateMsg? && hasCallback) ==> delivered == old(delivered)
      ensures m.ResponseMsg? && m.id >= 0 && m.id as nat in old(pending) ==>
        && pending == old(pending) - {m.id as nat}
        && settled == old(settled) + [(m.id as nat, SettleFramework(m.data, m.error))]
      ensures !(m.ResponseMsg? && m.id >= 0 && m.id as nat in old(pending)) ==>
        pending == old(pending) && settled == old(settled)
    {
      match m {
        case StateMsg(state) =>
          if hasCallback {
            delivered := delivered + [state];
          }
        case ResponseMsg(id, data, error) =>
          if id >= 0 && id as nat in pending {
            pending := pending - {id as nat};
            settled := settled + [(id as nat, SettleFramework(data, error))];
          }
        case StateUpdatedMsg(_) =>
        case OtherMsg =>
      }
    }
  }
}
