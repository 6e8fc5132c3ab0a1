/** The push-notification hook of the client: the `state` signal and the
    three decision chains that set it. Each browser call the chains await is
    an outcome passed in, in the order the chain awaits it; a thrown error
    or rejected promise is an outcome too. */
module PushState {
  import opened Common
  import Base64Url

  datatype State = Loading | Unsupported | Denied | Unsubscribed | Subscribed

  datatype Permission = Default | Granted | PermissionDenied

  /** `getRegistration('/sw.js')` followed by `getSubscription()`. */
  datatype Registration =
    | RegistrationThrew
    | NoRegistration
    | Registered(subscription: Option<bool>)  // None: getSubscription threw; Some(b): b says whether one exists

  /** The state `checkState` settles on: no support first, then a denied
      permission, then the registration and its subscription; any error on
      the way reads as unsubscribed. */
  function CheckedState(supported: bool, permission: Permission, registration: Registration): (s: State)
    ensures !supported <==> s == Unsupported
    ensures supported ==> (s == Denied <==> permission == PermissionDenied)
    ensures s == Subscribed <==>
      supported && permission != PermissionDenied && registration == Registered(Some(true))
    ensures s != Loading
  {
    if !supported then Unsupported
    else if permission == PermissionDenied then Denied
    else match registration
      case RegistrationThrew => Unsubscribed
      case NoRegistration => Unsubscribed
      case Registered(sub) =>
        if sub == Some(true) then Subscribed else Unsubscribed
  }

  /** How far `subscribe` gets: each step is tried only when the ones before
      it succeeded. */
  datatype SubscribeRun = SubscribeRun(
    registered: bool,              // register('/sw.js') and serviceWorker.ready resolve
    keyResponseOk: Option<bool>,   // None: the key fetch threw; Some(ok): response.ok
    keyBody: KeyBody,              // what keyResponse.json() gives
    permission: Permission,        // what requestPermission resolves to
    subscribed: bool,              // pushManager.subscribe resolves
    saveResponseOk: Option<bool>)  // None: the save fetch threw; Some(ok): response.ok

  /** The key response's body: not JSON, or JSON whose `publicKey` is a
      string or missing. A missing key throws only when it is decoded,
      after the permission request. */
  datatype KeyBody = KeyJsonThrew | KeyJson(publicKey: Option<string>)

  /** The key the chain decodes, when there is one and `atob` accepts it. */
  predicate KeyDecodes(b: KeyBody) {
    b.KeyJson? && b.publicKey.Some? && Base64Url.DecodeUrlBase64(b.publicKey.value).Some?
  }

  /** What `subscribe` returns and the state it leaves (None: untouched). */
  datatype Outcome = Outcome(result: bool, newState: Option<State>)

  /** The chain of `subscribe`: only a denied or dismissed permission
      request moves the state, to denied; only the full chain moves it to
      subscribed. The key is decoded before the subscription is asked for,
      so a key `atob` refuses fails the chain as an error. */
  function SubscribeOutcome(run: SubscribeRun): (o: Outcome)
    ensures o.result <==> o.newState == Some(Subscribed)
    ensures o.newState == Some(Subscribed) <==>
      run.registered && run.keyResponseOk == Some(true) && run.permission == Granted &&
      KeyDecodes(run.keyBody) && run.subscribed && run.saveResponseOk == Some(true)
    ensures o.newState == Some(Denied) <==>
      run.registered && run.keyResponseOk == Some(true) && run.keyBody.KeyJson? && run.permission != Granted
    ensures o.newState.Some? ==> o.newState.value in {Denied, Subscribed}
  {
    if !run.registered then Outcome(false, None)
    else if run.keyResponseOk != Some(true) then Outcome(false, None)
    else if run.keyBody.KeyJsonThrew? then Outcome(false, None)
    else if run.permission != Granted then Outcome(false, Some(Denied))
    else if !KeyDecodes(run.keyBody) then Outcome(false, None)
    else if !run.subscribed then Outcome(false, None)
    else if run.saveResponseOk != Some(true) then Outcome(false, None)
    else Outcome(true, Some(Subscribed))
  }

  /** How far `unsubscribe` gets. */
  datatype UnsubscribeRun = UnsubscribeRun(
    ready: bool,                    // serviceWorker.ready resolves
    subscription: Option<bool>,     // None: getSubscription threw; Some(b): whether one exists
    deleteSent: bool,               // the DELETE fetch resolves, whatever its status
    unsubscribed: bool)             // subscription.unsubscribe() resolves

  /** The chain of `unsubscribe`: it ends unsubscribed whenever nothing
      throws, with or without a subscription; the server's answer to the
      DELETE is not looked at. */
  function UnsubscribeOutcome(run: UnsubscribeRun): (o: Outcome)
    ensures o.result <==> o.newState == Some(Unsubscribed)
    ensures o.newState.Some? ==> o.newState == Some(Unsubscribed)
    ensures run.ready && run.subscription == Some(false) ==> o == Outcome(true, Some(Unsubscribed))
    ensures o.result <==>
      run.ready && (run.subscription == Some(false) || (run.subscription == Some(true) && run.deleteSent && run.unsubscribed))
  {
    if !run.ready then Outcome(false, None)
    else match run.subscription
      case None => Outcome(false, None)
      case Some(present) =>
        if present && !(run.deleteSent && run.unsubscribed) then Outcome(false, None)
        else Outcome(true, Some(Unsubscribed))
  }

  /** The hook's `state` signal and its three actions. */
  class PushNotifications {
    var state: State

    constructor ()
      ensures state == Loading
    {
      state := Loading;
    }

    /** `checkState`, run on mount. */
    method CheckState(supported: bool, permission: Permission, registration: Registration)
      modifies this
      ensures state == CheckedState(supported, permission, registration)
    {
      if !supported {
        state := Unsupported;
        return;
      }
      if permission == PermissionDenied {
        state := Denied;
        return;
      }
      match registration
      case RegistrationThrew =>
        state := Unsubscribed;
      case NoRegistration =>
        state := Unsubscribed;
      case Registered(sub) =>
        match sub
        case None => state := Unsubscribed;
        case Some(present) => state := if present then Subscribed else Unsubscribed;
    }

    method Subscribe(run: SubscribeRun) returns (ok: bool)
      modifies this
      ensures ok == SubscribeOutcome(run).result
      ensures state == OrElseState(SubscribeOutcome(run).newState, old(state))
    {
      if !run.registered || run.keyResponseOk != Some(true) || run.keyBody.KeyJsonThrew? {
        return false;
      }
      if run.permission != Granted {
        state := Denied;
        return false;
      }
      if run.keyBody.publicKey.None? {
        return false;
      }
      var key := Base64Url.UrlBase64ToUint8Array(run.keyBody.publicKey.value);
      if key.None? || !run.subscribed || run.saveResponseOk != Some(true) {
        return false;
      }
      state := Subscribed;
      return true;
    }

    method Unsubscribe(run: UnsubscribeRun) returns (ok: bool)
      modifies this
      ensures ok == UnsubscribeOutcome(run).result
      ensures state == OrElseState(UnsubscribeOutcome(run).newState, old(state))
    {
      if !run.ready || run.subscription.None? {
        return false;
      }
      if run.subscription.value && !(run.deleteSent && run.unsubscribed) {
        return false;
      }
      state := Unsubscribed;
      return true;
    }
  }

  function OrElseState(o: Option<State>, d: State): (s: State)
    ensures o.Some? ==> s == o.value
    ensures o.None? ==> s == d
  {
    if o.Some? then o.value else d
  }

  /** Once checked, the state is never back to loading, and no action
      returns it there. */
  lemma NeverLoadingAgain(s: State, run: SubscribeRun, urun: UnsubscribeRun)
    requires s != Loading
    ensures OrElseState(SubscribeOutcome(run).newState, s) != Loading
    ensures OrElseState(UnsubscribeOutcome(urun).newState, s) != Loading
  {
  }

  /** A subscription whose saving fails leaves the state as it was, even
      though the browser now holds a subscription. */
  lemma FailedSaveKeepsState(run: SubscribeRun)
    requires run.saveResponseOk != Some(true)
    ensures SubscribeOutcome(run).newState != Some(Subscribed)
    ensures !SubscribeOutcome(run).result
  {
  }
}
