/** The service worker's push handling: the unread counter behind the app
    badge, the notification built from a push payload with its defaults,
    and the choice of window on a notification click. Each event handler is
    a method; the promise chain after `showNotification` runs as a separate
    step, as it does after the handler has returned. JSON parsing of the
    payload is foreign: a push carries its parse result. */
module ServiceWorker {
  import opened Common

  const DefaultText: string := "New message"
  const DefaultTag: string := "clawchat-message"
  const Icon: string := "/icon-192.png"
  const ClearBadge: string := "clearBadge"

  /** The fields of a push payload, as strings when they are truthy ones;
      `data` is held as its JSON text. */
  datatype Payload = Payload(title: Option<string>, body: Option<string>, tag: Option<string>, data: Option<string>)

  /** `event.data` of a push: absent, or a body that `json()` either parses
      or rejects, with its raw text. */
  datatype PushData = NoData | Data(parsed: Option<Payload>, text: string)

  /** The arguments of `showNotification`. */
  datatype Notification = Notification(title: string, body: string, icon: string, badge: string, tag: string, data: string)

  /** The payload a push with data stands for: an unparseable body becomes a
      titled message whose body is the raw text. */
  function PayloadOf(text: string, parsed: Option<Payload>): (p: Payload)
    ensures parsed.Some? ==> p == parsed.value
    ensures parsed.None? ==> p == Payload(Some(DefaultText), Some(text), None, None)
  {
    if parsed.Some? then parsed.value else Payload(Some(DefaultText), Some(text), None, None)
  }

  /** The notification shown for a payload: each falsy field takes its
      default. */
  function NotificationFor(p: Payload): (n: Notification)
    ensures n.title == (if Present(p.title) then p.title.value else DefaultText)
    ensures n.body == (if Present(p.body) then p.body.value else DefaultText)
    ensures n.tag == (if Present(p.tag) then p.tag.value else DefaultTag)
    ensures n.data == (if Present(p.data) then p.data.value else "{}")
    ensures n.icon == Icon && n.badge == Icon
    ensures n.title != "" && n.body != "" && n.tag != ""
  {
    Notification(OrElse(p.title, DefaultText), OrElse(p.body, DefaultText), Icon, Icon,
                 OrElse(p.tag, DefaultTag), OrElse(p.data, "{}"))
  }

  /** A body that is not JSON is shown under the default title, and shown
      as it is unless it is empty. */
  lemma UnparseableShowsText(text: string)
    ensures NotificationFor(PayloadOf(text, None)).title == DefaultText
    ensures text != "" ==> NotificationFor(PayloadOf(text, None)).body == text
    ensures text == "" ==> NotificationFor(PayloadOf(text, None)).body == DefaultText
    ensures NotificationFor(PayloadOf(text, None)).tag == DefaultTag
  {
  }

  /** A window client as `clients.matchAll` lists it. */
  datatype Client = Client(url: string, hasFocus: bool, visible: bool)

  /** What a notification click does. */
  datatype ClickAction = Focus(index: nat) | OpenWindow(url: string)

  /** A client the click may focus: same origin and focusable. */
  predicate Focusable(c: Client, origin: string) {
    StartsWith(c.url, origin) && c.hasFocus
  }

  /** The `notificationclick` handler's loop: focus the first focusable
      client, or open the root page when there is none. */
  method NotificationClick(clients: seq<Client>, origin: string) returns (a: ClickAction)
    ensures a.Focus? ==> a.index < |clients| && Focusable(clients[a.index], origin)
    ensures a.Focus? ==> forall j :: 0 <= j < a.index ==> !Focusable(clients[j], origin)
    ensures a.OpenWindow? <==> forall j :: 0 <= j < |clients| ==> !Focusable(clients[j], origin)
    ensures a.OpenWindow? ==> a.url == "/"
  {
    var i := 0;
    while i < |clients|
      invariant 0 <= i <= |clients|
      invariant forall j :: 0 <= j < i ==> !Focusable(clients[j], origin)
    {
      if StartsWith(clients[i].url, origin) && clients[i].hasFocus {
        return Focus(i);
      }
      i := i + 1;
    }
    return OpenWindow("/");
  }

  predicate AnyVisible(clients: seq<Client>) {
    exists c :: c in clients && c.visible
  }

  class Worker {
    var unreadCount: nat
    /** The notifications currently shown. */
    var notifications: seq<Notification>
    /** The app badge: a number, or cleared. */
    var badge: Option<nat>
    /** Pushes whose `showNotification` chain has not run yet. */
    var pending: seq<Notification>

    constructor ()
      ensures unreadCount == 0 && notifications == [] && badge == None && pending == []
    {
      unreadCount := 0;
      notifications := [];
      badge := None;
      pending := [];
    }

    /** The `message` handler: `'clearBadge'` resets the counter and closes
        every notification; anything else is ignored. */
    method OnMessage(data: Field)
      modifies this
      ensures data == Str(ClearBadge) ==> unreadCount == 0 && notifications == []
      ensures data != Str(ClearBadge) ==> unreadCount == old(unreadCount) && notifications == old(notifications)
      ensures badge == old(badge) && pending == old(pending)
    {
      if data == Str(ClearBadge) {
        unreadCount := 0;
        notifications := [];
      }
    }

    /** The `push` handler up to `waitUntil`: a push without data does
        nothing; one with data counts one more unread message and starts
        showing its notification. */
    method OnPush(data: PushData)
      modifies this
      ensures data.NoData? ==> unreadCount == old(unreadCount) && pending == old(pending)
      ensures data.Data? ==>
        unreadCount == old(unreadCount) + 1 &&
        pending == old(pending) + [NotificationFor(PayloadOf(data.text, data.parsed))]
      ensures notifications == old(notifications) && badge == old(badge)
    {
      if data.NoData? {
        return;
      }
      var payload := PayloadOf(data.text, data.parsed);
      unreadCount := unreadCount + 1;
      pending := pending + [NotificationFor(payload)];
    }

    /** The chain of the oldest pending push: the notification is shown, the
        badge set to the counter as it is now, and when some window is
        visible the counter, badge and notifications are all cleared. A
        rejected `showNotification` ends the chain at once. */
    method ShowPending(shown: bool, clients: seq<Client>)
      requires pending != []
      modifies this
      ensures pending == old(pending[1..])
      ensures !shown ==> unreadCount == old(unreadCount) && notifications == old(notifications) && badge == old(badge)
      ensures shown && AnyVisible(clients) ==> unreadCount == 0 && notifications == [] && badge == None
      ensures shown && !AnyVisible(clients) ==>
        unreadCount == old(unreadCount) && notifications == old(notifications) + [old(pending[0])] &&
        badge == Some(old(unreadCount))
    {
      var n := pending[0];
      pending := pending[1..];
      if !shown {
        return;
      }
      notifications := notifications + [n];
      badge := Some(unreadCount);
      if exists c :: c in clients && c.visible {
        unreadCount := 0;
        badge := None;
        notifications := [];
      }
    }
  }
}
