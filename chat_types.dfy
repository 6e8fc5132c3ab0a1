/** The records the server, the store and the chat client exchange. */
module ChatTypes {
  import opened Common

  /** An instant in milliseconds. The source keeps ISO 8601 strings of one
      fixed format, which compare as text in the same order as the instants
      they name. */
  type Time = int

  datatype Role = User | Agent

  datatype Attachment = Attachment(filename: string, mimetype: string, size: nat)

  /** A chat message. `kind` is the message's `type` field ('message',
      'thought', 'tool_call', 'tool_result'), absent on messages read back
      from the store, which has no column for it. */
  datatype Message = Message(
    id: string,
    conversationId: string,
    role: Role,
    kind: Option<string>,
    content: string,
    name: Option<string>,
    attachment: Option<Attachment>,
    createdAt: Time)

  /** The JSON objects sent over the event stream, by their `type` field.
      `AppStateUpdated.conversationId` is the optional field the widget page
      reads; `Untyped` is an object without a `type` field. */
  datatype Event =
    | MessageCreated(message: Message)
    | MessageDeleted(id: string)
    | MessageUpdated(message: Message)
    | AppStateUpdated(conversationId: Option<string>, appId: string)
    | AgentStatus(connected: bool, error: Option<string>)
    | AgentTyping(active: bool)
    | ScrollToMessage(messageId: string)
    | Untyped(state: Option<string>)

  /** The value of the `type` field, as the client's `switch` sees it. */
  function TypeTag(e: Event): (r: Option<string>)
    ensures r.None? <==> e.Untyped?
  {
    match e
    case MessageCreated(_) => Some("message")
    case MessageDeleted(_) => Some("delete")
    case MessageUpdated(_) => Some("update")
    case AppStateUpdated(_, _) => Some("appStateUpdated")
    case AgentStatus(_, _) => Some("agentStatus")
    case AgentTyping(_) => Some("agentTyping")
    case ScrollToMessage(_) => Some("scrollToMessage")
    case Untyped(_) => None
  }

  /** The tags are distinct, so the client's dispatch on `type` recovers the
      kind of event the server sent. */
  lemma TypeTagInjective(a: Event, b: Event)
    requires TypeTag(a) == TypeTag(b)
    ensures a.MessageCreated? <==> b.MessageCreated?
    ensures a.MessageDeleted? <==> b.MessageDeleted?
    ensures a.MessageUpdated? <==> b.MessageUpdated?
    ensures a.AppStateUpdated? <==> b.AppStateUpdated?
    ensures a.AgentStatus? <==> b.AgentStatus?
    ensures a.AgentTyping? <==> b.AgentTyping?
    ensures a.ScrollToMessage? <==> b.ScrollToMessage?
  {
  }
}
