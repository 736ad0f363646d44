/**
 * The records the bot receives: updates of the messaging platform (a message, a callback
 * query or an inline query, each optional) and side-channel notifications. A reply is
 * resolved against an `Event`, which is either of the two.
 */
module Updates {
  import opened Prelude
  import opened JsValues

  datatype Chat = Chat(id: int)

  /** A message entity; `kind` is the platform's `type` field (for example "bot_command"). */
  datatype Entity = Entity(kind: string, offset: int, length: int)

  /** An incoming message; `text` and `entities` may be absent. */
  datatype Message = Message(messageId: int, chat: Chat, text: Option<string>, entities: Option<seq<Entity>>)

  datatype User = User(id: int, username: Option<string>)

  /** A button press; games carry their short name, and inline-message callbacks have no message. */
  datatype CallbackQuery = CallbackQuery(id: string, from: User, message: Option<Message>, gameShortName: Option<string>)

  datatype InlineQuery = InlineQuery(id: string)

  datatype Update = Update(
    updateId: int,
    message: Option<Message>,
    callbackQuery: Option<CallbackQuery>,
    inlineQuery: Option<InlineQuery>)

  /** A side-channel signal, such as a submitted game score, with its decoded `payload`. */
  datatype Notification = Notification(kind: string, payload: Value)

  /** What a reply handler is given. */
  datatype Event = FromUpdate(update: Update) | FromNotification(notification: Notification)

  /** `payload.message`, absent on notifications. */
  function MessageOf(e: Event): Option<Message> {
    if e.FromUpdate? then e.update.message else None
  }

  /** `payload.callback_query`, absent on notifications. */
  function CallbackOf(e: Event): Option<CallbackQuery> {
    if e.FromUpdate? then e.update.callbackQuery else None
  }

  /** `payload.inline_query`, absent on notifications. */
  function InlineOf(e: Event): Option<InlineQuery> {
    if e.FromUpdate? then e.update.inlineQuery else None
  }

  /** `payload.payload`: the notification's payload, `undefined` on an update. */
  function PayloadOf(e: Event): Value {
    if e.FromNotification? then e.notification.payload else Undefined
  }
}
