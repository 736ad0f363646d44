/** The plain-text reply of src/replies/text.js. */
module TextReply {
  import opened Prelude
  import opened JsValues
  import opened Updates

  /** The API method a text reply calls. */
  const Method: string := "sendMessage"

  /**
   * `Text.resolveParams`: a new object with the originating chat's id and the text given to
   * the constructor. Reading `payload.message.chat` throws when the event has no message.
   */
  function Params(text: Value, e: Event): (r: Result<Value>)
    ensures r.Ok? <==> MessageOf(e).Some?
    ensures r.Ok? ==> r.value.Obj? && r.value.fields.Keys == {"chat_id", "text"}
    ensures r.Ok? ==> r.value.fields["chat_id"] == Num(MessageOf(e).value.chat.id)
    ensures r.Ok? ==> r.value.fields["text"] == text
  {
    match MessageOf(e)
    case None => Err(CannotRead("chat"))
    case Some(m) => Ok(Obj(map["chat_id" := Num(m.chat.id), "text" := text]))
  }
}
