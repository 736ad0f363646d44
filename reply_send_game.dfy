/** The game invitation of src/replies/send-game.js. */
module SendGameReply {
  import opened Prelude
  import opened JsValues
  import opened Updates

  const Method: string := "sendGame"

  /**
   * `SendGame.resolveParams`: the originating chat's id and the short name given to the
   * constructor. Reading `payload.message.chat` throws when the event has no message.
   */
  function Params(shortName: Value, e: Event): (r: Result<Value>)
    ensures r.Ok? <==> MessageOf(e).Some?
    ensures r.Ok? ==> r.value.Obj? && r.value.fields.Keys == {"chat_id", "game_short_name"}
    ensures r.Ok? ==> r.value.fields["chat_id"] == Num(MessageOf(e).value.chat.id)
    ensures r.Ok? ==> r.value.fields["game_short_name"] == shortName
  {
    match MessageOf(e)
    case None => Err(CannotRead("chat"))
    case Some(m) => Ok(Obj(map["chat_id" := Num(m.chat.id), "game_short_name" := shortName]))
  }
}
