/** The callback-query acknowledgement of src/replies/callback.js. */
module CallbackReply {
  import opened Prelude
  import opened JsValues
  import opened Updates

  const Method: string := "answerCallbackQuery"

  /**
   * `Callback.resolveParams`: `Object.assign({callback_query_id}, params)`. The caller's
   * parameters are copied over the query id, so they win on a clash. Reading
   * `payload.callback_query.id` throws when the event has no callback query.
   */
  function Params(params: Value, e: Event): (r: Result<Value>)
    ensures r.Ok? <==> CallbackOf(e).Some?
    ensures r.Ok? ==> r.value.Obj? && r.value.fields.Keys == {"callback_query_id"} + OwnProps(params).Keys
    ensures r.Ok? ==> forall k :: k in OwnProps(params) ==> r.value.fields[k] == OwnProps(params)[k]
    ensures r.Ok? && "callback_query_id" !in OwnProps(params) ==>
      r.value.fields["callback_query_id"] == Str(CallbackOf(e).value.id)
  {
    match CallbackOf(e)
    case None => Err(CannotRead("id"))
    case Some(cq) => Ok(Obj(Assign(map["callback_query_id" := Str(cq.id)], params)))
  }
}
