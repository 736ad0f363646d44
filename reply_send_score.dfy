/** The game-score update of src/replies/send-score.js, resolved against a notification. */
module SendScoreReply {
  import opened Prelude
  import opened JsValues
  import opened Updates

  const Method: string := "setGameScore"

  /**
   * `SendScore.resolveParams({payload})`: `Object.assign({}, payload, params)`, a new object
   * holding the notification payload's keys overwritten by the caller's. Only the event's
   * `payload` field is read; an update has none, which contributes no keys.
   */
  function Params(params: Value, e: Event): (r: map<string, Value>)
    ensures r.Keys == OwnProps(PayloadOf(e)).Keys + OwnProps(params).Keys
    ensures forall k :: k in OwnProps(params) ==> r[k] == OwnProps(params)[k]
    ensures forall k :: k in OwnProps(PayloadOf(e)) && k !in OwnProps(params) ==> r[k] == OwnProps(PayloadOf(e))[k]
  {
    Assign(Assign(map[], PayloadOf(e)), params)
  }

  /** Two notifications with the same payload give the same parameters, whatever else they carry. */
  lemma ReadsOnlyPayload(params: Value, n1: Notification, n2: Notification)
    requires n1.payload == n2.payload
    ensures Params(params, FromNotification(n1)) == Params(params, FromNotification(n2))
  {
  }
}
