/** The inline-query answer of src/replies/inline.js. */
module InlineReply {
  import opened Prelude
  import opened JsValues
  import opened Updates

  const Method: string := "answerInlineQuery"

  /** `this.params.results`: throws when the parameters are `undefined` or `null`. */
  function ResultsOf(params: Value): (r: Result<Value>)
    ensures r.Err? <==> params.Undefined? || params.Null?
    ensures params.Obj? ==> r == Ok(Get(params.fields, "results"))
  {
    match params
    case Undefined => Err(CannotRead("results"))
    case Null => Err(CannotRead("results"))
    case Obj(fields) => Ok(Get(fields, "results"))
    case _ => Ok(Undefined)
  }

  /** `this.params.results || {}`: what gets serialized. */
  function SerializedValue(params: Value): Value
    requires !params.Undefined? && !params.Null?
  {
    var raw := ResultsOf(params).value;
    if Truthy(raw) then raw else Obj(map[])
  }

  /**
   * `Inline.resolveParams`: `Object.assign({inline_query_id}, params, {results})` where
   * `results` is `JSON.stringify(params.results || {})`. It is assigned last, so it replaces
   * any raw `results` the caller gave; every other caller key is copied as is.
   */
  function Params(params: Value, e: Event, lib: Lib): (r: Result<Value>)
    ensures r.Ok? <==> InlineOf(e).Some? && !params.Undefined? && !params.Null?
    ensures r.Ok? ==> r.value.Obj? && r.value.fields.Keys == {"inline_query_id", "results"} + OwnProps(params).Keys
    ensures r.Ok? ==> r.value.fields["results"] == Str(lib.stringify(SerializedValue(params)))
    ensures r.Ok? ==> forall k :: k in OwnProps(params) && k != "results" ==> r.value.fields[k] == OwnProps(params)[k]
    ensures r.Ok? && "inline_query_id" !in OwnProps(params) ==>
      r.value.fields["inline_query_id"] == Str(InlineOf(e).value.id)
  {
    match InlineOf(e)
    case None => Err(CannotRead("id"))
    case Some(iq) =>
      match ResultsOf(params)
      case Err(x) => Err(x)
      case Ok(raw) =>
        var results := map["results" := Str(lib.stringify(if Truthy(raw) then raw else Obj(map[])))];
        var withParams := Assign(map["inline_query_id" := Str(iq.id)], params);
        assert OwnProps(Obj(results)) == results;
        Ok(Obj(Assign(withParams, Obj(results))))
  }

  /** With object parameters, `results` is the serialization of theirs, or of `{}` when it is absent or falsy. */
  lemma ResultsSerialized(fields: map<string, Value>, e: Event, lib: Lib)
    requires InlineOf(e).Some?
    ensures Params(Obj(fields), e, lib).Ok?
    ensures !Truthy(Get(fields, "results")) ==> Params(Obj(fields), e, lib).value.fields["results"] == Str(lib.stringify(Obj(map[])))
    ensures "results" in fields && Truthy(fields["results"]) ==>
      Params(Obj(fields), e, lib).value.fields["results"] == Str(lib.stringify(fields["results"]))
  {
  }
}
