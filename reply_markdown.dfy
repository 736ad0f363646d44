/** The Markdown-formatted reply of src/replies/markdown.js, a text reply with a parse mode. */
module MarkdownReply {
  import opened Prelude
  import opened JsValues
  import opened Updates
  import TextReply

  /** Inherited from the text reply. */
  const Method: string := TextReply.Method

  /** `Markdown.resolveParams`. */
  function Params(text: Value, e: Event): Result<Value> {
    match MessageOf(e)
    case None => Err(CannotRead("chat"))
    case Some(m) => Ok(Obj(map["chat_id" := Num(m.chat.id), "parse_mode" := Str("Markdown"), "text" := text]))
  }

  /**
   * A Markdown reply succeeds exactly when the text reply does, and its parameters are the
   * text reply's `chat_id` and `text` plus `parse_mode` "Markdown", and nothing else.
   */
  lemma ExtendsText(text: Value, e: Event)
    ensures Params(text, e).Ok? <==> TextReply.Params(text, e).Ok?
    ensures Params(text, e).Ok? ==>
      Params(text, e).value.Obj? && Params(text, e).value.fields == TextReply.Params(text, e).value.fields["parse_mode" := Str("Markdown")]
    ensures Params(text, e).Ok? ==> Params(text, e).value.fields.Keys == {"chat_id", "parse_mode", "text"}
  {
    if MessageOf(e).Some? {
      var m := MessageOf(e).value;
      assert Params(text, e).value.fields == TextReply.Params(text, e).value.fields["parse_mode" := Str("Markdown")];
    }
  }
}
