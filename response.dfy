/**
 * The reply intents of the files under src/replies as one closed datatype. `Generic` is the base
 * `Response(method, params)`; every other constructor is a subclass with the arguments its
 * constructor takes. Resolving an intent against an event yields the outbound call.
 */
module Response {
  import opened Prelude
  import opened JsValues
  import opened Updates
  import TextReply
  import MarkdownReply
  import HtmlReply
  import CallbackReply
  import InlineReply
  import SendGameReply
  import SendScoreReply
  import StartGameReply
  import ScoreToken

  datatype Reply =
    | Generic(name: string, params: Value)
    | Text(text: Value)
    | Markdown(text: Value)
    | Html(text: Value)
    | Callback(params: Value)
    | Inline(params: Value)
    | SendGame(shortName: Value)
    | SendScore(params: Value)
    | StartGame(params: Value)

  /** An outbound API call: the method name and its parameters. */
  datatype Call = Call(name: string, params: Value)

  /** `resolveMethodName`: the method fixed by the constructor; the payload plays no part. */
  function MethodName(r: Reply): string {
    match r
    case Generic(name, _) => name
    case Text(_) => TextReply.Method
    case Markdown(_) => MarkdownReply.Method
    case Html(_) => HtmlReply.Method
    case Callback(_) => CallbackReply.Method
    case Inline(_) => InlineReply.Method
    case SendGame(_) => SendGameReply.Method
    case SendScore(_) => SendScoreReply.Method
    case StartGame(_) => StartGameReply.Method
  }

  /**
   * `resolveParams(payload, baseUrl)`, dispatched on the variant. Only the start-game reply
   * takes the second argument.
   */
  function ResolveParams(r: Reply, e: Event, baseUrl: Option<string>, lib: Lib): Result<Value> {
    match r
    case Generic(_, params) => Ok(params)
    case Text(text) => TextReply.Params(text, e)
    case Markdown(text) => MarkdownReply.Params(text, e)
    case Html(text) => HtmlReply.Params(text, e)
    case Callback(params) => CallbackReply.Params(params, e)
    case Inline(params) => InlineReply.Params(params, e, lib)
    case SendGame(shortName) => SendGameReply.Params(shortName, e)
    case SendScore(params) => Ok(Obj(SendScoreReply.Params(params, e)))
    case StartGame(params) => StartGameReply.Params(params, e, baseUrl, lib)
  }

  /**
   * `resolve(payload)`: the pair of method name and parameters. It forwards the payload
   * alone, so `resolveParams` sees no base URL; a throwing `resolveParams` makes it throw.
   */
  function Resolve(r: Reply, e: Event, lib: Lib): Result<Call> {
    match ResolveParams(r, e, None, lib)
    case Ok(params) => Ok(Call(MethodName(r), params))
    case Err(x) => Err(x)
  }

  /**
   * The missing base URL renders as the string "undefined" in the one reply that reads it,
   * so `resolve` makes the call `resolveParams` gives for the base URL "undefined", and
   * throws exactly when that throws, with the same error.
   */
  lemma ResolveAsIfBaseUndefined(r: Reply, e: Event, lib: Lib)
    ensures Resolve(r, e, lib).Ok? <==> ResolveParams(r, e, Some("undefined"), lib).Ok?
    ensures Resolve(r, e, lib).Ok? ==>
              Resolve(r, e, lib).value == Call(MethodName(r), ResolveParams(r, e, Some("undefined"), lib).value)
    ensures Resolve(r, e, lib).Err? ==> Resolve(r, e, lib).error == ResolveParams(r, e, Some("undefined"), lib).error
  {
    if r.StartGame? {
      StartGameLosesBaseUrl(r.params, e, lib);
    } else {
      OnlyStartGameReadsBaseUrl(r, e, None, Some("undefined"), lib);
    }
  }

  /** Each variant's method name, as its constructor fixes it. */
  lemma MethodNames(r: Reply)
    ensures r.Text? || r.Markdown? || r.Html? ==> MethodName(r) == "sendMessage"
    ensures r.Callback? || r.StartGame? ==> MethodName(r) == "answerCallbackQuery"
    ensures r.Inline? ==> MethodName(r) == "answerInlineQuery"
    ensures r.SendGame? ==> MethodName(r) == "sendGame"
    ensures r.SendScore? ==> MethodName(r) == "setGameScore"
    ensures r.Generic? ==> MethodName(r) == r.name
  {
  }

  /** The base response resolves to its constructor's method and parameters, for every payload. */
  lemma GenericIgnoresPayload(name: string, params: Value, e: Event, lib: Lib)
    ensures Resolve(Generic(name, params), e, lib) == Ok(Call(name, params))
  {
  }

  /** Only the start-game reply reads the base URL; every other variant ignores it. */
  lemma OnlyStartGameReadsBaseUrl(r: Reply, e: Event, b1: Option<string>, b2: Option<string>, lib: Lib)
    requires !r.StartGame?
    ensures ResolveParams(r, e, b1, lib) == ResolveParams(r, e, b2, lib)
  {
  }

  /**
   * A text reply resolved against a message always calls `sendMessage` with the chat id of
   * the message and the given text, and no parse mode.
   */
  lemma TextResolution(text: Value, e: Event, lib: Lib)
    requires MessageOf(e).Some?
    ensures Resolve(Text(text), e, lib) ==
      Ok(Call("sendMessage", Obj(map["chat_id" := Num(MessageOf(e).value.chat.id), "text" := text])))
  {
    var p := TextReply.Params(text, e).value.fields;
    assert p == map["chat_id" := Num(MessageOf(e).value.chat.id), "text" := text];
  }

  /**
   * `resolve` gives a start-game reply no base URL, so it builds the same game link as if
   * the base URL were the string "undefined": every score URL begins with
   * "undefined?score_id=", whatever the bot's options say.
   */
  lemma StartGameLosesBaseUrl(params: Value, e: Event, lib: Lib)
    ensures StartGameReply.Params(params, e, None, lib) == StartGameReply.Params(params, e, Some("undefined"), lib)
    ensures ResolveParams(StartGame(params), e, None, lib) == StartGameReply.Params(params, e, None, lib)
    ensures forall token :: ScoreToken.RedirectUrl(None, token) == "undefined?score_id=" + token
  {
    forall token: string
      ensures ScoreToken.RedirectUrl(None, token) == ScoreToken.RedirectUrl(Some("undefined"), token)
      ensures ScoreToken.RedirectUrl(None, token) == "undefined?score_id=" + token
    {
    }
    StartGameReply.SameRedirectSameParams(params, e, None, Some("undefined"), lib);
  }
}
