/**
 * The score token of src/replies/start-game.js: the hyphen-joined ids of the player, the
 * game message and its chat, as lowercase hex of their UTF-8 bytes, carried in the
 * `score_id` query parameter of the redirect URL.
 */
module ScoreToken {
  import opened Prelude
  import Decimal
  import Utf8
  import Hex

  /** `[userId, messageId, chatId].join('-')`. */
  function Joined(userId: int, messageId: int, chatId: int): string {
    Decimal.IntToString(userId) + "-" + Decimal.IntToString(messageId) + "-" + Decimal.IntToString(chatId)
  }

  /** `new Buffer(joined).toString('hex')`. */
  function Token(userId: int, messageId: int, chatId: int): (t: string)
    ensures Hex.IsLowerHex(t)
    ensures |t| == 2 * |Utf8.Encode(Joined(userId, messageId, chatId))|
  {
    Hex.Encode(Utf8.Encode(Joined(userId, messageId, chatId)))
  }

  /** Hex-decoding a token and reading its bytes as UTF-8. */
  function DecodeToken(t: string): Option<string> {
    match Hex.Decode(t)
    case None => None
    case Some(bs) => Utf8.Decode(bs)
  }

  /** `${baseUrl}?score_id=${id}`: a missing base URL is written as "undefined". */
  function RedirectUrl(baseUrl: Option<string>, token: string): string {
    (match baseUrl case Some(b) => b case None => "undefined") + "?score_id=" + token
  }

  lemma IntToStringAscii(n: int)
    ensures Utf8.IsAscii(Decimal.IntToString(n))
  {
    var s := Decimal.IntToString(n);
    if n >= 0 {
      assert forall i :: 0 <= i < |s| ==> Decimal.IsDigit(s[i]);
    } else {
      var d := Decimal.NatToString(-n);
      assert forall i :: 0 <= i < |d| ==> Decimal.IsDigit(d[i]);
      assert forall i :: 1 <= i < |s| ==> s[i] == d[i - 1];
    }
  }

  /** The joined ids are ASCII: only digits and '-'. */
  lemma JoinedAscii(userId: int, messageId: int, chatId: int)
    ensures Utf8.IsAscii(Joined(userId, messageId, chatId))
  {
    IntToStringAscii(userId);
    IntToStringAscii(messageId);
    IntToStringAscii(chatId);
  }

  /** The token uses only [0-9a-f] and has two characters per byte, one byte per joined character. */
  lemma TokenShape(userId: int, messageId: int, chatId: int)
    ensures Hex.IsLowerHex(Token(userId, messageId, chatId))
    ensures |Token(userId, messageId, chatId)| == 2 * |Joined(userId, messageId, chatId)|
  {
    JoinedAscii(userId, messageId, chatId);
    Utf8.AsciiOneBytePerChar(Joined(userId, messageId, chatId));
  }

  /** Decoding the token gives back exactly the joined string. */
  lemma TokenRoundTrip(userId: int, messageId: int, chatId: int)
    ensures DecodeToken(Token(userId, messageId, chatId)) == Some(Joined(userId, messageId, chatId))
  {
    var s := Joined(userId, messageId, chatId);
    Hex.DecodeEncode(Utf8.Encode(s));
    Utf8.RoundTrip(s);
  }

  /** The index of the first `sep` in `s`, or `|s|` when there is none. */
  function FirstIndex(s: string, sep: char): (i: nat)
    ensures i <= |s|
    ensures i < |s| ==> s[i] == sep
    ensures forall j :: 0 <= j < i ==> s[j] != sep
  {
    if s == [] then 0 else if s[0] == sep then 0 else 1 + FirstIndex(s[1..], sep)
  }

  /** `s.split(sep)` with a one-character separator. */
  function Split(s: string, sep: char): (parts: seq<string>)
    ensures |parts| >= 1
    decreases |s|
  {
    var i := FirstIndex(s, sep);
    if i == |s| then [s] else [s[..i]] + Split(s[i + 1..], sep)
  }

  lemma SplitFront(a: string, sep: char, b: string)
    requires sep !in a
    ensures Split(a + [sep] + b, sep) == [a] + Split(b, sep)
  {
    var s := a + [sep] + b;
    var i := FirstIndex(s, sep);
    assert s[|a|] == sep;
    assert forall j :: 0 <= j < |a| ==> s[j] == a[j];
    assert i == |a|;
    assert s[..|a|] == a;
    assert s[|a| + 1..] == b;
  }

  lemma SplitWithout(a: string, sep: char)
    requires sep !in a
    ensures Split(a, sep) == [a]
  {
  }

  lemma NoDashInNonNegative(n: int)
    requires n >= 0
    ensures '-' !in Decimal.IntToString(n)
  {
    var s := Decimal.IntToString(n);
    assert forall i :: 0 <= i < |s| ==> s[i] != '-';
  }

  /** For non-negative ids the joined string splits on '-' into the three renderings. */
  lemma SplitJoined(userId: int, messageId: int, chatId: int)
    requires userId >= 0 && messageId >= 0 && chatId >= 0
    ensures |Split(Joined(userId, messageId, chatId), '-')| == 3
    ensures Split(Joined(userId, messageId, chatId), '-')[0] == Decimal.IntToString(userId)
    ensures Split(Joined(userId, messageId, chatId), '-')[1] == Decimal.IntToString(messageId)
    ensures Split(Joined(userId, messageId, chatId), '-')[2] == Decimal.IntToString(chatId)
  {
    var u, m, c := Decimal.IntToString(userId), Decimal.IntToString(messageId), Decimal.IntToString(chatId);
    NoDashInNonNegative(userId);
    NoDashInNonNegative(messageId);
    NoDashInNonNegative(chatId);
    var tail := m + ['-'] + c;
    assert Joined(userId, messageId, chatId) == u + ['-'] + tail;
    SplitFront(u, '-', tail);
    SplitFront(m, '-', c);
    SplitWithout(c, '-');
    assert Split(tail, '-') == [m] + [c];
    assert Split(Joined(userId, messageId, chatId), '-') == [u] + ([m] + [c]);
  }

  /**
   * For ids written without '-' (non-negative ids), splitting the decoded token on '-'
   * recovers the three ids in order.
   */
  lemma SplitRecoversIds(userId: int, messageId: int, chatId: int)
    requires userId >= 0 && messageId >= 0 && chatId >= 0
    ensures |Split(Joined(userId, messageId, chatId), '-')| == 3
    ensures Decimal.ParseInt(Split(Joined(userId, messageId, chatId), '-')[0]) == Some(userId)
    ensures Decimal.ParseInt(Split(Joined(userId, messageId, chatId), '-')[1]) == Some(messageId)
    ensures Decimal.ParseInt(Split(Joined(userId, messageId, chatId), '-')[2]) == Some(chatId)
  {
    SplitJoined(userId, messageId, chatId);
    Decimal.IntToStringRoundTrip(userId);
    Decimal.IntToStringRoundTrip(messageId);
    Decimal.IntToStringRoundTrip(chatId);
  }

  /** Three dash-free strings joined as `u-m--c` split into four parts, the third empty. */
  lemma SplitWithEmptyPart(u: string, m: string, c: string)
    requires '-' !in u && '-' !in m && '-' !in c
    ensures |Split(u + ['-'] + (m + ['-'] + ([] + ['-'] + c)), '-')| == 4
    ensures Split(u + ['-'] + (m + ['-'] + ([] + ['-'] + c)), '-')[0] == u
    ensures Split(u + ['-'] + (m + ['-'] + ([] + ['-'] + c)), '-')[1] == m
    ensures Split(u + ['-'] + (m + ['-'] + ([] + ['-'] + c)), '-')[2] == ""
    ensures Split(u + ['-'] + (m + ['-'] + ([] + ['-'] + c)), '-')[3] == c
  {
    var tail := [] + ['-'] + c;
    var mid := m + ['-'] + tail;
    SplitWithout(c, '-');
    SplitFront([], '-', c);
    SplitFront(m, '-', tail);
    SplitFront(u, '-', mid);
    assert Split(tail, '-') == [[]] + [c];
    assert Split(mid, '-') == [m] + ([[]] + [c]);
  }

  /**
   * A negative chat id (group chats have them) brings its own '-', so the split yields four
   * parts, an empty one among them, and no longer recovers the three ids.
   */
  lemma NegativeChatSplitsInFour(userId: int, messageId: int, chatId: int)
    requires userId >= 0 && messageId >= 0 && chatId < 0
    ensures |Split(Joined(userId, messageId, chatId), '-')| == 4
    ensures Split(Joined(userId, messageId, chatId), '-')[0] == Decimal.IntToString(userId)
    ensures Split(Joined(userId, messageId, chatId), '-')[1] == Decimal.IntToString(messageId)
    ensures Split(Joined(userId, messageId, chatId), '-')[2] == ""
    ensures Split(Joined(userId, messageId, chatId), '-')[3] == Decimal.NatToString(-chatId)
  {
    var u, m, c := Decimal.IntToString(userId), Decimal.IntToString(messageId), Decimal.NatToString(-chatId);
    NoDashInNonNegative(userId);
    NoDashInNonNegative(messageId);
    NoDashInNonNegative(-chatId);
    assert Decimal.IntToString(-chatId) == c;
    assert Decimal.IntToString(chatId) == "-" + c;
    assert Joined(userId, messageId, chatId) == u + ['-'] + (m + ['-'] + ([] + ['-'] + c));
    SplitWithEmptyPart(u, m, c);
  }
}

/** The game start of src/replies/start-game.js: a callback reply that opens the game URL. */
module StartGameReply {
  import opened Prelude
  import opened JsValues
  import opened Updates
  import CallbackReply
  import ScoreToken

  /** Inherited from the callback reply. */
  const Method: string := CallbackReply.Method

  /** The query keys the game URL gains: `{username, user_id: userId, score_url: redirectUrl}`. */
  function GameQuery(user: User, redirect: string): map<string, Value> {
    map[
      "username" := (match user.username case Some(n) => Str(n) case None => Undefined),
      "user_id" := Num(user.id),
      "score_url" := Str(redirect)]
  }

  /** `url.parse(url, true)` with the game query keys assigned over its query object. */
  function GameUrl(url: string, user: User, redirect: string, lib: Lib): (o: UrlObject)
    ensures o.location == lib.parseUrl(url).location
    ensures o.query.Keys == lib.parseUrl(url).query.Keys + {"username", "user_id", "score_url"}
    ensures o.query["user_id"] == Num(user.id) && o.query["score_url"] == Str(redirect)
    ensures o.query["username"] == if user.username.Some? then Str(user.username.value) else Undefined
    ensures forall k :: k in lib.parseUrl(url).query && k !in {"username", "user_id", "score_url"} ==>
      o.query[k] == lib.parseUrl(url).query[k]
  {
    var parsed := lib.parseUrl(url);
    parsed.(query := parsed.query + GameQuery(user, redirect))
  }

  /**
   * `StartGame.resolveParams(payload, baseUrl)`: the callback reply's parameters with `url`
   * replaced by the game URL, whose query carries the player and a redirect URL that holds
   * the score token. It throws when there is no callback query, when the callback has no
   * message, and when the callback parameters have no string `url`.
   */
  function Params(params: Value, e: Event, baseUrl: Option<string>, lib: Lib): (r: Result<Value>)
    ensures r.Ok? <==> CallbackOf(e).Some? && CallbackOf(e).value.message.Some?
                       && "url" in OwnProps(params) && OwnProps(params)["url"].Str?
    ensures r.Ok? ==> r.value.Obj? && r.value.fields.Keys == {"callback_query_id"} + OwnProps(params).Keys
    ensures r.Ok? ==> forall k :: k in r.value.fields && k != "url" ==>
      r.value.fields[k] == CallbackReply.Params(params, e).value.fields[k]
    ensures r.Ok? ==>
      var cq := CallbackOf(e).value;
      var msg := cq.message.value;
      var token := ScoreToken.Token(cq.from.id, msg.messageId, msg.chat.id);
      r.value.fields["url"] ==
        Str(lib.formatUrl(GameUrl(OwnProps(params)["url"].s, cq.from, ScoreToken.RedirectUrl(baseUrl, token), lib)))
  {
    match CallbackReply.Params(params, e)
    case Err(x) => Err(x)
    case Ok(cb) =>
      var cq := CallbackOf(e).value;
      match cq.message
      case None => Err(CannotRead("message_id"))
      case Some(msg) =>
        var token := ScoreToken.Token(cq.from.id, msg.messageId, msg.chat.id);
        WithGameUrl(cb.fields, cq.from, ScoreToken.RedirectUrl(baseUrl, token), lib)
  }

  /** The callback parameters with their string `url` replaced by the formatted game URL. */
  function WithGameUrl(fields: map<string, Value>, user: User, redirect: string, lib: Lib): Result<Value> {
    match Get(fields, "url")
    case Str(url) => Ok(Obj(fields["url" := Str(lib.formatUrl(GameUrl(url, user, redirect, lib)))]))
    case _ => Err(NotAString("url"))
  }

  /** Two base URLs giving the same redirect URLs give the same parameters. */
  lemma SameRedirectSameParams(params: Value, e: Event, b1: Option<string>, b2: Option<string>, lib: Lib)
    requires forall t :: ScoreToken.RedirectUrl(b1, t) == ScoreToken.RedirectUrl(b2, t)
    ensures Params(params, e, b1, lib) == Params(params, e, b2, lib)
  {
    match CallbackReply.Params(params, e)
    case Err(_) =>
    case Ok(cb) =>
      var cq := CallbackOf(e).value;
      match cq.message
      case None =>
      case Some(msg) =>
        var token := ScoreToken.Token(cq.from.id, msg.messageId, msg.chat.id);
        assert ScoreToken.RedirectUrl(b1, token) == ScoreToken.RedirectUrl(b2, token);
  }

  /**
   * The redirect inside a started game decodes back to the three ids of the callback: the
   * start-game half of the score round trip.
   */
  lemma RedirectCarriesIds(e: Event, baseUrl: Option<string>)
    requires CallbackOf(e).Some? && CallbackOf(e).value.message.Some?
    ensures
      var cq := CallbackOf(e).value;
      var msg := cq.message.value;
      var token := ScoreToken.Token(cq.from.id, msg.messageId, msg.chat.id);
      && ScoreToken.RedirectUrl(baseUrl, token) == (if baseUrl.Some? then baseUrl.value else "undefined") + "?score_id=" + token
      && ScoreToken.DecodeToken(token) == Some(ScoreToken.Joined(cq.from.id, msg.messageId, msg.chat.id))
  {
    var cq := CallbackOf(e).value;
    var msg := cq.message.value;
    ScoreToken.TokenRoundTrip(cq.from.id, msg.messageId, msg.chat.id);
  }
}
