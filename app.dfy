/**
 * The example application bot.js: loading the persisted cache, the `lastUpdateId` cursor
 * that keeps old updates away from the handlers, and the handler chains the updates that
 * pass it reach.
 */
module App {
  import opened Prelude
  import opened JsValues
  import opened Updates
  import opened Response
  import Filters
  import Decimal

  // ---------------------------------------------------------------- the persisted cache

  /**
   * `cache = JSON.parse(...)`, `{}` when that throws, then `if (!cache.botazavr)
   * cache.botazavr = {}`. `file` is the parsed file, `None` when it is missing or not JSON.
   * Reading through `null` throws, and so does creating a property on another primitive
   * (the module is strict); an array keeps its index properties.
   */
  function LoadCache(file: Option<Value>): (r: Result<map<string, Value>>)
    ensures file.None? ==> r == Ok(map["botazavr" := Obj(map[])])
    ensures r.Err? <==> file.Some? && !file.value.Obj? && !file.value.Arr?
    ensures r.Ok? ==> "botazavr" in r.value && Truthy(r.value["botazavr"])
    ensures r.Ok? && file.Some? ==> r.value.Keys == OwnProps(file.value).Keys + {"botazavr"}
    ensures r.Ok? && file.Some? ==>
      forall k :: k in OwnProps(file.value) && (k != "botazavr" || Truthy(OwnProps(file.value)[k])) ==>
        r.value[k] == OwnProps(file.value)[k]
    ensures r.Ok? && file.Some? && !Truthy(Get(OwnProps(file.value), "botazavr")) ==> r.value["botazavr"] == Obj(map[])
  {
    match file
    case None => Ok(map["botazavr" := Obj(map[])])
    case Some(v) =>
      if v.Undefined? || v.Null? then Err(CannotRead("botazavr"))
      else if !v.Obj? && !v.Arr? then Err(CannotCreate("botazavr"))
      else
        var props := OwnProps(v);
        if Truthy(Get(props, "botazavr")) then Ok(props) else Ok(props["botazavr" := Obj(map[])])
  }

  /** A cache whose `botazavr` entry is an object that holds no cursor or a numeric one. */
  predicate WellFormed(cache: map<string, Value>) {
    && "botazavr" in cache
    && cache["botazavr"].Obj?
    && var cursor := Get(cache["botazavr"].fields, "lastUpdateId");
       cursor.Num? || !Truthy(cursor)
  }

  /** `cache.botazavr.lastUpdateId || 0`. */
  function LastUpdateId(cache: map<string, Value>): (n: int)
    requires WellFormed(cache)
    ensures "lastUpdateId" !in cache["botazavr"].fields ==> n == 0
    ensures Get(cache["botazavr"].fields, "lastUpdateId").Num? ==> n == Get(cache["botazavr"].fields, "lastUpdateId").n
  {
    match Get(cache["botazavr"].fields, "lastUpdateId")
    case Num(x) => x
    case _ => 0
  }

  /**
   * A missing or unreadable file gives a well-formed cache with the cursor at 0, and so
   * does any object file whose `botazavr` entry is falsy or holds no cursor.
   */
  lemma FreshCursor(file: Option<Value>)
    requires file.None? || (file.value.Obj? && !Truthy(Get(file.value.fields, "botazavr")))
    ensures LoadCache(file).Ok? && WellFormed(LoadCache(file).value)
    ensures LastUpdateId(LoadCache(file).value) == 0
  {
  }

  /** An object file whose cursor the program itself wrote keeps that cursor. */
  lemma PersistedCursor(fields: map<string, Value>, b: map<string, Value>, n: int)
    requires "botazavr" in fields && fields["botazavr"] == Obj(b)
    requires "lastUpdateId" in b && b["lastUpdateId"] == Num(n)
    ensures LoadCache(Some(Obj(fields))) == Ok(fields)
    ensures WellFormed(fields) && LastUpdateId(fields) == n
  {
  }

  // ---------------------------------------------------------------- the cursor

  /** The cache after the cursor subscriber has seen update id `id`. */
  function Advance(cache: map<string, Value>, id: int): (c: map<string, Value>)
    requires WellFormed(cache)
    ensures WellFormed(c)
    ensures LastUpdateId(c) == if LastUpdateId(cache) < id then id else LastUpdateId(cache)
    ensures c.Keys == cache.Keys
    ensures forall k :: k in cache && k != "botazavr" ==> c[k] == cache[k]
    ensures forall k :: k in cache["botazavr"].fields && k != "lastUpdateId" ==>
      k in c["botazavr"].fields && c["botazavr"].fields[k] == cache["botazavr"].fields[k]
  {
    if LastUpdateId(cache) < id then
      cache["botazavr" := Obj(cache["botazavr"].fields["lastUpdateId" := Num(id)])]
    else cache
  }

  /** The ids that pass the cursor filter, one after another, starting from cursor `cursor`. */
  function PassedFrom(cursor: int, ids: seq<int>): seq<int>
    decreases |ids|
  {
    if ids == [] then []
    else if ids[0] > cursor then [ids[0]] + PassedFrom(ids[0], ids[1..])
    else PassedFrom(cursor, ids[1..])
  }

  /**
   * Across any run of updates the ids reaching the handlers strictly increase, all exceed
   * the starting cursor, and each is an id of the run: no update reaches the handlers twice.
   */
  lemma {:induction false} PassedIncreasing(cursor: int, ids: seq<int>)
    ensures forall i :: 0 <= i < |PassedFrom(cursor, ids)| ==> PassedFrom(cursor, ids)[i] > cursor
    ensures forall i, j :: 0 <= i < j < |PassedFrom(cursor, ids)| ==> PassedFrom(cursor, ids)[i] < PassedFrom(cursor, ids)[j]
    ensures forall x :: x in PassedFrom(cursor, ids) ==> x in ids
    decreases |ids|
  {
    if ids != [] {
      var rest := ids[1..];
      if ids[0] > cursor {
        var out := PassedFrom(cursor, ids);
        var tail := PassedFrom(ids[0], rest);
        PassedIncreasing(ids[0], rest);
        assert out == [ids[0]] + tail;
        forall i | 0 < i < |out| ensures out[i] == tail[i - 1] && out[i] > ids[0] {
        }
        assert forall x :: x in rest ==> x in ids;
      } else {
        PassedIncreasing(cursor, rest);
        assert forall x :: x in rest ==> x in ids;
      }
    }
  }

  /**
   * One step of the cursor filter: the first id passes exactly when it exceeds the cursor,
   * and the rest meet the cursor as the first id left it.
   */
  lemma PassedStep(cursor: int, id: int, rest: seq<int>)
    ensures PassedFrom(cursor, [id] + rest) ==
      (if id > cursor then [id] else []) + PassedFrom(if id > cursor then id else cursor, rest)
  {
    assert ([id] + rest)[1..] == rest;
  }

  /** An id at or below the cursor never passes, however often it is redelivered. */
  lemma {:induction false} OldIdsNeverPass(cursor: int, ids: seq<int>)
    requires forall i :: 0 <= i < |ids| ==> ids[i] <= cursor
    ensures PassedFrom(cursor, ids) == []
    decreases |ids|
  {
    if ids != [] {
      OldIdsNeverPass(cursor, ids[1..]);
    }
  }

  // ---------------------------------------------------------------- handlers

  const Welcome: string := "Welcome human! How are you doing?"
  const GameName: string := "runner_4game"
  const GamePage: string := "https://a-ignatov-parc.github.io/igromir/game/"

  /** `text(/ping/i)` as written: `indexOf` converts the RegExp to the string "/ping/i". */
  predicate PingFilterAsWritten(u: Update) {
    Filters.TextFilter("/ping/i", u)
  }

  /** A message with the given text in chat 42. */
  function PingMessage(text: string): Update {
    Update(7, Some(Message(1, Chat(42), Some(text), None)), None, None)
  }

  /**
   * As written, the pong handler ignores "ping" in any case and answers only messages that
   * contain the characters "/ping/i".
   */
  lemma PingAsWrittenMissesPing()
    ensures !PingFilterAsWritten(PingMessage("ping"))
    ensures !PingFilterAsWritten(PingMessage("PING"))
    ensures PingFilterAsWritten(PingMessage("/ping/i"))
  {
    Filters.TextFilterIsSubstring("/ping/i", PingMessage("ping"));
    Filters.TextFilterIsSubstring("/ping/i", PingMessage("PING"));
    assert Filters.OccursAt("/ping/i", "/ping/i", 0);
    Filters.TextFilterIsSubstring("/ping/i", PingMessage("/ping/i"));
  }

  /** ASCII letters to lower case; other characters unchanged. */
  function LowerChar(c: char): char {
    if 'A' <= c <= 'Z' then (c as int + 32) as char else c
  }

  function Lower(s: string): (r: string)
    ensures |r| == |s|
    ensures forall i :: 0 <= i < |s| ==> r[i] == LowerChar(s[i])
  {
    if s == [] then [] else [LowerChar(s[0])] + Lower(s[1..])
  }

  /**
   * The evident intent of `/ping/i`: "ping" in the message text, ignoring case. A
   * case-insensitive JavaScript pattern without the `u` flag folds only ASCII letters onto
   * the letters of "ping", so folding ASCII is enough.
   */
  predicate PingFilter(u: Update) {
    Filters.IndexOf(Lower(Filters.TextOf(u)), "ping") != -1
  }

  /** The corrected filter holds exactly when the text has "ping" in some mix of cases. */
  lemma PingFilterSpec(u: Update)
    ensures PingFilter(u) ==> exists j :: Filters.OccursAt(Lower(Filters.TextOf(u)), "ping", j)
    ensures (exists j :: Filters.OccursAt(Lower(Filters.TextOf(u)), "ping", j)) ==> PingFilter(u)
  {
    var low := Lower(Filters.TextOf(u));
    var r := Filters.IndexFrom(low, "ping", 0);
    if r != -1 {
      assert Filters.OccursAt(low, "ping", r);
    }
  }

  /** "ping", "PING" and "Ping?" get the pong; "pong" does not. */
  lemma PingFilterExamples()
    ensures PingFilter(PingMessage("ping")) && PingFilter(PingMessage("PING")) && PingFilter(PingMessage("Ping?"))
    ensures !PingFilter(PingMessage("pong"))
  {
    assert Lower("ping")[0..4] == "ping";
    assert Lower("PING")[0..4] == "ping";
    assert Lower("Ping?")[0..4] == "ping";
    assert Lower("pong")[0..4] != "ping" by {
      assert Lower("pong")[1] == 'o';
    }
  }

  /** `resultsReply([{type: 'game', id: `${Date.now()}`, game_short_name}])`, built at start-up. */
  function InlineResults(startedAt: int): Value {
    Arr([Obj(map["type" := Str("game"), "id" := Str(Decimal.IntToString(startedAt)), "game_short_name" := Str(GameName)])])
  }

  /** Which of the six handler chains let an update through, in the order they subscribed. */
  datatype Passes = Passes(start: bool, help: bool, ping: bool, game: bool, gameCallback: bool, inline: bool)

  /** The filters of every chain but ping, with `ping` for the ping chain's filter. */
  function PassesOf(u: Update, ping: bool): Passes {
    Passes(Filters.CommandFilter("start", u), Filters.CommandFilter("help", u), ping,
      Filters.CommandFilter("game", u), Filters.GameFilter(GameName, u), Filters.InlineQueriesFilter(u))
  }

  /** The replies of the chains that let the update through, in subscription order. */
  function Chain(p: Passes, startedAt: int): (r: seq<Reply>)
    ensures |r| <= 6
    ensures Text(Str("pong")) in r <==> p.ping
    ensures SendGame(Str(GameName)) in r <==> p.game
    ensures Text(Str(Welcome)) in r <==> p.start || p.help
  {
    assert Welcome[0] != 'p';
    (if p.start then [Text(Str(Welcome))] else [])
    + (if p.help then [Text(Str(Welcome))] else [])
    + (if p.ping then [Text(Str("pong"))] else [])
    + (if p.game then [SendGame(Str(GameName))] else [])
    + (if p.gameCallback then [Callback(Obj(map["url" := Str(GamePage)]))] else [])
    + (if p.inline then [Inline(Obj(map["results" := InlineResults(startedAt)]))] else [])
  }

  /**
   * The reply intents an update passing the cursor produces, with the ping chain filtered
   * by `text(/ping/i)` as written. A chain's reply is there exactly when its filter holds; the
   * welcome comes from exactly one of the start and help chains, since one message has only
   * one first command.
   */
  function Handlers(u: Update, startedAt: int): (r: seq<Reply>)
    ensures |r| <= 6
    ensures Text(Str("pong")) in r <==> PingFilterAsWritten(u)
    ensures SendGame(Str(GameName)) in r <==> Filters.CommandFilter("game", u)
    ensures Text(Str(Welcome)) in r <==> Filters.CommandFilter("start", u) || Filters.CommandFilter("help", u)
    ensures Text(Str(Welcome)) in r ==> Filters.CommandFilter("start", u) != Filters.CommandFilter("help", u)
  {
    Filters.CommandsExclusive("start", "help", u);
    Chain(PassesOf(u, PingFilterAsWritten(u)), startedAt)
  }

  /** The handler chains as evidently intended: the ping chain answers "ping" in any case. */
  function HandlersIntended(u: Update, startedAt: int): (r: seq<Reply>)
    ensures |r| <= 6
    ensures Text(Str("pong")) in r <==> PingFilter(u)
    ensures SendGame(Str(GameName)) in r <==> Filters.CommandFilter("game", u)
    ensures Text(Str(Welcome)) in r <==> Filters.CommandFilter("start", u) || Filters.CommandFilter("help", u)
    ensures Text(Str(Welcome)) in r ==> Filters.CommandFilter("start", u) != Filters.CommandFilter("help", u)
  {
    Filters.CommandsExclusive("start", "help", u);
    Chain(PassesOf(u, PingFilter(u)), startedAt)
  }

  /** The two chains differ only in the pong: they agree wherever the two ping filters do. */
  lemma HandlersDifferOnlyInPong(u: Update, startedAt: int)
    ensures PingFilterAsWritten(u) == PingFilter(u) ==> Handlers(u, startedAt) == HandlersIntended(u, startedAt)
  {
  }

  /** A plain "ping" message gets no reply as written and the pong as intended. */
  lemma PlainPingAnswered(startedAt: int)
    ensures Handlers(PingMessage("ping"), startedAt) == []
    ensures HandlersIntended(PingMessage("ping"), startedAt) == [Text(Str("pong"))]
  {
    var m := PingMessage("ping");
    var none := Passes(false, false, false, false, false, false);
    assert PassesOf(m, PingFilterAsWritten(m)) == none by {
      PingAsWrittenMissesPing();
      assert Filters.EntitiesOf(m) == [];
    }
    assert PassesOf(m, PingFilter(m)) == none.(ping := true) by {
      PingFilterExamples();
      assert Filters.EntitiesOf(m) == [];
    }
  }

  /** An update with neither a message, a callback query nor an inline query gets no reply. */
  lemma HandlersNeedAShape(u: Update, startedAt: int)
    requires u.message.None? && u.callbackQuery.None? && u.inlineQuery.None?
    ensures Handlers(u, startedAt) == []
    ensures HandlersIntended(u, startedAt) == []
  {
    assert Filters.EntitiesOf(u) == [];
    assert Lower("") == "";
    assert Filters.IndexOf("", "ping") == -1;
    assert Filters.IndexOf("", "/ping/i") == -1;
  }

  /** The game callback answers with the game page, and an inline query with the one game result. */
  lemma GameAndInlineReplies(u: Update, startedAt: int)
    requires u.message.None?
    ensures Filters.GameFilter(GameName, u) && u.inlineQuery.None? ==>
      Handlers(u, startedAt) == [Callback(Obj(map["url" := Str(GamePage)]))]
    ensures u.callbackQuery.None? && u.inlineQuery.Some? ==>
      Handlers(u, startedAt) == [Inline(Obj(map["results" := InlineResults(startedAt)]))]
  {
    assert Filters.EntitiesOf(u) == [];
    assert Filters.TextOf(u) == "";
    assert Filters.IndexOf("", "/ping/i") == -1;
  }

  class AppCache {
    var cache: map<string, Value>

    ghost predicate Valid()
      reads this
    {
      WellFormed(cache)
    }

    /** The cache object after start-up. */
    constructor (loaded: map<string, Value>)
      requires WellFormed(loaded)
      ensures Valid() && cache == loaded
    {
      cache := loaded;
    }

    function Cursor(): int
      reads this
      requires Valid()
    {
      LastUpdateId(cache)
    }

    /**
     * One update on the stream: the filter lets it through when its id exceeds the cursor,
     * and the first subscriber then moves the cursor up to it.
     */
    method Observe(u: Update) returns (passed: bool)
      requires Valid()
      modifies this
      ensures Valid()
      ensures passed <==> u.updateId > old(Cursor())
      ensures cache == Advance(old(cache), u.updateId)
      ensures Cursor() >= old(Cursor())
      ensures passed ==> Cursor() == u.updateId
      ensures !passed ==> cache == old(cache)
      ensures forall rest ::
                PassedFrom(old(Cursor()), [u.updateId] + rest) ==
                (if passed then [u.updateId] else []) + PassedFrom(Cursor(), rest)
    {
      forall rest ensures PassedFrom(LastUpdateId(cache), [u.updateId] + rest) ==
        (if u.updateId > LastUpdateId(cache) then [u.updateId] else [])
        + PassedFrom(LastUpdateId(Advance(cache, u.updateId)), rest)
      {
        PassedStep(LastUpdateId(cache), u.updateId, rest);
      }
      passed := u.updateId > LastUpdateId(cache);
      if passed {
        if LastUpdateId(cache) < u.updateId {
          cache := cache["botazavr" := Obj(cache["botazavr"].fields["lastUpdateId" := Num(u.updateId)])];
        }
      }
    }

    /**
     * An update as the application sees it: updates at or below the cursor reach no
     * handler; the others move the cursor and produce the handlers' reply intents.
     */
    method Deliver(u: Update, startedAt: int) returns (replies: seq<Reply>)
      requires Valid()
      modifies this
      ensures Valid()
      ensures replies == if u.updateId > old(Cursor()) then Handlers(u, startedAt) else []
      ensures cache == Advance(old(cache), u.updateId)
    {
      var passed := Observe(u);
      if passed {
        replies := Handlers(u, startedAt);
      } else {
        replies := [];
      }
    }
  }

  /** Delivering the same update twice: the second delivery reaches no handler. */
  lemma RedeliveryIgnored(cache: map<string, Value>, id: int)
    requires WellFormed(cache)
    ensures !(id > LastUpdateId(Advance(cache, id)))
    ensures LastUpdateId(Advance(Advance(cache, id), id)) == LastUpdateId(Advance(cache, id))
  {
  }
}
