# rx-telegram-bot in Dafny

This project models the core of rx-telegram-bot, a small JavaScript framework for Telegram
bots. It covers the bot runtime in `src/index.js`, the reply classes under `src/replies/`, and
the update cursor of the example application `bot.js`.

- **Options and transport** (`BotCore`). The caller's options are merged over the defaults.
  `useWebhook` picks push or polling. The method URL is the base URL, the token, `/` and the
  method name.
- **Deduplication and history** (`BotCore.Bot`). The class keeps the `ids` dictionary and the
  append-only `cache` history. An update whose id was seen before is dropped; every other
  update is appended and emitted. The history stream replays `cache` and then continues live.
  `DedupFrom` is the reference definition of what gets through, and `Bot.Feed` is proved
  against it.
- **Filters** (`Filters`). These are `filters.text`, `command`, `callbacks`, `inlineQueries`
  and `game`, written as predicates over a typed update.
- **Reply intents** (`Response` and one module per reply file). The class hierarchy becomes
  the closed datatype `Response.Reply`. Resolving an intent against an event gives the
  outbound `(method, params)` call, or the TypeError the JavaScript would throw.
  Each `Object.assign` is a right-biased map union.
- **The `reply` dispatcher** (`BotCore.Fallback`, `BotCore.ReplyOutcome`). A reply intent is
  resolved as it is. Any other value falls back on the payload's shape: inline query over
  callback query over message. With none of the three, no method is invoked.
- **Score token** (`ScoreToken`, `Utf8`, `Hex`, `Decimal`). The score token is the
  lowercase hex of the UTF-8 bytes of `userId-messageId-chatId`. The hex is base16 as in
  section 8 of RFC 4648, with lowercase digits. `Utf8` encodes Unicode scalar values.
- **Poll loop** (`Polling.Poller`). The loop is a state machine over `isActive`, a pending
  timer and an outstanding request. Each `getUpdates` round is abstracted to
  `Fetched(updates)`, `Failed` (caught, no updates) or `NoResult`. `NoResult` is a reply whose
  `result` is not an array, as in a Telegram error reply: `updates.forEach` then throws past
  the `.catch`, and the loop ends for good while `isActive` stays set.
- **Example application** (`App`). This covers loading the persisted cache and the
  `lastUpdateId` cursor. It also covers the handler chains that an update passing the cursor
  reaches, as written (`App.Handlers`, with the ping filter of the Findings below) and as
  evidently intended (`App.HandlersIntended`).

The JavaScript values are the datatype `JsValues.Value`, with numbers restricted to integers.
`JSON.stringify`, `url.parse(_, true)` and `url.format` are library calls outside the model;
they are the fields of a `JsValues.Lib` record passed as parameters. `Date.now()` in `bot.js`
is the parameter `startedAt`. The network, timers and the file system are abstracted away.
`getUpdates` (src/index.js:158) is sent without an `offset`, so the platform may hand the same
updates out again; the deduplicating filter and the application's cursor are what keep such
repeats from reaching the handlers (`BotCore.DedupRedelivery`, `App.OldIdsNeverPass`).
Their effects enter as method calls (`Poller.Respond`, `Poller.Fire`, `Bot.Accept`) or as
parameters (`LoadCache`'s parsed file).

`Response.resolve` (src/replies/response.js:17-22) forwards only the payload to
`resolveParams`, so the start-game reply never receives a base URL. A start-game reply
resolved through it therefore builds its redirect URL from `undefined`, which
`Response.StartGameLosesBaseUrl` and `Response.ResolveAsIfBaseUndefined` state. `StartGameReply.Params` still
takes the base URL explicitly, as `resolveParams(payload, baseUrl)` does.

## Model

| member | source | states |
|---|---|---|
| BotCore.MergeOptions | src/index.js:86-87 | the merged options have the keys of the defaults and of the caller; every key the caller sets has the caller's value, every other key keeps its default |
| BotCore.TransportChoice | src/index.js:108-114 | webhook mode is selected exactly when the caller leaves `useWebhook` out or sets it truthy; with no options it is webhook |
| BotCore.MethodUrlShape | src/index.js:204 | the method URL is base URL + token + "/" + name, where the base URL is the platform's unless the caller sets a string one |
| BotCore.Bot.RequestFor | src/index.js:202-207 | for a bot built from caller options, the request URL is the platform's base URL, or the caller's string `baseUrl`, then the token, "/" and the method name; it always ends in "/" and the method name; the query is the parameters, `{}` when they are undefined |
| BotCore.DedupFresh | src/index.js:97 | what the filter lets through never repeats an id and never carries an id already seen, and its ids are exactly the new ids of the input |
| BotCore.DedupAppend | src/index.js:97-103 | filtering two batches in turn, the second with the first one's ids as seen, is filtering them together |
| BotCore.DedupRedelivery | src/index.js:97 | a batch whose ids were all seen already lets nothing through |
| BotCore.DedupCount | src/index.js:97-103 | the number of updates let through is the number of distinct new ids |
| BotCore.DistinctAppend | src/index.js:196-200 | two id-distinct sequences with no id in common concatenate to an id-distinct one |
| BotCore.Bot.constructor | src/index.js:86-91 | a new bot holds the merged options, the token, the transport they select, an empty history and no ids |
| BotCore.Bot.Accept | src/index.js:97-103 | an update is emitted exactly when its id is new; then it is appended to `cache` and its id is mapped to its index; otherwise nothing changes; every recorded id points at an update with that id and back |
| BotCore.Bot.UpdatesStream | src/index.js:192-194 | the live stream never repeats an id, carries no id already in the history, and carries every new id of the raw updates |
| BotCore.ShapeFiltersSelectFallback | src/index.js:46-52 | an update the `inlineQueries()` filter lets through is answered as an inline query; one only the `callbacks()` filter lets through, as a callback; neither, a fallback exactly when there is a message |
| BotCore.Bot.HistoryDistinct | src/index.js:99-103 | the history has no repeated id, its ids are exactly the recorded keys, and its length is the number of distinct ids seen |
| BotCore.Bot.AllUpdatesStream | src/index.js:196-200 | the history stream is the whole history in acceptance order followed by exactly the live stream, and never yields an id twice |
| BotCore.Bot.Feed | src/index.js:93-106 | a batch of raw updates emits exactly `DedupFrom` of the ids seen before; the history grows by exactly those updates and afterwards equals what a history subscription taken before the batch yields |
| BotCore.Fallback | src/index.js:228-240 | for a bare value the default variant is Inline when an inline query is present, else Callback when a callback query is present, else Text when a message is present, and none when none of them is |
| BotCore.ReplyOutcome | src/index.js:219-247 | a reply intent is resolved as it is; a bare value is resolved through its fallback variant; no call is made exactly when a bare value meets an event with none of the three shapes |
| BotCore.FallbackRejectsOnlyNullishInline | src/index.js:228-243 | a bare value only makes the fallback throw when it answers an inline query and is `undefined` or `null` |
| BotCore.FallbackToText | src/index.js:230-243 | a bare value for a plain message becomes `sendMessage` to that message's chat with the value as text |
| Polling.EmittedAppend | src/index.js:156-166 | the updates emitted over consecutive runs of rounds are the runs' emitted updates concatenated |
| Polling.FailedRoundsEmitNothing | src/index.js:159-160 | failed rounds anywhere among the rounds add nothing to what is emitted |
| Polling.EmittedSingle | src/index.js:160 | a successful round emits its updates in order; a failed one emits none |
| Polling.PollTimeout | src/index.js:158 | the long-poll timeout in seconds is the `timeout` option divided by 1000, when that is a whole number |
| Polling.DefaultPollTimeout | src/index.js:23 | with the default options the long poll waits 60 seconds |
| Polling.Poller.constructor | src/index.js:152-177 | binding the stream makes the loop active with its first request in flight |
| Polling.Poller.Respond | src/index.js:156-166 | a response emits its round's updates; a response without a `result` array breaks the chain, leaving `isActive` as it was with nothing outstanding; otherwise the next timer is scheduled exactly when the loop is still active; a stopped or broken loop comes to rest |
| Polling.Poller.Fire | src/index.js:163-165 | the timer firing issues one more request and changes nothing else |
| Polling.Poller.Stop | src/index.js:168-171 | stopping clears the pending timer and makes the loop inactive; an answered loop is then at rest for good |
| Filters.IndexFrom | src/index.js:34 | `indexOf` (which the source calls from position 0) gives the first occurrence at or after the position searched from, or -1 when there is none |
| Filters.TextFilterIsSubstring | src/index.js:31-35 | the text filter holds exactly when the pattern occurs in the message text |
| Filters.TextFilterEdgeCases | src/index.js:32-34 | an empty pattern matches every update; without a message only the empty pattern matches |
| Filters.FirstCommandAtStart | src/index.js:41 | the entity picked is the first bot-command entity at offset 0, and none when there is none |
| Filters.CommandFilterSpec | src/index.js:38-43 | the command filter holds exactly when the first bot-command entity at offset 0 exists and the text's first `length` characters are "/" + name |
| Filters.CommandNeedsMessagePrefix | src/index.js:39-42 | a matching command implies a message whose text begins with "/" + name |
| Filters.CommandNotAtStartNeverMatches | src/index.js:41-42 | bot-command entities at a nonzero offset never make the filter match |
| Filters.CommandFilterExample | src/index.js:38-43 | "/start@botname extra" with a 6-character command entity matches "start" and not "help" |
| Filters.CommandsExclusive | src/index.js:38-43 | two command filters that both hold are for the same name: one message has one first command |
| Filters.GameFilterNeedsCallback | src/index.js:54-56 | a game match implies a callback query is present |
| Response.ResolveAsIfBaseUndefined | src/replies/response.js:17-22 | forwarding only the payload, `resolve` makes the call `resolveParams` gives for the base URL "undefined", and throws exactly when that throws, with the same error |
| Response.MethodNames | src/replies/response.js:9-11 | each variant's method name is the one its constructor fixes: sendMessage, answerCallbackQuery, answerInlineQuery, sendGame, setGameScore, or the base `method` |
| Response.GenericIgnoresPayload | src/replies/response.js:13-15 | the base response resolves to its own method and parameters for every payload |
| Response.OnlyStartGameReadsBaseUrl | src/replies/start-game.js:8 | only the start-game reply's parameters depend on the base URL |
| Response.TextResolution | src/replies/text.js:11-16 | a text reply resolved against a message calls sendMessage with exactly that chat id and the given text |
| Response.StartGameLosesBaseUrl | src/replies/response.js:17-22 | through `resolve`, a start-game reply behaves as if the base URL were the string "undefined", so each score URL begins with "undefined?score_id=" |
| TextReply.Params | src/replies/text.js:11-16 | resolves exactly when a message is present, to exactly the keys `chat_id` (the message's chat id) and `text` (unchanged) |
| MarkdownReply.ExtendsText | src/replies/markdown.js:6-12 | resolves exactly when the text reply does, to its `chat_id` and `text` plus `parse_mode` "Markdown", and no other key |
| HtmlReply.ExtendsText | src/replies/html.js:6-12 | resolves exactly when the text reply does, to its `chat_id` and `text` plus `parse_mode` "HTML", and no other key |
| CallbackReply.Params | src/replies/callback.js:10-13 | resolves exactly when a callback query is present; the keys are `callback_query_id` and the caller's; the caller's values win; `callback_query_id` is the query's id unless the caller sets it |
| InlineReply.ResultsOf | src/replies/inline.js:12 | reading `results` throws exactly on `undefined` or `null` parameters |
| InlineReply.Params | src/replies/inline.js:10-14 | resolves exactly when an inline query is present and the parameters are not nullish; `results` is the serialization of the parameters' results or of `{}`; the other keys are copied; `inline_query_id` is the query's id unless overridden |
| InlineReply.ResultsSerialized | src/replies/inline.js:12-13 | for object parameters the call resolves, and `results` is the serialization of the parameters' `results`, or of `{}` when that is absent or falsy |
| SendGameReply.Params | src/replies/send-game.js:11-16 | resolves exactly when a message is present, to exactly `chat_id` (the message's chat id) and `game_short_name` (the constructor's) |
| SendScoreReply.Params | src/replies/send-score.js:10-12 | the keys are those of the notification payload and of the caller; the caller wins on a conflict; the payload's value is kept otherwise |
| SendScoreReply.ReadsOnlyPayload | src/replies/send-score.js:10 | two events with the same `payload` resolve to the same parameters |
| ScoreToken.Token | src/replies/start-game.js:15-16 | the token uses only lowercase hex digits and has two characters per UTF-8 byte of the joined ids |
| ScoreToken.TokenShape | src/replies/start-game.js:15-16 | the token has two characters per character of the joined ids, which are all ASCII |
| ScoreToken.TokenRoundTrip | src/replies/start-game.js:15-16 | hex-decoding the token and reading it as UTF-8 gives back the joined ids exactly |
| ScoreToken.SplitRecoversIds | src/replies/start-game.js:15 | for non-negative ids, splitting the joined string on "-" gives three parts that parse back to the three ids in order |
| ScoreToken.NegativeChatSplitsInFour | src/replies/start-game.js:13-15 | a negative chat id brings its own "-", so the split gives four parts, an empty one among them |
| StartGameReply.GameUrl | src/replies/start-game.js:19-25 | the URL object handed to `url.format` keeps its location and query keys, and gains `username`, `user_id` and `score_url`, which overwrite same-named keys |
| StartGameReply.Params | src/replies/start-game.js:8-32 | resolves exactly when the callback query has a message and the caller's `url` is a string; the keys are the callback reply's; every key but `url` has the callback reply's value; `url` is the formatted game URL carrying the redirect with the token |
| StartGameReply.SameRedirectSameParams | src/replies/start-game.js:15-31 | the base URL reaches the parameters only through the redirect URL: two base URLs that give the same redirect for every token give the same parameters |
| StartGameReply.RedirectCarriesIds | src/replies/start-game.js:15-18 | the redirect is the base URL, "?score_id=" and the token, and the token decodes to the callback's three ids |
| Decimal.IntToString | src/replies/start-game.js:15 | an integer is written as digits without a leading zero, with "-" in front exactly when it is negative |
| Decimal.IntToStringRoundTrip | src/replies/start-game.js:15 | parsing the decimal rendering of an integer gives it back |
| Decimal.IntToStringInjective | src/replies/start-game.js:15 | distinct integers have distinct renderings |
| Utf8.EncodeChar | src/replies/start-game.js:15 | a scalar takes one to four bytes, and one exactly when it is ASCII |
| Utf8.RoundTrip | src/replies/start-game.js:15 | decoding the UTF-8 encoding of a string gives the string back |
| Utf8.AsciiOneBytePerChar | src/replies/start-game.js:15 | an ASCII string encodes to one byte per character |
| Hex.Encode | src/replies/start-game.js:16 | hex encoding gives two lowercase hex digits per byte |
| Hex.DecodeEncode | src/replies/start-game.js:16 | decoding the hex of a byte string gives it back |
| Hex.EncodeDecode | src/replies/start-game.js:16 | encoding what a lowercase hex string decodes to gives that string back |
| Hex.DecodeAccepts | src/replies/start-game.js:16 | decoding succeeds exactly on even-length lowercase hex |
| JsValues.Assign | src/replies/callback.js:12 | `Object.assign` gives the target's keys and the source's own keys; the source's values win |
| JsValues.OwnProps | src/replies/send-score.js:11 | an object contributes its fields, an array or a string one entry per index, and a primitive nothing |
| App.LoadCache | bot.js:30-38 | a missing or unparsable file gives `{botazavr: {}}`; an object keeps its entries and gains `botazavr: {}` when that entry is falsy; `null` and other primitives throw |
| App.FreshCursor | bot.js:32-38 | a fresh cache, or one without a truthy `botazavr`, starts with the cursor at 0 |
| App.PersistedCursor | bot.js:33-38 | a cache file with a numeric cursor is loaded unchanged and keeps that cursor |
| App.LastUpdateId | bot.js:51 | the cursor is the stored number, or 0 when none is stored |
| App.Advance | bot.js:53-57 | the cursor becomes the larger of itself and the id, and no other entry changes |
| App.PassedIncreasing | bot.js:49-57 | over any run of updates the ids passing the cursor strictly increase, all exceed the starting cursor, and come from the run |
| App.OldIdsNeverPass | bot.js:49-51 | ids at or below the cursor never pass, however often they are redelivered |
| App.AppCache.Observe | bot.js:49-57 | an update passes exactly when its id exceeds the cursor; the cursor never decreases and becomes the id of a passing update; a rejected update changes nothing; what passes of this update and any later ones is exactly `PassedFrom` of the old cursor |
| App.PassedStep | bot.js:49-57 | the first id passes exactly when it exceeds the cursor, and the later ids meet the cursor as that id left it |
| App.AppCache.Deliver | bot.js:49-82 | an update at or below the cursor reaches no handler; any other gets the replies of the handler chains as written |
| App.Handlers | bot.js:59-82 | as written: at most six replies; the pong is there exactly when the text contains "/ping/i"; the game is sent exactly for `/game`; the welcome exactly for `/start` or `/help`, and then from only one of those two chains |
| App.HandlersIntended | bot.js:59-82 | as intended: the same chains and bounds, the pong there exactly when the corrected ping filter holds |
| App.HandlersDifferOnlyInPong | bot.js:59-82 | the two chains agree wherever the two ping filters agree |
| App.PlainPingAnswered | bot.js:64-66 | a plain "ping" message gets no reply as written and the pong as intended |
| App.RedeliveryIgnored | bot.js:51-56 | delivering the same update again passes nothing and leaves the cursor where it is |
| App.HandlersNeedAShape | bot.js:59-82 | an update with neither a message, a callback query nor an inline query gets no reply, as written or as intended |
| App.GameAndInlineReplies | bot.js:72-82 | the game callback gets the game page as its `url`, and an inline query the one game result |
| App.PingAsWrittenMissesPing | bot.js:65 | as written, "ping" and "PING" get no pong and "/ping/i" does |
| App.Lower | bot.js:65 | lower-casing keeps the length and folds each ASCII letter |
| App.PingFilterSpec | bot.js:65 | the corrected ping filter holds exactly when "ping" occurs in the lower-cased text |
| App.PingFilterExamples | bot.js:65 | "ping", "PING" and "Ping?" get the pong; "pong" does not |

## Left out

- The webhook server, the ngrok tunnel and `setWebhook` (src/index.js:116-149, 183-190) are network plumbing. The model only selects the transport.
- The HTTP transport of `invokeMethod`, the JSON parsing of responses and `consumeBuffer` (src/index.js:202-217, 252-261) are I/O. The model keeps only the request URL and query (`Bot.RequestFor`).
- Bacon.js streams are sequences. Timing, laziness and concurrency are not modelled, and neither is whether Bacon drops events after an unsubscription. `process.on` handlers and `setTimeout` are the poller's `Stop` and `Fire` events.
- The notifications stream is not part of this model. `bot.js` uses `notifications`, `sendScore` and `getNotificationsStream`, which `src/index.js` does not export, so its line 28 would throw at start-up. The start-game score decoder is not part of the code either; only hex decoding and splitting are modelled.
- `JSON.stringify`, `url.parse`, `url.format` and `console.log` are foreign calls. The first three are arbitrary functions passed in (`JsValues.Lib`); logging is dropped.
- Numbers are integers. Floating point, NaN and the 53-bit precision limit are not modelled.
- Polling.PollTimeout: a `timeout` option that is not a whole number of seconds makes `timeout / 1000` fractional, and the model then gives no value.
- Strings are sequences of Unicode scalar values, not UTF-16 code units. A lone surrogate in a username or text is not modelled.
- Object key order, which `Object.assign` and `url.format` follow, is not modelled; maps are unordered.
- `url.format` is an arbitrary function here. Node's gives an existing `search` string precedence over `query`, so a game URL that already has a query string would lose the three added keys there; the contract of `StartGameReply.GameUrl` is about the object handed to `url.format`. The game page in `bot.js` has no query string.
- `replies.startGame` (src/index.js:72-74) builds a plain callback reply, and that is what `App.Handlers` uses. The start-game reply is modelled standalone with an explicit base URL.
- Regular expressions are not modelled. The code's text filter uses `indexOf` (Findings).
- The reading and writing of `cache.json` (bot.js:32-33, 88-90) is file I/O. The parsed file is a parameter; the write on exit is left out.
- App.AppCache.Observe: requires a cache whose `botazavr` is an object and whose cursor is a number or falsy. An arbitrary file value there (say, a `botazavr` string) would make the JavaScript coerce or throw. That case is not modelled.
- App.LoadCache: a JSON array in the cache file is treated as an object with index keys. Its `length` is not modelled.
- `cache.botazavr.lastUpdateId = update_id` updates a shared object in place. The model rebuilds the value, which is the same here because nothing else holds that object.
- Typed updates: a field that is JSON `null` rather than absent is not modelled. Destructuring defaults in the filters apply only to absent fields.

## Findings

| source | as written | input that shows it | evidently intended | confidence | as-written member | corrected member |
|---|---|---|---|---|---|---|
| bot.js:65 | `text(/ping/i)` passes a regular expression to `filters.text`, whose `indexOf` converts it to the string "/ping/i" | a message "ping" gets no "pong", while a message containing "/ping/i" does | answer messages containing "ping" in any case | not executed | App.PingAsWrittenMissesPing | App.HandlersIntended |
