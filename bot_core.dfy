/**
 * The bot runtime of src/index.js: options, the choice of transport, the method URL, the
 * deduplicating update history and the `reply` dispatcher.
 */
module BotCore {
  import opened Prelude
  import opened JsValues
  import opened Updates
  import opened Response
  import Filters

  // ---------------------------------------------------------------- options and transport

  /** The built-in options. */
  function Defaults(): map<string, Value> {
    map[
      "baseUrl" := Str("https://api.telegram.org/bot"),
      "timeout" := Num(60 * 1000),
      "interval" := Num(100),
      "useWebhook" := Bool(true),
      "host" := Str("localhost"),
      "port" := Num(3000)]
  }

  /** `Object.assign({}, defaults, options)`: the caller's options override the defaults key by key. */
  function MergeOptions(caller: map<string, Value>): (o: map<string, Value>)
    ensures o.Keys == Defaults().Keys + caller.Keys
    ensures forall k :: k in caller ==> o[k] == caller[k]
    ensures forall k :: k in Defaults() && k !in caller ==> o[k] == Defaults()[k]
  {
    Assign(Assign(map[], Obj(Defaults())), Obj(caller))
  }

  datatype Transport = Webhook | Polling

  /** `initRealtimeUpdates`: push mode when `useWebhook` is truthy, polling otherwise. */
  function SelectTransport(options: map<string, Value>): Transport {
    if Truthy(Get(options, "useWebhook")) then Webhook else Polling
  }

  /**
   * Webhook mode is chosen exactly when the caller leaves `useWebhook` out or sets it to a
   * truthy value; an explicit falsy value, `undefined` included, selects polling.
   */
  lemma TransportChoice(caller: map<string, Value>)
    ensures SelectTransport(MergeOptions(caller)) == Webhook <==>
      ("useWebhook" !in caller || Truthy(caller["useWebhook"]))
    ensures SelectTransport(MergeOptions(map[])) == Webhook
  {
    assert MergeOptions(map[])["useWebhook"] == Bool(true);
  }

  /** `${this.options.baseUrl + this.token}/${name}`. */
  function MethodUrl(options: map<string, Value>, token: string, name: string): string {
    ToJsString(Get(options, "baseUrl")) + token + "/" + name
  }

  /** The method URL is the base URL, the token, '/' and the method name, the base URL defaulting to the platform's. */
  lemma MethodUrlShape(caller: map<string, Value>, token: string, name: string)
    ensures "baseUrl" !in caller ==>
      MethodUrl(MergeOptions(caller), token, name) == "https://api.telegram.org/bot" + token + "/" + name
    ensures "baseUrl" in caller && caller["baseUrl"].Str? ==>
      MethodUrl(MergeOptions(caller), token, name) == caller["baseUrl"].s + token + "/" + name
  {
  }

  /** An HTTP GET as `invokeMethod` issues it: the URL and the query parameters. */
  datatype Request = Request(url: string, query: Value)

  // ---------------------------------------------------------------- deduplication

  function IdsOf(us: seq<Update>): set<int> {
    set i | 0 <= i < |us| :: us[i].updateId
  }

  ghost predicate DistinctIds(us: seq<Update>) {
    forall i, j :: 0 <= i < j < |us| ==> us[i].updateId != us[j].updateId
  }

  /**
   * What the deduplicating filter lets through of `us` when the ids in `seen` have already
   * been accepted: the first occurrence of each new id, in arrival order.
   */
  function DedupFrom(seen: set<int>, us: seq<Update>): seq<Update>
    decreases |us|
  {
    if us == [] then []
    else if us[0].updateId in seen then DedupFrom(seen, us[1..])
    else [us[0]] + DedupFrom(seen + {us[0].updateId}, us[1..])
  }

  lemma IdsOfCons(u: Update, us: seq<Update>)
    ensures IdsOf([u] + us) == {u.updateId} + IdsOf(us)
  {
    var s := [u] + us;
    forall k | k in IdsOf(s) ensures k in {u.updateId} + IdsOf(us) {
      var i :| 0 <= i < |s| && s[i].updateId == k;
      if i > 0 { assert us[i - 1] == s[i]; }
    }
    forall k | k in IdsOf(us) ensures k in IdsOf(s) {
      var i :| 0 <= i < |us| && us[i].updateId == k;
      assert s[i + 1] == us[i];
    }
    assert s[0] == u;
  }

  /**
   * The output never repeats an id and never carries an id of `seen`, and it holds exactly
   * the new ids of the input.
   */
  lemma {:induction false} DedupFresh(seen: set<int>, us: seq<Update>)
    ensures DistinctIds(DedupFrom(seen, us))
    ensures IdsOf(DedupFrom(seen, us)) == IdsOf(us) - seen
    ensures forall i :: 0 <= i < |DedupFrom(seen, us)| ==> DedupFrom(seen, us)[i].updateId !in seen
    decreases |us|
  {
    if us != [] {
      var u := us[0];
      assert us == [u] + us[1..];
      IdsOfCons(u, us[1..]);
      if u.updateId in seen {
        DedupFresh(seen, us[1..]);
      } else {
        var rest := DedupFrom(seen + {u.updateId}, us[1..]);
        DedupFresh(seen + {u.updateId}, us[1..]);
        IdsOfCons(u, rest);
        var out := [u] + rest;
        forall i | 0 <= i < |out| ensures out[i].updateId !in seen {
          if i > 0 { assert out[i] == rest[i - 1]; }
        }
        forall i, j | 0 <= i < j < |out| ensures out[i].updateId != out[j].updateId {
          assert out[j] == rest[j - 1];
          if i > 0 { assert out[i] == rest[i - 1]; }
        }
      }
    }
  }

  /** Deduplicating two batches in turn is deduplicating them together. */
  lemma {:induction false} DedupAppend(seen: set<int>, a: seq<Update>, b: seq<Update>)
    ensures DedupFrom(seen, a + b) == DedupFrom(seen, a) + DedupFrom(seen + IdsOf(a), b)
    decreases |a|
  {
    if a == [] {
      assert a + b == b;
      assert IdsOf(a) == {};
      assert seen + IdsOf(a) == seen;
    } else {
      var u := a[0];
      assert (a + b)[1..] == a[1..] + b;
      assert a == [u] + a[1..];
      IdsOfCons(u, a[1..]);
      if u.updateId in seen {
        DedupAppend(seen, a[1..], b);
        assert seen + IdsOf(a) == seen + IdsOf(a[1..]);
      } else {
        DedupAppend(seen + {u.updateId}, a[1..], b);
        assert seen + {u.updateId} + IdsOf(a[1..]) == seen + IdsOf(a);
      }
    }
  }

  /** Redelivering updates whose ids were all accepted already lets nothing through. */
  lemma {:induction false} DedupRedelivery(seen: set<int>, us: seq<Update>)
    requires IdsOf(us) <= seen
    ensures DedupFrom(seen, us) == []
    decreases |us|
  {
    if us != [] {
      IdsOfCons(us[0], us[1..]);
      assert us == [us[0]] + us[1..];
      DedupRedelivery(seen, us[1..]);
    }
  }

  /** Two id-distinct sequences with no id in common concatenate to an id-distinct one. */
  lemma DistinctAppend(a: seq<Update>, b: seq<Update>)
    requires DistinctIds(a) && DistinctIds(b)
    requires forall j :: 0 <= j < |b| ==> b[j].updateId !in IdsOf(a)
    ensures DistinctIds(a + b)
  {
    var all := a + b;
    forall i, j | 0 <= i < j < |all| ensures all[i].updateId != all[j].updateId {
      if j < |a| {
        assert all[i] == a[i] && all[j] == a[j];
      } else if i < |a| {
        assert all[i] == a[i] && all[j] == b[j - |a|];
        assert all[i].updateId in IdsOf(a);
      } else {
        assert all[i] == b[i - |a|] && all[j] == b[j - |a|];
      }
    }
  }

  lemma IdsOfSnoc(us: seq<Update>, u: Update)
    ensures IdsOf(us + [u]) == IdsOf(us) + {u.updateId}
  {
    var s := us + [u];
    forall k | k in IdsOf(s) ensures k in IdsOf(us) + {u.updateId} {
      var j :| 0 <= j < |s| && s[j].updateId == k;
      if j < |us| { assert s[j] == us[j]; }
    }
    forall k | k in IdsOf(us) ensures k in IdsOf(s) {
      var j :| 0 <= j < |us| && us[j].updateId == k;
      assert s[j] == us[j];
    }
    assert s[|us|] == u;
  }

  /** One more update through the filter: it is let through exactly when its id is new. */
  lemma DedupStep(seen: set<int>, us: seq<Update>, i: nat)
    requires i < |us|
    ensures IdsOf(us[..i + 1]) == IdsOf(us[..i]) + {us[i].updateId}
    ensures DedupFrom(seen, us[..i + 1]) == DedupFrom(seen, us[..i]) +
      (if us[i].updateId in seen + IdsOf(us[..i]) then [] else [us[i]])
  {
    assert us[..i + 1] == us[..i] + [us[i]];
    DedupAppend(seen, us[..i], [us[i]]);
    IdsOfSnoc(us[..i], us[i]);
  }

  lemma {:induction false} DistinctIdsCount(us: seq<Update>)
    requires DistinctIds(us)
    ensures |IdsOf(us)| == |us|
    decreases |us|
  {
    if us != [] {
      var rest := us[1..];
      assert us == [us[0]] + rest;
      IdsOfCons(us[0], rest);
      DistinctIdsCount(rest);
      forall i | 0 <= i < |rest| ensures rest[i].updateId != us[0].updateId {
        assert rest[i] == us[i + 1];
      }
      assert us[0].updateId !in IdsOf(rest);
    }
  }

  /** The number of updates let through is the number of distinct new ids. */
  lemma DedupCount(seen: set<int>, us: seq<Update>)
    ensures |DedupFrom(seen, us)| == |IdsOf(us) - seen|
  {
    DedupFresh(seen, us);
    DistinctIdsCount(DedupFrom(seen, us));
  }

  // ---------------------------------------------------------------- the bot

  class Bot {
    /** The options the caller passed to the constructor. */
    ghost const caller: map<string, Value>
    const options: map<string, Value>
    const token: string
    const transport: Transport
    /** Every accepted update, in acceptance order. */
    var cache: seq<Update>
    /** The position in `cache` of each accepted id. */
    var ids: map<int, nat>

    /** The options are the caller's merged over the defaults; fixed at construction. */
    ghost predicate Configured() {
      options == MergeOptions(caller)
    }

    ghost predicate Valid()
      reads this
    {
      && (forall k :: k in ids ==> ids[k] < |cache| && cache[ids[k]].updateId == k)
      && (forall i :: 0 <= i < |cache| ==> cache[i].updateId in ids && ids[cache[i].updateId] == i)
    }

    /** `new Bot(token, options)`: merged options, the transport they select, an empty history. */
    constructor (token: string, caller: map<string, Value>)
      ensures Valid() && Configured()
      ensures this.token == token && this.caller == caller && options == MergeOptions(caller)
      ensures transport == SelectTransport(options)
      ensures cache == [] && ids == map[]
    {
      this.caller := caller;
      this.token := token;
      options := MergeOptions(caller);
      transport := SelectTransport(MergeOptions(caller));
      cache := [];
      ids := map[];
    }

    /**
     * One raw update reaching the filter of `initStream`: an id seen before is dropped;
     * otherwise the update is appended to the history, its position recorded, and emitted.
     */
    method Accept(u: Update) returns (emitted: bool)
      requires Valid()
      modifies this
      ensures Valid()
      ensures emitted <==> u.updateId !in old(ids)
      ensures cache == old(cache) + (if emitted then [u] else [])
      ensures ids == if emitted then old(ids)[u.updateId := |old(cache)|] else old(ids)
    {
      emitted := u.updateId !in ids;
      if emitted {
        var index := |cache|;
        cache := cache + [u];
        ids := ids[u.updateId := index];
      }
    }

    /**
     * What `getUpdatesStream` delivers for the raw updates `later`: no id twice, no id
     * already in the history, and every new id of `later`.
     */
    function UpdatesStream(later: seq<Update>): (r: seq<Update>)
      reads this
      ensures DistinctIds(r)
      ensures forall i :: 0 <= i < |r| ==> r[i].updateId !in ids
      ensures IdsOf(r) == IdsOf(later) - ids.Keys
    {
      DedupFresh(ids.Keys, later);
      DedupFrom(ids.Keys, later)
    }

    /** What `getAllUpdatesStream` delivers: the history so far, then the live stream. */
    function AllUpdatesStream(later: seq<Update>): (r: seq<Update>)
      reads this
      requires Valid()
      ensures |r| == |cache| + |UpdatesStream(later)|
      ensures r[..|cache|] == cache
      ensures r[|cache|..] == UpdatesStream(later)
      ensures DistinctIds(r)
    {
      HistoryDistinct();
      DedupFresh(ids.Keys, later);
      DistinctAppend(cache, UpdatesStream(later));
      assert (cache + UpdatesStream(later))[..|cache|] == cache;
      cache + UpdatesStream(later)
    }

    /** The history never repeats an id, and its ids are exactly the recorded keys. */
    lemma HistoryDistinct()
      requires Valid()
      ensures DistinctIds(cache)
      ensures ids.Keys == IdsOf(cache)
      ensures |cache| == |ids|
    {
      forall i, j | 0 <= i < j < |cache| ensures cache[i].updateId != cache[j].updateId {
        assert ids[cache[i].updateId] == i;
      }
      forall k | k in ids ensures k in IdsOf(cache) {
        assert cache[ids[k]].updateId == k;
      }
      DistinctIdsCount(cache);
    }

    /**
     * A batch of raw updates fed through the filter in order. Live subscribers receive the
     * deduplicated batch; the history afterwards is what a history subscription taken
     * before the batch replays and then streams.
     */
    method Feed(us: seq<Update>) returns (live: seq<Update>)
      requires Valid()
      modifies this
      ensures Valid()
      ensures live == old(UpdatesStream(us))
      ensures cache == old(cache) + live
      ensures cache == old(AllUpdatesStream(us))
      ensures ids.Keys == old(ids.Keys) + IdsOf(us)
    {
      ghost var seen := ids.Keys;
      live := [];
      var i := 0;
      while i < |us|
        invariant 0 <= i <= |us|
        invariant Valid()
        invariant live == DedupFrom(seen, us[..i])
        invariant cache == old(cache) + live
        invariant ids.Keys == seen + IdsOf(us[..i])
      {
        var u := us[i];
        DedupStep(seen, us, i);
        var emitted := Accept(u);
        if emitted {
          live := live + [u];
        }
        i := i + 1;
      }
      assert us[..|us|] == us;
      assert old(AllUpdatesStream(us)) == old(cache) + live;
    }

    /**
     * The GET request `invokeMethod(name, params)` sends: the platform's base URL unless the
     * caller gave a string one, then the token, '/' and the method name; missing parameters
     * default to `{}`.
     */
    function RequestFor(call: Call): (r: Request)
      requires Configured()
      ensures "baseUrl" !in caller ==> r.url == "https://api.telegram.org/bot" + token + "/" + call.name
      ensures "baseUrl" in caller && caller["baseUrl"].Str? ==> r.url == caller["baseUrl"].s + token + "/" + call.name
      ensures |r.url| > |call.name| && r.url[|r.url| - |call.name| - 1..] == "/" + call.name
      ensures call.params.Undefined? ==> r.query == Obj(map[])
      ensures !call.params.Undefined? ==> r.query == call.params
    {
      MethodUrlShape(caller, token, call.name);
      var prefix := ToJsString(Get(options, "baseUrl")) + token;
      assert MethodUrl(options, token, call.name) == prefix + ("/" + call.name);
      Request(MethodUrl(options, token, call.name), if call.params.Undefined? then Obj(map[]) else call.params)
    }
  }

  // ---------------------------------------------------------------- reply

  /** What a reply handler returns: a reply intent, or any other value. */
  datatype HandlerResult = Typed(reply: Reply) | Bare(value: Value)

  /** What `reply(handler)(payload)` does: invoke one method, reject, or log and do nothing. */
  datatype Outcome = Invoke(call: Call) | Rejected(error: TypeError) | NoReply

  /**
   * The default variant for a bare value: the assignments to `commonResponse` run in the
   * order message, callback query, inline query, so a later present shape wins.
   */
  function Fallback(v: Value, e: Event): (r: Option<Reply>)
    ensures InlineOf(e).Some? ==> r == Some(Inline(v))
    ensures InlineOf(e).None? && CallbackOf(e).Some? ==> r == Some(Callback(v))
    ensures InlineOf(e).None? && CallbackOf(e).None? && MessageOf(e).Some? ==> r == Some(Text(v))
    ensures r.None? <==> InlineOf(e).None? && CallbackOf(e).None? && MessageOf(e).None?
  {
    var afterMessage := if MessageOf(e).Some? then Some(Text(v)) else None;
    var afterCallback := if CallbackOf(e).Some? then Some(Callback(v)) else afterMessage;
    if InlineOf(e).Some? then Some(Inline(v)) else afterCallback
  }

  function FromResolved(c: Result<Call>): Outcome {
    match c
    case Ok(call) => Invoke(call)
    case Err(x) => Rejected(x)
  }

  /**
   * `reply(handler)(payload)` once the handler's value is known: a reply intent is resolved
   * as it is; any other value goes through the fallback; with no shape to fall back on,
   * nothing is invoked.
   */
  function ReplyOutcome(h: HandlerResult, e: Event, lib: Lib): (o: Outcome)
    ensures h.Typed? ==> o == FromResolved(Resolve(h.reply, e, lib))
    ensures h.Bare? && Fallback(h.value, e).Some? ==> o == FromResolved(Resolve(Fallback(h.value, e).value, e, lib))
    ensures o.NoReply? <==> h.Bare? && InlineOf(e).None? && CallbackOf(e).None? && MessageOf(e).None?
  {
    match h
    case Typed(r) => FromResolved(Resolve(r, e, lib))
    case Bare(v) =>
      match Fallback(v, e)
      case Some(r) => FromResolved(Resolve(r, e, lib))
      case None => NoReply
  }

  /**
   * The fallback only ever rejects for an inline query answered with `undefined` or `null`:
   * the shape that selected the text or callback variant is there to be read.
   */
  lemma FallbackRejectsOnlyNullishInline(v: Value, e: Event, lib: Lib)
    ensures ReplyOutcome(Bare(v), e, lib).Rejected? <==> InlineOf(e).Some? && (v.Undefined? || v.Null?)
  {
  }

  /** A bare value for a message (and nothing else) becomes a `sendMessage` to its chat. */
  lemma FallbackToText(v: Value, e: Event, lib: Lib)
    requires MessageOf(e).Some? && CallbackOf(e).None? && InlineOf(e).None?
    ensures ReplyOutcome(Bare(v), e, lib) ==
      Invoke(Call("sendMessage", Obj(map["chat_id" := Num(MessageOf(e).value.chat.id), "text" := v])))
  {
    TextResolution(v, e, lib);
  }

  /**
   * The shape filters `callbacks()` and `inlineQueries()` select the updates whose bare
   * handler values `reply` answers as a callback and as an inline query: an inline query
   * wins, and a callback query wins over a message.
   */
  lemma ShapeFiltersSelectFallback(v: Value, u: Update)
    ensures Filters.InlineQueriesFilter(u) ==> Fallback(v, FromUpdate(u)) == Some(Inline(v))
    ensures Filters.CallbacksFilter(u) && !Filters.InlineQueriesFilter(u) ==>
              Fallback(v, FromUpdate(u)) == Some(Callback(v))
    ensures !Filters.CallbacksFilter(u) && !Filters.InlineQueriesFilter(u) ==>
              (Fallback(v, FromUpdate(u)).Some? <==> u.message.Some?)
  {
  }
}
