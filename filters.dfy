/**
 * The stateless update predicates `filters.*` of src/index.js. A JavaScript filter returns a
 * value that Bacon's `filter` reads for truthiness; each predicate here is that truthiness.
 */
module Filters {
  import opened Prelude
  import opened Updates

  /** `s` occurs in `text` starting at index `j`. */
  predicate OccursAt(text: string, s: string, j: int) {
    0 <= j && j + |s| <= |text| && text[j..j + |s|] == s
  }

  /**
   * The search of `String.prototype.indexOf`, continued from `j`: the first occurrence at or
   * after `j`, or -1. The source only searches from 0, so JavaScript's clamping of a start
   * beyond the text plays no part.
   */
  function IndexFrom(text: string, s: string, j: nat): (r: int)
    ensures r == -1 || (j <= r && OccursAt(text, s, r))
    ensures r == -1 ==> forall k :: j <= k ==> !OccursAt(text, s, k)
    ensures r != -1 ==> forall k :: j <= k < r ==> !OccursAt(text, s, k)
    decreases |text| - j
  {
    if j + |s| > |text| then -1
    else if text[j..j + |s|] == s then j
    else IndexFrom(text, s, j + 1)
  }

  function IndexOf(text: string, s: string): int {
    IndexFrom(text, s, 0)
  }

  /** The message text, with `message = {}` and `text = ''` as the defaults. */
  function TextOf(u: Update): string {
    match u.message
    case None => ""
    case Some(m) => m.text.GetOr("")
  }

  /** The message entities, with `entities = []` as the default. */
  function EntitiesOf(u: Update): seq<Entity> {
    match u.message
    case None => []
    case Some(m) => m.entities.GetOr([])
  }

  /** `filters.text(string)`: `~text.indexOf(string)` is truthy exactly when the index is not -1. */
  predicate TextFilter(pattern: string, u: Update) {
    IndexOf(TextOf(u), pattern) != -1
  }

  /** The text filter holds exactly when the pattern is a substring of the message text. */
  lemma TextFilterIsSubstring(pattern: string, u: Update)
    ensures TextFilter(pattern, u) <==> exists j :: OccursAt(TextOf(u), pattern, j)
  {
    var r := IndexOf(TextOf(u), pattern);
    if r != -1 {
      assert OccursAt(TextOf(u), pattern, r);
    }
  }

  /** An empty pattern matches every update; an update without a message matches only it. */
  lemma TextFilterEdgeCases(pattern: string, u: Update)
    ensures TextFilter("", u)
    ensures u.message.None? ==> (TextFilter(pattern, u) <==> pattern == "")
  {
    assert OccursAt(TextOf(u), "", 0);
    TextFilterIsSubstring("", u);
    TextFilterIsSubstring(pattern, u);
  }

  /** An entity the command filter considers: `type === 'bot_command' && !offset`. */
  predicate IsCommandAtStart(e: Entity) {
    e.kind == "bot_command" && e.offset == 0
  }

  /** The first entity that is a bot command at offset 0, as `entities.filter(...)[0]` picks it. */
  function FirstCommandAtStart(es: seq<Entity>): (r: Option<Entity>)
    ensures r.None? <==> forall i :: 0 <= i < |es| ==> !IsCommandAtStart(es[i])
    ensures r.Some? ==> exists i :: 0 <= i < |es| && es[i] == r.value && IsCommandAtStart(es[i])
                                    && forall j :: 0 <= j < i ==> !IsCommandAtStart(es[j])
  {
    if es == [] then None
    else if IsCommandAtStart(es[0]) then Some(es[0])
    else
      var r := FirstCommandAtStart(es[1..]);
      assert r.Some? ==> exists i :: 0 <= i < |es| && es[i] == r.value && IsCommandAtStart(es[i])
                                     && forall j :: 0 <= j < i ==> !IsCommandAtStart(es[j]) by {
        if r.Some? {
          var i :| 0 <= i < |es[1..]| && es[1..][i] == r.value && IsCommandAtStart(es[1..][i])
                   && forall j :: 0 <= j < i ==> !IsCommandAtStart(es[1..][j]);
          assert es[i + 1] == r.value;
          assert forall j :: 1 <= j < i + 1 ==> !IsCommandAtStart(es[j]) by {
            forall j | 1 <= j < i + 1 ensures !IsCommandAtStart(es[j]) { assert es[j] == es[1..][j - 1]; }
          }
        }
      }
      r
  }

  function Min(a: int, b: int): int { if a < b then a else b }
  function Max(a: int, b: int): int { if a < b then b else a }

  /** `String.prototype.substr(start, length)`. */
  function Substr(s: string, start: int, length: int): (r: string)
    ensures |r| <= |s|
  {
    var b := if start < 0 then Max(|s| + start, 0) else Min(start, |s|);
    var e := Min(b + Max(length, 0), |s|);
    s[b..e]
  }

  /** The first `n` characters of `s`, as many as there are. */
  function Take(s: string, n: int): string {
    s[..Min(Max(n, 0), |s|)]
  }

  /** `filters.command(name)`. */
  predicate CommandFilter(name: string, u: Update) {
    match FirstCommandAtStart(EntitiesOf(u))
    case None => false
    case Some(e) => Substr(TextOf(u), e.offset, e.length) == "/" + name
  }

  /**
   * The command filter holds exactly when there is a first bot-command entity at offset 0
   * and the text it covers is `/` followed by the name.
   */
  lemma CommandFilterSpec(name: string, u: Update)
    ensures CommandFilter(name, u) <==>
      exists i :: 0 <= i < |EntitiesOf(u)| && IsCommandAtStart(EntitiesOf(u)[i])
                  && (forall j :: 0 <= j < i ==> !IsCommandAtStart(EntitiesOf(u)[j]))
                  && Take(TextOf(u), EntitiesOf(u)[i].length) == "/" + name
  {
    var es := EntitiesOf(u);
    var r := FirstCommandAtStart(es);
    if r.Some? {
      var i :| 0 <= i < |es| && es[i] == r.value && IsCommandAtStart(es[i])
               && forall j :: 0 <= j < i ==> !IsCommandAtStart(es[j]);
      forall i' | 0 <= i' < |es| && IsCommandAtStart(es[i']) && (forall j :: 0 <= j < i' ==> !IsCommandAtStart(es[j]))
        ensures i' == i
      {
      }
      assert Substr(TextOf(u), es[i].offset, es[i].length) == Take(TextOf(u), es[i].length);
    }
  }

  /** A matching command means there is a message whose text starts with `/name`. */
  lemma CommandNeedsMessagePrefix(name: string, u: Update)
    requires CommandFilter(name, u)
    ensures u.message.Some?
    ensures |name| + 1 <= |TextOf(u)| && TextOf(u)[..|name| + 1] == "/" + name
  {
    var e := FirstCommandAtStart(EntitiesOf(u)).value;
    var t := Substr(TextOf(u), 0, e.length);
    assert t == TextOf(u)[..|t|];
  }

  /** Bot-command entities that do not start at offset 0 never make the filter match. */
  lemma CommandNotAtStartNeverMatches(name: string, u: Update)
    requires forall i :: 0 <= i < |EntitiesOf(u)| && EntitiesOf(u)[i].kind == "bot_command" ==> EntitiesOf(u)[i].offset != 0
    ensures !CommandFilter(name, u)
  {
  }

  /** Text "/start@botname extra" with a bot-command entity of length 6 at offset 0. */
  function StartExample(): Update {
    Update(1, Some(Message(1, Chat(1), Some("/start@botname extra"), Some([Entity("bot_command", 0, 6)]))), None, None)
  }

  /** On that message the filter for "start" holds and the filter for "help" does not. */
  lemma CommandFilterExample()
    ensures CommandFilter("start", StartExample())
    ensures !CommandFilter("help", StartExample())
  {
    var t := "/start@botname extra";
    assert t[0..6] == "/start";
  }

  /** `filters.callbacks()`: the callback query itself, truthy when present. */
  predicate CallbacksFilter(u: Update) {
    u.callbackQuery.Some?
  }

  /** `filters.inlineQueries()`: the inline query itself, truthy when present. */
  predicate InlineQueriesFilter(u: Update) {
    u.inlineQuery.Some?
  }

  /** `filters.game(shortName)`: `callback_query.game_short_name === shortName`, with `callback_query = {}`. */
  predicate GameFilter(shortName: string, u: Update) {
    var cq := u.callbackQuery;
    cq.Some? && cq.value.gameShortName == Some(shortName)
  }

  /** Two commands that both match are the same: the first command's text is only one of them. */
  lemma CommandsExclusive(a: string, b: string, u: Update)
    ensures CommandFilter(a, u) && CommandFilter(b, u) ==> a == b
  {
    if CommandFilter(a, u) && CommandFilter(b, u) {
      assert a == ("/" + a)[1..] && b == ("/" + b)[1..];
    }
  }

  /** A game match implies a callback query is present. */
  lemma GameFilterNeedsCallback(shortName: string, u: Update)
    ensures GameFilter(shortName, u) ==> CallbacksFilter(u)
  {
  }
}
