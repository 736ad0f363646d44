/**
 * The poll loop of `initPolling` in src/index.js as a state machine. Each `getUpdates` round
 * is abstracted to its outcome; the promise chain and the timer become the events
 * "a response arrives", "the timer fires" and "stop is called".
 */
module Polling {
  import opened Prelude
  import opened JsValues
  import opened Updates
  import BotCore

  /**
   * The outcome of one `getUpdates` request: a `result` array of updates; a failed request
   * (a network error or a body that is not JSON), which `.catch(error => [])` turns into no
   * updates; or a JSON body whose `result` is not an array (an error reply such as
   * `{"ok": false, ...}` has none), which makes `updates.forEach` throw past the `.catch`.
   */
  datatype RoundResult = Fetched(updates: seq<Update>) | Failed | NoResult

  /** `.catch(error => [])`: a failed round contributes no updates. */
  function RoundUpdates(r: RoundResult): seq<Update> {
    match r
    case Fetched(us) => us
    case Failed => []
    case NoResult => []
  }

  /** Everything the rounds pass to the sink, round after round, each in its own order. */
  function Emitted(rounds: seq<RoundResult>): seq<Update> {
    if rounds == [] then [] else Emitted(rounds[..|rounds| - 1]) + RoundUpdates(rounds[|rounds| - 1])
  }

  /** The emitted updates of consecutive runs of rounds are concatenated. */
  lemma {:induction false} EmittedAppend(a: seq<RoundResult>, b: seq<RoundResult>)
    ensures Emitted(a + b) == Emitted(a) + Emitted(b)
    decreases |b|
  {
    if b == [] {
      assert a + b == a;
    } else {
      assert (a + b)[..|a + b| - 1] == a + b[..|b| - 1];
      EmittedAppend(a, b[..|b| - 1]);
    }
  }

  /** Failed rounds pass nothing on, wherever they fall among the rounds. */
  lemma FailedRoundsEmitNothing(a: seq<RoundResult>, failures: seq<RoundResult>, b: seq<RoundResult>)
    requires forall i :: 0 <= i < |failures| ==> failures[i].Failed?
    ensures Emitted(a + failures + b) == Emitted(a) + Emitted(b)
  {
    EmittedAppend(a + failures, b);
    EmittedAppend(a, failures);
    OnlyFailures(failures);
  }

  lemma {:induction false} OnlyFailures(failures: seq<RoundResult>)
    requires forall i :: 0 <= i < |failures| ==> failures[i].Failed?
    ensures Emitted(failures) == []
    decreases |failures|
  {
    if failures != [] {
      OnlyFailures(failures[..|failures| - 1]);
    }
  }

  /** The rounds' updates, each fetched round contributing all of its updates in order. */
  lemma EmittedSingle(r: RoundResult)
    ensures Emitted([r]) == RoundUpdates(r)
    ensures r.Fetched? ==> Emitted([r]) == r.updates
  {
    assert [r][..0] == [];
  }

  /** `{timeout: this.options.timeout / 1000}`: the long-poll timeout in whole seconds, when it is one. */
  function PollTimeout(options: map<string, Value>): (t: Option<int>)
    ensures t.Some? <==> Get(options, "timeout").Num? && Get(options, "timeout").n % 1000 == 0
    ensures t.Some? ==> t.value * 1000 == Get(options, "timeout").n
  {
    match Get(options, "timeout")
    case Num(ms) => if ms % 1000 == 0 then Some(ms / 1000) else None
    case _ => None
  }

  /** With the default options the long poll waits 60 seconds. */
  lemma DefaultPollTimeout()
    ensures PollTimeout(BotCore.MergeOptions(map[])) == Some(60)
  {
    assert BotCore.MergeOptions(map[])["timeout"] == Num(60000);
  }

  class Poller {
    /** `isActive`: cleared by `stop`. */
    var isActive: bool
    /** A `setTimeout` is scheduled and not yet fired or cleared. */
    var timerPending: bool
    /** A `getUpdates` request is awaiting its response. */
    var inFlight: bool
    /** The number of `getUpdates` requests issued. */
    var requests: nat
    /** Every update passed to the sink. */
    var emitted: seq<Update>
    /** The promise chain was broken by a throw, so no further round is ever scheduled. */
    var broken: bool
    /** The outcomes of the rounds answered so far. */
    ghost var rounds: seq<RoundResult>

    /**
     * At most one of a request and a timer is outstanding; a timer is only ever pending
     * while active; while active and unbroken, one of them is; a broken chain has neither;
     * it breaks exactly at a round without a `result` array; everything emitted comes from
     * the rounds.
     */
    ghost predicate Valid()
      reads this
    {
      && !(inFlight && timerPending)
      && (timerPending ==> isActive)
      && (isActive && !broken ==> inFlight || timerPending)
      && (broken ==> !inFlight && !timerPending)
      && (broken <==> exists i :: 0 <= i < |rounds| && rounds[i].NoResult?)
      && requests == |rounds| + (if inFlight then 1 else 0)
      && emitted == Emitted(rounds)
    }

    /** Neither a request nor a timer is outstanding, so nothing will restart the loop. */
    predicate Stopped()
      reads this
    {
      !inFlight && !timerPending
    }

    /** Binding the stream starts the first round at once. */
    constructor ()
      ensures Valid()
      ensures isActive && inFlight && !timerPending && !broken
      ensures requests == 1 && emitted == [] && rounds == []
    {
      isActive := true;
      broken := false;
      timerPending := false;
      inFlight := true;
      requests := 1;
      emitted := [];
      rounds := [];
    }

    /**
     * A response to the outstanding request: its updates go to the sink in order, and then
     * the next round is scheduled if the loop is still active; otherwise the chain ends.
     * A response without a `result` array ends the chain while `isActive` stays set.
     */
    method Respond(r: RoundResult)
      requires Valid() && inFlight
      modifies this
      ensures Valid()
      ensures emitted == old(emitted) + RoundUpdates(r)
      ensures rounds == old(rounds) + [r]
      ensures !inFlight && broken == r.NoResult?
      ensures timerPending == (isActive && !r.NoResult?)
      ensures isActive == old(isActive) && requests == old(requests)
      ensures !isActive || r.NoResult? ==> Stopped()
    {
      emitted := emitted + RoundUpdates(r);
      rounds := rounds + [r];
      assert rounds[..|rounds| - 1] == old(rounds);
      assert rounds[|rounds| - 1] == r;
      inFlight := false;
      broken := r.NoResult?;
      timerPending := isActive && !broken;
    }

    /** The interval timer fires: the next `getUpdates` request goes out. */
    method Fire()
      requires Valid() && timerPending
      modifies this
      ensures Valid()
      ensures inFlight && !timerPending && isActive && !broken
      ensures requests == old(requests) + 1
      ensures emitted == old(emitted) && rounds == old(rounds)
    {
      timerPending := false;
      inFlight := true;
      requests := requests + 1;
    }

    /**
     * `stop`: the loop becomes inactive and a pending timer is cleared. A request already in
     * flight is still answered, but no further timer follows it.
     */
    method Stop()
      requires Valid()
      modifies this
      ensures Valid()
      ensures !isActive && !timerPending
      ensures inFlight == old(inFlight) && requests == old(requests) && broken == old(broken)
      ensures emitted == old(emitted) && rounds == old(rounds)
      ensures !inFlight ==> Stopped()
    {
      isActive := false;
      timerPending := false;
    }
  }
}
