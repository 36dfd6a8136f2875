/** The two warning throttles: per topic with a zero sentinel in C, per key with pruning in Rust. */
module Throttles {
  import opened Options
  import opened ValueContract

  const INTERVAL_MS: int := 10000

  /** Ten seconds in the clock's nanoseconds. */
  const INTERVAL_NS: int := 10_000_000_000

  function Max(a: int, b: int): int { if a >= b then a else b }

  ghost predicate Spaced(times: seq<int>, gap: int) {
    forall i, j :: 0 <= i < j < |times| ==> times[j] - times[i] >= gap
  }

  /** What the topic remembers of its warnings: zero before the first, never zero again. */
  function Remembered(warnings: seq<int>): int {
    if warnings == [] then 0 else Max(warnings[|warnings| - 1], 1)
  }

  lemma SpacedAppend(times: seq<int>, now: int, gap: int)
    requires Spaced(times, gap) && gap >= 0 && (times != [] ==> now - times[|times| - 1] >= gap)
    ensures Spaced(times + [now], gap)
  {
  }

  /** The rejections that C warns about, of a sequence of rejection times. */
  function Warnings(rejections: seq<int>): seq<int> {
    if rejections == [] then []
    else
      var before, now := Warnings(rejections[..|rejections| - 1]), rejections[|rejections| - 1];
      if Remembered(before) == 0 || now - Remembered(before) >= INTERVAL_MS then before + [now] else before
  }

  /**
   * Any two warnings of a topic are at least 10000 ms apart, whatever the rejection times, and once one
   * was given the zero sentinel never comes back.
   */
  lemma {:induction false} WarningsAreSpaced(rejections: seq<int>)
    ensures Spaced(Warnings(rejections), 10_000)
    ensures Remembered(Warnings(rejections)) == 0 <==> rejections == []
  {
    if rejections != [] {
      var before := rejections[..|rejections| - 1];
      WarningsAreSpaced(before);
      if Remembered(Warnings(before)) == 0 || rejections[|before|] - Remembered(Warnings(before)) >= INTERVAL_MS {
        SpacedAppend(Warnings(before), rejections[|before|], INTERVAL_MS);
      }
    }
  }

  /** No warning was given in the ten seconds before, the time of a warning taken as at least 1. */
  predicate WarningDue(warnings: seq<int>, now: int) {
    forall i :: 0 <= i < |warnings| ==> now - Max(warnings[i], 1) >= 10_000
  }

  /** A rejection is warned about exactly when that is due: the last warning, which C remembers, speaks for all. */
  lemma WarnedExactlyWhenDue(before: seq<int>, now: int)
    ensures Warnings(before + [now]) == Warnings(before) + (if WarningDue(Warnings(before), now) then [now] else [])
  {
    var warnings := Warnings(before);
    assert (before + [now])[..|before|] == before;
    WarningsAreSpaced(before);
    if warnings != [] {
      var n := |warnings| - 1;
      assert forall i :: 0 <= i < n ==> warnings[i] <= warnings[n];
    }
  }

  /**
   * Every rejection is itself warned about, or comes less than ten seconds after a warning given before it,
   * that warning's time taken as at least 1; and warnings once given stay given.
   */
  lemma {:induction false} EveryRejectionIsCovered(rejections: seq<int>, i: nat)
    requires i < |rejections|
    ensures Warnings(rejections[..i]) <= Warnings(rejections)
    ensures rejections[i] in Warnings(rejections)
            || exists j :: 0 <= j < |Warnings(rejections[..i])|
                           && rejections[i] - Max(Warnings(rejections[..i])[j], 1) < 10_000
  {
    var n := |rejections| - 1;
    var before := rejections[..n];
    assert rejections == before + [rejections[n]];
    WarnedExactlyWhenDue(before, rejections[n]);
    if i < n {
      assert before[..i] == rejections[..i];
      EveryRejectionIsCovered(before, i);
    }
  }

  class TopicGate {
    const contract: Option<Contract>
    var lastContractWarningMs: int
    ghost var rejections: seq<int>

    ghost predicate Valid()
      reads this
    {
      lastContractWarningMs == Remembered(Warnings(rejections))
    }

    /** The expected contract is that of the topic's catalog entry. */
    constructor (fixedLayout: bool, wireType: Option<string>, hash: Option<string>)
      ensures Valid() && contract == ContractOf(fixedLayout, wireType, hash) && rejections == []
    {
      contract := ContractOf(fixedLayout, wireType, hash);
      lastContractWarningMs := 0;
      rejections := [];
    }

    /** sample_contract_matches: a mismatch is a rejection, and the rejections decide the warnings. */
    method SampleContractMatches(received: Option<string>, now: int) returns (matches: bool, warned: bool)
      requires Valid()
      modifies this
      ensures Valid()
      ensures matches <==> SampleMatches(received, contract)
      ensures rejections == old(rejections) + (if matches then [] else [now])
      ensures Warnings(rejections) == Warnings(old(rejections)) + (if warned then [now] else [])
      ensures warned <==> !matches && WarningDue(Warnings(old(rejections)), now)
    {
      matches, warned := false, false;
      if contract.Some? && |contract.value.Text()| < CONTRACT_MAX && received.Some? {
        matches := Matches(received.value, contract.value.Text());
      }
      if !matches {
        WarnedExactlyWhenDue(rejections, now);
        rejections := rejections + [now];
        assert rejections[..|rejections| - 1] == old(rejections);
        if lastContractWarningMs == 0 || now - lastContractWarningMs >= INTERVAL_MS {
          warned := true;
          lastContractWarningMs := Max(now, 1);
        }
      }
    }
  }

  datatype Event = Event(key: string, at: int)

  predicate Nondecreasing(events: seq<Event>) {
    forall i, j :: 0 <= i < j < |events| ==> events[i].at <= events[j].at
  }

  /** The rule without any pruning: warn unless the same key was warned about in the last ten seconds. */
  predicate Due(warned: seq<Event>, e: Event) {
    forall i :: 0 <= i < |warned| && warned[i].key == e.key ==> e.at - warned[i].at >= 10_000_000_000
  }

  function Unpruned(events: seq<Event>): seq<Event> {
    if events == [] then []
    else
      var before, e := Unpruned(events[..|events| - 1]), events[|events| - 1];
      if Due(before, e) then before + [e] else before
  }

  /** Instant::duration_since, which is zero for a later instant. */
  function Since(now: int, last: int): int {
    if now < last then 0 else now - last
  }

  function Retained(lastWarning: map<string, int>, now: int): map<string, int> {
    map key | key in lastWarning && Since(now, lastWarning[key]) < INTERVAL_NS :: lastWarning[key]
  }

  predicate ShouldWarn(lastWarning: map<string, int>, e: Event) {
    var kept := Retained(lastWarning, e.at);
    e.key !in kept || Since(e.at, kept[e.key]) >= INTERVAL_NS
  }

  /** The map remembers enough of the warnings given up to `now`: every recent one, and nothing else. */
  ghost predicate Tracks(lastWarning: map<string, int>, warned: seq<Event>, now: int) {
    && (forall key :: key in lastWarning ==> Event(key, lastWarning[key]) in warned)
    && (forall i :: 0 <= i < |warned| && now - warned[i].at < INTERVAL_NS ==>
          warned[i].key in lastWarning && lastWarning[warned[i].key] >= warned[i].at)
    && (forall i :: 0 <= i < |warned| ==> warned[i].at <= now)
  }

  lemma TracksLater(lastWarning: map<string, int>, warned: seq<Event>, now: int, later: int)
    requires Tracks(lastWarning, warned, now) && now <= later
    ensures Tracks(Retained(lastWarning, later), warned, later)
  {
  }

  /** Evicting old entries of every key does not change the decision. */
  lemma PruningIsHarmless(lastWarning: map<string, int>, warned: seq<Event>, now: int, e: Event)
    requires Tracks(lastWarning, warned, now) && now <= e.at
    ensures ShouldWarn(lastWarning, e) <==> Due(warned, e)
  {
    if e.key in Retained(lastWarning, e.at) {
      var i :| 0 <= i < |warned| && warned[i] == Event(e.key, lastWarning[e.key]);
      assert e.at - warned[i].at < INTERVAL_NS;
    }
  }

  lemma TracksWarning(lastWarning: map<string, int>, warned: seq<Event>, e: Event)
    requires Tracks(lastWarning, warned, e.at)
    ensures Tracks(lastWarning[e.key := e.at], warned + [e], e.at)
  {
    assert (warned + [e])[|warned|] == e;
    forall key | key in lastWarning && key != e.key
      ensures Event(key, lastWarning[key]) in warned + [e]
    {
      assert Event(key, lastWarning[key]) in warned;
    }
  }

  /** The map and the warnings after a whole sequence of rejections, as the struct goes through them. */
  function Pruned(events: seq<Event>): (map<string, int>, seq<Event>) {
    if events == [] then (map[], [])
    else
      var e, (lastWarning, warned) := events[|events| - 1], Pruned(events[..|events| - 1]);
      var kept := Retained(lastWarning, e.at);
      if ShouldWarn(lastWarning, e) then (kept[e.key := e.at], warned + [e]) else (kept, warned)
  }

  lemma {:induction false} PrunedTracks(events: seq<Event>, now: int)
    requires Nondecreasing(events) && (events != [] ==> events[|events| - 1].at <= now)
    ensures Pruned(events).1 == Unpruned(events)
    ensures Tracks(Retained(Pruned(events).0, now), Unpruned(events), now)
  {
    if events != [] {
      var before, e := events[..|events| - 1], events[|events| - 1];
      var earlier := if before == [] then e.at else before[|before| - 1].at;
      PrunedTracks(before, earlier);
      PrunedStep(before, e, earlier);
      TracksLater(Pruned(events).0, Unpruned(events), e.at, now);
    }
  }

  lemma PrunedStep(before: seq<Event>, e: Event, earlier: int)
    requires Pruned(before).1 == Unpruned(before) && earlier <= e.at
    requires Tracks(Retained(Pruned(before).0, earlier), Unpruned(before), earlier)
    ensures Pruned(before + [e]).1 == Unpruned(before + [e])
    ensures Tracks(Pruned(before + [e]).0, Unpruned(before + [e]), e.at)
  {
    hide Tracks, Due;
    var lastWarning, warned := Pruned(before).0, Unpruned(before);
    assert (before + [e])[..|before|] == before;
    assert Retained(Retained(lastWarning, earlier), e.at) == Retained(lastWarning, e.at);
    PruningIsHarmless(Retained(lastWarning, earlier), warned, earlier, e);
    TracksLater(Retained(lastWarning, earlier), warned, earlier, e.at);
    if Due(warned, e) {
      TracksWarning(Retained(lastWarning, e.at), warned, e);
    }
  }

  /** Under a nondecreasing clock the pruning throttle warns exactly when the unpruned rule says so. */
  lemma PrunedEqualsUnpruned(events: seq<Event>)
    requires Nondecreasing(events)
    ensures Pruned(events).1 == Unpruned(events)
  {
    if events != [] {
      PrunedTracks(events, events[|events| - 1].at);
    }
  }

  class ContractWarningThrottle {
    var lastWarning: map<string, int>
    ghost var warned: seq<Event>
    ghost var clock: int

    ghost predicate Valid()
      reads this
    {
      Tracks(lastWarning, warned, clock)
    }

    constructor ()
      ensures Valid() && warned == []
    {
      lastWarning := map[];
      warned := [];
      clock := 0;
    }

    /** warn: a message for the key exactly when it had none in the last ten seconds. */
    method Warn(key: string, now: int) returns (emitted: bool)
      requires Valid() && clock <= now
      modifies this
      ensures Valid() && clock == now
      ensures emitted <==> Due(old(warned), Event(key, now))
      ensures warned == old(warned) + (if emitted then [Event(key, now)] else [])
      ensures
        var kept := Retained(old(lastWarning), now);
        lastWarning == if emitted then kept[key := now] else kept
    {
      PruningIsHarmless(lastWarning, warned, clock, Event(key, now));
      TracksLater(lastWarning, warned, clock, now);
      lastWarning := Retained(lastWarning, now);
      clock := now;
      emitted := key !in lastWarning || Since(now, lastWarning[key]) >= INTERVAL_NS;
      if emitted {
        TracksWarning(lastWarning, warned, Event(key, now));
        lastWarning := lastWarning[key := now];
        warned := warned + [Event(key, now)];
      }
    }
  }
}
