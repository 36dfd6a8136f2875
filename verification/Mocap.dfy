/** Mocap arbitration: the deliberately selected stream silences the fallback streams for a while. */
module Mocap {
  import opened Bytes
  import opened Options
  import opened TopicStore
  import opened Strings

  /** A received sample: which handler it came to, what the contract check and the payload read gave, and its key. */
  datatype Received = Received(requireContract: bool, contractMatches: bool, payload: Sample, readOk: bool,
                               key: Option<string>)

  const SELECTED: string := "/selected/"

  /** key_contains: a null key contains nothing. */
  method KeyContains(key: Option<string>, needle: string) returns (found: bool)
    ensures found <==> key.Some? && Contains(key.value, needle)
  {
    if key.None? || |key.value| < |needle| {
      return false;
    }
    var i := 0;
    while i + |needle| <= |key.value|
      invariant forall j: nat :: j < i ==> !OccursAt(key.value, needle, j)
    {
      if key.value[i..i + |needle|] == needle {
        assert OccursAt(key.value, needle, i);
        return true;
      }
      i := i + 1;
    }
    return false;
  }

  /** Survives the contract, size and read checks. */
  predicate Checked(s: Received, capacity: nat) {
    && (s.requireContract ==> s.contractMatches)
    && |s.payload| <= capacity
    && s.readOk
  }

  /** Anything but the all-0xff tracking-lost header. */
  predicate Plausible(payload: Sample) {
    |payload| >= 4 && payload[..4] != [0xff, 0xff, 0xff, 0xff]
  }

  /** The mark of a lost track is four bytes 0xff at the head; any other head of four bytes is plausible. */
  lemma LostTrackIsImplausible(payload: Sample)
    ensures Plausible(payload) <==> exists i :: 0 <= i < 4 <= |payload| && payload[i] != 0xff
  {
    if |payload| >= 4 && forall i :: 0 <= i < 4 ==> payload[i] == 0xff {
      assert payload[..4] == [0xff, 0xff, 0xff, 0xff];
    }
    if |payload| >= 4 && payload[..4] == [0xff, 0xff, 0xff, 0xff] {
      assert forall i :: 0 <= i < 4 ==> payload[i] == payload[..4][i];
    }
  }

  predicate Selected(s: Received) {
    s.key.Some? && Contains(s.key.value, "/selected/")
  }

  /** A plausible sample of the selected stream restarts the hold. */
  predicate Pick(s: Received, capacity: nat) {
    Checked(s, capacity) && Selected(s) && Plausible(s.payload)
  }

  predicate Fallback(s: Received, capacity: nat) {
    Checked(s, capacity) && !Selected(s)
  }

  predicate NoPick(stream: seq<Received>, capacity: nat) {
    forall i :: 0 <= i < |stream| ==> !Pick(stream[i], capacity)
  }

  function Fallbacks(stream: seq<Received>, capacity: nat): nat {
    if stream == [] then 0
    else Fallbacks(stream[..|stream| - 1], capacity) + (if Fallback(stream[|stream| - 1], capacity) then 1 else 0)
  }

  function Picks(stream: seq<Received>, capacity: nat): nat {
    if stream == [] then 0
    else Picks(stream[..|stream| - 1], capacity) + (if Pick(stream[|stream| - 1], capacity) then 1 else 0)
  }

  /** A fallback is suppressed: a pick came before it, and fewer than `hold` fallbacks since the latest one. */
  ghost predicate Suppressing(stream: seq<Received>, capacity: nat, hold: int) {
    exists p :: 0 <= p < |stream| && LatestPick(stream, capacity, p) && Fallbacks(stream[p + 1..], capacity) < hold
  }

  ghost predicate LatestPick(stream: seq<Received>, capacity: nat, p: nat)
    requires p < |stream|
  {
    Pick(stream[p], capacity) && NoPick(stream[p + 1..], capacity)
  }

  ghost predicate Dropped(stream: seq<Received>, s: Received, capacity: nat, hold: int) {
    Fallback(s, capacity) && Suppressing(stream, capacity, hold)
  }

  /** The handler's static counter after a whole stream. */
  function Counter(stream: seq<Received>, capacity: nat, hold: int): int {
    if stream == [] then 0
    else
      var s, before := stream[|stream| - 1], Counter(stream[..|stream| - 1], capacity, hold);
      if Pick(s, capacity) then hold
      else if Fallback(s, capacity) && before > 0 then before - 1
      else before
  }

  lemma CounterStep(stream: seq<Received>, s: Received, capacity: nat, hold: int)
    ensures
      var before, after := Counter(stream, capacity, hold), Counter(stream + [s], capacity, hold);
      after == (if Pick(s, capacity) then hold else if Fallback(s, capacity) && before > 0 then before - 1 else before)
  {
    assert (stream + [s])[..|stream|] == stream;
  }

  /** What is left of the hold when every fallback since the pick has used up one. */
  function Left(hold: int, used: nat): int {
    if hold <= 0 then hold else if used < hold then hold - used else 0
  }

  lemma {:induction false} CounterAfterPick(stream: seq<Received>, capacity: nat, hold: int, p: nat)
    requires p < |stream| && LatestPick(stream, capacity, p)
    ensures Counter(stream, capacity, hold) == Left(hold, Fallbacks(stream[p + 1..], capacity))
    decreases |stream|
  {
    var n := |stream| - 1;
    if p < n {
      var shorter := stream[..n];
      assert shorter[p + 1..] == stream[p + 1..][..n - p - 1];
      assert stream[p + 1..][n - p - 1] == stream[n];
      CounterAfterPick(shorter, capacity, hold, p);
    } else {
      assert stream[p + 1..] == [];
    }
  }

  lemma {:induction false} CounterWithoutPick(stream: seq<Received>, capacity: nat, hold: int)
    requires NoPick(stream, capacity)
    ensures Counter(stream, capacity, hold) == 0
  {
    if stream != [] {
      CounterWithoutPick(stream[..|stream| - 1], capacity, hold);
    }
  }

  lemma {:induction false} FindLatestPick(stream: seq<Received>, capacity: nat) returns (p: nat)
    requires !NoPick(stream, capacity)
    ensures p < |stream| && LatestPick(stream, capacity, p)
  {
    var n := |stream| - 1;
    if Pick(stream[n], capacity) {
      p := n;
    } else {
      p := FindLatestPick(stream[..n], capacity);
      assert stream[p + 1..] == stream[..n][p + 1..] + [stream[n]];
    }
  }

  /** Over every stream, the counter is positive exactly when the history says a fallback is to be suppressed. */
  lemma CounterMeansSuppressing(stream: seq<Received>, capacity: nat, hold: int)
    ensures Counter(stream, capacity, hold) > 0 <==> Suppressing(stream, capacity, hold)
  {
    if NoPick(stream, capacity) {
      CounterWithoutPick(stream, capacity, hold);
    } else {
      var p := FindLatestPick(stream, capacity);
      CounterAfterPick(stream, capacity, hold, p);
      if Suppressing(stream, capacity, hold) {
        var q :| 0 <= q < |stream| && LatestPick(stream, capacity, q) && Fallbacks(stream[q + 1..], capacity) < hold;
        CounterAfterPick(stream, capacity, hold, q);
      }
    }
  }

  ghost function Drops(stream: seq<Received>, capacity: nat, hold: int): nat {
    if stream == [] then 0
    else
      var before := stream[..|stream| - 1];
      Drops(before, capacity, hold) + (if Dropped(before, stream[|stream| - 1], capacity, hold) then 1 else 0)
  }

  function Times(hold: int, picks: nat): nat {
    if picks == 0 || hold <= 0 then 0 else hold + Times(hold, picks - 1)
  }

  lemma {:induction false} DropsUseUpTheHold(stream: seq<Received>, capacity: nat, hold: int)
    ensures var counter := Counter(stream, capacity, hold);
            Drops(stream, capacity, hold) + (if counter > 0 then counter else 0) <= Times(hold, Picks(stream, capacity))
  {
    if stream != [] {
      var before := stream[..|stream| - 1];
      DropsUseUpTheHold(before, capacity, hold);
      CounterMeansSuppressing(before, capacity, hold);
      hide Suppressing;
    }
  }

  lemma {:induction false} TimesIsProduct(hold: int, picks: nat)
    ensures Times(hold, picks) == (if hold <= 0 then 0 else hold * picks)
  {
    if picks > 0 && hold > 0 {
      TimesIsProduct(hold, picks - 1);
      assert hold * picks == hold * (picks - 1) + hold;
    }
  }

  /** Over every stream, at most `hold` fallbacks are dropped for each plausible selected sample. */
  lemma DropsAreBounded(stream: seq<Received>, capacity: nat, hold: nat)
    ensures Drops(stream, capacity, hold) <= hold * Picks(stream, capacity)
  {
    DropsUseUpTheHold(stream, capacity, hold);
    TimesIsProduct(hold, Picks(stream, capacity));
  }

  class Arbiter {
    const hold: int
    const bufSize: nat
    const topic: Topic
    var suppressFallback: int
    ghost var stream: seq<Received>

    ghost predicate Valid()
      reads this, topic, topic.slots, topic.lengths
    {
      topic.Valid() && suppressFallback == Counter(stream, Capacity(), hold)
    }

    function Capacity(): nat {
      if bufSize < topic.maxSize then bufSize else topic.maxSize
    }

    constructor (hold: int, bufSize: nat, topic: Topic)
      requires topic.Valid()
      ensures Valid() && stream == [] && this.hold == hold && this.bufSize == bufSize && this.topic == topic
    {
      this.hold, this.bufSize, this.topic := hold, bufSize, topic;
      suppressFallback := 0;
      stream := [];
    }

    /** mocap_input_handler_common: what reaches the topic is decided by the whole stream so far. */
    method Handle(s: Received) returns (passed: bool)
      requires Valid()
      modifies this, topic`generation, topic`history, topic.slots, topic.lengths
      ensures Valid() && stream == old(stream) + [s]
      ensures passed <==> Checked(s, Capacity()) && !Dropped(old(stream), s, Capacity(), hold)
      ensures Checked(s, Capacity()) && Selected(s) ==> passed
      ensures topic.history == old(topic.history) + (if passed && s.payload != [] then [s.payload] else [])
    {
      CounterMeansSuppressing(stream, Capacity(), hold);
      CounterStep(stream, s, Capacity(), hold);
      hide Counter, Suppressing, Contains;
      stream := stream + [s];
      if s.requireContract && !s.contractMatches {
        return false;
      }
      if |s.payload| > Capacity() {
        return false;
      }
      if !s.readOk {
        return false;
      }
      var buf := s.payload;
      var plausible := |buf| >= 4 && !(buf[0] == 0xff && buf[1] == 0xff && buf[2] == 0xff && buf[3] == 0xff);
      assert plausible <==> Plausible(buf);
      var selected := KeyContains(s.key, SELECTED);
      if selected {
        if plausible {
          suppressFallback := hold;
        }
      } else if suppressFallback > 0 {
        suppressFallback := suppressFallback - 1;
        return false;
      }
      var _ := topic.Publish(buf);
      passed := true;
    }
  }
}
