/** Observed traffic: counters per topic and a five-second window of arrival times, pruned on every observation. */
module TrafficWindow {
  import opened Options

  const WINDOW_MS: nat := 5_000

  datatype TopicStats = TopicStats(topic: string, rootType: Option<string>, messages: nat, bytes: nat,
                                   lastPayloadBytes: nat, lastSeenMs: nat, recent: seq<nat>)

  datatype Observation = Observation(at: nat, payloadLen: nat, rootType: Option<string>)

  function SaturatingSub(a: nat, b: nat): nat { if a < b then 0 else a - b }

  /** Pops from the front while the oldest arrival is out of the window. */
  function PopOld(recent: seq<nat>, now: nat): seq<nat> {
    if recent != [] && SaturatingSub(now, recent[0]) > WINDOW_MS then PopOld(recent[1..], now) else recent
  }

  function Created(topic: string, o: Observation): TopicStats {
    TopicStats(topic, o.rootType, 0, 0, 0, o.at, [])
  }

  /** One observation, on the entry made for the topic's first one. */
  function Observed(stats: TopicStats, o: Observation): TopicStats {
    TopicStats(stats.topic,
               if stats.rootType.None? then o.rootType else stats.rootType,
               stats.messages + 1,
               stats.bytes + o.payloadLen,
               o.payloadLen,
               o.at,
               PopOld(stats.recent + [o.at], o.at))
  }

  function After(topic: string, history: seq<Observation>): TopicStats
    requires history != []
  {
    var n := |history| - 1;
    Observed(if n == 0 then Created(topic, history[0]) else After(topic, history[..n]), history[n])
  }

  predicate Nondecreasing(history: seq<Observation>) {
    forall i, j :: 0 <= i < j < |history| ==> history[i].at <= history[j].at
  }

  predicate Sorted(times: seq<nat>) {
    forall i, j :: 0 <= i < j < |times| ==> times[i] <= times[j]
  }

  function Times(history: seq<Observation>): (times: seq<nat>)
    ensures |times| == |history| && forall i :: 0 <= i < |times| ==> times[i] == history[i].at
  {
    seq(|history|, i requires 0 <= i < |history| => history[i].at)
  }

  /** The times within the window that ends at `now`, in order. */
  function Within(times: seq<nat>, now: nat): seq<nat> {
    if times == [] then []
    else
      var before, t := Within(times[..|times| - 1], now), times[|times| - 1];
      if now <= t + 5_000 then before + [t] else before
  }

  function TotalBytes(history: seq<Observation>): nat {
    if history == [] then 0 else TotalBytes(history[..|history| - 1]) + history[|history| - 1].payloadLen
  }

  /** The first root type that an observation named. */
  function FirstRootType(history: seq<Observation>): Option<string> {
    if history == [] then None
    else if history[0].rootType.Some? then history[0].rootType
    else FirstRootType(history[1..])
  }

  lemma {:induction false} WithinOfAppend(a: seq<nat>, b: seq<nat>, now: nat)
    ensures Within(a + b, now) == Within(a, now) + Within(b, now)
  {
    if b == [] {
      assert a + b == a;
    } else {
      assert (a + b)[..|a + b| - 1] == a + b[..|b| - 1];
      WithinOfAppend(a, b[..|b| - 1], now);
    }
  }

  lemma {:induction false} AllWithin(times: seq<nat>, now: nat)
    requires forall i :: 0 <= i < |times| ==> now <= times[i] + 5_000
    ensures Within(times, now) == times
  {
    if times != [] {
      AllWithin(times[..|times| - 1], now);
    }
  }

  /** On sorted times, popping old ones from the front is filtering. */
  lemma {:induction false} PopOldIsFilter(times: seq<nat>, now: nat)
    requires Sorted(times)
    ensures PopOld(times, now) == Within(times, now)
  {
    if times == [] {
    } else if SaturatingSub(now, times[0]) > WINDOW_MS {
      PopOldIsFilter(times[1..], now);
      assert times == times[..1] + times[1..];
      WithinOfAppend(times[..1], times[1..], now);
      assert Within(times[..1], now) == [];
    } else {
      AllWithin(times, now);
    }
  }

  lemma SortedLast(before: seq<nat>, last: nat)
    requires Sorted(before + [last])
    ensures Sorted(before) && forall t :: t in before ==> t <= last
  {
    var times := before + [last];
    assert forall i :: 0 <= i < |before| ==> times[i] == before[i];
    assert times[|before|] == last;
    forall t | t in before
      ensures t <= last
    {
      var i :| 0 <= i < |before| && before[i] == t;
      assert times[i] <= times[|before|];
    }
  }

  lemma SortedAppend(before: seq<nat>, last: nat)
    requires Sorted(before) && forall t :: t in before ==> t <= last
    ensures Sorted(before + [last])
  {
    assert forall i :: 0 <= i < |before| ==> before[i] in before;
  }

  lemma {:induction false} WithinIsSorted(times: seq<nat>, now: nat)
    requires Sorted(times)
    ensures Sorted(Within(times, now))
    ensures forall t :: t in Within(times, now) ==> t in times
  {
    if times != [] {
      var before, last := times[..|times| - 1], times[|times| - 1];
      assert times == before + [last];
      SortedLast(before, last);
      WithinIsSorted(before, now);
      SortedAppend(Within(before, now), last);
      hide Sorted;
    }
  }

  /** A later window of what an earlier window kept is a later window of everything. */
  lemma {:induction false} WithinWithin(times: seq<nat>, now: nat, later: nat)
    requires now <= later
    ensures Within(Within(times, now), later) == Within(times, later)
  {
    if times != [] {
      var before, t := times[..|times| - 1], times[|times| - 1];
      WithinWithin(before, now, later);
      WithinOfAppend(Within(before, now), [t], later);
    }
  }

  lemma {:induction false} FirstRootTypeOfAppend(history: seq<Observation>, o: Observation)
    ensures FirstRootType(history + [o]) ==
            if FirstRootType(history).Some? then FirstRootType(history) else o.rootType
  {
    if history == [] {
      assert history + [o] == [o];
      assert [o][1..] == [];
    } else {
      assert (history + [o])[1..] == history[1..] + [o];
      FirstRootTypeOfAppend(history[1..], o);
    }
  }

  lemma WindowStep(before: seq<nat>, earlier: nat, now: nat)
    requires Sorted(before + [now]) && earlier <= now
    ensures PopOld(Within(before, earlier) + [now], now) == Within(before + [now], now)
  {
    SortedLast(before, now);
    WithinIsSorted(before, earlier);
    SortedAppend(Within(before, earlier), now);
    PopOldIsFilter(Within(before, earlier) + [now], now);
    WithinOfAppend(Within(before, earlier), [now], now);
    WithinWithin(before, earlier, now);
    WithinOfAppend(before, [now], now);
  }

  /** The entry holds the history's last five seconds, its count and sum, and the first root type it named. */
  ghost predicate Summarizes(stats: TopicStats, topic: string, history: seq<Observation>)
    requires history != []
  {
    var last := history[|history| - 1];
    && stats.topic == topic
    && stats.recent == Within(Times(history), last.at)
    && stats.messages == |history|
    && stats.bytes == TotalBytes(history)
    && stats.rootType == FirstRootType(history)
    && stats.lastSeenMs == last.at && stats.lastPayloadBytes == last.payloadLen
  }

  /**
   * For every nondecreasing sequence of observations, the pruned window is the full history filtered to
   * the last five seconds, the counters are the history's count and sum, and the root type is the first
   * one named.
   */
  lemma {:induction false} WindowIsFilterOfHistory(topic: string, history: seq<Observation>)
    requires history != [] && Nondecreasing(history)
    ensures Summarizes(After(topic, history), topic, history)
  {
    var n := |history| - 1;
    var before, last := history[..n], history[n];
    assert history == before + [last];
    assert Nondecreasing(before);
    hide After, Summarizes, Nondecreasing;
    if before != [] {
      WindowIsFilterOfHistory(topic, before);
    }
    SummaryStep(topic, before, last);
  }

  lemma AfterOfAppend(topic: string, before: seq<Observation>, o: Observation)
    ensures After(topic, before + [o]) == Observed(if before == [] then Created(topic, o) else After(topic, before), o)
  {
    assert (before + [o])[..|before|] == before;
    hide Observed, Created;
  }

  lemma SummaryStep(topic: string, before: seq<Observation>, last: Observation)
    requires Nondecreasing(before + [last])
    requires before != [] ==> Summarizes(After(topic, before), topic, before)
    ensures Summarizes(After(topic, before + [last]), topic, before + [last])
  {
    AfterOfAppend(topic, before, last);
    TimesOfAppend(before, last);
    FirstRootTypeOfAppend(before, last);
    assert (before + [last])[..|before|] == before;
    assert TotalBytes(before + [last]) == TotalBytes(before) + last.payloadLen;
    if before == [] {
      FirstWindow(last.at);
      assert [] + [last.at] == [last.at];
      hide After, Within, PopOld, Sorted, Times, TotalBytes, FirstRootType;
    } else {
      WindowStep(Times(before), before[|before| - 1].at, last.at);
      hide After, Within, PopOld, Sorted, Times, TotalBytes, FirstRootType;
    }
  }

  lemma TimesOfAppend(before: seq<Observation>, last: Observation)
    requires Nondecreasing(before + [last])
    ensures Times(before + [last]) == Times(before) + [last.at]
    ensures Sorted(Times(before) + [last.at])
  {
  }

  lemma FirstWindow(now: nat)
    ensures PopOld([now], now) == Within([now], now) == [now]
  {
  }
}
