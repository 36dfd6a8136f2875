/**
 * The polling loops that carry a topic away: put_topic_if_updated (Zenoh), tx_topic_if_updated (UDP)
 * and copy_csyn_topic (zros consumers). Each reads the generation first and copies later, so the
 * generation it records may be older than the sample it delivers. The poller is reader 0 of the
 * byte-wise store protocol; the publisher and every other reader interleave with it freely.
 */
module Pollers {
  import opened Bytes
  import opened TopicStore
  import Store = StoreProtocol

  /** UDP and the zros consumers count an attempt as delivery, Zenoh only a successful put. */
  datatype Transport = Udp | Zenoh | Consumer

  /** `at` is the number of publishes completed when `gen` was loaded. */
  datatype Pc = Between | Loaded(gen: nat, at: nat) | Copying(gen: nat, at: nat)

  /** A delivered sample, with the publish counts at the two generation loads of its copy. */
  datatype Delivery = Delivery(sample: Sample, at: nat, end: nat)

  /**
   * `last` is the recorded generation and `lastAt` the publish count it stands for. `sent` holds the deliveries
   * of all sessions, the current one's from `sessionStart` on; `highest` is the newest count any session recorded.
   */
  datatype State = State(store: Store.State, transport: Transport, bufSize: nat, pc: Pc, last: nat, lastAt: nat,
                         sent: seq<Delivery>, sessionStart: nat, highest: nat, restarts: nat, completed: nat)
  {
    predicate WellFormed() {
      store.WellFormed() && |store.readers| >= 1
    }

    function Published(): nat { |store.history| }

    /** The newest publish delivered by any session. */
    function NewestAt(): nat {
      if sent == [] then 0 else sent[|sent| - 1].at
    }

    /** The newest publish delivered in this session. */
    function DeliveredAt(): nat {
      if |sent| <= sessionStart then 0 else NewestAt()
    }
  }

  datatype Action =
    | Other(step: Store.Action)
    | LoadGeneration
    | BeginCopy
    | Finish(putOk: bool)
    | NewSession

  /** A step of the publisher, of another reader, or of the copy in progress; calls by reader 0 are the poller's. */
  predicate Foreign(a: Store.Action) {
    !(a.Call? && a.r == 0)
  }

  function Init(maxSize: nat, readers: nat, transport: Transport, bufSize: nat): State
    requires readers >= 1
  {
    State(Store.Init(maxSize, readers), transport, bufSize, Between, 0, 0, [], 0, 0, 0, 0)
  }

  function Step(s: State, a: Action): (t: State)
    requires s.WellFormed()
    ensures t.WellFormed() && s.store.history <= t.store.history
    ensures t.transport == s.transport && t.bufSize == s.bufSize && t.store.mem.maxSize == s.store.mem.maxSize
    ensures s.completed <= t.completed
  {
    match a
    case Other(step) =>
      if Foreign(step) then s.(store := Store.Step(s.store, step)) else s
    case LoadGeneration =>
      var gen := s.store.mem.generation;
      if !s.pc.Between? then s
      else if gen == 0 || gen == s.last then s.(completed := s.completed + 1)
      else s.(pc := Loaded(gen, s.Published()))
    case BeginCopy =>
      if s.pc.Loaded? then
        s.(store := Store.Step(s.store, Store.Call(0, seq(s.bufSize, _ => 0 as byte))),
           pc := Copying(s.pc.gen, s.pc.at))
      else s
    case Finish(putOk) =>
      var copy := s.store.readers[0];
      if !s.pc.Copying? || copy.pc.InCall() || copy.pc.Outside? then s
      else if copy.pc.Returned? && copy.pc.length <= |copy.buf| && (putOk || !s.transport.Zenoh?) then
        s.(pc := Between, last := s.pc.gen, lastAt := s.pc.at, highest := s.pc.at, completed := s.completed + 1,
           sent := s.sent + [Delivery(copy.buf[..copy.pc.length], copy.pc.at, copy.pc.end)])
      else s.(pc := Between)
    case NewSession =>
      if s.pc.Between? && s.transport.Zenoh? then
        s.(last := 0, lastAt := 0, sessionStart := |s.sent|, restarts := s.restarts + 1)
      else s
  }

  function Run(s: State, actions: seq<Action>): (t: State)
    requires s.WellFormed()
    ensures t.WellFormed() && s.store.history <= t.store.history
    ensures t.transport == s.transport && t.bufSize == s.bufSize && t.store.mem.maxSize == s.store.mem.maxSize
    ensures s.completed <= t.completed
    decreases |actions|
  {
    if actions == [] then s else Run(Step(s, actions[0]), actions[1..])
  }

  /** A delivery is a publish, whole, provided the generation did not go all the way round during its copy. */
  ghost predicate Faithful(d: Delivery, history: seq<Sample>) {
    && 1 <= d.at <= d.end <= |history|
    && (d.end - d.at < U32_LIMIT ==> d.end == d.at && d.sample == history[d.at - 1])
  }

  ghost predicate InOrder(sent: seq<Delivery>) {
    forall i, j :: 0 <= i < j < |sent| ==> sent[i].at <= sent[j].at
  }

  /**
   * Within a session every delivery records a newer count; after a restart the latest sample may go out once
   * more, until the session has recorded the highest count again.
   */
  ghost predicate SentIsBounded(s: State) {
    && s.sessionStart <= |s.sent| <= s.sessionStart + s.lastAt
    && |s.sent| <= s.highest + s.restarts
    && (s.lastAt < s.highest ==> |s.sent| < s.highest + s.restarts)
  }

  ghost predicate Inv(s: State) {
    && s.WellFormed()
    && Store.Inv(s.store)
    && s.last == s.lastAt % U32_LIMIT
    && s.lastAt <= s.DeliveredAt()
    && s.lastAt <= s.highest <= s.NewestAt() <= s.store.readers[0].latest
    && SentIsBounded(s)
    && InOrder(s.sent)
    && (forall i :: 0 <= i < |s.sent| ==> Faithful(s.sent[i], s.store.history))
    && (!s.pc.Between? ==>
          && s.pc.gen == s.pc.at % U32_LIMIT
          && s.lastAt < s.pc.at <= s.Published()
          && s.highest <= s.pc.at)
    && (s.pc.Copying? ==> !s.store.readers[0].pc.Outside? && s.pc.at <= s.store.readers[0].entry)
    && (!s.pc.Copying? ==> !s.store.readers[0].pc.InCall())
  }

  lemma OtherKeepsInv(s: State, step: Store.Action)
    requires Inv(s) && Foreign(step)
    ensures Inv(Step(s, Other(step)))
  {
    Store.StepKeepsInv(s.store, step);
    var t := Step(s, Other(step));
    assert s.store.readers[0].latest <= t.store.readers[0].latest;
  }

  lemma BeginCopyKeepsInv(s: State)
    requires Inv(s)
    ensures Inv(Step(s, BeginCopy))
  {
    Store.StepKeepsInv(s.store, Store.Call(0, seq(s.bufSize, _ => 0 as byte)));
  }

  lemma FinishKeepsInv(s: State, putOk: bool)
    requires Inv(s)
    ensures Inv(Step(s, Finish(putOk)))
  {
    var t := Step(s, Finish(putOk));
    var copy := s.store.readers[0];
    assert Store.ReaderInv(s.store.history, s.store.mem.maxSize, copy);
    assert t.store == s.store;
    if |t.sent| > |s.sent| {
      var d := t.sent[|s.sent|];
      assert Faithful(d, s.store.history);
      assert s.NewestAt() <= d.at;
      assert forall i :: 0 <= i < |s.sent| ==> t.sent[i] == s.sent[i];
      assert forall i :: 0 <= i < |s.sent| ==> s.sent[i].at <= s.sent[|s.sent| - 1].at;
    }
  }

  lemma StepKeepsInv(s: State, a: Action)
    requires Inv(s)
    ensures Inv(Step(s, a))
  {
    match a
    case Other(step) =>
      if Foreign(step) {
        OtherKeepsInv(s, step);
      }
    case LoadGeneration =>
      assert Store.ReaderInv(s.store.history, s.store.mem.maxSize, s.store.readers[0]);
      hide Store.Inv, InOrder, Faithful;
      assert Step(s, a).store == s.store;
    case BeginCopy =>
      BeginCopyKeepsInv(s);
    case Finish(putOk) =>
      FinishKeepsInv(s, putOk);
    case NewSession =>
      assert Step(s, a).store == s.store;
  }

  lemma InitInv(maxSize: nat, readers: nat, transport: Transport, bufSize: nat)
    requires readers >= 1
    ensures Inv(Init(maxSize, readers, transport, bufSize))
  {
    Store.InitInv(maxSize, readers);
  }

  lemma {:induction false} RunKeepsInv(s: State, actions: seq<Action>)
    requires Inv(s)
    ensures Inv(Run(s, actions))
    decreases |actions|
  {
    if actions != [] {
      StepKeepsInv(s, actions[0]);
      RunKeepsInv(Step(s, actions[0]), actions[1..]);
    }
  }

  /**
   * Over every run, across all sessions: what is recorded never runs ahead of what was delivered, nor that
   * ahead of what was published; deliveries never go back, are whole publishes, are never more than the
   * publishes in one session, and never more than the publishes and the restarts in all, nor under Zenoh than
   * the successful puts.
   */
  lemma DeliveriesAreSafe(maxSize: nat, readers: nat, transport: Transport, bufSize: nat, actions: seq<Action>)
    requires readers >= 1
    ensures
      var s := Run(Init(maxSize, readers, transport, bufSize), actions);
      && s.last == s.lastAt % U32_LIMIT
      && s.lastAt <= s.DeliveredAt() <= s.NewestAt() <= s.Published()
      && s.sessionStart <= |s.sent| <= s.sessionStart + s.Published()
      && |s.sent| <= s.Published() + s.restarts
      && (transport.Zenoh? ==> |s.sent| <= Puts(actions))
      && InOrder(s.sent)
      && forall i :: 0 <= i < |s.sent| ==> Faithful(s.sent[i], s.store.history)
  {
    InitInv(maxSize, readers, transport, bufSize);
    RunKeepsInv(Init(maxSize, readers, transport, bufSize), actions);
    if transport.Zenoh? {
      DeliveriesArePuts(Init(maxSize, readers, transport, bufSize), actions);
    }
    DeliveredIsPublished(Run(Init(maxSize, readers, transport, bufSize), actions));
  }

  /** The poll takes no notice: no sample yet, or the recorded generation is the current one modulo 2^32. */
  predicate LooksUnchanged(s: State) {
    s.Published() % U32_LIMIT == 0 || s.Published() % U32_LIMIT == s.last
  }

  /** The latest publish is recorded, or a poll that begins now sees that it is not. */
  predicate Noticed(s: State) {
    s.lastAt == s.Published() || !LooksUnchanged(s)
  }

  lemma FewPublishesAreNoticed(s: State)
    requires Inv(s) && s.Published() < U32_LIMIT
    ensures Noticed(s)
  {
    assert s.last == s.lastAt % U32_LIMIT;
    DeliveredIsPublished(s);
    hide Inv;
  }

  /** Between polls, and the next one would take no notice. */
  ghost predicate Quiet(s: State) {
    Inv(s) && s.pc.Between? && LooksUnchanged(s)
  }

  lemma QuietStep(s: State, a: Action)
    requires Quiet(s) && !a.NewSession? && Step(s, a).Published() == s.Published()
    ensures Quiet(Step(s, a)) && Step(s, a).sent == s.sent
    ensures Step(s, a).lastAt == s.lastAt && Step(s, a).sessionStart == s.sessionStart
  {
    StepKeepsInv(s, a);
    assert s.store.mem.generation == s.Published() % U32_LIMIT;
  }

  /** While polls take no notice, nothing is delivered or recorded until the next publish completes. */
  lemma {:induction false} NothingMoreToDeliver(s: State, actions: seq<Action>)
    requires Quiet(s) && NewSession !in actions && Run(s, actions).Published() == s.Published()
    ensures Quiet(Run(s, actions)) && Run(s, actions).sent == s.sent
    ensures Run(s, actions).lastAt == s.lastAt && Run(s, actions).sessionStart == s.sessionStart
    decreases |actions|
  {
    if actions != [] {
      var t := Step(s, actions[0]);
      assert Run(s, actions) == Run(t, actions[1..]);
      assert !actions[0].NewSession?;
      QuietStep(s, actions[0]);
      hide Step, Quiet;
      NothingMoreToDeliver(t, actions[1..]);
    }
  }

  /** No publish completed since the counts were taken at `n`, and polls begun since then record it. */
  ghost predicate Quiescent(s: State, n: nat, completed: nat) {
    && Inv(s)
    && s.Published() == n
    && Noticed(s)
    && (!s.pc.Between? ==> s.pc.at == n)
    && (s.completed > completed ==> s.lastAt == n)
  }

  lemma QuiescentStep(s: State, a: Action, n: nat, completed: nat)
    requires Quiescent(s, n, completed) && !a.NewSession?
    requires Step(s, a).Published() == n
    ensures Quiescent(Step(s, a), n, completed)
  {
    StepKeepsInv(s, a);
    assert s.store.mem.generation == n % U32_LIMIT;
    hide Store.Inv, Store.Step, InOrder, Faithful, SentIsBounded;
    var t := Step(s, a);
    match a
    case Other(_) =>
      assert t == s.(store := t.store);
    case BeginCopy =>
      assert t == s.(store := t.store, pc := t.pc);
    case LoadGeneration =>
      assert t == s.(completed := t.completed, pc := t.pc);
    case Finish(_) =>
      assert t.store == s.store;
  }

  lemma {:induction false} QuiescentRun(s: State, actions: seq<Action>, n: nat, completed: nat)
    requires Quiescent(s, n, completed) && NewSession !in actions
    requires Run(s, actions).Published() == n
    ensures Quiescent(Run(s, actions), n, completed)
    decreases |actions|
  {
    if actions != [] {
      var t := Step(s, actions[0]);
      assert Run(s, actions) == Run(t, actions[1..]);
      QuiescentStep(s, actions[0], n, completed);
      QuiescentRun(t, actions[1..], n, completed);
    }
  }

  lemma LatestIsWhole(t: State)
    requires Inv(t) && t.Published() > 0 && t.DeliveredAt() == t.Published()
    ensures t.sent != [] && t.sent[|t.sent| - 1].sample == t.store.history[t.Published() - 1]
  {
    assert Faithful(t.sent[|t.sent| - 1], t.store.history);
  }

  /** A poll begun and completed since the last publish leaves nothing for the next one to notice. */
  lemma PollLeavesQuiet(s: State, actions: seq<Action>)
    requires Inv(s) && s.pc.Between?
    requires NewSession !in actions && Run(s, actions).store.history == s.store.history
    requires Run(s, actions).completed > s.completed
    ensures Quiet(Run(s, actions))
    ensures Run(s, actions).lastAt == s.Published() <==> Noticed(s)
    ensures !Noticed(s) ==> Run(s, actions).sent == s.sent && Run(s, actions).sessionStart == s.sessionStart
  {
    if Noticed(s) {
      QuiescentRun(s, actions, s.Published(), s.completed);
    } else {
      NothingMoreToDeliver(s, actions);
    }
  }

  /**
   * No lost latest sample: after publishing stops, one poll that begins and completes, whatever else
   * interleaves, records the latest publish exactly when the generation does not merely look recorded; then
   * the other end has it whole. Below 2^32 publishes it always is so.
   */
  lemma PollAfterQuiescenceDeliversLatest(s: State, actions: seq<Action>, t: State)
    requires Inv(s) && s.pc.Between? && s.Published() > 0
    requires t == Run(s, actions) && t.store.history == s.store.history && t.completed > s.completed
    requires NewSession !in actions
    ensures t.lastAt == s.Published() <==> Noticed(s)
    ensures t.DeliveredAt() == s.Published() <==> s.DeliveredAt() == s.Published() || Noticed(s)
    ensures t.DeliveredAt() == s.Published() ==>
              t.sent != [] && t.sent[|t.sent| - 1].sample == s.store.history[s.Published() - 1]
    ensures s.Published() < U32_LIMIT ==> t.lastAt == t.DeliveredAt() == s.Published()
  {
    hide Run, Inv, Noticed, LooksUnchanged;
    PollLeavesQuiet(s, actions);
    RecordedIsDelivered(s, t);
    if t.DeliveredAt() == s.Published() {
      LatestIsWhole(t);
    }
  }

  lemma RecordedIsDelivered(s: State, t: State)
    requires Inv(s) && Inv(t) && t.Published() == s.Published()
    requires t.lastAt == s.Published() <==> Noticed(s)
    requires !Noticed(s) ==> t.sent == s.sent && t.sessionStart == s.sessionStart
    ensures t.DeliveredAt() == s.Published() <==> s.DeliveredAt() == s.Published() || Noticed(s)
    ensures s.Published() < U32_LIMIT ==> t.lastAt == t.DeliveredAt() == s.Published()
  {
    DeliveredIsPublished(s);
    DeliveredIsPublished(t);
    if s.Published() < U32_LIMIT {
      FewPublishesAreNoticed(s);
    }
    hide Inv, Noticed;
  }

  lemma DeliveredIsPublished(s: State)
    requires Inv(s)
    ensures s.lastAt <= s.DeliveredAt() <= s.NewestAt() <= s.Published()
  {
    assert Store.ReaderInv(s.store.history, s.store.mem.maxSize, s.store.readers[0]);
    hide Store.Inv, InOrder, Faithful, SentIsBounded;
  }

  /** After that poll, later ones deliver nothing until the next publish completes or a session starts. */
  lemma LaterPollsDeliverNothing(s: State, actions: seq<Action>, t: State, later: seq<Action>, u: State)
    requires Inv(s) && s.pc.Between?
    requires t == Run(s, actions) && t.store.history == s.store.history && t.completed > s.completed
    requires u == Run(t, later) && u.store.history == s.store.history
    requires NewSession !in actions && NewSession !in later
    ensures u.sent == t.sent && u.lastAt == t.lastAt
  {
    hide Run, Inv;
    PollLeavesQuiet(s, actions);
    NothingMoreToDeliver(t, later);
  }

  /** The steps of one whole poll whose copy moves n bytes; those that its branches skip do nothing. */
  function PollActions(n: nat, putOk: bool): seq<Action> {
    [LoadGeneration] + ([BeginCopy] + (Lift(CopyRest(n)) + [Finish(putOk)]))
  }

  function CopyRest(n: nat): seq<Store.Action> {
    ([Store.LoadGeneration(0)] + [Store.LoadLength(0)]) + (Store.CopyFrom(0, 0, n) + [Store.ReloadGeneration(0)])
  }

  function Lift(steps: seq<Store.Action>): seq<Action> {
    if steps == [] then [] else [Other(steps[0])] + Lift(steps[1..])
  }

  predicate AllForeign(steps: seq<Store.Action>) {
    forall i :: 0 <= i < |steps| ==> Foreign(steps[i])
  }

  lemma RunCons(s: State, a: Action, rest: seq<Action>)
    requires s.WellFormed()
    ensures Run(s, [a] + rest) == Run(Step(s, a), rest)
  {
    assert ([a] + rest)[1..] == rest;
  }

  lemma RunNone(s: State)
    requires s.WellFormed()
    ensures Run(s, []) == s
  {
  }

  lemma {:induction false} RunAppend(s: State, a: seq<Action>, b: seq<Action>)
    requires s.WellFormed()
    ensures Run(s, a + b) == Run(Run(s, a), b)
    decreases |a|
  {
    if a == [] {
      assert a + b == b;
    } else {
      assert (a + b)[1..] == a[1..] + b;
      RunAppend(Step(s, a[0]), a[1..], b);
    }
  }

  /** Store steps lifted to the poller's system only move the store. */
  lemma {:induction false} LiftRuns(s: State, steps: seq<Store.Action>)
    requires s.WellFormed() && AllForeign(steps)
    ensures Run(s, Lift(steps)) == s.(store := Store.Run(s.store, steps))
    decreases |steps|
  {
    if steps != [] {
      assert Foreign(steps[0]);
      var t := Step(s, Other(steps[0]));
      assert t == s.(store := Store.Step(s.store, steps[0]));
      LiftRuns(t, steps[1..]);
      assert Lift(steps)[1..] == Lift(steps[1..]);
    }
  }

  lemma {:induction false} CopyFromIsForeign(from: nat, n: nat)
    ensures AllForeign(Store.CopyFrom(0, from, n))
    decreases n - from
  {
    if from < n {
      CopyFromIsForeign(from + 1, n);
    }
  }

  lemma CopyRestIsForeign(n: nat)
    ensures AllForeign(CopyRest(n))
  {
    CopyFromIsForeign(0, n);
  }

  /** Outside a call, the steps of a copy do nothing. */
  lemma CopyRestStutters(s: Store.State, n: nat)
    requires s.WellFormed() && |s.readers| >= 1 && !s.readers[0].pc.InCall()
    ensures Store.Run(s, CopyRest(n)) == s
  {
    assert Store.Step(s, Store.LoadGeneration(0)) == s;
    assert Store.Step(s, Store.LoadLength(0)) == s;
    assert Store.Step(s, Store.ReloadGeneration(0)) == s;
    Store.RunAppend(s, [Store.LoadGeneration(0)] + [Store.LoadLength(0)],
                    Store.CopyFrom(0, 0, n) + [Store.ReloadGeneration(0)]);
    Store.RunCons(s, Store.LoadGeneration(0), [Store.LoadLength(0)]);
    Store.RunOne(s, Store.LoadLength(0));
    Store.RunAppend(s, Store.CopyFrom(0, 0, n), [Store.ReloadGeneration(0)]);
    Store.CopyFromStutters(s, 0, 0, n);
    Store.RunOne(s, Store.ReloadGeneration(0));
  }

  lemma CopyActionsSplit(buf: Sample, n: nat)
    ensures Store.CopyActions(0, buf, n) == [Store.Call(0, buf)] + CopyRest(n)
  {
  }

  lemma PollUnfolds(s: State, n: nat, putOk: bool)
    requires s.WellFormed()
    ensures
      var begun := Step(Step(s, LoadGeneration), BeginCopy);
      Run(s, PollActions(n, putOk)) == Step(begun.(store := Store.Run(begun.store, CopyRest(n))), Finish(putOk))
  {
    var s1 := Step(s, LoadGeneration);
    var s2 := Step(s1, BeginCopy);
    RunCons(s, LoadGeneration, [BeginCopy] + (Lift(CopyRest(n)) + [Finish(putOk)]));
    RunCons(s1, BeginCopy, Lift(CopyRest(n)) + [Finish(putOk)]);
    RunAppend(s2, Lift(CopyRest(n)), [Finish(putOk)]);
    CopyRestIsForeign(n);
    LiftRuns(s2, CopyRest(n));
    RunCons(Run(s2, Lift(CopyRest(n))), Finish(putOk), []);
  }

  lemma UnchangedPollRuns(s: State, n: nat, putOk: bool)
    requires Inv(s) && s.pc.Between? && LooksUnchanged(s)
    ensures Run(s, PollActions(n, putOk)) == s.(completed := s.completed + 1)
  {
    PollUnfolds(s, n, putOk);
    CopyRestStutters(s.store, n);
  }

  /** The copy inside an undisturbed poll brings in the latest publish. */
  lemma PollCopyRuns(store: Store.State, buf: Sample) returns (sample: Sample, copied: Store.State)
    requires Store.Inv(store) && |store.readers| >= 1 && !store.readers[0].pc.InCall()
    requires store.history != [] && |store.history| % U32_LIMIT != 0
    ensures sample == store.history[|store.history| - 1]
    ensures copied == Store.Run(Store.Step(store, Store.Call(0, buf)), CopyRest(|sample|))
    ensures copied == store.(readers := copied.readers) && |copied.readers| == |store.readers|
    ensures var reader := copied.readers[0];
            if |sample| <= |buf|
            then && reader.pc == Store.Returned(|store.history| % U32_LIMIT, |store.history|, |sample|, |store.history|)
                 && |sample| <= |reader.buf| && reader.buf[..|sample|] == sample
            else reader.pc.Refused?
  {
    sample := store.history[|store.history| - 1];
    copied := Store.Run(Store.Step(store, Store.Call(0, buf)), CopyRest(|sample|));
    CopyActionsSplit(buf, |sample|);
    Store.RunCons(store, Store.Call(0, buf), CopyRest(|sample|));
    Store.SoloCopy(store, 0, buf);
    assert Store.ReaderInv(copied.history, copied.mem.maxSize, copied.readers[0]);
  }

  /** Whether handing the sample over counts as delivery: a failed put does not, a failed send does. */
  predicate CountsAsDelivered(transport: Transport, putOk: bool) {
    putOk || !transport.Zenoh?
  }

  lemma ChangedPollRuns(s: State, putOk: bool)
    requires Inv(s) && s.pc.Between? && s.Published() > 0 && !LooksUnchanged(s)
    ensures
      var count := s.Published();
      var sample := s.store.history[count - 1];
      var t := Run(s, PollActions(|sample|, putOk));
      && t.store.history == s.store.history
      && t == (if |sample| <= s.bufSize && CountsAsDelivered(s.transport, putOk)
               then s.(store := t.store, last := count % U32_LIMIT, lastAt := count, highest := count,
                       sent := s.sent + [Delivery(sample, count, count)], completed := s.completed + 1)
               else s.(store := t.store))
  {
    hide Run, Store.Step, Store.Run, InOrder, Faithful;
    var sample, copied := PollCopyRuns(s.store, seq(s.bufSize, _ => 0 as byte));
    PollUnfolds(s, |sample|, putOk);
    assert s.store.mem.generation == s.Published() % U32_LIMIT;
  }

  /** The length of the latest publish, or zero. */
  function LatestLength(s: State): nat {
    if s.Published() == 0 then 0 else |s.store.history[s.Published() - 1]|
  }

  /** What one whole undisturbed poll does, in full. */
  ghost predicate PollOutcome(s: State, putOk: bool, t: State) {
    var count := s.Published();
    if LooksUnchanged(s) then t == s.(completed := s.completed + 1)
    else if LatestLength(s) > s.bufSize || !CountsAsDelivered(s.transport, putOk) then t == s.(store := t.store)
    else
      && count > 0
      && t == s.(store := t.store, last := count % U32_LIMIT, lastAt := count, highest := count,
                 sent := s.sent + [Delivery(s.store.history[count - 1], count, count)], completed := s.completed + 1)
  }

  /**
   * One whole undisturbed poll: with nothing to notice it completes and changes nothing else; a sample that
   * does not fit the buffer, or whose put fails, leaves everything recorded and delivered as it was; any other
   * is delivered whole, and its generation recorded. UDP and the consumers take no notice of `putOk`.
   */
  lemma WholePoll(s: State, putOk: bool, t: State)
    requires Inv(s) && s.pc.Between? && t == Run(s, PollActions(LatestLength(s), putOk))
    ensures Inv(t) && t.store.history == s.store.history && PollOutcome(s, putOk, t)
  {
    hide Inv, Run, PollActions, LooksUnchanged;
    RunKeepsInv(s, PollActions(LatestLength(s), putOk));
    if LooksUnchanged(s) {
      UnchangedPollRuns(s, LatestLength(s), putOk);
    } else {
      ChangeIsPublished(s);
      ChangedPollRuns(s, putOk);
    }
  }

  lemma ChangeIsPublished(s: State)
    requires !LooksUnchanged(s)
    ensures s.Published() > 0
  {
  }

  lemma LooksTheSame(s: State, t: State)
    requires t.store.history == s.store.history && t.last == s.last
    ensures LooksUnchanged(t) == LooksUnchanged(s)
  {
  }

  /**
   * A poll whose put fails loses nothing: the next whole poll with a successful put delivers the latest sample,
   * exactly as it would have without the failure.
   */
  lemma FailedPutIsRetried(s: State, t: State, u: State)
    requires Inv(s) && s.pc.Between? && s.transport.Zenoh?
    requires t == Run(s, PollActions(LatestLength(s), false))
    requires u == Run(t, PollActions(LatestLength(t), true))
    ensures t.last == s.last && t.lastAt == s.lastAt && t.sent == s.sent
    ensures !LooksUnchanged(s) && LatestLength(s) <= s.bufSize ==>
              && s.Published() > 0 && u.lastAt == s.Published()
              && u.sent == s.sent + [Delivery(s.store.history[s.Published() - 1], s.Published(), s.Published())]
  {
    hide Inv, Run, PollActions, LooksUnchanged, LatestLength;
    WholePoll(s, false, t);
    LooksTheSame(s, t);
    SameLatest(s, t);
    WholePoll(t, true, u);
  }

  /** A new session is sent the latest sample again, unless the generation is zero. */
  lemma NewSessionResends(s: State, t: State, u: State)
    requires Inv(s) && s.pc.Between? && s.transport.Zenoh? && 0 < LatestLength(s) <= s.bufSize
    requires t == Step(s, NewSession) && u == Run(t, PollActions(LatestLength(s), true))
    ensures t.DeliveredAt() == 0 && t.restarts == s.restarts + 1
    ensures u.DeliveredAt() == s.Published() <==> s.Published() % U32_LIMIT != 0
    ensures u.DeliveredAt() == s.Published() ==>
              u.sent == s.sent + [Delivery(s.store.history[s.Published() - 1], s.Published(), s.Published())]
  {
    hide Inv, Run, Step, PollActions, LatestLength;
    StepKeepsInv(s, NewSession);
    NewSessionRuns(s);
    SameLatest(s, t);
    WholePoll(t, true, u);
  }

  lemma NewSessionRuns(s: State)
    requires Inv(s) && s.pc.Between? && s.transport.Zenoh?
    ensures Step(s, NewSession) == s.(last := 0, lastAt := 0, sessionStart := |s.sent|, restarts := s.restarts + 1)
  {
  }

  lemma SameLatest(s: State, t: State)
    requires t.store.history == s.store.history
    ensures LatestLength(t) == LatestLength(s) && (LatestLength(s) > 0 ==> s.Published() > 0)
  {
  }

  /** The successful puts among some actions. */
  function Puts(actions: seq<Action>): nat {
    if actions == [] then 0 else (if actions[0] == Finish(true) then 1 else 0) + Puts(actions[1..])
  }

  /** Under Zenoh nothing is delivered but by a successful put. */
  lemma {:induction false} DeliveriesArePuts(s: State, actions: seq<Action>)
    requires s.WellFormed() && s.transport.Zenoh?
    ensures |Run(s, actions).sent| <= |s.sent| + Puts(actions)
    decreases |actions|
  {
    if actions != [] {
      DeliveriesArePuts(Step(s, actions[0]), actions[1..]);
    }
  }

  /**
   * One whole undisturbed poll that counts as delivery, with a large enough buffer, brings the other end up to
   * date exactly when the other end already was, or the generation does not look unchanged. Below 2^32
   * publishes it always succeeds; a count that is a multiple of 2^32, or that far from the recorded one, is missed.
   */
  lemma WholePollDeliversUnlessUnchanged(s: State, putOk: bool, t: State)
    requires Inv(s) && s.pc.Between? && 0 < LatestLength(s) <= s.bufSize && CountsAsDelivered(s.transport, putOk)
    requires t == Run(s, PollActions(LatestLength(s), putOk))
    ensures t.completed == s.completed + 1
    ensures t.lastAt == s.Published() <==> Noticed(s)
    ensures t.DeliveredAt() == s.Published() <==> s.DeliveredAt() == s.Published() || !LooksUnchanged(s)
    ensures s.Published() < U32_LIMIT ==> t.lastAt == t.DeliveredAt() == s.Published()
  {
    hide Run, Inv, PollActions, LooksUnchanged, LatestLength;
    WholePoll(s, putOk, t);
    DeliveredIsPublished(s);
    if s.Published() < U32_LIMIT {
      FewPublishesAreNoticed(s);
    }
    SessionStarted(s);
  }

  lemma SessionStarted(s: State)
    requires Inv(s)
    ensures s.sessionStart <= |s.sent|
    ensures s.lastAt == s.Published() > 0 ==> LooksUnchanged(s)
  {
  }
}
