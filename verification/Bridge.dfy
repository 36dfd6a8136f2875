/**
 * The outbound path end to end: mirror_tx_if_updated copies the latest zros sample into a csyn topic,
 * whose poller sends it on. zros reads and generations are atomic; everything after is byte-wise.
 */
module Bridge {
  import opened Bytes
  import opened TopicStore
  import Store = StoreProtocol
  import Pollers
  import Registry

  /** `at` counts the zros publishes at the generation load, `msgAt` those at the read. */
  datatype Pc =
    | Idle
    | Loaded(gen: nat, at: nat)
    | Read(gen: nat, at: nat, msg: Sample, msgAt: nat)
    | Publishing(gen: nat, at: nat, msgAt: nat)

  /** `origin` tells for every csyn publish which zros publish it mirrors; `passes` counts completed mirror calls. */
  datatype State = State(zros: seq<Sample>, msgSize: nat, poller: Pollers.State, pc: Pc, last: nat, lastAt: nat,
                         origin: seq<nat>, passes: nat)
  {
    predicate WellFormed() { poller.WellFormed() }

    function MaxSize(): nat { poller.store.mem.maxSize }

    /** The topic accepts messages of this type; csyn_topic_publish refuses any other size. */
    predicate Fits() { 0 < msgSize <= MaxSize() }

    function MirroredAt(): nat {
      if origin == [] then 0 else origin[|origin| - 1]
    }
  }

  datatype Action =
    | ZrosPublish(sample: Sample)
    | LoadZrosGeneration
    | ReadZros(ok: bool)
    | CallPublish
    | Return
    | Poll(step: Pollers.Action)

  /** The bridge is the topic's only publisher. */
  predicate StartsPublish(a: Pollers.Action) {
    a.Other? && a.step.Publish?
  }

  function Init(maxSize: nat, readers: nat, transport: Pollers.Transport, bufSize: nat, msgSize: nat): State
    requires readers >= 1
  {
    State([], msgSize, Pollers.Init(maxSize, readers, transport, bufSize), Idle, 0, 0, [], 0)
  }

  function Step(s: State, a: Action): (t: State)
    requires s.WellFormed()
    ensures t.WellFormed() && t.msgSize == s.msgSize && t.Fits() == s.Fits()
    ensures s.zros <= t.zros && s.poller.store.history <= t.poller.store.history
    ensures s.passes <= t.passes && s.poller.completed <= t.poller.completed
  {
    match a
    case ZrosPublish(sample) =>
      if |sample| == s.msgSize then s.(zros := s.zros + [sample]) else s
    case LoadZrosGeneration =>
      var gen := |s.zros| % U32_LIMIT;
      if !s.pc.Idle? then s
      else if gen == 0 || gen == s.last then s.(passes := s.passes + 1)
      else s.(pc := Loaded(gen, |s.zros|))
    case ReadZros(ok) =>
      if !s.pc.Loaded? then s
      else if ok && s.zros != [] then s.(pc := Read(s.pc.gen, s.pc.at, s.zros[|s.zros| - 1], |s.zros|))
      else s.(pc := Idle)
    case CallPublish =>
      if !s.pc.Read? then s
      else s.(poller := Pollers.Step(s.poller, Pollers.Other(Store.Publish(s.pc.msg))),
              pc := Publishing(s.pc.gen, s.pc.at, s.pc.msgAt))
    case Return =>
      if s.pc.Publishing? && s.poller.store.publisher.Resting? then
        s.(pc := Idle, last := s.pc.gen, lastAt := s.pc.at, passes := s.passes + 1)
      else s
    case Poll(step) =>
      if StartsPublish(step) then s else
      var poller := Pollers.Step(s.poller, step);
      s.(poller := poller,
         origin := if poller.Published() > s.poller.Published() && s.pc.Publishing?
                   then s.origin + [s.pc.msgAt] else s.origin)
  }

  function Run(s: State, actions: seq<Action>): (t: State)
    requires s.WellFormed()
    ensures t.WellFormed() && t.msgSize == s.msgSize && t.Fits() == s.Fits()
    ensures s.zros <= t.zros && s.poller.store.history <= t.poller.store.history
    ensures s.passes <= t.passes && s.poller.completed <= t.poller.completed
    decreases |actions|
  {
    if actions == [] then s else Run(Step(s, actions[0]), actions[1..])
  }

  /** Every csyn publish is a zros sample, mirrored in zros order. */
  ghost predicate Mirrors(s: State) {
    && |s.origin| == |s.poller.store.history|
    && (forall i :: 0 <= i < |s.origin| ==>
          1 <= s.origin[i] <= |s.zros| && s.poller.store.history[i] == s.zros[s.origin[i] - 1])
    && (forall i, j :: 0 <= i < j < |s.origin| ==> s.origin[i] <= s.origin[j])
  }

  ghost predicate PcInv(s: State) {
    var publisher := s.poller.store.publisher;
    && (!s.pc.Idle? ==> s.pc.gen == s.pc.at % U32_LIMIT && s.lastAt < s.pc.at <= |s.zros|)
    && (s.pc.Read? ==>
          s.pc.at <= s.pc.msgAt <= |s.zros| && s.pc.msg == s.zros[s.pc.msgAt - 1] && s.MirroredAt() <= s.pc.msgAt)
    && (s.pc.Publishing? ==> s.pc.at <= s.pc.msgAt <= |s.zros| && s.MirroredAt() <= s.pc.msgAt)
    && (!publisher.Resting? ==> s.pc.Publishing? && publisher.sample == s.zros[s.pc.msgAt - 1])
    && (s.pc.Publishing? && publisher.Resting? && s.Fits() ==> s.MirroredAt() == s.pc.msgAt)
  }

  ghost predicate MirrorInv(s: State) {
    && s.last == s.lastAt % U32_LIMIT
    && s.lastAt <= |s.zros|
    && (forall i :: 0 <= i < |s.zros| ==> |s.zros[i]| == s.msgSize)
    && Mirrors(s)
    && PcInv(s)
    && (s.Fits() ==> s.lastAt <= s.MirroredAt())
    && (!s.Fits() ==> s.origin == [] && s.poller.store.publisher.Resting?)
    && |s.origin| <= (if s.pc.Publishing? && s.poller.store.publisher.Resting? then s.lastAt + 1 else s.lastAt)
  }

  ghost predicate Inv(s: State) {
    s.WellFormed() && Pollers.Inv(s.poller) && MirrorInv(s)
  }

  /** What a step of anybody but the bridge can do to the publish in progress: carry it on, or commit it. */
  lemma PollOnPublisher(p: Pollers.State, step: Pollers.Action)
    requires p.WellFormed() && !StartsPublish(step)
    ensures
      var before, after := p.store, Pollers.Step(p, step).store;
      || (&& after.history == before.history
          && (after.publisher.Resting? <==> before.publisher.Resting?)
          && (!after.publisher.Resting? ==> after.publisher.sample == before.publisher.sample))
      || (&& before.publisher.Committing? && after.publisher.Resting?
          && after.history == before.history + [before.publisher.sample])
  {
  }

  lemma CarriedOnKeepsMirrorInv(s: State, t: State)
    requires s.WellFormed() && MirrorInv(s) && t.WellFormed()
    requires t == s.(poller := t.poller) && t.MaxSize() == s.MaxSize()
    requires
      var before, after := s.poller.store, t.poller.store;
      && after.history == before.history
      && (after.publisher.Resting? <==> before.publisher.Resting?)
      && (!after.publisher.Resting? ==> after.publisher.sample == before.publisher.sample)
    ensures MirrorInv(t)
  {
  }

  lemma CommittedKeepsMirrorInv(s: State, t: State)
    requires s.WellFormed() && MirrorInv(s) && t.WellFormed() && t.MaxSize() == s.MaxSize()
    requires s.pc.Publishing? && t == s.(poller := t.poller, origin := s.origin + [s.pc.msgAt])
    requires
      var before, after := s.poller.store, t.poller.store;
      && before.publisher.Committing? && after.publisher.Resting?
      && after.history == before.history + [before.publisher.sample]
    ensures MirrorInv(t)
  {
    assert forall i :: 0 <= i < |s.origin| ==> s.origin[i] <= s.MirroredAt();
  }

  lemma PollKeepsMirrorInv(s: State, step: Pollers.Action)
    requires s.WellFormed() && MirrorInv(s) && !StartsPublish(step)
    ensures MirrorInv(Step(s, Poll(step)))
  {
    PollOnPublisher(s.poller, step);
    var t := Step(s, Poll(step));
    if t.poller.store.history == s.poller.store.history {
      CarriedOnKeepsMirrorInv(s, t);
    } else {
      CommittedKeepsMirrorInv(s, t);
    }
  }

  lemma CallPublishKeepsMirrorInv(s: State)
    requires s.WellFormed() && MirrorInv(s)
    ensures MirrorInv(Step(s, CallPublish))
  {
    var t := Step(s, CallPublish);
    if s.pc.Read? {
      assert t.poller.store == Store.Step(s.poller.store, Store.Publish(s.pc.msg));
      assert s.poller.store.mem.Accepts(s.pc.msg) <==> s.Fits();
    }
  }

  lemma StepKeepsInv(s: State, a: Action)
    requires Inv(s)
    ensures Inv(Step(s, a))
  {
    match a
    case Poll(step) =>
      if !StartsPublish(step) {
        Pollers.StepKeepsInv(s.poller, step);
        PollKeepsMirrorInv(s, step);
      }
    case CallPublish =>
      if s.pc.Read? {
        Pollers.StepKeepsInv(s.poller, Pollers.Other(Store.Publish(s.pc.msg)));
      }
      CallPublishKeepsMirrorInv(s);
    case _ =>
      assert Step(s, a).poller == s.poller;
      BridgeOnlyKeepsMirrorInv(s, a);
  }

  lemma BridgeOnlyKeepsMirrorInv(s: State, a: Action)
    requires s.WellFormed() && MirrorInv(s) && !a.Poll? && !a.CallPublish?
    ensures MirrorInv(Step(s, a))
  {
    hide Step, MirrorInv;
    match a
    case ZrosPublish(sample) => ZrosPublishKeepsMirrorInv(s, sample);
    case LoadZrosGeneration => LoadKeepsMirrorInv(s);
    case ReadZros(ok) => ReadKeepsMirrorInv(s, ok);
    case Return => ReturnKeepsMirrorInv(s);
  }

  lemma LoadKeepsMirrorInv(s: State)
    requires s.WellFormed() && MirrorInv(s)
    ensures MirrorInv(Step(s, LoadZrosGeneration))
  {
  }

  lemma ReadKeepsMirrorInv(s: State, ok: bool)
    requires s.WellFormed() && MirrorInv(s)
    ensures MirrorInv(Step(s, ReadZros(ok)))
  {
  }

  lemma ReturnKeepsMirrorInv(s: State)
    requires s.WellFormed() && MirrorInv(s)
    ensures MirrorInv(Step(s, Return))
  {
  }

  lemma ZrosPublishKeepsMirrorInv(s: State, sample: Sample)
    requires s.WellFormed() && MirrorInv(s)
    ensures MirrorInv(Step(s, ZrosPublish(sample)))
  {
    var t := Step(s, ZrosPublish(sample));
    assert Mirrors(t);
    hide Mirrors;
  }

  lemma InitInv(maxSize: nat, readers: nat, transport: Pollers.Transport, bufSize: nat, msgSize: nat)
    requires readers >= 1
    ensures Inv(Init(maxSize, readers, transport, bufSize, msgSize))
  {
    Pollers.InitInv(maxSize, readers, transport, bufSize);
  }

  lemma {:induction false} RunKeepsInv(s: State, actions: seq<Action>)
    requires Inv(s)
    ensures Inv(Run(s, actions))
    decreases |actions|
  {
    if actions != [] {
      StepKeepsInv(s, actions[0]);
      RunKeepsInv(Step(s, actions[0]), actions[1..]);
    }
  }

  /**
   * Over every run, the topic only ever carries zros samples, in zros order and no more of them than
   * zros published; and it carries none at all when the message type does not fit the topic, because
   * the refused publish is ignored.
   */
  lemma TopicMirrorsZros(maxSize: nat, readers: nat, transport: Pollers.Transport, bufSize: nat, msgSize: nat,
                         actions: seq<Action>)
    requires readers >= 1
    ensures
      var s := Run(Init(maxSize, readers, transport, bufSize, msgSize), actions);
      && Mirrors(s)
      && |s.poller.store.history| <= |s.zros|
      && (!(0 < msgSize <= maxSize) ==> s.poller.store.history == [])
  {
    InitInv(maxSize, readers, transport, bufSize, msgSize);
    RunKeepsInv(Init(maxSize, readers, transport, bufSize, msgSize), actions);
  }

  /** A mirror call takes no notice: no sample yet, or the recorded generation is the current one modulo 2^32. */
  predicate LooksUnchanged(s: State) {
    |s.zros| % U32_LIMIT == 0 || |s.zros| % U32_LIMIT == s.last
  }

  /** The latest zros publish is recorded, or a mirror call that begins now sees that it is not. */
  predicate Noticed(s: State) {
    s.lastAt == |s.zros| || !LooksUnchanged(s)
  }

  lemma FewPublishesAreNoticed(s: State)
    requires Inv(s) && |s.zros| < U32_LIMIT
    ensures Noticed(s) && Pollers.Noticed(s.poller)
  {
    hide Pollers.Inv, Pollers.LooksUnchanged, Pollers.Noticed;
    assert |s.poller.store.history| <= |s.zros|;
    Pollers.FewPublishesAreNoticed(s.poller);
  }

  /** zros published nothing since its count was `z`, and mirror calls begun since then record it. */
  ghost predicate ZrosStopped(s: State, z: nat, passes: nat) {
    && Inv(s)
    && |s.zros| == z
    && Noticed(s)
    && (!s.pc.Idle? ==> s.pc.at == z)
    && (s.passes > passes ==> s.lastAt == z)
  }

  lemma ZrosStoppedStep(s: State, a: Action, z: nat, passes: nat)
    requires ZrosStopped(s, z, passes) && |Step(s, a).zros| == z
    ensures ZrosStopped(Step(s, a), z, passes)
  {
    StepKeepsInv(s, a);
    assert s.WellFormed();
    hide Inv, MirrorInv, Pollers.Step, Pollers.State.WellFormed;
    var t := Step(s, a);
    match a
    case Poll(_) => assert t == s.(poller := t.poller, origin := t.origin);
    case CallPublish => assert t == s.(poller := t.poller, pc := t.pc);
    case _ =>
  }

  lemma {:induction false} ZrosStoppedRun(s: State, actions: seq<Action>, z: nat, passes: nat)
    requires ZrosStopped(s, z, passes) && |Run(s, actions).zros| == z
    ensures ZrosStopped(Run(s, actions), z, passes)
    decreases |actions|
  {
    if actions != [] {
      var t := Step(s, actions[0]);
      assert Run(s, actions) == Run(t, actions[1..]);
      ZrosStoppedStep(s, actions[0], z, passes);
      ZrosStoppedRun(t, actions[1..], z, passes);
    }
  }

  /** The poller's own view of a run in which the bridge has nothing to mirror. */
  function PollerActions(actions: seq<Action>): seq<Pollers.Action> {
    if actions == [] then []
    else if actions[0].Poll? && !StartsPublish(actions[0].step)
    then [actions[0].step] + PollerActions(actions[1..])
    else PollerActions(actions[1..])
  }

  lemma {:induction false} NoNewSession(actions: seq<Action>)
    requires Poll(Pollers.NewSession) !in actions
    ensures Pollers.NewSession !in PollerActions(actions)
  {
    if actions != [] {
      NoNewSession(actions[1..]);
    }
  }

  /** Between mirror calls, and the next one would take no notice. */
  ghost predicate Quiet(s: State) {
    Inv(s) && s.pc.Idle? && LooksUnchanged(s)
  }

  lemma QuietStep(s: State, a: Action)
    requires Quiet(s) && |Step(s, a).zros| == |s.zros|
    ensures Quiet(Step(s, a)) && Step(s, a).zros == s.zros && Step(s, a).lastAt == s.lastAt
    ensures Step(s, a).poller.store.history == s.poller.store.history
    ensures Step(s, a).poller ==
            if a.Poll? && !StartsPublish(a.step) then Pollers.Step(s.poller, a.step) else s.poller
  {
    StepKeepsInv(s, a);
    if a.Poll? && !StartsPublish(a.step) {
      PollOnPublisher(s.poller, a.step);
    }
  }

  /** Mirror calls that take no notice leave the topic, and the run to the poller alone. */
  lemma {:induction false} QuietRun(s: State, actions: seq<Action>)
    requires Quiet(s) && |Run(s, actions).zros| == |s.zros|
    ensures Quiet(Run(s, actions)) && Run(s, actions).zros == s.zros && Run(s, actions).lastAt == s.lastAt
    ensures Run(s, actions).poller.store.history == s.poller.store.history
    ensures Run(s, actions).poller == Pollers.Run(s.poller, PollerActions(actions))
    decreases |actions|
  {
    if actions != [] {
      var a := actions[0];
      var t := Step(s, a);
      assert Run(s, actions) == Run(t, actions[1..]);
      QuietStep(s, a);
      QuietRun(t, actions[1..]);
      if a.Poll? && !StartsPublish(a.step) {
        Pollers.RunCons(s.poller, a.step, PollerActions(actions[1..]));
      }
    }
  }

  /** The latest zros generation is recorded and no mirror call is under way. */
  ghost predicate Settled(s: State) {
    Inv(s) && s.pc.Idle? && s.lastAt == |s.zros|
  }

  /** What a settled bridge has put in the topic. */
  lemma SettledTopic(t: State)
    requires Settled(t) && t.zros != []
    ensures |t.poller.store.history| <= |t.zros|
    ensures t.Fits() <==> t.poller.store.history != []
    ensures t.Fits() ==> t.poller.store.history[|t.poller.store.history| - 1] == t.zros[|t.zros| - 1]
  {
    if t.Fits() {
      assert t.MirroredAt() == |t.zros|;
    }
  }

  /** The actions take s to t while zros publishes nothing. */
  ghost predicate Reaches(s: State, actions: seq<Action>, t: State) {
    s.WellFormed() && t == Run(s, actions) && t.zros == s.zros
  }

  /**
   * One complete mirror call after zros stopped settles the bridge exactly when the zros generation does not
   * merely look recorded; then the topic holds the latest zros sample if and only if it fits there.
   */
  lemma PassMirrorsLatest(s: State, actions: seq<Action>, t: State)
    requires Inv(s) && s.pc.Idle? && s.zros != []
    requires Reaches(s, actions, t) && t.passes > s.passes && t.pc.Idle?
    ensures Settled(t) <==> Noticed(s)
    ensures Settled(t) ==> (s.Fits() <==> t.poller.store.history != [])
    ensures Settled(t) && s.Fits() ==> t.poller.store.history[|t.poller.store.history| - 1] == s.zros[|s.zros| - 1]
  {
    hide Run, Step, MirrorInv, Pollers.Inv;
    if Noticed(s) {
      ZrosStoppedRun(s, actions, |s.zros|, s.passes);
      SettledTopic(t);
    } else {
      QuietRun(s, actions);
    }
  }

  lemma NothingSent(p: Pollers.State)
    requires Pollers.Inv(p) && p.store.history == []
    ensures p.sent == []
  {
  }

  /**
   * With the bridge settled, one complete poll sends the latest zros sample if and only if it fits, and
   * later mirror calls and polls send nothing more.
   */
  lemma PollSendsLatest(t: State, poll: seq<Action>, u: State)
    requires Settled(t) && t.zros != [] && t.poller.pc.Between? && Pollers.Noticed(t.poller)
    requires Reaches(t, poll, u) && u.poller.completed > t.poller.completed
    requires Poll(Pollers.NewSession) !in poll
    ensures Settled(u) && Pollers.Quiet(u.poller)
    ensures t.Fits() <==> u.poller.sent != []
    ensures u.poller.sent != [] ==> u.poller.sent[|u.poller.sent| - 1].sample == t.zros[|t.zros| - 1]
  {
    hide Inv, Run, Pollers.Inv, Pollers.Run, Pollers.Noticed, Pollers.Quiet;
    var steps := PollerActions(poll);
    SettledIsQuiet(t);
    QuietRun(t, poll);
    NoNewSession(poll);
    SettledTopic(t);
    Pollers.PollLeavesQuiet(t.poller, steps);
    if t.Fits() {
      Pollers.PollAfterQuiescenceDeliversLatest(t.poller, steps, u.poller);
    } else {
      NothingSent(u.poller);
    }
  }

  /** Once settled and polled, nothing is sent until zros publishes again or a session starts. */
  lemma NothingMoreIsSent(u: State, later: seq<Action>, v: State)
    requires Settled(u) && Pollers.Quiet(u.poller)
    requires Reaches(u, later, v) && Poll(Pollers.NewSession) !in later
    ensures v.poller.sent == u.poller.sent
  {
    QuietRun(u, later);
    NoNewSession(later);
    hide Run, Step, Inv, Pollers.Quiet, Pollers.Run;
    Pollers.NothingMoreToDeliver(u.poller, PollerActions(later));
  }

  lemma ReachesKeeps(s: State, actions: seq<Action>, t: State)
    requires Reaches(s, actions, t)
    ensures t.zros == s.zros && t.Fits() == s.Fits()
  {
  }

  lemma BothHops(s: State, mirror: seq<Action>, t: State, poll: seq<Action>, u: State)
    requires Inv(s) && s.pc.Idle? && s.zros != [] && Noticed(s)
    requires Reaches(s, mirror, t) && t.passes > s.passes
    requires t.pc.Idle? && t.poller.pc.Between? && Pollers.Noticed(t.poller)
    requires Reaches(t, poll, u) && u.poller.completed > t.poller.completed
    requires Poll(Pollers.NewSession) !in poll
    ensures Settled(u) && Pollers.Quiet(u.poller)
    ensures s.Fits() <==> u.poller.sent != []
    ensures u.poller.sent != [] ==> u.poller.sent[|u.poller.sent| - 1].sample == s.zros[|s.zros| - 1]
  {
    hide Run, Reaches, Inv, Settled, Noticed, Pollers.Noticed, Pollers.Quiet, State.Fits;
    ReachesKeeps(s, mirror, t);
    PassMirrorsLatest(s, mirror, t);
    PollSendsLatest(t, poll, u);
  }

  /**
   * Two hops: zros stops at s, then one mirror call begins and completes by t, then one poll begins and
   * completes by u. Afterwards the last sample sent is the latest zros sample if and only if the message
   * type fits the topic; if it does not, nothing was ever sent. From u on nothing more is sent.
   */
  lemma TwoHopConvergence(s: State, mirror: seq<Action>, t: State, poll: seq<Action>, u: State,
                          later: seq<Action>, v: State)
    requires Inv(s) && s.pc.Idle? && s.zros != [] && Noticed(s)
    requires Reaches(s, mirror, t) && t.passes > s.passes
    requires t.pc.Idle? && t.poller.pc.Between? && Pollers.Noticed(t.poller)
    requires Reaches(t, poll, u) && u.poller.completed > t.poller.completed
    requires Reaches(u, later, v)
    requires Poll(Pollers.NewSession) !in poll && Poll(Pollers.NewSession) !in later
    ensures 0 < s.msgSize <= s.MaxSize() <==> u.poller.sent != []
    ensures u.poller.sent != [] ==> u.poller.sent[|u.poller.sent| - 1].sample == s.zros[|s.zros| - 1]
    ensures v.poller.sent == u.poller.sent
  {
    hide Run, Reaches, Inv, Settled, Noticed, Pollers.Noticed, Pollers.Quiet;
    BothHops(s, mirror, t, poll, u);
    NothingMoreIsSent(u, later, v);
  }

  /**
   * For every topic csyn_init accepted whose messages have the catalog's fixed layout, and fewer than 2^32
   * zros publishes, the two hops converge.
   */
  lemma CheckedTopicsConverge(info: TopicInfo, s: State, mirror: seq<Action>, t: State, poll: seq<Action>, u: State)
    requires Registry.SizeChecked(info, s.MaxSize()) && info.fixedLayout && s.msgSize == info.payloadSize > 0
    requires Inv(s) && s.pc.Idle? && 0 < |s.zros| < U32_LIMIT
    requires Reaches(s, mirror, t) && t.passes > s.passes
    requires t.pc.Idle? && t.poller.pc.Between?
    requires Reaches(t, poll, u) && u.poller.completed > t.poller.completed
    requires Poll(Pollers.NewSession) !in poll
    ensures u.poller.sent != [] && u.poller.sent[|u.poller.sent| - 1].sample == s.zros[|s.zros| - 1]
  {
    RunKeepsInv(s, mirror);
    FewPublishesAreNoticed(s);
    FewPublishesAreNoticed(t);
    assert Reaches(u, [], u);
    hide Reaches, Run, Inv, Noticed, Pollers.Noticed;
    TwoHopConvergence(s, mirror, t, poll, u, [], u);
  }

  /** Steps of the topic's publisher, which here the bridge drives. */
  function LiftPublish(steps: seq<Store.Action>): seq<Action> {
    if steps == [] then [] else [Poll(Pollers.Other(steps[0]))] + LiftPublish(steps[1..])
  }

  predicate CarryOn(steps: seq<Store.Action>) {
    forall i :: 0 <= i < |steps| ==> steps[i].WriteByte? || steps[i].WriteLength? || steps[i].Commit?
  }

  /** What csyn_topic_publish does after its size check, with n bytes to move. */
  function RestOfPublish(n: nat): seq<Store.Action> {
    Store.WriteFrom(0, n) + [Store.WriteLength, Store.Commit]
  }

  /** The steps of one whole call of mirror_tx_if_updated; those that its branches skip do nothing. */
  function MirrorActions(n: nat, readOk: bool): seq<Action> {
    [LoadZrosGeneration] + ([ReadZros(readOk)] + ([CallPublish] + (LiftPublish(RestOfPublish(n)) + [Return])))
  }

  lemma RunCons(s: State, a: Action, rest: seq<Action>)
    requires s.WellFormed()
    ensures Run(s, [a] + rest) == Run(Step(s, a), rest)
  {
    assert ([a] + rest)[1..] == rest;
  }

  lemma {:induction false} RunAppend(s: State, a: seq<Action>, b: seq<Action>)
    requires s.WellFormed()
    ensures Run(s, a + b) == Run(Run(s, a), b)
    decreases |a|
  {
    if a == [] {
      assert a + b == b;
    } else {
      assert (a + b)[1..] == a[1..] + b;
      RunAppend(Step(s, a[0]), a[1..], b);
    }
  }

  lemma {:induction false} WritesCarryOn(from: nat, n: nat)
    ensures CarryOn(Store.WriteFrom(from, n))
    decreases n - from
  {
    if from < n {
      WritesCarryOn(from + 1, n);
    }
  }

  /** The publisher's steps move the topic's store and nothing else of the poller or the bridge. */
  lemma {:induction false} LiftPublishRuns(s: State, steps: seq<Store.Action>)
    requires s.WellFormed() && CarryOn(steps)
    ensures
      var t := Run(s, LiftPublish(steps));
      t == s.(poller := s.poller.(store := Store.Run(s.poller.store, steps)), origin := t.origin)
    decreases |steps|
  {
    if steps != [] {
      var t := Step(s, Poll(Pollers.Other(steps[0])));
      assert steps[0].WriteByte? || steps[0].WriteLength? || steps[0].Commit?;
      assert t == s.(poller := s.poller.(store := Store.Step(s.poller.store, steps[0])), origin := t.origin);
      hide Step, Store.Step;
      RunCons(s, Poll(Pollers.Other(steps[0])), LiftPublish(steps[1..]));
      LiftPublishRuns(t, steps[1..]);
    }
  }

  /** With no publish under way, they do nothing. */
  lemma {:induction false} RestingRuns(s: State, steps: seq<Store.Action>)
    requires s.WellFormed() && CarryOn(steps) && s.poller.store.publisher.Resting?
    ensures Run(s, LiftPublish(steps)) == s
    decreases |steps|
  {
    if steps != [] {
      assert steps[0].WriteByte? || steps[0].WriteLength? || steps[0].Commit?;
      assert Step(s, Poll(Pollers.Other(steps[0]))) == s;
      hide Step;
      RunCons(s, Poll(Pollers.Other(steps[0])), LiftPublish(steps[1..]));
      RestingRuns(s, steps[1..]);
    }
  }

  /** A store that takes a sample: it is published, or refused because it does not fit. */
  function Taken(store: Store.State, sample: Sample): Store.State
    requires store.mem.WellFormed()
  {
    if store.mem.Accepts(sample)
    then store.(mem := store.mem.Published(sample), history := store.history + [sample])
    else store
  }

  /** The publish inside a due mirror call, run to its end: the message is published, or refused. */
  lemma PublishRuns(s: State)
    requires s.WellFormed() && s.pc.Read? && s.poller.store.publisher.Resting? && |s.pc.msg| == s.msgSize
    ensures
      var t := Run(s, PublishCall(s.msgSize));
      && t == s.(pc := Publishing(s.pc.gen, s.pc.at, s.pc.msgAt),
                 poller := s.poller.(store := Taken(s.poller.store, s.pc.msg)), origin := t.origin)
      && t.poller.store.publisher.Resting?
  {
    var store, msg := s.poller.store, s.pc.msg;
    var u := Step(s, CallPublish);
    WritesCarryOn(0, s.msgSize);
    assert u == s.(pc := u.pc, poller := s.poller.(store := Store.Step(store, Store.Publish(msg))));
    if store.mem.Accepts(msg) {
      Store.SoloPublish(store, msg);
      Store.RunCons(store, Store.Publish(msg), RestOfPublish(|msg|));
      hide Step, Run, Store.Step, Store.Run;
      RunCons(s, CallPublish, LiftPublish(RestOfPublish(s.msgSize)));
      LiftPublishRuns(u, RestOfPublish(s.msgSize));
    } else {
      assert Store.Step(store, Store.Publish(msg)) == store;
      hide Step, Run, Store.Step, Store.Run;
      RunCons(s, CallPublish, LiftPublish(RestOfPublish(s.msgSize)));
      RestingRuns(u, RestOfPublish(s.msgSize));
    }
  }

  function PublishCall(n: nat): seq<Action> {
    [CallPublish] + LiftPublish(RestOfPublish(n))
  }

  lemma MirrorUnfolds(s: State, n: nat, readOk: bool)
    requires s.WellFormed()
    ensures
      var v := Step(Step(s, LoadZrosGeneration), ReadZros(readOk));
      Run(s, MirrorActions(n, readOk)) == Step(Run(v, PublishCall(n)), Return)
  {
    var u := Step(s, LoadZrosGeneration);
    var v := Step(u, ReadZros(readOk));
    var w := Run(v, PublishCall(n));
    MirrorSplits(n, readOk);
    hide Step, Run, MirrorActions, PublishCall;
    RunCons(s, LoadZrosGeneration, [ReadZros(readOk)] + (PublishCall(n) + [Return]));
    RunCons(u, ReadZros(readOk), PublishCall(n) + [Return]);
    RunAppend(v, PublishCall(n), [Return]);
    RunOne(w, Return);
  }

  lemma MirrorSplits(n: nat, readOk: bool)
    ensures MirrorActions(n, readOk) == [LoadZrosGeneration] + ([ReadZros(readOk)] + (PublishCall(n) + [Return]))
  {
    hide RestOfPublish, LiftPublish;
  }

  lemma RunNone(s: State)
    requires s.WellFormed()
    ensures Run(s, []) == s
  {
  }

  lemma RunOne(s: State, a: Action)
    requires s.WellFormed()
    ensures Run(s, [a]) == Step(s, a)
  {
  }

  lemma IdlePublishCall(v: State, n: nat)
    requires v.WellFormed() && v.pc.Idle? && v.poller.store.publisher.Resting?
    ensures Run(v, PublishCall(n)) == v
  {
    assert Step(v, CallPublish) == v;
    hide Step, Run;
    WritesCarryOn(0, n);
    RunCons(v, CallPublish, LiftPublish(RestOfPublish(n)));
    RestingRuns(v, RestOfPublish(n));
  }

  /** A call that takes no notice completes and changes nothing else; one whose read fails changes nothing at all. */
  lemma IdleMirrorCall(s: State, readOk: bool, t: State)
    requires Inv(s) && s.pc.Idle? && t == Run(s, MirrorActions(s.msgSize, readOk))
    requires LooksUnchanged(s) || !readOk
    ensures t == if LooksUnchanged(s) then s.(passes := s.passes + 1) else s
  {
    var v := if LooksUnchanged(s) then s.(passes := s.passes + 1) else s;
    MirrorUnfolds(s, s.msgSize, readOk);
    assert s.poller.store.publisher.Resting?;
    assert Step(Step(s, LoadZrosGeneration), ReadZros(readOk)) == v;
    assert Step(v, Return) == v;
    hide Step, Run, Inv;
    IdlePublishCall(v, s.msgSize);
  }

  /**
   * A due mirror call whose read succeeds completes, records the latest zros generation, and publishes the
   * latest zros sample if it fits the topic; nothing else changes.
   */
  lemma DueMirrorCall(s: State, t: State)
    requires Inv(s) && s.pc.Idle? && t == Run(s, MirrorActions(s.msgSize, true)) && !LooksUnchanged(s)
    ensures Inv(t) && s.zros != []
    ensures t == s.(poller := s.poller.(store := Taken(s.poller.store, s.zros[|s.zros| - 1])), origin := t.origin,
                    passes := s.passes + 1, last := |s.zros| % U32_LIMIT, lastAt := |s.zros|)
    ensures |s.zros[|s.zros| - 1]| == s.msgSize
  {
    hide Inv, Step, Run, Taken, LooksUnchanged, MirrorActions, PublishCall;
    RunKeepsInv(s, MirrorActions(s.msgSize, true));
    var v := DueRead(s);
    MirrorUnfolds(s, s.msgSize, true);
    PublishRuns(v);
    ReturnRuns(Run(v, PublishCall(s.msgSize)));
  }

  lemma DueRead(s: State) returns (v: State)
    requires Inv(s) && s.pc.Idle? && !LooksUnchanged(s)
    ensures s.WellFormed() && v.WellFormed() && s.zros != [] && |s.zros[|s.zros| - 1]| == s.msgSize
    ensures v == s.(pc := Read(|s.zros| % U32_LIMIT, |s.zros|, s.zros[|s.zros| - 1], |s.zros|))
    ensures Step(Step(s, LoadZrosGeneration), ReadZros(true)) == v
    ensures v.poller.store.publisher.Resting?
  {
    var n := |s.zros|;
    v := s.(pc := Read(n % U32_LIMIT, n, s.zros[n - 1], n));
  }

  lemma ReturnRuns(w: State)
    requires w.WellFormed() && w.pc.Publishing? && w.poller.store.publisher.Resting?
    ensures Step(w, Return) == w.(pc := Idle, last := w.pc.gen, lastAt := w.pc.at, passes := w.passes + 1)
  {
  }

  /** The poller's steps as seen from the bridge. */
  function LiftPoll(steps: seq<Pollers.Action>): seq<Action> {
    if steps == [] then [] else [Poll(steps[0])] + LiftPoll(steps[1..])
  }

  predicate OnlyPolls(steps: seq<Pollers.Action>) {
    forall i :: 0 <= i < |steps| ==> !StartsPublish(steps[i]) && !steps[i].NewSession?
  }

  /** With no publish under way they move the poller and nothing else. */
  lemma {:induction false} LiftPollRuns(s: State, steps: seq<Pollers.Action>)
    requires Quiet(s) && OnlyPolls(steps)
    ensures Run(s, LiftPoll(steps)) == s.(poller := Pollers.Run(s.poller, steps))
    ensures Poll(Pollers.NewSession) !in LiftPoll(steps)
    decreases |steps|
  {
    if steps != [] {
      var t := Step(s, Poll(steps[0]));
      assert !StartsPublish(steps[0]) && !steps[0].NewSession?;
      PollStepRuns(s, steps[0]);
      hide Step, Pollers.Step, Run, Pollers.Run, Quiet;
      RunCons(s, Poll(steps[0]), LiftPoll(steps[1..]));
      LiftPollRuns(t, steps[1..]);
      Pollers.RunCons(s.poller, steps[0], steps[1..]);
      assert steps == [steps[0]] + steps[1..];
    } else {
      RunNone(s);
      Pollers.RunNone(s.poller);
    }
  }

  lemma PollStepRuns(s: State, step: Pollers.Action)
    requires Quiet(s) && !StartsPublish(step)
    ensures s.WellFormed() && Step(s, Poll(step)) == s.(poller := Pollers.Step(s.poller, step))
    ensures Quiet(Step(s, Poll(step)))
  {
    assert Step(s, Poll(step)).origin == s.origin;
    QuietStep(s, Poll(step));
    hide Pollers.Step, Quiet;
  }

  lemma {:induction false} LiftIsOnlyPolls(steps: seq<Store.Action>)
    requires forall i :: 0 <= i < |steps| ==> !steps[i].Publish?
    ensures OnlyPolls(Pollers.Lift(steps))
  {
    if steps != [] {
      LiftIsOnlyPolls(steps[1..]);
    }
  }

  lemma {:induction false} CopiesDoNotPublish(from: nat, n: nat)
    ensures forall i :: 0 <= i < |Store.CopyFrom(0, from, n)| ==> !Store.CopyFrom(0, from, n)[i].Publish?
    decreases n - from
  {
    if from < n {
      CopiesDoNotPublish(from + 1, n);
    }
  }

  lemma WholePollIsOnlyPolls(n: nat, putOk: bool)
    ensures OnlyPolls(Pollers.PollActions(n, putOk))
  {
    CopiesDoNotPublish(0, n);
    LiftIsOnlyPolls(Pollers.CopyRest(n));
  }

  /** A whole mirror call and then a whole poll. */
  function WholeMirror(s: State): seq<Action> { MirrorActions(s.msgSize, true) }

  function WholePollOf(t: State): seq<Action>
  {
    LiftPoll(Pollers.PollActions(Pollers.LatestLength(t.poller), true))
  }

  /** A whole mirror call of a bridge that notices the latest zros publish completes, and settles it. */
  lemma MirrorSettles(s: State, t: State)
    requires Inv(s) && s.pc.Idle? && s.zros != [] && Noticed(s) && t == Run(s, WholeMirror(s))
    ensures Reaches(s, WholeMirror(s), t) && t.passes == s.passes + 1
    ensures Settled(t) && t.zros == s.zros && t.msgSize == s.msgSize && t.Fits() == s.Fits()
    ensures t.poller == s.poller.(store := t.poller.store)
  {
    RunKeepsInv(s, WholeMirror(s));
    if LooksUnchanged(s) {
      IdleMirrorCall(s, true, t);
    } else {
      DueMirrorCall(s, t);
    }
    hide Run, Inv, Taken, LooksUnchanged;
  }

  /**
   * The hops are really made: from every state between calls and polls in which neither generation merely
   * looks recorded, with a message that fits topic and transport, a whole mirror call and a whole poll
   * complete, and leave the latest zros sample sent last.
   */
  lemma BothHopsComplete(s: State, t: State, u: State)
    requires Inv(s) && s.pc.Idle? && s.poller.pc.Between? && s.zros != [] && Noticed(s)
    requires s.Fits() && s.msgSize <= s.poller.bufSize
    requires t == Run(s, WholeMirror(s)) && Pollers.Noticed(t.poller) && u == Run(t, WholePollOf(t))
    ensures Reaches(s, WholeMirror(s), t) && t.passes == s.passes + 1 && t.pc.Idle?
    ensures Reaches(t, WholePollOf(t), u) && u.poller.completed == t.poller.completed + 1
    ensures u.poller.sent != [] && u.poller.sent[|u.poller.sent| - 1].sample == s.zros[|s.zros| - 1]
  {
    hide Inv, Run, WholeMirror, WholePollOf, Noticed, Pollers.Noticed, Reaches, State.Fits;
    MirrorSettles(s, t);
    PollCompletes(t, u);
  }

  lemma PollCompletes(t: State, u: State)
    requires Settled(t) && t.zros != [] && t.Fits() && t.msgSize <= t.poller.bufSize
    requires t.poller.pc.Between? && Pollers.Noticed(t.poller) && u == Run(t, WholePollOf(t))
    ensures Reaches(t, WholePollOf(t), u) && u.poller.completed == t.poller.completed + 1
    ensures u.poller.sent != [] && u.poller.sent[|u.poller.sent| - 1].sample == t.zros[|t.zros| - 1]
  {
    hide Inv, Run, Pollers.Run, Pollers.Noticed, Pollers.PollActions, MirrorInv;
    var n := Pollers.LatestLength(t.poller);
    LatestFits(t);
    WholePollIsOnlyPolls(n, true);
    SettledIsQuiet(t);
    LiftPollRuns(t, Pollers.PollActions(n, true));
    Pollers.WholePollDeliversUnlessUnchanged(t.poller, true, u.poller);
    PollSendsLatest(t, WholePollOf(t), u);
  }

  lemma LatestFits(t: State)
    requires Settled(t) && t.zros != [] && t.Fits()
    ensures Pollers.LatestLength(t.poller) == t.msgSize && Pollers.Inv(t.poller)
  {
    SettledTopic(t);
  }

  lemma SettledIsQuiet(t: State)
    requires Settled(t) && t.zros != []
    ensures Quiet(t) && Pollers.Inv(t.poller) && t.WellFormed()
  {
  }
}
