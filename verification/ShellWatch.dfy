/**
 * The shell's watch protocol: commands rewrite a shared record under irq_lock and give a binary
 * semaphore after unlocking; the watch thread blocks on it, snapshots the record and reports.
 */
module ShellWatch {
  import opened Bytes
  import opened Options

  datatype Mode = Nothing | Echo | Hz | Line

  /** g_csyn_watch. `lastAt` is the publish count that lastGen stands for. */
  datatype Watch = Watch(sh: Option<nat>, topic: Option<nat>, mode: Mode, period: nat,
                         lastGen: nat, lastAt: nat, lastMs: int, active: bool)
  {
    predicate Live() { active && sh.Some? && topic.Some? }
  }

  const STOPPED := Watch(None, None, Nothing, 0, 0, 0, 0, false)

  /** A shell command either has nothing pending, or has written the record and still owes its give. */
  datatype Command = Ready | OwesGive(started: bool)

  datatype Pc =
    | Forever
    | Snapshot
    | Show(local: Watch)
    | Pause
    | RatePause
    | Reload
    | RateGeneration(local: Watch)
    | RateClock(local: Watch, gen: nat, genAt: nat)
    | RatePrint(local: Watch, gen: nat, genAt: nat, now: int)
    | WriteBack(local: Watch, gen: nat, genAt: nat, now: int)
  {
    /** The thread holds a live copy of the record that it is about to report on. */
    predicate ReportDue() { Show? || RateGeneration? || RateClock? || RatePrint? }

    predicate MidRate() { RateGeneration? || RateClock? || RatePrint? || WriteBack? }
  }

  datatype Report = Shown(topic: nat) | Rate(topic: nat, samples: nat, intervalMs: int)

  /** `counts` are the topics' publish counts, `clock` is k_uptime_get. */
  datatype State = State(watch: Watch, sem: bool, commands: seq<Command>, pc: Pc, counts: seq<nat>, clock: int,
                         reports: seq<Report>)

  datatype Action =
    | Publish(topic: nat)
    | Tick(ms: nat)
    | Start(c: nat, sh: nat, topic: nat, mode: Mode, period: nat)
    | Stop(c: nat)
    | Give(c: nat)
    | Take
    | Timeout
    | Advance

  function Init(commands: nat, topics: nat): State {
    State(STOPPED, false, seq(commands, _ => Ready), Forever, seq(topics, _ => 0), 0, [])
  }

  predicate CanCommand(s: State, c: nat) {
    c < |s.commands| && s.commands[c].Ready?
  }

  /** Subtraction of two uint32_t. */
  function Minus32(a: nat, b: nat): (d: nat)
    ensures d < U32_LIMIT
  {
    (a - b) % U32_LIMIT
  }

  /** One atomic step; the watch thread's own steps are Take, Timeout and Advance. */
  function Step(s: State, a: Action): State {
    match a
    case Publish(topic) =>
      if topic < |s.counts| then s.(counts := s.counts[topic := s.counts[topic] + 1]) else s
    case Tick(ms) => s.(clock := s.clock + ms)
    case Start(c, sh, topic, mode, period) =>
      if CanCommand(s, c) && topic < |s.counts| && mode != Nothing then
        s.(watch := Watch(Some(sh), Some(topic), mode, period,
                          s.counts[topic] % U32_LIMIT, s.counts[topic], s.clock, true),
           commands := s.commands[c := OwesGive(true)])
      else s
    case Stop(c) =>
      if CanCommand(s, c) then s.(watch := STOPPED, commands := s.commands[c := OwesGive(false)]) else s
    case Give(c) =>
      if c < |s.commands| && s.commands[c].OwesGive? then s.(sem := true, commands := s.commands[c := Ready]) else s
    case Take =>
      if s.sem && (s.pc.Forever? || s.pc.Pause? || s.pc.RatePause?) then s.(sem := false, pc := Snapshot) else s
    case Timeout =>
      if s.pc.Pause? then s.(pc := Snapshot)
      else if s.pc.RatePause? then s.(pc := Reload)
      else s
    case Advance => AdvanceThread(s)
  }

  function AdvanceThread(s: State): State {
    match s.pc
    case Snapshot =>
      if !s.watch.Live() || s.watch.mode == Nothing then s.(pc := Forever)
      else if s.watch.mode == Hz then s.(pc := RatePause)
      else s.(pc := Show(s.watch))
    case Show(local) =>
      if local.topic.Some? then s.(pc := Pause, reports := s.reports + [Shown(local.topic.value)]) else s
    case Reload =>
      if !s.watch.Live() then s.(pc := Forever) else s.(pc := RateGeneration(s.watch))
    case RateGeneration(local) =>
      if local.topic.Some? && local.topic.value < |s.counts| then
        var count := s.counts[local.topic.value];
        s.(pc := RateClock(local, count % U32_LIMIT, count))
      else s
    case RateClock(local, gen, genAt) =>
      s.(pc := RatePrint(local, gen, genAt, if s.clock <= local.lastMs then local.lastMs + 1 else s.clock))
    case RatePrint(local, gen, genAt, now) =>
      if local.topic.Some? then
        s.(pc := WriteBack(local, gen, genAt, now),
           reports := s.reports + [Rate(local.topic.value, Minus32(gen, local.lastGen), now - local.lastMs)])
      else s
    case WriteBack(local, gen, genAt, now) =>
      if s.watch.active && s.watch.mode == Hz && s.watch.topic == local.topic then
        s.(watch := s.watch.(lastGen := gen, lastAt := genAt, lastMs := now), pc := Snapshot)
      else s.(pc := Snapshot)
    case _ => s
  }

  function Run(s: State, actions: seq<Action>): State
    decreases |actions|
  {
    if actions == [] then s else Run(Step(s, actions[0]), actions[1..])
  }

  /** A record that came from a start names a shell, a topic and a mode, and a past generation of that topic. */
  ghost predicate Sound(w: Watch, counts: seq<nat>) {
    w.active ==>
      && w.sh.Some? && w.topic.Some? && w.mode != Nothing
      && w.topic.value < |counts|
      && w.lastGen == w.lastAt % U32_LIMIT
      && w.lastAt <= counts[w.topic.value]
  }

  ghost predicate StarterOwesGive(s: State) {
    exists c :: 0 <= c < |s.commands| && s.commands[c] == OwesGive(true)
  }

  ghost predicate PcInv(s: State) {
    var pc := s.pc;
    && (pc.ReportDue() || pc.WriteBack? ==> pc.local.active && Sound(pc.local, s.counts))
    && (pc.RateClock? || pc.RatePrint? || pc.WriteBack? ==>
          pc.gen == pc.genAt % U32_LIMIT && pc.local.lastAt <= pc.genAt <= s.counts[pc.local.topic.value])
    && (pc.RatePrint? || pc.WriteBack? ==> pc.now > pc.local.lastMs)
  }

  ghost predicate RatesArePositive(reports: seq<Report>) {
    forall i :: 0 <= i < |reports| && reports[i].Rate? ==>
      reports[i].intervalMs > 0 && 0 <= reports[i].samples < U32_LIMIT
  }

  ghost predicate Inv(s: State) {
    && Sound(s.watch, s.counts)
    && PcInv(s)
    && RatesArePositive(s.reports)
    && (s.pc.Forever? && s.watch.active ==> s.sem || StarterOwesGive(s))
  }

  lemma CommandKeepsInv(s: State, a: Action)
    requires Inv(s) && (a.Start? || a.Stop? || a.Give?)
    ensures Inv(Step(s, a))
  {
    var t := Step(s, a);
    if a.c < |s.commands| {
      forall c | 0 <= c < |s.commands| && s.commands[c] == OwesGive(true)
        ensures t.sem || !t.watch.active || t.commands[c] == OwesGive(true)
      {
      }
      if a.Start? && t != s {
        assert t.commands[a.c] == OwesGive(true);
      }
    }
  }

  lemma AdvanceKeepsInv(s: State)
    requires Inv(s)
    ensures Inv(Step(s, Advance))
  {
    hide Minus32, StarterOwesGive;
    if s.pc.RatePrint? {
      assert forall i :: 0 <= i < |s.reports| ==> Step(s, Advance).reports[i] == s.reports[i];
    }
  }

  lemma StepKeepsInv(s: State, a: Action)
    requires Inv(s)
    ensures Inv(Step(s, a))
  {
    match a
    case Start(_, _, _, _, _) => CommandKeepsInv(s, a);
    case Stop(_) => CommandKeepsInv(s, a);
    case Give(_) => CommandKeepsInv(s, a);
    case Advance => AdvanceKeepsInv(s);
    case _ =>
      hide RatesArePositive;
      assert Step(s, a).commands == s.commands && Step(s, a).reports == s.reports;
  }

  lemma {:induction false} RunKeepsInv(s: State, actions: seq<Action>)
    requires Inv(s)
    ensures Inv(Run(s, actions))
    decreases |actions|
  {
    if actions != [] {
      StepKeepsInv(s, actions[0]);
      RunKeepsInv(Step(s, actions[0]), actions[1..]);
    }
  }

  lemma InitInv(commands: nat, topics: nat)
    ensures Inv(Init(commands, topics))
  {
  }

  /**
   * No lost wake-up, in every interleaving: while a watch is active and the thread is in or entering its
   * forever wait, the semaphore is set or a starter still owes its give.
   */
  lemma NoLostWakeUp(commands: nat, topics: nat, actions: seq<Action>)
    ensures
      var s := Run(Init(commands, topics), actions);
      s.pc.Forever? && s.watch.active ==> s.sem || StarterOwesGive(s)
  {
    InitInv(commands, topics);
    RunKeepsInv(Init(commands, topics), actions);
  }

  /**
   * In every interleaving, the recorded baseline is a past generation of the topic now watched, and rates
   * have a positive interval.
   */
  lemma BaselineIsPast(commands: nat, topics: nat, actions: seq<Action>)
    ensures
      var s := Run(Init(commands, topics), actions);
      Sound(s.watch, s.counts) && RatesArePositive(s.reports)
  {
    InitInv(commands, topics);
    RunKeepsInv(Init(commands, topics), actions);
  }

  predicate NoStart(actions: seq<Action>) {
    forall i :: 0 <= i < |actions| ==> !actions[i].Start?
  }

  function Due(pc: Pc): nat {
    if pc.ReportDue() then 1 else 0
  }

  lemma {:induction false} QuietAfterStop(s: State, actions: seq<Action>)
    requires !s.watch.active && NoStart(actions)
    ensures !Run(s, actions).watch.active
    ensures |Run(s, actions).reports| + Due(Run(s, actions).pc) <= |s.reports| + Due(s.pc)
    decreases |actions|
  {
    if actions != [] {
      assert !actions[0].Start?;
      QuietAfterStop(Step(s, actions[0]), actions[1..]);
    }
  }

  /** After a stop with no later start, at most one more report is printed and the watch never becomes active again. */
  lemma AtMostOneReportAfterStop(s: State, c: nat, actions: seq<Action>)
    requires CanCommand(s, c) && NoStart(actions)
    ensures
      var stopped := Step(s, Stop(c));
      var t := Run(stopped, actions);
      !t.watch.active && |t.reports| <= |s.reports| + 1
  {
    QuietAfterStop(Step(s, Stop(c)), actions);
  }

  predicate Uninterrupted(actions: seq<Action>) {
    forall i :: 0 <= i < |actions| ==> !actions[i].Start? && !actions[i].Stop?
  }

  predicate ByThread(a: Action) { a.Take? || a.Timeout? || a.Advance? }

  /** The watch thread's own steps among some actions. */
  function ThreadSteps(actions: seq<Action>): seq<Action> {
    if actions == [] then []
    else (if ByThread(actions[0]) then [actions[0]] else []) + ThreadSteps(actions[1..])
  }

  /** The record asks for this topic to be shown again and again. */
  predicate Showing(s: State, topic: nat) {
    s.watch.Live() && (s.watch.mode == Echo || s.watch.mode == Line) && s.watch.topic == Some(topic)
  }

  const SHOW_ROUND: seq<Action> := [Timeout, Advance, Advance]

  /** How far a round of showing has come: paused, at the snapshot, about to show, and paused again. */
  ghost predicate ShowStage(s: State, topic: nat, before: seq<Report>, k: nat) {
    && Showing(s, topic)
    && (k == 0 ==> s.pc.Pause?)
    && (k == 1 ==> s.pc.Snapshot?)
    && (k == 2 ==> s.pc.Show? && s.pc.local.topic == Some(topic))
    && (k == 3 ==> s.pc.Pause?)
    && s.reports == before + (if k == 3 then [Shown(topic)] else [])
  }

  lemma ShowStageStep(s: State, a: Action, topic: nat, before: seq<Report>, k: nat)
    requires k <= 3 && ShowStage(s, topic, before, k) && !a.Start? && !a.Stop?
    requires ByThread(a) ==> k < 3 && a == SHOW_ROUND[k]
    ensures ShowStage(Step(s, a), topic, before, if ByThread(a) then k + 1 else k)
  {
  }

  lemma {:induction false} ShowStages(s: State, topic: nat, before: seq<Report>, k: nat, actions: seq<Action>)
    requires k <= 3 && ShowStage(s, topic, before, k)
    requires Uninterrupted(actions) && ThreadSteps(actions) == SHOW_ROUND[k..]
    ensures ShowStage(Run(s, actions), topic, before, 3)
    decreases |actions|
  {
    if actions != [] {
      var a := actions[0];
      assert !a.Start? && !a.Stop?;
      assert ByThread(a) ==> a == ThreadSteps(actions)[0] && ThreadSteps(actions[1..]) == ThreadSteps(actions)[1..];
      ShowStageStep(s, a, topic, before, k);
      hide Step, ShowStage;
      ShowStages(Step(s, a), topic, before, if ByThread(a) then k + 1 else k, actions[1..]);
    }
  }

  /**
   * Echo and line watches report: from its snapshot, or after a pause that timed out, the thread prints the
   * watched topic exactly once and pauses again, whatever publishes, ticks and gives interleave.
   */
  lemma ShowRoundReportsOnce(s: State, topic: nat, actions: seq<Action>)
    requires Showing(s, topic) && (s.pc.Pause? || s.pc.Snapshot?) && Uninterrupted(actions)
    requires ThreadSteps(actions) == if s.pc.Pause? then [Timeout, Advance, Advance] else [Advance, Advance]
    ensures Run(s, actions).pc.Pause? && Run(s, actions).reports == s.reports + [Shown(topic)]
  {
    ShowStages(s, topic, s.reports, if s.pc.Pause? then 0 else 1, actions);
  }

  const RATE_ROUND: seq<Action> := [Timeout, Advance, Advance, Advance, Advance, Advance, Advance]

  /** How far a round of a rate watch has come; the rate is printed on the way to stage 5. */
  ghost predicate RateStage(s: State, topic: nat, before: seq<Report>, k: nat) {
    && s.watch.Live() && Watching(s, topic) && topic < |s.counts|
    && (k == 0 || k == 7 ==> s.pc.RatePause?)
    && (k == 1 ==> s.pc.Reload?)
    && (k == 2 ==> s.pc.RateGeneration?)
    && (k == 3 ==> s.pc.RateClock?)
    && (k == 4 ==> s.pc.RatePrint?)
    && (k == 5 ==> s.pc.WriteBack?)
    && (k == 6 ==> s.pc.Snapshot?)
    && (2 <= k <= 5 ==> s.pc.MidRate() && s.pc.local.topic == Some(topic))
    && (if k < 5 then s.reports == before else OneRateMore(before, s.reports, topic))
  }

  predicate OneRateMore(before: seq<Report>, after: seq<Report>, topic: nat) {
    |after| == |before| + 1 && before <= after && after[|before|].Rate? && after[|before|].topic == topic
  }

  lemma RateStageStep(s: State, a: Action, topic: nat, before: seq<Report>, k: nat)
    requires k <= 7 && RateStage(s, topic, before, k) && !a.Start? && !a.Stop?
    requires ByThread(a) ==> k < 7 && a == RATE_ROUND[k]
    ensures RateStage(Step(s, a), topic, before, if ByThread(a) then k + 1 else k)
  {
  }

  lemma {:induction false} RateStages(s: State, topic: nat, before: seq<Report>, k: nat, actions: seq<Action>)
    requires k <= 7 && RateStage(s, topic, before, k)
    requires Uninterrupted(actions) && ThreadSteps(actions) == RATE_ROUND[k..]
    ensures RateStage(Run(s, actions), topic, before, 7)
    decreases |actions|
  {
    if actions != [] {
      var a := actions[0];
      assert !a.Start? && !a.Stop?;
      assert ByThread(a) ==> a == ThreadSteps(actions)[0] && ThreadSteps(actions[1..]) == ThreadSteps(actions)[1..];
      RateStageStep(s, a, topic, before, k);
      hide Step, RateStage;
      RateStages(Step(s, a), topic, before, if ByThread(a) then k + 1 else k, actions[1..]);
    }
  }

  /**
   * Rate watches report: after a pause that timed out, the thread prints exactly one rate of the watched topic
   * and pauses again, whatever publishes, ticks and gives interleave.
   */
  lemma RateRoundReportsOnce(s: State, topic: nat, actions: seq<Action>)
    requires s.watch.Live() && Watching(s, topic) && topic < |s.counts| && s.pc.RatePause?
    requires Uninterrupted(actions)
    requires ThreadSteps(actions) == [Timeout, Advance, Advance, Advance, Advance, Advance, Advance]
    ensures Run(s, actions).pc.RatePause? && OneRateMore(s.reports, Run(s, actions).reports, topic)
  {
    RateStages(s, topic, s.reports, 0, actions);
  }

  /**
   * What an undisturbed round prints and records: the publishes since the baseline, over the time since then
   * but at least 1 ms; both become the new baseline.
   */
  lemma RateRoundRuns(s: State, topic: nat, elapsed: int)
    requires s.watch.Live() && Watching(s, topic) && topic < |s.counts| && s.pc.RatePause?
    requires elapsed == if s.clock > s.watch.lastMs then s.clock - s.watch.lastMs else 1
    ensures
      var count, w := s.counts[topic], s.watch;
      Run(s, [Timeout, Advance, Advance, Advance] + ([Advance] + ([Advance] + [Advance]))) ==
      s.(reports := s.reports + [Rate(topic, Minus32(count % U32_LIMIT, w.lastGen), elapsed)],
         watch := w.(lastGen := count % U32_LIMIT, lastAt := count, lastMs := w.lastMs + elapsed))
  {
    hide Step, Run, Minus32;
    var count, w := s.counts[topic], s.watch;
    var measured := s.(pc := RatePrint(w, count % U32_LIMIT, count, w.lastMs + elapsed));
    MeasureRuns(s, topic, measured);
    ReportRuns(measured);
    RunFour(s, Timeout, Advance, Advance, Advance, [Advance] + ([Advance] + [Advance]));
  }

  lemma MeasureRuns(s: State, topic: nat, measured: State)
    requires s.watch.Live() && Watching(s, topic) && topic < |s.counts| && s.pc.RatePause?
    requires
      var w := s.watch;
      var now := if s.clock > w.lastMs then s.clock else w.lastMs + 1;
      measured == s.(pc := RatePrint(w, s.counts[topic] % U32_LIMIT, s.counts[topic], now))
    ensures Step(Step(Step(Step(s, Timeout), Advance), Advance), Advance) == measured
  {
  }

  lemma ReportRuns(s: State)
    requires s.pc.RatePrint? && s.pc.local == s.watch && s.watch.Live() && s.watch.mode == Hz
    ensures
      var pc, w := s.pc, s.watch;
      Run(s, [Advance] + ([Advance] + [Advance])) ==
      s.(pc := RatePause, watch := w.(lastGen := pc.gen, lastAt := pc.genAt, lastMs := pc.now),
         reports := s.reports + [Rate(w.topic.value, Minus32(pc.gen, w.lastGen), pc.now - w.lastMs)])
  {
    var pc, w := s.pc, s.watch;
    var report := Rate(w.topic.value, Minus32(pc.gen, w.lastGen), pc.now - w.lastMs);
    var t := s.(pc := WriteBack(w, pc.gen, pc.genAt, pc.now), reports := s.reports + [report]);
    var u := t.(pc := Snapshot, watch := w.(lastGen := pc.gen, lastAt := pc.genAt, lastMs := pc.now));
    assert Step(s, Advance) == t && Step(t, Advance) == u && Step(u, Advance) == u.(pc := RatePause);
    hide Step, Minus32;
    RunCons(s, Advance, [Advance] + [Advance]);
    RunCons(t, Advance, [Advance]);
    RunCons(u, Advance, []);
  }

  function TimeIn(actions: seq<Action>): int {
    if actions == [] then 0 else (if actions[0].Tick? then actions[0].ms else 0) + TimeIn(actions[1..])
  }

  function PublishesIn(actions: seq<Action>, topic: nat): nat {
    if actions == [] then 0
    else (if actions[0] == Publish(topic) then 1 else 0) + PublishesIn(actions[1..], topic)
  }

  /** Whatever the shell and its thread do, the clock tells the time and the counts count the publishes. */
  lemma {:induction false} WorldGoesOn(s: State, actions: seq<Action>, topic: nat)
    requires topic < |s.counts|
    ensures Run(s, actions).clock == s.clock + TimeIn(actions)
    ensures |Run(s, actions).counts| == |s.counts|
    ensures Run(s, actions).counts[topic] == s.counts[topic] + PublishesIn(actions, topic)
    decreases |actions|
  {
    if actions != [] {
      WorldGoesOn(Step(s, actions[0]), actions[1..], topic);
    }
  }

  predicate Waiting(pc: Pc) { pc.Forever? || pc.Pause? || pc.RatePause? }

  /** A start wakes the waiting thread, which takes up the new watch. */
  lemma StartIsServed(s: State, c: nat, sh: nat, topic: nat, mode: Mode, period: nat)
    requires CanCommand(s, c) && topic < |s.counts| && mode != Nothing && Waiting(s.pc)
    ensures
      var t := Run(s, [Start(c, sh, topic, mode, period), Give(c), Take, Advance]);
      var w := Watch(Some(sh), Some(topic), mode, period, s.counts[topic] % U32_LIMIT, s.counts[topic], s.clock, true);
      t == s.(watch := w, sem := false, pc := if mode == Hz then RatePause else Show(w))
  {
    var a := Start(c, sh, topic, mode, period);
    var u := Step(s, a);
    assert u.commands[c] == OwesGive(true);
    assert Step(u, Give(c)).commands == s.commands;
    RunFour(s, a, Give(c), Take, Advance, []);
    assert [a, Give(c), Take, Advance] + [] == [a, Give(c), Take, Advance];
  }

  /** A stop wakes the waiting thread, which prints nothing and goes back to its forever wait. */
  lemma StopIsServed(s: State, c: nat)
    requires CanCommand(s, c) && Waiting(s.pc)
    ensures Run(s, [Stop(c), Give(c), Take, Advance]) == s.(watch := STOPPED, sem := false, pc := Forever)
  {
    var u := Step(s, Stop(c));
    assert u.commands[c] == OwesGive(false);
    assert Step(u, Give(c)).commands == s.commands;
    RunFour(s, Stop(c), Give(c), Take, Advance, []);
    assert [Stop(c), Give(c), Take, Advance] + [] == [Stop(c), Give(c), Take, Advance];
  }

  /** So does a stop in the middle of a rate watch's pause that timed out. */
  lemma StoppedReloadSleeps(s: State)
    requires !s.watch.Live() && (s.pc.Reload? || s.pc.Snapshot?)
    ensures Step(s, Advance) == s.(pc := Forever)
  {
  }

  /** The sum of the printed counts, and of the printed intervals, of one topic's rates. */
  function SamplesOf(reports: seq<Report>, topic: nat): int {
    if reports == [] then 0
    else
      var r := reports[|reports| - 1];
      SamplesOf(reports[..|reports| - 1], topic) + (if r.Rate? && r.topic == topic then r.samples else 0)
  }

  function IntervalOf(reports: seq<Report>, topic: nat): int {
    if reports == [] then 0
    else
      var r := reports[|reports| - 1];
      IntervalOf(reports[..|reports| - 1], topic) + (if r.Rate? && r.topic == topic then r.intervalMs else 0)
  }

  predicate Watching(s: State, topic: nat) {
    s.watch.active && s.watch.mode == Hz && s.watch.topic == Some(topic)
  }

  /** The thread is in the middle of a rate report of the topic. */
  predicate Reporting(s: State, topic: nat) {
    s.pc.MidRate() && s.pc.local.topic == Some(topic)
  }

  /** Where the next printed count of the topic starts: its publish count, generation and time. */
  function Base(s: State, topic: nat): nat {
    if !Reporting(s, topic) then s.watch.lastAt else if s.pc.WriteBack? then s.pc.genAt else s.pc.local.lastAt
  }

  function BaseGen(s: State, topic: nat): nat {
    if !Reporting(s, topic) then s.watch.lastGen else if s.pc.WriteBack? then s.pc.gen else s.pc.local.lastGen
  }

  function BaseMs(s: State, topic: nat): int {
    if !Reporting(s, topic) then s.watch.lastMs else if s.pc.WriteBack? then s.pc.now else s.pc.local.lastMs
  }

  /** A total of 32-bit differences is the growth from `from` to `to` modulo 2^32, exactly so below 2^32. */
  predicate AddsUp(total: int, from: nat, to: nat) {
    && total % U32_LIMIT == (to - from) % U32_LIMIT
    && (to - from < U32_LIMIT ==> total == to - from)
  }

  lemma AddOne(total: int, from: nat, last: nat, next: nat)
    requires from <= last <= next && AddsUp(total, from, last)
    ensures AddsUp(total + Minus32(next % U32_LIMIT, last % U32_LIMIT), from, next)
  {
    MinusOfRemainders(next, last);
    hide Minus32;
    SumOfRemainders(total, last - from, next - last, (next - last) % U32_LIMIT);
  }

  lemma MinusOfRemainders(next: nat, last: nat)
    ensures Minus32(next % U32_LIMIT, last % U32_LIMIT) == (next - last) % U32_LIMIT
  {
    Shift(next - last, last / U32_LIMIT - next / U32_LIMIT);
  }

  lemma SumOfRemainders(total: int, x: int, y: int, d: int)
    requires total % U32_LIMIT == x % U32_LIMIT && d % U32_LIMIT == y % U32_LIMIT
    ensures (total + d) % U32_LIMIT == (x + y) % U32_LIMIT
  {
    Shift(x + y, total / U32_LIMIT - x / U32_LIMIT + d / U32_LIMIT - y / U32_LIMIT);
  }

  lemma Shift(x: int, k: int)
    ensures (x + k * U32_LIMIT) % U32_LIMIT == x % U32_LIMIT
  {
  }

  /**
   * A rate watch of `topic` whose reports since the totals given account for everything since count `from`
   * and time `since`.
   */
  ghost predicate Accounted(s: State, topic: nat, from: nat, since: int, samples: int, interval: int) {
    && Watching(s, topic)
    && from <= Base(s, topic)
    && AddsUp(SamplesOf(s.reports, topic) - samples, from, Base(s, topic))
    && IntervalOf(s.reports, topic) - interval == BaseMs(s, topic) - since
  }

  lemma AppendReport(reports: seq<Report>, report: Report, topic: nat)
    ensures SamplesOf(reports + [report], topic) ==
            SamplesOf(reports, topic) + (if report.Rate? && report.topic == topic then report.samples else 0)
    ensures IntervalOf(reports + [report], topic) ==
            IntervalOf(reports, topic) + (if report.Rate? && report.topic == topic then report.intervalMs else 0)
  {
    assert (reports + [report])[..|reports|] == reports;
  }

  lemma PrintKeepsAccount(s: State, topic: nat, from: nat, since: int, samples: int, interval: int)
    requires Accounted(s, topic, from, since, samples, interval) && s.pc.RatePrint? && PcInv(s)
    ensures Accounted(Step(s, Advance), topic, from, since, samples, interval)
  {
    hide SamplesOf, IntervalOf, AddsUp, Minus32;
    var local := s.pc.local;
    var report := Rate(local.topic.value, Minus32(s.pc.gen, local.lastGen), s.pc.now - local.lastMs);
    AppendReport(s.reports, report, topic);
    var t := s.(pc := WriteBack(local, s.pc.gen, s.pc.genAt, s.pc.now), reports := s.reports + [report]);
    assert Step(s, Advance) == t;
    if Reporting(s, topic) {
      AddOne(SamplesOf(s.reports, topic) - samples, from, local.lastAt, s.pc.genAt);
    }
  }

  lemma StepKeepsAccount(s: State, a: Action, topic: nat, from: nat, since: int, samples: int, interval: int)
    requires Inv(s) && Accounted(s, topic, from, since, samples, interval) && !a.Start? && !a.Stop?
    ensures Accounted(Step(s, a), topic, from, since, samples, interval)
  {
    hide SamplesOf, IntervalOf, RatesArePositive, AddsUp, StarterOwesGive;
    if a.Advance? && s.pc.RatePrint? {
      PrintKeepsAccount(s, topic, from, since, samples, interval);
    } else if a.Advance? && s.pc.Show? {
      AppendReport(s.reports, Shown(s.pc.local.topic.value), topic);
    } else {
      OtherStepKeepsAccount(s, a, topic, from, since, samples, interval);
    }
  }

  lemma OtherStepKeepsAccount(s: State, a: Action, topic: nat, from: nat, since: int, samples: int, interval: int)
    requires Sound(s.watch, s.counts) && PcInv(s)
    requires Accounted(s, topic, from, since, samples, interval) && !a.Start? && !a.Stop?
    requires !(a.Advance? && (s.pc.RatePrint? || s.pc.Show?))
    ensures Accounted(Step(s, a), topic, from, since, samples, interval)
  {
    hide SamplesOf, IntervalOf, AddsUp;
    assert Step(s, a).reports == s.reports;
  }

  lemma {:induction false} RunKeepsAccount(s: State, actions: seq<Action>, topic: nat, from: nat, since: int,
                                           samples: int, interval: int)
    requires Inv(s) && Accounted(s, topic, from, since, samples, interval) && Uninterrupted(actions)
    ensures Inv(Run(s, actions)) && Accounted(Run(s, actions), topic, from, since, samples, interval)
    decreases |actions|
  {
    if actions != [] {
      hide Inv, Accounted, Step;
      assert !actions[0].Start? && !actions[0].Stop?;
      StepKeepsInv(s, actions[0]);
      StepKeepsAccount(s, actions[0], topic, from, since, samples, interval);
      RunKeepsAccount(Step(s, actions[0]), actions[1..], topic, from, since, samples, interval);
    }
  }

  /**
   * Rate accounting: while a rate watch of the topic runs on with no start or stop, the printed counts add
   * up modulo 2^32 to the growth of the topic up to the last generation printed, and exactly so while the
   * growth is below 2^32; the printed intervals add up to the time covered. If a report of the topic was
   * under way at the beginning, both are reckoned from that report's own copy of the baseline.
   */
  lemma RatesTelescope(s: State, topic: nat, actions: seq<Action>)
    requires Inv(s) && Watching(s, topic) && Uninterrupted(actions)
    ensures
      var t := Run(s, actions);
      && topic < |t.counts| && Base(s, topic) <= Base(t, topic) <= t.counts[topic]
      && AddsUp(SamplesOf(t.reports, topic) - SamplesOf(s.reports, topic), Base(s, topic), Base(t, topic))
      && IntervalOf(t.reports, topic) - IntervalOf(s.reports, topic) == BaseMs(t, topic) - BaseMs(s, topic)
  {
    hide Run, Step, RatesArePositive, StarterOwesGive;
    RunKeepsAccount(s, actions, topic, Base(s, topic), BaseMs(s, topic),
                    SamplesOf(s.reports, topic), IntervalOf(s.reports, topic));
  }

  lemma SameRemainder(total: int, from: nat, to: nat, other: nat)
    requires AddsUp(total, from, to)
    ensures total % U32_LIMIT == (to - other) % U32_LIMIT <==> from % U32_LIMIT == other % U32_LIMIT
  {
    if from % U32_LIMIT == other % U32_LIMIT {
      Shift(to - from, from / U32_LIMIT - other / U32_LIMIT);
    }
    if (to - from) % U32_LIMIT == (to - other) % U32_LIMIT {
      Shift(from, (to - from) / U32_LIMIT - (to - other) / U32_LIMIT);
    }
  }

  lemma BaseStandsForGeneration(s: State, topic: nat)
    requires Inv(s) && Watching(s, topic)
    ensures Base(s, topic) % U32_LIMIT == BaseGen(s, topic) && s.watch.lastAt % U32_LIMIT == s.watch.lastGen
  {
    hide RatesArePositive, StarterOwesGive;
  }

  /**
   * The printed counts are reckoned from the baseline that the latest start recorded if and only if no report
   * of the topic was under way then, or that report's copy of the baseline has the same generation.
   */
  lemma RatesCountFromBaseline(s: State, topic: nat, actions: seq<Action>)
    requires Inv(s) && Watching(s, topic) && Uninterrupted(actions)
    ensures
      var t := Run(s, actions);
      var printed := SamplesOf(t.reports, topic) - SamplesOf(s.reports, topic);
      printed % U32_LIMIT == (Base(t, topic) - s.watch.lastAt) % U32_LIMIT
      <==> !Reporting(s, topic) || BaseGen(s, topic) == s.watch.lastGen
  {
    hide Run, SamplesOf, IntervalOf, Inv, Base, AddsUp;
    var t := Run(s, actions);
    RatesTelescope(s, topic, actions);
    BaseStandsForGeneration(s, topic);
    SameRemainder(SamplesOf(t.reports, topic) - SamplesOf(s.reports, topic),
                  Base(s, topic), Base(t, topic), s.watch.lastAt);
  }

  lemma RunCons(s: State, a: Action, rest: seq<Action>)
    ensures Run(s, [a] + rest) == Run(Step(s, a), rest)
  {
    assert ([a] + rest)[1..] == rest;
  }

  lemma RunFour(s: State, a: Action, b: Action, c: Action, d: Action, rest: seq<Action>)
    ensures Run(s, [a, b, c, d] + rest) == Run(Step(Step(Step(Step(s, a), b), c), d), rest)
  {
    hide Run, Step;
    FourFirst(a, b, c, d, rest);
    RunCons(s, a, [b] + ([c] + ([d] + rest)));
    RunCons(Step(s, a), b, [c] + ([d] + rest));
    RunCons(Step(Step(s, a), b), c, [d] + rest);
    RunCons(Step(Step(Step(s, a), b), c), d, rest);
  }

  lemma FourFirst(a: Action, b: Action, c: Action, d: Action, rest: seq<Action>)
    ensures [a, b, c, d] + rest == [a] + ([b] + ([c] + ([d] + rest)))
  {
  }

  /** A rate watch whose thread has read generation 0, one publish, and a restart of the topic before the report. */
  function RestartedMidReport(): State {
    Run(Init(2, 1), [Start(0, 0, 0, Hz, 1000), Give(0), Take, Advance]
                    + ([Timeout, Advance, Advance, Publish(0)] + [Start(1, 0, 0, Hz, 1000)]))
  }

  /** The thread finishes that report, writes its older baseline back, and makes one more report. */
  function NextReport(): seq<Action> {
    [Advance, Advance, Advance, Advance] + ([Timeout, Advance, Advance, Advance] + [Advance])
  }

  lemma RestartedState()
    ensures
      var w := Watch(Some(0), Some(0), Hz, 1000, 0, 0, 0, true);
      RestartedMidReport() ==
      State(w.(lastGen := 1, lastAt := 1), false, [Ready, OwesGive(true)], RateClock(w, 0, 0), [1], 0, [])
  {
    var w := Watch(Some(0), Some(0), Hz, 1000, 0, 0, 0, true);
    var s, s1 := Init(2, 1), State(w, false, [Ready, Ready], RatePause, [0], 0, []);
    var rest := [Start(1, 0, 0, Hz, 1000)];
    StartedRuns(s);
    MidReportRuns(s1);
    hide Run, Step;
    RunFour(s, Start(0, 0, 0, Hz, 1000), Give(0), Take, Advance, [Timeout, Advance, Advance, Publish(0)] + rest);
  }

  lemma StartedRuns(s: State)
    requires s == Init(2, 1)
    ensures
      var w := Watch(Some(0), Some(0), Hz, 1000, 0, 0, 0, true);
      Step(Step(Step(Step(s, Start(0, 0, 0, Hz, 1000)), Give(0)), Take), Advance)
      == State(w, false, [Ready, Ready], RatePause, [0], 0, [])
  {
  }

  lemma MidReportRuns(s1: State)
    requires s1 == State(Watch(Some(0), Some(0), Hz, 1000, 0, 0, 0, true), false, [Ready, Ready], RatePause, [0], 0, [])
    ensures
      Run(s1, [Timeout, Advance, Advance, Publish(0)] + [Start(1, 0, 0, Hz, 1000)]) ==
      State(s1.watch.(lastGen := 1, lastAt := 1), false, [Ready, OwesGive(true)], RateClock(s1.watch, 0, 0), [1], 0, [])
  {
    var t := s1.(pc := RateClock(s1.watch, 0, 0), counts := [1]);
    var start := Start(1, 0, 0, Hz, 1000);
    assert Step(Step(Step(Step(s1, Timeout), Advance), Advance), Publish(0)) == t;
    assert Step(t, start) == t.(watch := s1.watch.(lastGen := 1, lastAt := 1), commands := [Ready, OwesGive(true)]);
    hide Step;
    RunFour(s1, Timeout, Advance, Advance, Publish(0), [start]);
    RunCons(t, start, []);
  }

  lemma StaleReport()
    ensures
      var w := Watch(Some(0), Some(0), Hz, 1000, 0, 0, 1, true);
      Run(RestartedMidReport(), NextReport()) ==
      Run(State(w, false, [Ready, OwesGive(true)], RatePause, [1], 0, [Rate(0, 0, 1)]),
          [Timeout, Advance, Advance, Advance] + [Advance])
  {
    RestartedState();
    hide Run;
    var s := RestartedMidReport();
    var stale := s.pc.local;
    var s1 := s.(pc := RatePrint(stale, 0, 0, 1));
    var s2 := s.(pc := WriteBack(stale, 0, 0, 1), reports := [Rate(0, 0, 1)]);
    var s3 := s2.(pc := Snapshot, watch := s.watch.(lastGen := 0, lastAt := 0, lastMs := 1));
    assert Step(s, Advance) == s1;
    assert Step(s1, Advance) == s2;
    assert Step(s2, Advance) == s3;
    assert Step(s3, Advance) == s3.(pc := RatePause);
    RunFour(s, Advance, Advance, Advance, Advance, [Timeout, Advance, Advance, Advance] + [Advance]);
  }

  lemma OvercountingReport(w: Watch)
    requires w == Watch(Some(0), Some(0), Hz, 1000, 0, 0, 1, true)
    ensures
      var s := State(w, false, [Ready, OwesGive(true)], RatePause, [1], 0, [Rate(0, 0, 1)]);
      Run(s, [Timeout, Advance, Advance, Advance] + [Advance]) ==
      s.(pc := WriteBack(w, 1, 1, 2), reports := [Rate(0, 0, 1)] + [Rate(0, 1, 1)])
  {
    var s := State(w, false, [Ready, OwesGive(true)], RatePause, [1], 0, [Rate(0, 0, 1)]);
    var t := s.(pc := RatePrint(w, 1, 1, 2));
    assert Step(Step(Step(Step(s, Timeout), Advance), Advance), Advance) == t;
    assert Step(t, Advance) == s.(pc := WriteBack(w, 1, 1, 2), reports := [Rate(0, 0, 1)] + [Rate(0, 1, 1)]);
    hide Step;
    RunFour(s, Timeout, Advance, Advance, Advance, [Advance]);
    RunCons(t, Advance, []);
  }

  /**
   * The condition of RatesCountFromBaseline can fail: restarted in the middle of a report, the thread writes
   * the older generation over the new baseline, and the next report counts a publish from before the restart.
   */
  lemma RestartMidReportOvercounts()
    ensures
      var s := RestartedMidReport();
      var t := Run(s, NextReport());
      && Uninterrupted(NextReport()) && t.counts == s.counts == [s.watch.lastAt]
      && Watching(s, 0) && Reporting(s, 0) && BaseGen(s, 0) != s.watch.lastGen
      && SamplesOf(t.reports, 0) - SamplesOf(s.reports, 0) == 1
  {
    hide Run, Step;
    RestartedState();
    StaleReport();
    OvercountingReport(Watch(Some(0), Some(0), Hz, 1000, 0, 0, 1, true));
    AppendReport([Rate(0, 0, 1)], Rate(0, 1, 1), 0);
    AppendReport([], Rate(0, 0, 1), 0);
    assert [] + [Rate(0, 0, 1)] == [Rate(0, 0, 1)];
  }
}
