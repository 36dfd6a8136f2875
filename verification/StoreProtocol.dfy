/**
 * csyn_topic_publish and csyn_topic_copy as interleaved steps: one publisher and any number of
 * readers share a topic's memory, and memcpy moves its bytes one at a time in any order.
 */
module StoreProtocol {
  import opened Bytes
  import opened TopicStore

  datatype Publisher =
    | Resting
    | Writing(next: nat, sample: Sample, pending: set<nat>)
    | Committing(next: nat, sample: Sample)

  /** `at` and `end` are the numbers of publishes completed at the two generation loads. */
  datatype ReaderPc =
    | Outside
    | AtLoad
    | AtLength(gen: nat, at: nat)
    | AtCopy(gen: nat, at: nat, length: nat, pending: set<nat>)
    | Refused(at: nat)
    | Returned(gen: nat, at: nat, length: nat, end: nat)
  {
    predicate InCall() { AtLoad? || AtLength? || AtCopy? }
  }

  /** `entry` is the number of publishes completed at the call, `latest` the newest one ever returned. */
  datatype Reader = Reader(pc: ReaderPc, buf: Sample, entry: nat, retries: nat, latest: nat)

  datatype State = State(mem: Memory, publisher: Publisher, readers: seq<Reader>, history: seq<Sample>)
  {
    predicate WellFormed() {
      && mem.WellFormed()
      && (!publisher.Resting? ==> publisher.next < U32_LIMIT && mem.Accepts(publisher.sample))
      && (publisher.Writing? ==> PendingBelow(publisher.pending, |publisher.sample|))
      && (forall r :: 0 <= r < |readers| ==> ReaderWellFormed(mem, readers[r]))
    }
  }

  predicate PendingBelow(pending: set<nat>, bound: nat) {
    forall k :: k in pending ==> k < bound
  }

  predicate ReaderWellFormed(m: Memory, reader: Reader) {
    reader.pc.AtCopy? ==>
      && reader.pc.length <= |reader.buf|
      && reader.pc.length <= m.maxSize
      && PendingBelow(reader.pc.pending, reader.pc.length)
  }

  datatype Action =
    | Publish(sample: Sample)
    | WriteByte(k: nat)
    | WriteLength
    | Commit
    | Call(r: nat, buf: Sample)
    | LoadGeneration(r: nat)
    | LoadLength(r: nat)
    | CopyByte(r: nat, k: nat)
    | ReloadGeneration(r: nat)

  function Indices(n: nat): (s: set<nat>)
    ensures forall k :: k in s <==> 0 <= k < n
  {
    if n == 0 then {} else Indices(n - 1) + {n - 1}
  }

  function Init(maxSize: nat, readers: nat): State {
    State(Memory(maxSize, seq(2 * maxSize, _ => 0 as byte), [0, 0], 0),
          Resting,
          seq(readers, _ => Reader(Outside, [], 0, 0, 0)),
          [])
  }

  /** One atomic step; an action that is not enabled leaves the state alone. */
  function Step(s: State, a: Action): (t: State)
    requires s.WellFormed()
    ensures t.WellFormed() && |t.readers| == |s.readers| && t.mem.maxSize == s.mem.maxSize
    ensures s.history <= t.history
  {
    match a
    case Publish(sample) =>
      if s.publisher.Resting? && s.mem.Accepts(sample) then
        s.(publisher := Writing(NextGeneration(s.mem.generation), sample, Indices(|sample|)))
      else s
    case WriteByte(k) =>
      if s.publisher.Writing? && k in s.publisher.pending then
        s.(mem := s.mem.(slots := s.mem.slots[s.mem.Base(s.publisher.next) + k := s.publisher.sample[k]]),
           publisher := s.publisher.(pending := s.publisher.pending - {k}))
      else s
    case WriteLength =>
      if s.publisher.Writing? && s.publisher.pending == {} then
        s.(mem := s.mem.(lengths := s.mem.lengths[s.publisher.next % 2 := |s.publisher.sample|]),
           publisher := Committing(s.publisher.next, s.publisher.sample))
      else s
    case Commit =>
      if s.publisher.Committing? then
        s.(mem := s.mem.(generation := s.publisher.next),
           publisher := Resting,
           history := s.history + [s.publisher.sample])
      else s
    case _ =>
      if a.r < |s.readers| then s.(readers := s.readers[a.r := ReaderStep(s, s.readers[a.r], a)]) else s
  }

  function ReaderStep(s: State, reader: Reader, a: Action): (next: Reader)
    requires s.WellFormed() && ReaderWellFormed(s.mem, reader)
    ensures ReaderWellFormed(s.mem, next)
  {
    var m, pc := s.mem, reader.pc;
    match a
    case Call(_, buf) =>
      if pc.InCall() then reader
      else Reader(AtLoad, buf, |s.history|, 0, reader.latest)
    case LoadGeneration(_) =>
      if !pc.AtLoad? then reader
      else if m.generation == 0 then reader.(pc := Refused(|s.history|))
      else reader.(pc := AtLength(m.generation, |s.history|))
    case LoadLength(_) =>
      if !pc.AtLength? then reader
      else
        var length := m.lengths[pc.gen % 2];
        if length == 0 || length > |reader.buf| then reader.(pc := Refused(pc.at))
        else reader.(pc := AtCopy(pc.gen, pc.at, length, Indices(length)))
    case CopyByte(_, k) =>
      if !(pc.AtCopy? && k in pc.pending) then reader
      else reader.(buf := reader.buf[k := m.slots[m.Base(pc.gen) + k]], pc := pc.(pending := pc.pending - {k}))
    case ReloadGeneration(_) =>
      if !(pc.AtCopy? && pc.pending == {}) then reader
      else if m.generation == pc.gen then
        reader.(pc := Returned(pc.gen, pc.at, pc.length, |s.history|), latest := pc.at)
      else reader.(pc := AtLoad, retries := reader.retries + 1)
    case _ => reader
  }

  /** Any interleaving: the scheduler's choices, one action after another. */
  function Run(s: State, actions: seq<Action>): (t: State)
    requires s.WellFormed()
    ensures t.WellFormed() && |t.readers| == |s.readers| && t.mem.maxSize == s.mem.maxSize
    ensures s.history <= t.history
    decreases |actions|
  {
    if actions == [] then s else Run(Step(s, actions[0]), actions[1..])
  }

  /** What the publisher has written so far of the sample it is working on. */
  ghost predicate PublisherInv(s: State)
    requires s.WellFormed()
  {
    var p, m := s.publisher, s.mem;
    && (!p.Resting? ==> p.next == (|s.history| + 1) % U32_LIMIT)
    && (p.Writing? ==>
          forall k :: 0 <= k < |p.sample| && k !in p.pending ==> m.slots[m.Base(p.next) + k] == p.sample[k])
    && (p.Committing? ==> m.Holds(p.next, p.sample))
  }

  /** A slot that was ever published has a nonzero length from then on, even while it is overwritten. */
  ghost predicate LengthsReady(m: Memory, published: nat)
    requires m.WellFormed()
  {
    && (published >= 1 ==> m.lengths[published % 2] > 0)
    && (published >= 2 ==> m.lengths[(published + 1) % 2] > 0)
  }

  /** What a reader may rely on, in terms of the history alone. */
  ghost predicate ReaderInv(history: seq<Sample>, maxSize: nat, reader: Reader) {
    var pc := reader.pc;
    && reader.latest <= |history|
    && (pc.InCall() ==> reader.entry + reader.retries <= |history|)
    && (pc.AtLength? || pc.AtCopy? || pc.Returned? ==>
          && pc.gen == pc.at % U32_LIMIT != 0
          && reader.entry + reader.retries <= pc.at <= |history|
          && reader.latest <= pc.at)
    && (pc.AtCopy? ==> 0 < pc.length <= |reader.buf|)
    && (pc.AtCopy? && pc.at == |history| ==>
          && pc.length == |history[pc.at - 1]|
          && forall k :: 0 <= k < pc.length && k !in pc.pending ==> reader.buf[k] == history[pc.at - 1][k])
    && (pc.Refused? ==>
          && reader.entry + reader.retries <= pc.at <= |history|
          && (pc.at % U32_LIMIT == 0 || |reader.buf| < maxSize))
    && (pc.Returned? ==>
          && pc.at <= pc.end <= |history|
          && pc.end % U32_LIMIT == pc.gen
          && reader.latest == pc.at
          && pc.length <= |reader.buf|
          && (pc.end - pc.at < U32_LIMIT ==> pc.end == pc.at && reader.buf[..pc.length] == history[pc.at - 1]))
  }

  ghost predicate Inv(s: State) {
    && s.WellFormed()
    && Represents(s.mem, s.history)
    && PublisherInv(s)
    && LengthsReady(s.mem, |s.history|)
    && forall r :: 0 <= r < |s.readers| ==> ReaderInv(s.history, s.mem.maxSize, s.readers[r])
  }

  lemma ReaderInvSurvivesCommit(history: seq<Sample>, sample: Sample, maxSize: nat, reader: Reader)
    requires ReaderInv(history, maxSize, reader)
    ensures ReaderInv(history + [sample], maxSize, reader)
  {
  }

  /** Writing into the slot of the next generation leaves the latest publish alone. */
  lemma NextSlotIsFree(m: Memory, history: seq<Sample>, next: nat, k: nat, value: byte, length: nat)
    requires Represents(m, history) && next == (|history| + 1) % U32_LIMIT && k < m.maxSize && length <= m.maxSize
    ensures Represents(m.(slots := m.slots[m.Base(next) + k := value]), history)
    ensures Represents(m.(lengths := m.lengths[next % 2 := length]), history)
  {
    ParityOfGeneration(|history|);
    ParityOfGeneration(|history| + 1);
  }

  lemma WriteByteKeepsInv(s: State, k: nat)
    requires Inv(s)
    ensures Inv(Step(s, WriteByte(k)))
  {
    if s.publisher.Writing? && k in s.publisher.pending {
      NextSlotIsFree(s.mem, s.history, s.publisher.next, k, s.publisher.sample[k], 0);
    }
    hide ReaderInv, Represents;
  }

  lemma WriteLengthKeepsInv(s: State)
    requires Inv(s)
    ensures Inv(Step(s, WriteLength))
  {
    if s.publisher.Writing? {
      NextSlotIsFree(s.mem, s.history, s.publisher.next, 0, 0, |s.publisher.sample|);
      ParityOfGeneration(|s.history|);
      ParityOfGeneration(|s.history| + 1);
    }
    hide ReaderInv, Represents;
  }

  lemma CommitKeepsInv(s: State)
    requires Inv(s)
    ensures Inv(Step(s, Commit))
  {
    hide ReaderInv;
    if s.publisher.Committing? {
      ParityOfGeneration(|s.history|);
      ParityOfGeneration(|s.history| + 1);
      forall r | 0 <= r < |s.readers|
        ensures ReaderInv(s.history + [s.publisher.sample], s.mem.maxSize, s.readers[r])
      {
        ReaderInvSurvivesCommit(s.history, s.publisher.sample, s.mem.maxSize, s.readers[r]);
      }
    }
  }

  lemma ReaderStepKeepsInv(s: State, reader: Reader, a: Action)
    requires Inv(s) && ReaderInv(s.history, s.mem.maxSize, reader) && ReaderWellFormed(s.mem, reader)
    ensures ReaderInv(s.history, s.mem.maxSize, ReaderStep(s, reader, a))
  {
    hide *;
    match a
    case LoadLength(_) => LoadLengthKeepsInv(s, reader, a);
    case CopyByte(_, k) => CopyByteKeepsInv(s, reader, a);
    case ReloadGeneration(_) => ReloadKeepsInv(s, reader, a);
    case _ => OtherReaderStepKeepsInv(s, reader, a);
  }

  lemma LoadLengthKeepsInv(s: State, reader: Reader, a: Action)
    requires Inv(s) && ReaderInv(s.history, s.mem.maxSize, reader) && ReaderWellFormed(s.mem, reader) && a.LoadLength?
    ensures ReaderInv(s.history, s.mem.maxSize, ReaderStep(s, reader, a))
  {
    if reader.pc.AtLength? {
      ParityOfGeneration(reader.pc.at);
      ParityOfGeneration(|s.history|);
    }
  }

  lemma CopyByteKeepsInv(s: State, reader: Reader, a: Action)
    requires Inv(s) && ReaderInv(s.history, s.mem.maxSize, reader) && ReaderWellFormed(s.mem, reader) && a.CopyByte?
    ensures ReaderInv(s.history, s.mem.maxSize, ReaderStep(s, reader, a))
  {
    ParityOfGeneration(|s.history|);
  }

  lemma ReloadKeepsInv(s: State, reader: Reader, a: Action)
    requires Inv(s) && ReaderInv(s.history, s.mem.maxSize, reader) && ReaderWellFormed(s.mem, reader)
    requires a.ReloadGeneration?
    ensures ReaderInv(s.history, s.mem.maxSize, ReaderStep(s, reader, a))
  {
  }

  lemma OtherReaderStepKeepsInv(s: State, reader: Reader, a: Action)
    requires Inv(s) && ReaderInv(s.history, s.mem.maxSize, reader) && ReaderWellFormed(s.mem, reader)
    requires !a.LoadLength? && !a.CopyByte? && !a.ReloadGeneration?
    ensures ReaderInv(s.history, s.mem.maxSize, ReaderStep(s, reader, a))
  {
  }

  lemma StepKeepsInv(s: State, a: Action)
    requires Inv(s)
    ensures Inv(Step(s, a))
  {
    match a
    case Publish(_) => ParityOfGeneration(|s.history|);
    case WriteByte(k) => WriteByteKeepsInv(s, k);
    case WriteLength => WriteLengthKeepsInv(s);
    case Commit => CommitKeepsInv(s);
    case _ =>
      if a.r < |s.readers| {
        ReaderStepKeepsInv(s, s.readers[a.r], a);
      }
  }

  lemma InitInv(maxSize: nat, readers: nat)
    ensures Inv(Init(maxSize, readers))
  {
  }

  lemma {:induction false} RunKeepsInv(s: State, actions: seq<Action>)
    requires Inv(s)
    ensures Inv(Run(s, actions))
    decreases |actions|
  {
    hide Step;
    if actions != [] {
      StepKeepsInv(s, actions[0]);
      RunKeepsInv(Step(s, actions[0]), actions[1..]);
    }
  }

  /**
   * No torn reads: a successful copy returns exactly the bytes, length and generation of one publish,
   * which is still the latest at the final generation load. The one proviso is that fewer than 2^32
   * publishes completed between the two loads.
   */
  lemma NoTornReads(maxSize: nat, readers: nat, actions: seq<Action>, r: nat)
    requires r < readers
    ensures
      var s := Run(Init(maxSize, readers), actions);
      var reader := s.readers[r];
      reader.pc.Returned? && reader.pc.end - reader.pc.at < U32_LIMIT ==>
        && 1 <= reader.pc.at == reader.pc.end <= |s.history|
        && reader.pc.length <= |reader.buf|
        && reader.buf[..reader.pc.length] == s.history[reader.pc.at - 1]
        && reader.pc.gen == reader.pc.at % U32_LIMIT
  {
    hide Step, Run;
    InitInv(maxSize, readers);
    RunKeepsInv(Init(maxSize, readers), actions);
  }

  /** Lock-free progress: every retry is paid for by a publish that completed during the call. */
  lemma RetriesArePaidFor(maxSize: nat, readers: nat, actions: seq<Action>, r: nat)
    requires r < readers
    ensures
      var s := Run(Init(maxSize, readers), actions);
      var reader := s.readers[r];
      && (reader.pc.InCall() ==> reader.retries <= |s.history| - reader.entry)
      && (reader.pc.Returned? ==> reader.retries <= reader.pc.end - reader.entry)
      && (reader.pc.Refused? ==> reader.retries <= reader.pc.at - reader.entry)
  {
    hide Step, Run;
    InitInv(maxSize, readers);
    RunKeepsInv(Init(maxSize, readers), actions);
  }

  /**
   * With a buffer of the slot size, a finished call was refused exactly when the generation it loaded
   * was zero: before the first publish, or right after a multiple of 2^32 of them.
   */
  lemma RefusalMeansGenerationZero(maxSize: nat, readers: nat, actions: seq<Action>, r: nat)
    requires r < readers
    ensures
      var s := Run(Init(maxSize, readers), actions);
      var reader := s.readers[r];
      (reader.pc.Refused? || reader.pc.Returned?) && |reader.buf| >= maxSize ==>
        (reader.pc.Refused? <==> reader.pc.at % U32_LIMIT == 0)
  {
    hide Step, Run;
    InitInv(maxSize, readers);
    RunKeepsInv(Init(maxSize, readers), actions);
  }

  lemma LatestStep(s: State, a: Action, r: nat)
    requires Inv(s) && r < |s.readers|
    ensures s.readers[r].latest <= Step(s, a).readers[r].latest
  {
    assert ReaderInv(s.history, s.mem.maxSize, s.readers[r]);
  }

  lemma {:induction false} LatestNeverDecreases(s: State, actions: seq<Action>, r: nat)
    requires Inv(s) && r < |s.readers|
    ensures s.readers[r].latest <= Run(s, actions).readers[r].latest
    decreases |actions|
  {
    if actions != [] {
      StepKeepsInv(s, actions[0]);
      LatestStep(s, actions[0], r);
      hide Step;
      LatestNeverDecreases(Step(s, actions[0]), actions[1..], r);
    }
  }

  /** Successive successful copies by one reader never go back to an older publish. */
  lemma CopiesNeverGoBack(s: State, actions: seq<Action>, r: nat)
    requires Inv(s) && r < |s.readers| && s.readers[r].pc.Returned?
    requires Run(s, actions).readers[r].pc.Returned?
    ensures s.readers[r].pc.at <= Run(s, actions).readers[r].pc.at
  {
    LatestNeverDecreases(s, actions, r);
    RunKeepsInv(s, actions);
  }

  lemma {:induction false} RunAppend(s: State, a: seq<Action>, b: seq<Action>)
    requires s.WellFormed()
    ensures Run(s, a + b) == Run(Run(s, a), b)
    decreases |a|
  {
    if a == [] {
      assert a + b == b;
    } else {
      assert (a + b)[1..] == a[1..] + b;
      RunAppend(Step(s, a[0]), a[1..], b);
    }
  }

  lemma RunCons(s: State, a: Action, rest: seq<Action>)
    requires s.WellFormed()
    ensures Run(s, [a] + rest) == Run(Step(s, a), rest)
  {
    assert ([a] + rest)[1..] == rest;
  }

  lemma RunNone(s: State)
    requires s.WellFormed()
    ensures Run(s, []) == s
  {
  }

  lemma RunOne(s: State, a: Action)
    requires s.WellFormed()
    ensures Run(s, [a]) == Step(s, a)
  {
  }

  function WriteFrom(from: nat, n: nat): seq<Action>
    decreases n - from
  {
    if from >= n then [] else [WriteByte(from)] + WriteFrom(from + 1, n)
  }

  function PublishActions(sample: Sample): seq<Action> {
    [Publish(sample)] + (WriteFrom(0, |sample|) + [WriteLength, Commit])
  }

  function CopyFrom(r: nat, from: nat, n: nat): seq<Action>
    decreases n - from
  {
    if from >= n then [] else [CopyByte(r, from)] + CopyFrom(r, from + 1, n)
  }

  function CopyActions(r: nat, buf: Sample, n: nat): seq<Action> {
    StartActions(r, buf) + (CopyFrom(r, 0, n) + [ReloadGeneration(r)])
  }

  /** The slots once the bytes of `sample` from `from` on are written at `b`. */
  function Spliced(slots: Sample, b: nat, from: nat, sample: Sample): (next: Sample)
    requires from <= |sample| && b + |sample| <= |slots|
    ensures |next| == |slots|
  {
    slots[..b + from] + sample[from..] + slots[b + |sample|..]
  }

  lemma SpliceStep(slots: Sample, b: nat, from: nat, sample: Sample)
    requires from < |sample| && b + |sample| <= |slots|
    ensures Spliced(slots[b + from := sample[from]], b, from + 1, sample) == Spliced(slots, b, from, sample)
  {
    var next := slots[b + from := sample[from]];
    assert next[..b + from + 1] == slots[..b + from] + [sample[from]];
    assert sample[from..] == [sample[from]] + sample[from + 1..];
    assert next[b + |sample|..] == slots[b + |sample|..];
  }

  lemma SpliceDone(slots: Sample, b: nat, sample: Sample)
    requires b + |sample| <= |slots|
    ensures Spliced(slots, b, |sample|, sample) == slots
  {
  }

  lemma WriteByteStep(s: State, k: nat)
    requires s.WellFormed() && s.publisher.Writing? && k in s.publisher.pending
    ensures
      var p, m := s.publisher, s.mem;
      Step(s, WriteByte(k)) ==
      s.(mem := m.(slots := m.slots[m.Base(p.next) + k := p.sample[k]]), publisher := p.(pending := p.pending - {k}))
  {
  }

  lemma {:induction false} WriteFromRuns(s: State, from: nat)
    requires s.WellFormed() && s.publisher.Writing?
    requires forall k :: k in s.publisher.pending <==> from <= k < |s.publisher.sample|
    requires from <= |s.publisher.sample|
    ensures
      var p, m := s.publisher, s.mem;
      Run(s, WriteFrom(from, |p.sample|)) ==
      s.(mem := m.(slots := Spliced(m.slots, m.Base(p.next), from, p.sample)), publisher := p.(pending := {}))
    decreases |s.publisher.sample| - from
  {
    hide Step, Run, Spliced;
    var p, m := s.publisher, s.mem;
    var n := |p.sample|;
    if from == n {
      assert p.pending == {};
      SpliceDone(m.slots, m.Base(p.next), p.sample);
      RunNone(s);
    } else {
      WriteByteStep(s, from);
      RunCons(s, WriteByte(from), WriteFrom(from + 1, n));
      WriteFromRuns(Step(s, WriteByte(from)), from + 1);
      SpliceStep(m.slots, m.Base(p.next), from, p.sample);
    }
  }

  /** Run without interruption, the steps of a publish add up to what csyn_topic_publish does alone. */
  lemma SoloPublish(s: State, sample: Sample)
    requires s.WellFormed() && s.publisher.Resting? && s.mem.Accepts(sample)
    ensures Run(s, PublishActions(sample)) == s.(mem := s.mem.Published(sample), history := s.history + [sample])
  {
    var writes := WriteFrom(0, |sample|);
    var t := Step(s, Publish(sample));
    assert PublishActions(sample)[1..] == writes + [WriteLength, Commit];
    WriteFromRuns(t, 0);
    var u := Run(t, writes);
    RunAppend(t, writes, [WriteLength, Commit]);
    assert [WriteLength, Commit][1..] == [Commit];
    assert Run(u, [WriteLength, Commit]) == Step(Step(u, WriteLength), Commit);
    assert sample[0..] == sample;
  }

  lemma CopyByteStep(s: State, r: nat, k: nat)
    requires s.WellFormed() && r < |s.readers| && s.readers[r].pc.AtCopy? && k in s.readers[r].pc.pending
    ensures
      var reader := s.readers[r];
      var byteRead := s.mem.slots[s.mem.Base(reader.pc.gen) + k];
      Step(s, CopyByte(r, k)) ==
      s.(readers := s.readers[r := reader.(buf := reader.buf[k := byteRead],
                                           pc := reader.pc.(pending := reader.pc.pending - {k}))])
  {
  }

  lemma {:induction false} CopyFromRuns(s: State, r: nat, from: nat, n: nat)
    requires s.WellFormed() && r < |s.readers| && s.readers[r].pc.AtCopy?
    requires n == s.readers[r].pc.length && from <= n
    requires forall k :: k in s.readers[r].pc.pending ==> from <= k < n
    ensures
      var t := Run(s, CopyFrom(r, from, n));
      && t == s.(readers := s.readers[r := t.readers[r]])
      && t.readers[r] == s.readers[r].(buf := t.readers[r].buf, pc := s.readers[r].pc.(pending := {}))
      && |t.readers[r].buf| == |s.readers[r].buf|
    decreases n - from
  {
    hide Step;
    if from == n {
      assert s.readers[r].pc.pending == {};
      RunNone(s);
    } else {
      if from in s.readers[r].pc.pending {
        CopyByteStep(s, r, from);
      } else {
        CopyByteStutters(s, r, from);
      }
      RunCons(s, CopyByte(r, from), CopyFrom(r, from + 1, n));
      CopyFromRuns(Step(s, CopyByte(r, from)), r, from + 1, n);
    }
  }

  lemma CopyByteStutters(s: State, r: nat, k: nat)
    requires s.WellFormed() && r < |s.readers| && !(s.readers[r].pc.AtCopy? && k in s.readers[r].pc.pending)
    ensures Step(s, CopyByte(r, k)) == s
  {
  }

  lemma {:induction false} CopyFromStutters(s: State, r: nat, from: nat, n: nat)
    requires s.WellFormed() && r < |s.readers| && !s.readers[r].pc.AtCopy?
    ensures Run(s, CopyFrom(r, from, n)) == s
    decreases n - from
  {
    if from < n {
      assert CopyFrom(r, from, n)[1..] == CopyFrom(r, from + 1, n);
      assert Step(s, CopyByte(r, from)) == s;
      CopyFromStutters(s, r, from + 1, n);
    }
  }

  /** The state once reader r has called and loaded generation and length. */
  function Started(s: State, r: nat, buf: Sample): State
    requires s.WellFormed() && r < |s.readers|
  {
    var gen, count := s.mem.generation, |s.history|;
    var length := s.mem.lengths[gen % 2];
    var pc := if gen == 0 || length == 0 || length > |buf| then Refused(count)
              else AtCopy(gen, count, length, Indices(length));
    s.(readers := s.readers[r := Reader(pc, buf, count, 0, s.readers[r].latest)])
  }

  function StartActions(r: nat, buf: Sample): seq<Action> {
    [Call(r, buf)] + ([LoadGeneration(r)] + [LoadLength(r)])
  }

  lemma StartRuns(s: State, r: nat, buf: Sample)
    requires s.WellFormed() && r < |s.readers| && !s.readers[r].pc.InCall()
    ensures Run(s, StartActions(r, buf)) == Started(s, r, buf)
  {
    var reader := s.readers[r];
    var r1 := ReaderStep(s, reader, Call(r, buf));
    var s1 := s.(readers := s.readers[r := r1]);
    assert Step(s, Call(r, buf)) == s1;
    var r2 := ReaderStep(s1, r1, LoadGeneration(r));
    var s2 := s.(readers := s.readers[r := r2]);
    assert Step(s1, LoadGeneration(r)) == s2 by {
      assert s1.readers[r := r2] == s2.readers;
    }
    var r3 := ReaderStep(s2, r2, LoadLength(r));
    var s3 := s.(readers := s.readers[r := r3]);
    assert Step(s2, LoadLength(r)) == s3 by {
      assert s2.readers[r := r3] == s3.readers;
    }
    assert r3 == Started(s, r, buf).readers[r];
    RunCons(s, Call(r, buf), [LoadGeneration(r)] + [LoadLength(r)]);
    RunCons(s1, LoadGeneration(r), [LoadLength(r)]);
    RunOne(s2, LoadLength(r));
  }

  /** A copy that nobody disturbs returns the latest publish, unless the generation is zero or it does not fit. */
  lemma SoloCopy(s: State, r: nat, buf: Sample)
    requires Inv(s) && r < |s.readers| && !s.readers[r].pc.InCall() && s.history != []
    ensures
      var count := |s.history|;
      var sample := s.history[count - 1];
      var t := Run(s, CopyActions(r, buf, |sample|));
      && Inv(t)
      && t == s.(readers := s.readers[r := t.readers[r]])
      && t.readers[r].pc == (if count % U32_LIMIT != 0 && |sample| <= |buf|
                             then Returned(count % U32_LIMIT, count, |sample|, count) else Refused(count))
      && (t.readers[r].pc.Returned? ==> t.readers[r].buf[..|sample|] == sample)
  {
    hide Step, Run;
    var n := |s.history[|s.history| - 1]|;
    var u := Started(s, r, buf);
    RunKeepsInv(s, CopyActions(r, buf, n));
    StartRuns(s, r, buf);
    RunAppend(s, StartActions(r, buf), CopyFrom(r, 0, n) + [ReloadGeneration(r)]);
    assert s.mem.lengths[s.mem.generation % 2] == n by {
      ParityOfGeneration(|s.history|);
    }
    CopyAndReloadRuns(u, r, n);
    assert u.readers[r := Run(u, CopyAndReload(r, n)).readers[r]]
        == s.readers[r := Run(u, CopyAndReload(r, n)).readers[r]];
  }

  function CopyAndReload(r: nat, n: nat): seq<Action> {
    CopyFrom(r, 0, n) + [ReloadGeneration(r)]
  }

  /** What reloading the generation makes of a reader: finished, or back for another turn. */
  ghost predicate Reloaded(s: State, before: Reader, after: Reader)
    requires before.pc.AtCopy?
  {
    var pc, current := before.pc, s.mem.generation == before.pc.gen;
    && after.pc == (if current then Returned(pc.gen, pc.at, pc.length, |s.history|) else AtLoad)
    && after.retries == before.retries + (if current then 0 else 1)
    && after.entry == before.entry && |after.buf| == |before.buf|
  }

  lemma CopyAndReloadRuns(u: State, r: nat, n: nat)
    requires u.WellFormed() && r < |u.readers|
    requires u.readers[r].pc.AtCopy? ==> u.readers[r].pc.length == n
    ensures
      var t := Run(u, CopyAndReload(r, n));
      && t == u.(readers := u.readers[r := t.readers[r]])
      && (if u.readers[r].pc.AtCopy? then Reloaded(u, u.readers[r], t.readers[r]) else t == u)
  {
    hide Run;
    RunAppend(u, CopyFrom(r, 0, n), [ReloadGeneration(r)]);
    if u.readers[r].pc.AtCopy? {
      CopyFromRuns(u, r, 0, n);
    } else {
      CopyFromStutters(u, r, 0, n);
    }
    var v := Run(u, CopyFrom(r, 0, n));
    RunOne(v, ReloadGeneration(r));
  }

  /** How many bytes the copy under way moves, if it has got as far as the length. */
  function LengthUnderWay(s: State, r: nat): nat
    requires s.WellFormed() && r < |s.readers|
  {
    var pc := s.readers[r].pc;
    if pc.AtCopy? then pc.length else if pc.AtLength? then s.mem.lengths[pc.gen % 2] else 0
  }

  function LatestLength(s: State): nat {
    if s.history == [] then 0 else |s.history[|s.history| - 1]|
  }

  /** The length loaded next is zero or does not fit. */
  predicate Unfit(s: State, r: nat)
    requires s.WellFormed() && r < |s.readers|
  {
    s.readers[r].pc.AtLength? && !(0 < LengthUnderWay(s, r) <= |s.readers[r].buf|)
  }

  /** What is left of a turn of the loop once the generation is loaded. */
  function RestOfTurn(r: nat, n: nat): seq<Action> {
    [LoadLength(r)] + CopyAndReload(r, n)
  }

  lemma RestOfTurnRuns(u: State, r: nat)
    requires u.WellFormed() && r < |u.readers|
    ensures
      var before, t := u.readers[r], Run(u, RestOfTurn(r, LengthUnderWay(u, r)));
      var pc, after := before.pc, t.readers[r];
      && t == u.(readers := u.readers[r := after])
      && (!pc.AtLength? && !pc.AtCopy? ==> t == u)
      && (pc.AtLength? || pc.AtCopy? ==>
            var current := u.mem.generation == pc.gen;
            && after.pc == (if Unfit(u, r) then Refused(pc.at)
                            else if current then Returned(pc.gen, pc.at, LengthUnderWay(u, r), |u.history|) else AtLoad)
            && after.retries == before.retries + (if current || Unfit(u, r) then 0 else 1)
            && after.entry == before.entry && |after.buf| == |before.buf|)
  {
    var n := LengthUnderWay(u, r);
    LoadLengthRuns(u, r);
    var v := Step(u, LoadLength(r));
    hide Step, Run, Indices;
    RunCons(u, LoadLength(r), CopyAndReload(r, n));
    CopyAndReloadRuns(v, r, n);
    assert v.readers[r := Run(v, CopyAndReload(r, n)).readers[r]]
        == u.readers[r := Run(v, CopyAndReload(r, n)).readers[r]];
  }

  lemma LoadLengthRuns(u: State, r: nat)
    requires u.WellFormed() && r < |u.readers|
    ensures
      var reader, n := u.readers[r], LengthUnderWay(u, r);
      var pc := if !reader.pc.AtLength? then reader.pc
                else if Unfit(u, r) then Refused(reader.pc.at)
                else AtCopy(reader.pc.gen, reader.pc.at, n, Indices(n));
      Step(u, LoadLength(r)) == u.(readers := u.readers[r := reader.(pc := pc)])
  {
    assert u.readers[r := u.readers[r]] == u.readers;
  }

  /** The reader's own steps: what is left of its turn, and one more turn. */
  function OwnSteps(r: nat, underWay: nat, latest: nat): seq<Action> {
    RestOfTurn(r, underWay) + ([LoadGeneration(r)] + RestOfTurn(r, latest))
  }

  /** The call is in a turn whose generation a publish has overtaken. */
  predicate Overtaken(s: State, r: nat)
    requires r < |s.readers|
  {
    var pc := s.readers[r].pc;
    (pc.AtLength? || pc.AtCopy?) && pc.gen != s.mem.generation
  }

  lemma AnotherTurnRuns(u: State, r: nat)
    requires u.WellFormed() && Inv(u) && r < |u.readers| && !u.readers[r].pc.AtLength? && !u.readers[r].pc.AtCopy?
    ensures
      var before, t := u.readers[r], Run(u, [LoadGeneration(r)] + RestOfTurn(r, LatestLength(u)));
      var after := t.readers[r];
      && t == u.(readers := u.readers[r := after])
      && (!before.pc.InCall() ==> t == u)
      && (before.pc.AtLoad? ==>
            && after.pc == (if u.mem.generation == 0 || LatestLength(u) > |before.buf| then Refused(|u.history|)
                            else Returned(u.mem.generation, |u.history|, LatestLength(u), |u.history|))
            && after.retries == before.retries && after.entry == before.entry && |after.buf| == |before.buf|)
  {
    hide Step, Run, Inv, LatestLength, Indices;
    LoadGenerationRuns(u, r);
    LatestIsCurrent(u);
    var v, latest := Step(u, LoadGeneration(r)), LatestLength(u);
    RunCons(u, LoadGeneration(r), RestOfTurn(r, latest));
    if v.readers[r].pc.AtLength? {
      RestOfTurnRuns(v, r);
    } else {
      IdleRestOfTurn(v, r, latest);
    }
    assert v.readers[r := Run(v, RestOfTurn(r, latest)).readers[r]]
        == u.readers[r := Run(v, RestOfTurn(r, latest)).readers[r]];
  }

  lemma LatestIsCurrent(u: State)
    requires Inv(u) && u.mem.WellFormed()
    ensures u.mem.generation != 0 ==> u.mem.lengths[u.mem.generation % 2] == LatestLength(u) > 0
  {
    ParityOfGeneration(|u.history|);
  }

  lemma IdleRestOfTurn(v: State, r: nat, n: nat)
    requires v.WellFormed() && r < |v.readers| && !v.readers[r].pc.AtLength? && !v.readers[r].pc.AtCopy?
    ensures Run(v, RestOfTurn(r, n)) == v
  {
    LoadLengthRuns(v, r);
    assert v.readers[r := v.readers[r]] == v.readers;
    hide Step, Run;
    RunCons(v, LoadLength(r), CopyAndReload(r, n));
    CopyAndReloadRuns(v, r, n);
  }

  lemma LoadGenerationRuns(u: State, r: nat)
    requires u.WellFormed() && r < |u.readers|
    ensures
      var reader, gen, count := u.readers[r], u.mem.generation, |u.history|;
      var pc := if !reader.pc.AtLoad? then reader.pc else if gen == 0 then Refused(count) else AtLength(gen, count);
      Step(u, LoadGeneration(r)) == u.(readers := u.readers[r := reader.(pc := pc)])
  {
    assert u.readers[r := u.readers[r]] == u.readers;
  }

  /** The call takes another turn: it has not loaded a generation yet, or has one that was overtaken. */
  predicate Again(s: State, r: nat)
    requires s.WellFormed() && r < |s.readers|
  {
    s.readers[r].pc.AtLoad? || (Overtaken(s, r) && !Unfit(s, r))
  }

  /** How the call in progress ends if its own steps run now. */
  function Ending(s: State, r: nat): ReaderPc
    requires s.WellFormed() && r < |s.readers|
  {
    var pc, count, gen := s.readers[r].pc, |s.history|, s.mem.generation;
    if Again(s, r) then
      if gen == 0 || LatestLength(s) > |s.readers[r].buf| then Refused(count)
      else Returned(gen, count, LatestLength(s), count)
    else if !pc.AtLength? && !pc.AtCopy? then pc
    else if Unfit(s, r) then Refused(pc.at)
    else Returned(gen, pc.at, LengthUnderWay(s, r), count)
  }

  lemma OwnStepsRun(s: State, r: nat)
    requires s.WellFormed() && Inv(s) && r < |s.readers| && s.readers[r].pc.InCall()
    ensures
      var t := Run(s, OwnSteps(r, LengthUnderWay(s, r), LatestLength(s)));
      var before, after := s.readers[r], t.readers[r];
      && t == s.(readers := s.readers[r := after])
      && after.pc == Ending(s, r) && |after.buf| == |before.buf|
      && after.retries == before.retries + (if Overtaken(s, r) && !Unfit(s, r) then 1 else 0)
  {
    hide Step, Run, Inv, LengthUnderWay, LatestLength, Unfit, RestOfTurn;
    var n, latest := LengthUnderWay(s, r), LatestLength(s);
    RunKeepsInv(s, RestOfTurn(r, n));
    var u := Run(s, RestOfTurn(r, n));
    RunAppend(s, RestOfTurn(r, n), [LoadGeneration(r)] + RestOfTurn(r, latest));
    RestOfTurnRuns(s, r);
    SameLatest(s, u);
    AnotherTurnRuns(u, r);
    var t := Run(s, OwnSteps(r, n, latest));
    assert u.readers[r := t.readers[r]] == s.readers[r := t.readers[r]];
  }

  lemma SameLatest(s: State, u: State)
    requires s.history == u.history
    ensures LatestLength(s) == LatestLength(u)
  {
  }

  /**
   * An overtaken copy finishes: from every state in which reader r is in a call, its own steps end the call
   * and change nothing else. It is refused exactly when the length it is about to load does not fit, or, if it
   * takes another turn, when the generation is zero or the latest sample does not fit; a turn that was
   * overtaken is retried once. What it returns is the latest sample, whole, unless 2^32 or more publishes
   * completed in its turn.
   */
  lemma CallsFinish(s: State, r: nat, t: State)
    requires Inv(s) && r < |s.readers| && s.readers[r].pc.InCall()
    requires t == Run(s, OwnSteps(r, LengthUnderWay(s, r), LatestLength(s)))
    ensures Inv(t) && r < |t.readers| && t == s.(readers := s.readers[r := t.readers[r]])
    ensures t.readers[r].pc.Refused? || t.readers[r].pc.Returned?
    ensures t.readers[r].pc.Refused? <==>
            Unfit(s, r) || (Again(s, r) && (s.mem.generation == 0 || LatestLength(s) > |s.readers[r].buf|))
    ensures t.readers[r].retries == s.readers[r].retries + (if Overtaken(s, r) && !Unfit(s, r) then 1 else 0)
    ensures t.readers[r].pc.Returned? ==>
              ReturnsLatest(s, t.readers[r], if Again(s, r) then |s.history| else s.readers[r].pc.at)
  {
    RunKeepsInv(s, OwnSteps(r, LengthUnderWay(s, r), LatestLength(s)));
    OwnStepsRun(s, r);
    hide *;
    EndingIsRight(s, r, t);
  }

  lemma EndingIsRight(s: State, r: nat, t: State)
    requires s.WellFormed() && r < |s.readers| == |t.readers| && s.readers[r].pc.InCall()
    requires Inv(t) && t.history == s.history && t.readers[r].pc == Ending(s, r)
    ensures t.readers[r].pc.Refused? || t.readers[r].pc.Returned?
    ensures t.readers[r].pc.Refused? <==>
            Unfit(s, r) || (Again(s, r) && (s.mem.generation == 0 || LatestLength(s) > |s.readers[r].buf|))
    ensures t.readers[r].pc.Returned? ==>
              ReturnsLatest(s, t.readers[r], if Again(s, r) then |s.history| else s.readers[r].pc.at)
  {
    hide Inv, LengthUnderWay, LatestLength;
    if t.readers[r].pc.Returned? {
      ReturnedIsWhole(t, r);
    }
  }

  ghost predicate ReturnsLatest(s: State, reader: Reader, at: nat)
    requires reader.pc.Returned?
  {
    var count := |s.history|;
    && reader.pc.end == count && reader.pc.gen == s.mem.generation && reader.pc.at == at <= count
    && (count - at < U32_LIMIT ==>
          && at == count > 0 && reader.pc.length <= |reader.buf|
          && reader.buf[..reader.pc.length] == s.history[count - 1])
  }

  lemma ReturnedIsWhole(t: State, r: nat)
    requires Inv(t) && r < |t.readers| && t.readers[r].pc.Returned?
    ensures t.readers[r].pc.end <= |t.history| && t.readers[r].pc.at <= t.readers[r].pc.end
    ensures
      var reader := t.readers[r];
      reader.pc.end - reader.pc.at < U32_LIMIT ==>
        && 1 <= reader.pc.at == reader.pc.end && reader.pc.length <= |reader.buf|
        && reader.buf[..reader.pc.length] == t.history[reader.pc.at - 1]
  {
    assert ReaderInv(t.history, t.mem.maxSize, t.readers[r]);
  }

  function PublishTimes(sample: Sample, times: nat): seq<Action> {
    if times == 0 then [] else PublishActions(sample) + PublishTimes(sample, times - 1)
  }

  lemma {:induction false} PublishTimesRuns(s: State, sample: Sample, times: nat)
    requires s.WellFormed() && s.publisher.Resting? && s.mem.Accepts(sample)
    ensures
      var t := Run(s, PublishTimes(sample, times));
      && t.history == s.history + seq(times, _ => sample)
      && t.readers == s.readers && t.publisher.Resting?
    decreases times
  {
    hide Step, Run;
    if times == 0 {
      RunNone(s);
    } else {
      RunAppend(s, PublishActions(sample), PublishTimes(sample, times - 1));
      SoloPublish(s, sample);
      PublishTimesRuns(Run(s, PublishActions(sample)), sample, times - 1);
    }
  }

  /** One reader is interrupted half way through a copy while the generation goes all the way round. */
  function TornActions(): seq<Action> {
    PublishActions([1, 1]) + (HalfCopy() + (PublishTimes([2, 2], U32_LIMIT) + RestOfCopy()))
  }

  function HalfCopy(): seq<Action> {
    StartActions(0, [0, 0]) + [CopyByte(0, 0)]
  }

  function RestOfCopy(): seq<Action> {
    [CopyByte(0, 1)] + [ReloadGeneration(0)]
  }

  lemma HalfCopyRuns(s: State)
    requires s.WellFormed() && |s.readers| == 1 && s.readers[0].pc.Outside?
    requires s.mem.maxSize == 2 && |s.history| == 1 && s.mem.generation == 1 && s.mem.Holds(1, [1, 1])
    ensures
      var t := Run(s, HalfCopy());
      && t == s.(readers := t.readers) && |t.readers| == 1
      && t.readers[0].pc == AtCopy(1, 1, 2, {1}) && |t.readers[0].buf| == 2 && t.readers[0].buf[0] == 1
  {
    var u := Started(s, 0, [0, 0]);
    var sample: Sample := [1, 1];
    assert s.mem.slots[s.mem.Base(1) + 0] == sample[0];
    assert u.readers[0].pc == AtCopy(1, 1, 2, Indices(2));
    FirstByteRuns(u);
    hide Step, Run, Started, Indices;
    StartRuns(s, 0, [0, 0]);
    RunAppend(s, StartActions(0, [0, 0]), [CopyByte(0, 0)]);
  }

  lemma FirstByteRuns(u: State)
    requires u.WellFormed() && |u.readers| == 1 && u.readers[0].pc == AtCopy(1, 1, 2, Indices(2))
    ensures
      var t := Run(u, [CopyByte(0, 0)]);
      && t == u.(readers := t.readers) && |t.readers| == 1
      && t.readers[0].pc == AtCopy(1, 1, 2, {1})
      && |t.readers[0].buf| == |u.readers[0].buf| && t.readers[0].buf[0] == u.mem.slots[u.mem.Base(1)]
  {
    assert Indices(2) - {0} == {1};
    hide Step, Run, Indices;
    CopyByteStep(u, 0, 0);
    RunOne(u, CopyByte(0, 0));
  }

  lemma RestOfCopyRuns(s: State)
    requires s.WellFormed() && |s.readers| == 1 && s.readers[0].pc == AtCopy(1, 1, 2, {1})
    requires |s.readers[0].buf| == 2 && s.readers[0].buf[0] == 1
    requires s.mem.maxSize == 2 && s.mem.generation == 1 && s.mem.Holds(1, [2, 2])
    ensures
      var t := Run(s, RestOfCopy());
      && |t.readers| == 1 && t.readers[0].pc == Returned(1, 1, 2, |s.history|)
      && t.readers[0].buf == [1, 2] && t.history == s.history
  {
    var sample: Sample := [2, 2];
    assert s.mem.slots[s.mem.Base(1) + 1] == sample[1];
    var r1 := ReaderStep(s, s.readers[0], CopyByte(0, 1));
    assert r1.pc.pending == {};
    var s1 := s.(readers := s.readers[0 := r1]);
    assert Step(s, CopyByte(0, 1)) == s1;
    RunCons(s, CopyByte(0, 1), [ReloadGeneration(0)]);
    RunOne(s1, ReloadGeneration(0));
  }

  function FirstPublished(): State {
    Run(Init(2, 1), PublishActions([1, 1]))
  }

  lemma FirstPublishRuns()
    ensures
      var s := FirstPublished();
      && Inv(s) && |s.readers| == 1 && s.readers[0].pc.Outside? && s.publisher.Resting?
      && s.mem.maxSize == 2 && s.history == [[1, 1]]
      && s.mem.generation == 1 && s.mem.Holds(1, [1, 1])
  {
    InitInv(2, 1);
    SoloPublish(Init(2, 1), [1, 1]);
    RunKeepsInv(Init(2, 1), PublishActions([1, 1]));
    assert FirstPublished().history == [[1, 1]];
  }

  lemma RoundRuns(s: State)
    requires Inv(s) && s.publisher.Resting? && s.mem.maxSize == 2 && |s.history| == 1
    ensures
      var t := Run(s, PublishTimes([2, 2], U32_LIMIT));
      && t.readers == s.readers && t.mem.maxSize == 2
      && |t.history| == U32_LIMIT + 1 && t.history == s.history + seq(U32_LIMIT, _ => [2, 2])
      && t.mem.generation == 1 && t.mem.Holds(1, [2, 2])
  {
    hide Step, Run;
    var round := PublishTimes([2, 2], U32_LIMIT);
    PublishTimesRuns(s, [2, 2], U32_LIMIT);
    RunKeepsInv(s, round);
    var t := Run(s, round);
    assert t.history[U32_LIMIT] == [2, 2];
    assert t.mem.Holds(U32_LIMIT + 1, [2, 2]);
  }

  lemma TornRuns()
    ensures
      var t := Run(Init(2, 1), TornActions());
      && |t.readers| == 1 && t.readers[0].pc == Returned(1, 1, 2, U32_LIMIT + 1)
      && t.readers[0].buf == [1, 2]
      && t.history == [[1, 1]] + seq(U32_LIMIT, _ => [2, 2])
  {
    hide Step, Run, Inv, PublishTimes;
    var round := PublishTimes([2, 2], U32_LIMIT);
    var s1 := FirstPublished();
    FirstPublishRuns();
    RunAppend(Init(2, 1), PublishActions([1, 1]), HalfCopy() + (round + RestOfCopy()));
    RunAppend(s1, HalfCopy(), round + RestOfCopy());
    HalfCopyRuns(s1);
    RunKeepsInv(s1, HalfCopy());
    var s2 := Run(s1, HalfCopy());
    RunAppend(s2, round, RestOfCopy());
    RoundRuns(s2);
    RestOfCopyRuns(Run(s2, round));
  }

  /** The proviso of NoTornReads is needed: after exactly 2^32 publishes a copy returns bytes nobody published. */
  lemma TornAfterWrapAround()
    ensures
      var s := Run(Init(2, 1), TornActions());
      var reader := s.readers[0];
      && reader.pc.Returned? && reader.pc.end - reader.pc.at == U32_LIMIT
      && reader.pc.length == 2 && reader.buf == [1, 2] && [1, 2] !in s.history
  {
    hide Step, Run, PublishActions, PublishTimes, HalfCopy, RestOfCopy;
    TornRuns();
    var torn, first, second: Sample := [1, 2], [1, 1], [2, 2];
    assert torn[1] != first[1] && torn[0] != second[0];
  }

  /** A whole undisturbed copy with a large enough buffer, right after exactly 2^32 publishes. */
  function RefusedActions(): seq<Action> {
    PublishTimes([2, 2], U32_LIMIT) + CopyActions(0, [0, 0], 2)
  }

  /** It is refused, as if nothing had ever been published. */
  lemma RefusedAfterWrapAround()
    ensures
      var s := Run(Init(2, 1), RefusedActions());
      |s.history| == U32_LIMIT && |s.readers| == 1 && s.readers[0].pc == Refused(U32_LIMIT)
  {
    hide Step, Run, Inv, PublishTimes, CopyActions;
    var start, round := Init(2, 1), PublishTimes([2, 2], U32_LIMIT);
    InitInv(2, 1);
    RunKeepsInv(start, round);
    PublishTimesRuns(start, [2, 2], U32_LIMIT);
    RunAppend(start, round, CopyActions(0, [0, 0], 2));
    var full := Run(start, round);
    assert full.history[U32_LIMIT - 1] == [2, 2];
    SoloCopy(full, 0, [0, 0]);
  }
}
