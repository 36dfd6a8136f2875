/** The native_sim UDP transport: frames built in place from a topic, and received frames routed to topics. */
module NativeUdp {
  import opened Bytes
  import opened Options
  import opened TopicStore
  import opened Registry

  /** "CSYN" */
  const MAGIC: Sample := [67, 83, 89, 78]

  const HEADER: nat := 8

  datatype Parsed = Parsed(id: nat, payload: Sample)

  /** Magic, little-endian catalog id, little-endian payload length, payload. */
  function Frame(id: nat, payload: Sample): Sample {
    MAGIC + Le(id, 2) + Le(|payload|, 2) + payload
  }

  /** The checks of rx_drain on the bytes it received. */
  function Parse(datagram: Sample): Option<Parsed> {
    if |datagram| < HEADER || datagram[..4] != MAGIC then None
    else
      var id, length := FromLe(datagram[4..6]), FromLe(datagram[6..8]);
      if length + HEADER != |datagram| then None else Some(Parsed(id, datagram[HEADER..]))
  }

  /** What recv leaves of a datagram in a buffer of the given size. */
  function Received(datagram: Sample, bufSize: nat): Sample {
    if |datagram| <= bufSize then datagram else datagram[..bufSize]
  }

  /** A datagram parses to an id and a payload exactly when it is their frame. */
  lemma ParseInvertsFrame(datagram: Sample, id: nat, payload: Sample)
    ensures Parse(datagram) == Some(Parsed(id, payload)) <==>
            id < U16_LIMIT && |payload| < U16_LIMIT && datagram == Frame(id, payload)
  {
    Limits();
    if id < U16_LIMIT && |payload| < U16_LIMIT && datagram == Frame(id, payload) {
      FrameParses(id, payload);
    }
    if Parse(datagram) == Some(Parsed(id, payload)) {
      LeOfFromLe(datagram[4..6]);
      LeOfFromLe(datagram[6..8]);
      assert datagram == datagram[..4] + datagram[4..6] + datagram[6..8] + datagram[8..];
    }
  }

  /** Where the parts of a frame lie: the letters CSYN, id and length low byte first, and the payload. */
  lemma FrameLayout(id: nat, payload: Sample)
    requires id < U16_LIMIT && |payload| < U16_LIMIT
    ensures
      var f := Frame(id, payload);
      && |f| == |payload| + 8 && f[8..] == payload
      && (forall i :: 0 <= i < 4 ==> f[i] as int == "CSYN"[i] as int)
      && f[4] as int + 0x100 * f[5] as int == id
      && f[6] as int + 0x100 * f[7] as int == |payload|
  {
    LittleEndianPair(id);
    LittleEndianPair(|payload|);
    hide Le;
  }

  lemma LittleEndianPair(value: nat)
    requires value < U16_LIMIT
    ensures Le(value, 2)[0] as int + 0x100 * Le(value, 2)[1] as int == value
  {
    assert Le(value, 2) == [(value % 0x100) as byte] + Le(value / 0x100, 1)
                        == [(value % 0x100) as byte, (value / 0x100) as byte];
  }

  lemma FrameParses(id: nat, payload: Sample)
    requires id < U16_LIMIT && |payload| < U16_LIMIT
    ensures Parse(Frame(id, payload)) == Some(Parsed(id, payload))
  {
    Limits();
    FromLeOfLe(id, 2);
    FromLeOfLe(|payload|, 2);
    var d := Frame(id, payload);
    hide Le, FromLe, Limit;
    assert d[..4] == MAGIC && d[4..6] == Le(id, 2) && d[6..8] == Le(|payload|, 2) && d[8..] == payload;
  }

  /**
   * Through the receive buffer: a datagram that fits it is accepted exactly when it is a frame; a longer
   * one can only be accepted for a frame it begins with, and then loses its tail.
   */
  lemma ReceivedFrames(datagram: Sample, bufSize: nat, id: nat, payload: Sample)
    ensures Parse(Received(datagram, bufSize)) == Some(Parsed(id, payload)) && |datagram| <= bufSize ==>
            datagram == Frame(id, payload)
    ensures Parse(Received(datagram, bufSize)) == Some(Parsed(id, payload)) && |datagram| > bufSize ==>
            Frame(id, payload) == datagram[..bufSize] && |payload| + HEADER == bufSize
    ensures id < U16_LIMIT && |payload| + HEADER <= bufSize && |payload| < U16_LIMIT ==>
            Parse(Received(Frame(id, payload), bufSize)) == Some(Parsed(id, payload))
  {
    ParseInvertsFrame(Received(datagram, bufSize), id, payload);
    ParseInvertsFrame(Frame(id, payload), id, payload);
  }

  method PutLe16(value: nat, buf: array<byte>, at: nat)
    requires value < U16_LIMIT && at + 2 <= buf.Length
    modifies buf
    ensures buf[..] == old(buf[..at]) + Le(value, 2) + old(buf[at + 2..])
  {
    assert Le(value, 2) == [(value % 0x100) as byte] + Le(value / 0x100, 1)
                        == [(value % 0x100) as byte, (value / 0x100) as byte];
    buf[at] := (value % 0x100) as byte;
    buf[at + 1] := (value / 0x100 % 0x100) as byte;
  }

  method PutHeader(id: nat, length: nat, buf: array<byte>)
    requires id < U16_LIMIT && length < U16_LIMIT && HEADER <= buf.Length
    modifies buf
    ensures buf[..HEADER] == MAGIC + Le(id, 2) + Le(length, 2)
    ensures buf[HEADER..] == old(buf[HEADER..])
  {
    hide Le;
    buf[0], buf[1], buf[2], buf[3] := MAGIC[0], MAGIC[1], MAGIC[2], MAGIC[3];
    assert buf[..4] == MAGIC;
    PutLe16(id, buf, 4);
    assert buf[..4] == MAGIC && buf[4..6] == Le(id, 2);
    PutLe16(length, buf, 6);
    assert buf[..4] == MAGIC && buf[4..6] == Le(id, 2) && buf[6..8] == Le(length, 2);
    assert buf[..HEADER] == buf[..4] + buf[4..6] + buf[6..8];
  }

  /**
   * tx_topic_if_updated: builds the frame of the topic's latest sample in place and hands it to sendto,
   * unless the topic is unresolved, unpublished, unchanged since `last`, or too large for the buffer.
   */
  method TxTopicIfUpdated(topic: Topic, buf: array<byte>, last: nat) returns (recorded: nat, sent: Option<Sample>)
    requires topic.Valid() && buf != topic.slots && buf.Length >= HEADER
    requires topic.info.Some? ==> topic.info.value.id < U16_LIMIT
    modifies buf
    ensures topic.Valid() && topic.View() == old(topic.View())
    ensures sent.Some? <==> topic.info.Some? && topic.generation != 0 && topic.generation != last
                            && |topic.history[|topic.history| - 1]| + HEADER <= buf.Length
    ensures sent.Some? ==> sent.value == Frame(topic.info.value.id, topic.history[|topic.history| - 1])
    ensures recorded == if sent.Some? then topic.generation else last
  {
    var generation := topic.generation;
    if topic.info.None? || generation == 0 || generation == last {
      return last, None;
    }
    var ok, len, _ := topic.Copy(buf, HEADER);
    if !ok {
      return last, None;
    }
    assert buf[HEADER..][..len] == topic.history[|topic.history| - 1];
    PutHeader(topic.info.value.id, len, buf);
    hide Le;
    assert buf[HEADER..HEADER + len] == buf[HEADER..][..len];
    assert buf[..HEADER + len] == buf[..HEADER] + buf[HEADER..HEADER + len];
    return generation, Some(buf[..len + HEADER]);
  }

  /** Topics that share no memory. */
  ghost predicate Separate(topics: seq<Topic>) {
    forall i, j :: 0 <= i < j < |topics| ==>
      topics[i] != topics[j] && topics[i].slots != topics[j].slots && topics[i].lengths != topics[j].lengths
  }

  ghost predicate AllValid(topics: seq<Topic>)
    reads topics, set t | t in topics :: t.slots, set t | t in topics :: t.lengths
  {
    forall i :: 0 <= i < |topics| ==> topics[i].Valid()
  }

  /** Where rx_drain sends an id: the first topic with it. */
  predicate FirstWithId(topics: seq<Topic>, id: nat, target: nat)
    requires target < |topics|
    reads topics
  {
    HasId(topics[target], id) && forall j :: 0 <= j < target ==> !HasId(topics[j], id)
  }

  ghost predicate DistinctIds(topics: seq<Topic>)
    reads topics
  {
    forall i, j :: 0 <= i < j < |topics| && topics[i].info.Some? && topics[j].info.Some? ==>
      topics[i].info.value.id != topics[j].info.value.id
  }

  /**
   * One turn of rx_drain's loop: a frame's payload is published on the first topic with its id, and nowhere else;
   * with distinct catalog ids that is the one topic carrying the id.
   */
  method RxDatagram(topics: seq<Topic>, datagram: Sample, bufSize: nat) returns (target: int)
    requires Separate(topics) && AllValid(topics)
    modifies (set t | t in topics)`generation, (set t | t in topics)`history
    modifies set t | t in topics :: t.slots, set t | t in topics :: t.lengths
    ensures AllValid(topics) && -1 <= target < |topics|
    ensures
      var parsed := Parse(Received(datagram, bufSize));
      && (target >= 0 <==> parsed.Some? && exists j :: 0 <= j < |topics| && HasId(topics[j], parsed.value.id))
      && (target >= 0 ==>
            && FirstWithId(topics, parsed.value.id, target)
            && (DistinctIds(topics) ==>
                  forall j :: 0 <= j < |topics| ==> (HasId(topics[j], parsed.value.id) <==> j == target))
            && topics[target].history ==
               old(topics[target].history)
               + (if 0 < |parsed.value.payload| <= topics[target].maxSize then [parsed.value.payload] else []))
    ensures forall j :: 0 <= j < |topics| && j != target ==>
              topics[j].history == old(topics[j].history) && topics[j].View() == old(topics[j].View())
  {
    var buf := Received(datagram, bufSize);
    target := -1;
    if |buf| < HEADER || buf[..4] != MAGIC {
      return;
    }
    var id := FromLe(buf[4..6]);
    var length := FromLe(buf[6..8]);
    if length + HEADER != |buf| {
      return;
    }
    target := Route(topics, id, buf[HEADER..]);
  }

  method Route(topics: seq<Topic>, id: nat, payload: Sample) returns (target: int)
    requires Separate(topics) && AllValid(topics)
    modifies (set t | t in topics)`generation, (set t | t in topics)`history
    modifies set t | t in topics :: t.slots, set t | t in topics :: t.lengths
    ensures AllValid(topics) && -1 <= target < |topics|
    ensures target >= 0 <==> exists j :: 0 <= j < |topics| && HasId(topics[j], id)
    ensures target >= 0 ==>
              && FirstWithId(topics, id, target)
              && topics[target].history ==
                 old(topics[target].history) + (if 0 < |payload| <= topics[target].maxSize then [payload] else [])
    ensures forall j :: 0 <= j < |topics| && j != target ==>
              topics[j].history == old(topics[j].history) && topics[j].View() == old(topics[j].View())
    ensures forall j :: 0 <= j < |topics| ==> topics[j].info == old(topics[j].info)
  {
    target := FindById(topics, id);
    if target < 0 {
      return;
    }
    var _ := topics[target].Publish(payload);
  }
}
