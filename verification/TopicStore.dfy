/** The latest-sample store of zephyr/src/csyn.c: what one topic holds, and its operations run alone. */
module TopicStore {
  import opened Bytes
  import opened Options

  /** The memory of one topic: two slots of maxSize bytes laid end to end, their lengths, and the generation. */
  datatype Memory = Memory(maxSize: nat, slots: Sample, lengths: seq<nat>, generation: nat)
  {
    predicate WellFormed() {
      && |slots| == 2 * maxSize
      && |lengths| == 2
      && lengths[0] <= maxSize && lengths[1] <= maxSize
      && generation < U32_LIMIT
    }

    /** Where the slot that `generation` selects by its low bit starts. */
    function Base(generation: nat): nat {
      if generation % 2 == 0 then 0 else maxSize
    }

    predicate Accepts(sample: Sample) {
      0 < |sample| <= maxSize
    }

    /** The slot selected by `generation` holds exactly `sample`. */
    predicate Holds(generation: nat, sample: Sample)
      requires WellFormed()
    {
      && Accepts(sample)
      && lengths[generation % 2] == |sample|
      && forall k :: 0 <= k < |sample| ==> slots[Base(generation) + k] == sample[k]
    }

    /** The memory after publishing `sample`: the other slot, its length, and the next generation. */
    function Published(sample: Sample): Memory
      requires WellFormed() && Accepts(sample)
    {
      var next := NextGeneration(generation);
      Memory(maxSize,
             slots[..Base(next)] + sample + slots[Base(next) + |sample|..],
             lengths[next % 2 := |sample|],
             next)
    }
  }

  function NextGeneration(generation: nat): nat {
    (generation + 1) % U32_LIMIT
  }

  /** The generation counts publishes modulo 2^32, and the latest publish sits whole in its slot. */
  ghost predicate Represents(m: Memory, history: seq<Sample>) {
    && m.WellFormed()
    && m.generation == |history| % U32_LIMIT
    && (forall i :: 0 <= i < |history| ==> m.Accepts(history[i]))
    && (history != [] ==> m.Holds(|history|, history[|history| - 1]))
  }

  /** 2^32 is even: the low bit of the stored counter is the low bit of the true count. */
  lemma ParityOfGeneration(count: nat)
    ensures (count % U32_LIMIT) % 2 == count % 2
    ensures NextGeneration(count % U32_LIMIT) == (count + 1) % U32_LIMIT
  {
  }

  lemma PublishedRepresents(m: Memory, history: seq<Sample>, sample: Sample)
    requires Represents(m, history) && m.Accepts(sample)
    ensures Represents(m.Published(sample), history + [sample])
  {
    ParityOfGeneration(|history|);
    ParityOfGeneration(|history| + 1);
  }

  /** A catalog entry, as far as the store and the transports use it. */
  datatype TopicInfo = TopicInfo(id: nat, key: string, wireType: string, schemaHash: string,
                                 fixedLayout: bool, payloadSize: nat)

  class Topic {
    const key: string
    const maxSize: nat
    var info: Option<TopicInfo>
    const slots: array<byte>
    const lengths: array<nat>
    var generation: nat
    ghost var history: seq<Sample>

    ghost predicate Valid()
      reads this, slots, lengths
    {
      && maxSize < U16_LIMIT
      && slots.Length == 2 * maxSize
      && lengths.Length == 2
      && Represents(View(), history)
    }

    function View(): Memory
      reads this, slots, lengths
    {
      Memory(maxSize, slots[..], lengths[..], generation)
    }

    constructor (key: string, maxSize: nat)
      requires maxSize < U16_LIMIT
      ensures Valid() && fresh(slots) && fresh(lengths)
      ensures this.key == key && this.maxSize == maxSize && info == None
      ensures history == [] && generation == 0
    {
      this.key := key;
      this.maxSize := maxSize;
      info := None;
      slots := new byte[2 * maxSize](_ => 0);
      lengths := new nat[2](_ => 0);
      generation := 0;
      history := [];
    }

    /** csyn_topic_publish with nobody else running. */
    method Publish(sample: Sample) returns (ok: bool)
      requires Valid()
      modifies this`generation, this`history, slots, lengths
      ensures Valid()
      ensures ok <==> 0 < |sample| <= maxSize
      ensures ok ==> View() == old(View()).Published(sample) && history == old(history) + [sample]
      ensures !ok ==> View() == old(View()) && history == old(history)
    {
      if |sample| == 0 || |sample| > maxSize {
        return false;
      }
      var next := NextGeneration(generation);
      var slot := next % 2;
      ghost var before := View();
      forall k | 0 <= k < |sample| {
        slots[slot * maxSize + k] := sample[k];
      }
      lengths[slot] := |sample|;
      generation := next;
      history := history + [sample];
      assert slot * maxSize == before.Base(next);
      assert View() == before.Published(sample);
      PublishedRepresents(before, old(history), sample);
      return true;
    }

    /**
     * csyn_topic_copy with nobody else running, into buf from `from` on: the loop reads the generation
     * on both sides of the copy.
     */
    method Copy(buf: array<byte>, from: nat) returns (ok: bool, len: nat, reported: nat)
      requires Valid() && buf != slots && from <= buf.Length
      modifies buf
      ensures Valid() && View() == old(View())
      ensures ok <==> |history| % U32_LIMIT != 0 && |history[|history| - 1]| <= buf.Length - from
      ensures ok ==> from + len <= buf.Length && buf[from..from + len] == history[|history| - 1]
      ensures ok ==> reported == generation
      ensures ok ==> buf[..from] == old(buf[..from]) && buf[from + len..] == old(buf[from + len..])
      ensures !ok ==> buf[..] == old(buf[..])
    {
      ok, len, reported := false, 0, 0;
      while !ok
        invariant Valid() && View() == old(View())
        invariant !ok ==> buf[..] == old(buf[..])
        invariant ok ==> history != [] && len == |history[|history| - 1]| <= buf.Length - from
        invariant ok ==> |history| % U32_LIMIT != 0 && reported == generation
        invariant ok ==> forall k :: 0 <= k < buf.Length ==>
                           buf[k] == if from <= k < from + len then history[|history| - 1][k - from] else old(buf[k])
        decreases !ok
      {
        var start := generation;
        if start == 0 {
          return;
        }
        ParityOfGeneration(|history|);
        var slot := start % 2;
        len := lengths[slot];
        if len == 0 || len > buf.Length - from {
          len := 0;
          return;
        }
        assert slot * maxSize == View().Base(|history|);
        forall k | 0 <= k < len {
          buf[from + k] := slots[slot * maxSize + k];
        }
        var end := generation;
        reported := start;
        ok := start == end;
      }
    }
  }
}
