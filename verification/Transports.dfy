/** The polling loops as the code runs them between publishes; Pollers and Bridge interleave the same steps. */
module Transports {
  import opened Bytes
  import opened Options
  import opened TopicStore

  /** The sample a poll takes from a topic: the latest, unless unresolved, unpublished, unchanged or too large. */
  ghost function Fresh(topic: Topic, last: nat, bufSize: nat): Option<Sample>
    reads topic, topic.slots, topic.lengths
    requires topic.Valid()
  {
    if && topic.info.Some? && topic.generation != 0 && topic.generation != last
       && |topic.history[|topic.history| - 1]| <= bufSize
    then Some(topic.history[|topic.history| - 1]) else None
  }

  /** put_topic_if_updated: the generation is recorded only when the put succeeds. */
  method PutTopicIfUpdated(topic: Topic, last: nat, bufSize: nat, putOk: bool)
      returns (recorded: nat, put: Option<Sample>)
    requires topic.Valid()
    ensures topic.Valid() && topic.View() == old(topic.View())
    ensures put == Fresh(topic, last, bufSize)
    ensures recorded == if put.Some? && putOk then topic.generation else last
  {
    var buf := new byte[bufSize](_ => 0);
    var generation := topic.generation;
    if topic.info == None || generation == 0 || generation == last {
      return last, None;
    }
    var ok, len, _ := topic.Copy(buf, 0);
    if !ok {
      return last, None;
    }
    put := Some(buf[..len]);
    recorded := if putOk then generation else last;
  }

  /** One pass of the session loop over the registered topics; `tx` says which are outbound. */
  method PollTopics(topics: seq<Topic>, tx: seq<bool>, last: array<nat>, bufSize: nat, putOk: seq<bool>)
      returns (puts: seq<Option<Sample>>)
    requires |tx| == |putOk| == |topics| <= last.Length
    requires forall i :: 0 <= i < |topics| ==> topics[i].Valid() && topics[i].lengths != last
    modifies last
    ensures |puts| == |topics|
    ensures forall i :: 0 <= i < |topics| ==>
              && topics[i].Valid()
              && puts[i] == (if tx[i] then Fresh(topics[i], old(last[i]), bufSize) else None)
              && last[i] == (if puts[i].Some? && putOk[i] then topics[i].generation else old(last[i]))
    ensures last[|topics|..] == old(last[|topics|..])
  {
    puts := [];
    for i := 0 to |topics|
      invariant |puts| == i
      invariant forall j :: 0 <= j < |topics| ==> topics[j].Valid()
      invariant forall j :: 0 <= j < i ==>
                  && puts[j] == (if tx[j] then Fresh(topics[j], old(last[j]), bufSize) else None)
                  && last[j] == (if puts[j].Some? && putOk[j] then topics[j].generation else old(last[j]))
      invariant forall j :: i <= j < last.Length ==> last[j] == old(last[j])
    {
      var put := None;
      if tx[i] {
        var recorded;
        recorded, put := PutTopicIfUpdated(topics[i], last[i], bufSize, putOk[i]);
        last[i] := recorded;
      }
      puts := puts + [put];
    }
  }

  /** One entry of the bridge's outbound map. */
  class TxMap {
    const topic: Topic
    var lastGeneration: nat

    constructor (topic: Topic)
      ensures this.topic == topic && lastGeneration == 0
    {
      this.topic := topic;
      lastGeneration := 0;
    }

    /**
     * mirror_tx_if_updated, given the zros generation and what reading zros gave: the publish result is
     * ignored, so a message the topic refuses still counts as mirrored.
     */
    method MirrorTxIfUpdated(generation: nat, read: Option<Sample>)
      requires topic.Valid()
      modifies this, topic`generation, topic`history, topic.slots, topic.lengths
      ensures topic.Valid()
      ensures
        var due := generation != 0 && generation != old(lastGeneration) && read.Some?;
        && lastGeneration == (if due then generation else old(lastGeneration))
        && topic.history == old(topic.history) + (if due && 0 < |read.value| <= topic.maxSize then [read.value] else [])
    {
      if generation == 0 || generation == lastGeneration {
        return;
      }
      if read == None {
        return;
      }
      var _ := topic.Publish(read.value);
      lastGeneration := generation;
    }
  }
}
