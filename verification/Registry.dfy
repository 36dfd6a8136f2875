/** The application's topic list: catalog resolution at init and lookup by catalog id. */
module Registry {
  import opened Options
  import opened TopicStore

  type Catalog = string -> Option<TopicInfo>

  const VEHICLE_COMMAND: TopicInfo :=
    TopicInfo(65001, "synapse/v1/topic/vehicle_command", "synapse.topic.VehicleCommandData",
              "ffc2edbf80cfc1e45fd00c6d9443bc0f", true, 40)

  /** What follows the last '/' of a key, or the whole key. */
  function LastSegment(key: string): (segment: string)
    ensures '/' !in segment
    ensures key == segment || exists prefix: string :: key == prefix + "/" + segment
    decreases |key|, 1
  {
    if '/' !in key then key
    else
      var segment := LastSegment(key[1..]);
      LastSegmentSplits(key);
      segment
  }

  lemma LastSegmentSplits(key: string)
    requires '/' in key
    ensures exists prefix: string :: key == prefix + "/" + LastSegment(key[1..])
    decreases |key|, 0
  {
    var rest := key[1..];
    if rest == LastSegment(rest) && '/' !in rest {
      assert key == [] + "/" + rest;
    } else {
      var prefix: string :| rest == prefix + "/" + LastSegment(rest);
      assert key == ([key[0]] + prefix) + "/" + LastSegment(rest);
    }
  }

  /** The catalog entry csyn_init gives to a key: the catalog's, or the legacy vehicle command. */
  function Resolve(catalog: Catalog, key: string): Option<TopicInfo> {
    var found := catalog(key);
    if found.None? && LastSegment(key) == "vehicle_command" then Some(VEHICLE_COMMAND) else found
  }

  lemma {:induction false} LastSegmentOf(prefix: string, segment: string)
    requires '/' !in segment
    ensures LastSegment(prefix + "/" + segment) == segment
    decreases |prefix|
  {
    var key := prefix + "/" + segment;
    assert key[|prefix|] == '/';
    if prefix == [] {
      assert key[1..] == segment;
    } else {
      assert key[1..] == prefix[1..] + "/" + segment;
      LastSegmentOf(prefix[1..], segment);
    }
  }

  ghost predicate NamesVehicleCommand(key: string) {
    key == "vehicle_command" || exists prefix: string :: key == prefix + "/" + "vehicle_command"
  }

  /** The catalog's entry wins; without one, exactly the keys that end in vehicle_command have the legacy one. */
  lemma ResolvesWithLegacyCommand(catalog: Catalog, key: string)
    ensures catalog(key).Some? ==> Resolve(catalog, key) == catalog(key)
    ensures catalog(key).None? ==>
              Resolve(catalog, key) == if NamesVehicleCommand(key) then Some(VEHICLE_COMMAND) else None
  {
    if NamesVehicleCommand(key) && key != "vehicle_command" {
      var prefix: string :| key == prefix + "/" + "vehicle_command";
      LastSegmentOf(prefix, "vehicle_command");
    }
    if key == LastSegment(key) == "vehicle_command" {
      assert NamesVehicleCommand(key);
    }
  }

  /** A fixed-layout entry has exactly the topic's slot size. */
  predicate SizeChecked(info: TopicInfo, maxSize: nat) {
    info.fixedLayout ==> info.payloadSize == maxSize
  }

  predicate Accepted(catalog: Catalog, topic: Topic) {
    var info := Resolve(catalog, topic.key);
    info.Some? && SizeChecked(info.value, topic.maxSize)
  }

  /** csyn_init: resolves topics in order and stops at the first that is unknown or has the wrong size. */
  method Init(topics: seq<Topic>, catalog: Catalog) returns (ok: bool, done: nat)
    modifies (set t | t in topics)`info
    ensures done <= |topics|
    ensures forall j :: 0 <= j < done ==>
              Accepted(catalog, topics[j]) && topics[j].info == Resolve(catalog, topics[j].key)
    ensures ok <==> done == |topics|
    ensures !ok ==> done < |topics| && !Accepted(catalog, topics[done])
  {
    done := 0;
    while done < |topics|
      invariant 0 <= done <= |topics|
      invariant forall j :: 0 <= j < done ==>
                  Accepted(catalog, topics[j]) && topics[j].info == Resolve(catalog, topics[j].key)
    {
      var topic := topics[done];
      topic.info := catalog(topic.key);
      var segment := LastSegment(topic.key);
      if topic.info == None && segment == "vehicle_command" {
        topic.info := Some(VEHICLE_COMMAND);
      }
      if topic.info == None {
        return false, done;
      }
      if topic.info.value.fixedLayout && topic.info.value.payloadSize != topic.maxSize {
        return false, done;
      }
      done := done + 1;
    }
    ok := true;
  }

  predicate HasId(topic: Topic, id: nat)
    reads topic`info
  {
    topic.info.Some? && topic.info.value.id == id
  }

  /** csyn_topic_by_catalog_id: the first topic with that id. */
  method FindById(topics: seq<Topic>, id: nat) returns (found: int)
    ensures -1 <= found < |topics|
    ensures found >= 0 ==> HasId(topics[found], id) && forall j :: 0 <= j < found ==> !HasId(topics[j], id)
    ensures found < 0 ==> forall j :: 0 <= j < |topics| ==> !HasId(topics[j], id)
  {
    found := 0;
    while found < |topics|
      invariant 0 <= found <= |topics|
      invariant forall j :: 0 <= j < found ==> !HasId(topics[j], id)
    {
      if HasId(topics[found], id) {
        return;
      }
      found := found + 1;
    }
    found := -1;
  }
}
