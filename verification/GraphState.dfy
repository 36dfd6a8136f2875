/** The graph server's state: observations come in, snapshots go out, both in place. */
module GraphState {
  import opened Options
  import opened TrafficWindow
  import opened Graph
  import AdminKeys

  /** The nodes map and links vector that a snapshot fills in place. */
  class Builder {
    var nodes: map<string, Node>
    var links: seq<Link>

    function View(): Graph
      reads this
    {
      Graph(nodes, links)
    }

    constructor (connect: string)
      ensures View() == Start(connect)
    {
      nodes := map[ZENOH := Node(ZENOH, "Zenoh", "transport", connect, 0, 0, 0.0, false)];
      links := [];
    }

    method InsertTopics(topics: seq<TopicStats>, now: nat)
      modifies this
      ensures View() == Fold(old(View()), topics, (g: Graph, stats: TopicStats) => AddTopic(g, stats, now))
    {
      ghost var f := (g: Graph, stats: TopicStats) => AddTopic(g, stats, now);
      for i := 0 to |topics|
        invariant View() == Fold(old(View()), topics[..i], f)
      {
        FoldStep(old(View()), topics, i, f);
        InsertTopic(topics[i], now);
      }
      assert topics[..|topics|] == topics;
    }

    method InsertTopic(stats: TopicStats, now: nat)
      modifies this
      ensures View() == AddTopic(old(View()), stats, now)
    {
      var stale := SaturatingSub(now, stats.lastSeenMs) > WINDOW_MS;
      var topicId := TopicId(stats.topic);
      var detail := if stats.rootType.Some? then stats.rootType.value else "unknown payload";
      nodes := nodes[topicId := Node(topicId, stats.topic, "topic", detail, stats.messages, stats.bytes,
                                     |stats.recent| as real / 5.0, stale)];
      links := links + [Link(ZENOH, topicId, Decimal(stats.messages) + " msg", "traffic")];
    }

    method OrInsertNode(id: string, node: Node)
      modifies this
      ensures View() == OrInsert(old(View()), id, node)
    {
      if id !in nodes {
        nodes := nodes[id := node];
      }
    }

    method InsertAdmin(id: string, mode: string, zid: string, detail: string)
      modifies this
      ensures View() == InsertAdminNode(old(View()), id, mode, zid, detail)
    {
      var kind := AdminKind(mode);
      OrInsertNode(id, Node(id, kind + " " + Shorten(zid, 8), kind, detail, 0, 0, 0.0, false));
    }

    method InsertZids(obj: map<string, Json>, field: string, mode: string)
      modifies this
      ensures View() == AddZids(old(View()), obj, field, mode)
    {
      var zids := ArrayField(obj, field);
      if zids == None {
        return;
      }
      ghost var f := (g: Graph, zid: Json) => AddZid(g, mode, zid);
      for i := 0 to |zids.value|
        invariant View() == Fold(old(View()), zids.value[..i], f)
      {
        FoldStep(old(View()), zids.value, i, f);
        var zid := zids.value[i];
        if zid.Text? {
          InsertAdmin(AdminNodeId(mode, zid.s), mode, zid.s, zid.s);
        }
      }
      assert zids.value[..|zids.value|] == zids.value;
    }

    method InsertSessions(routerId: string, sessions: seq<Json>)
      modifies this
      ensures View() == Fold(old(View()), sessions, (g: Graph, session: Json) => AddSession(g, routerId, session))
    {
      ghost var f := (g: Graph, session: Json) => AddSession(g, routerId, session);
      for i := 0 to |sessions|
        invariant View() == Fold(old(View()), sessions[..i], f)
      {
        FoldStep(old(View()), sessions, i, f);
        var session := sessions[i];
        if session.Object? {
          var peer := StringField(session.fields, "peer");
          if peer.Some? {
            var mode := OrElse(StringField(session.fields, "whatami"), "client");
            var region := OrElse(StringField(session.fields, "region"), "");
            var id := AdminNodeId(mode, peer.value);
            InsertAdmin(id, mode, peer.value, SessionDetail(session.fields, region, peer.value));
            links := links + [Link(routerId, id, if region == "" then "session" else region, "admin")];
          }
        }
      }
      assert sessions[..|sessions|] == sessions;
    }

    /** add_admin_topology */
    method AddAdminTopology(entries: seq<Entry>, parse: Parser)
      modifies this
      ensures View() == Fold(old(View()), Payloads(entries, parse), AddPayload)
    {
      ghost var payloads := Payloads(entries, parse);
      for i := 0 to |entries|
        invariant View() == Fold(old(View()), payloads[..i], AddPayload)
      {
        FoldStep(old(View()), payloads, i, AddPayload);
        var value := parse(entries[i].payload);
        if value.Some? && value.value.Object? {
          InsertPayload(value.value.fields);
        }
      }
      assert payloads[..|entries|] == payloads;
    }

    method InsertPayload(obj: map<string, Json>)
      modifies this
      ensures View() == AddPayload(old(View()), Some(Object(obj)))
    {
      var zid, whatami := StringField(obj, "zid"), StringField(obj, "whatami");
      if zid.Some? && whatami.Some? {
        InsertAdmin(AdminNodeId(whatami.value, zid.value), whatami.value, zid.value, zid.value);
      }
      assert View() == OwnNode(old(View()), obj);
      InsertZids(obj, "routers", "router");
      InsertZids(obj, "peers", "peer");
      InsertZids(obj, "clients", "client");
      var sessions := ArrayField(obj, "sessions");
      if zid.None? || sessions.None? {
        return;
      }
      var routerId := AdminNodeId("router", zid.value);
      InsertAdmin(routerId, "router", zid.value, zid.value);
      InsertSessions(routerId, sessions.value);
    }

    method InsertEntities(entities: seq<AdminKeys.Entity>)
      modifies this
      ensures View() == Fold(old(View()), entities, AddEntity)
    {
      for i := 0 to |entities|
        invariant View() == Fold(old(View()), entities[..i], AddEntity)
      {
        FoldStep(old(View()), entities, i, AddEntity);
        InsertEntity(entities[i]);
      }
      assert entities[..|entities|] == entities;
    }

    method InsertEntity(e: AdminKeys.Entity)
      modifies this
      ensures View() == AddEntity(old(View()), e)
    {
      var routerId := AdminNodeId(e.mode, e.zid);
      InsertAdmin(routerId, e.mode, e.zid, e.zid);
      var entityId := EntityId(e);
      OrInsertNode(entityId, Node(entityId, e.kind, e.kind, e.expr, 0, 0, 0.0, false));
      links := links + [Link(routerId, entityId, "admin", "admin")];
      if e.kind == "publisher" || e.kind == "subscriber" {
        var topicId := TopicId(e.expr);
        OrInsertNode(topicId, Node(topicId, e.expr, "topic", "declared in Zenoh admin space", 0, 0, 0.0, true));
        var source, target := entityId, topicId;
        if e.kind != "publisher" {
          source, target := topicId, entityId;
        }
        links := links + [Link(source, target, e.kind, e.kind)];
      }
    }
  }

  /** The entries of the topic map in some order of its keys. */
  function Listed(topics: map<string, TopicStats>, order: seq<string>): (listed: seq<TopicStats>)
    requires forall t :: t in order ==> t in topics
    ensures |listed| == |order|
  {
    seq(|order|, i requires 0 <= i < |order| => topics[order[i]])
  }

  /** What a topic's node shows for a history of observations. */
  ghost predicate Shows(node: Node, topic: string, history: seq<Observation>, now: nat)
    requires history != []
  {
    var last, rootType := history[|history| - 1].at, FirstRootType(history);
    && node.id == TopicId(topic) && node.caption == topic && node.kind == "topic"
    && node.detail == (if rootType.Some? then rootType.value else "unknown payload")
    && node.messages == |history|
    && node.bytes == TotalBytes(history)
    && node.rateHz == |Within(Times(history), last)| as real / 5.0
    && (node.stale <==> last + 5_000 < now)
  }

  /** One line of the topic table: the counters, and how long ago the last message came. */
  datatype TopicRow = TopicRow(topic: string, rootType: Option<string>, messages: nat, bytes: nat,
                               lastPayloadBytes: nat, ageMs: nat, rateHz5s: real)

  function RowOf(stats: TopicStats, now: nat): TopicRow {
    TopicRow(stats.topic, stats.rootType, stats.messages, stats.bytes, stats.lastPayloadBytes,
             SaturatingSub(now, stats.lastSeenMs), |stats.recent| as real / 5.0)
  }

  /** What a topic's row shows for a history of observations. */
  ghost predicate RowShows(row: TopicRow, topic: string, history: seq<Observation>, now: nat)
    requires history != []
  {
    var last := history[|history| - 1];
    && row.topic == topic
    && row.rootType == FirstRootType(history)
    && row.messages == |history|
    && row.bytes == TotalBytes(history)
    && row.lastPayloadBytes == last.payloadLen
    && row.ageMs == SaturatingSub(now, last.at)
    && row.rateHz5s == |Within(Times(history), last.at)| as real / 5.0
  }

  datatype GraphSnapshot = GraphSnapshot(uptimeMs: nat, connect: string, observedKeyexpr: string, adminEntries: nat,
                                         lastAdminPollMs: nat, lastError: Option<string>, adminError: Option<string>,
                                         graph: Graph, topics: seq<TopicRow>)

  class GraphState {
    const connect: string
    const keyexpr: string
    var topics: map<string, TopicStats>
    var adminEntries: seq<Entry>
    var lastAdminPollMs: nat
    var lastError: Option<string>
    var adminError: Option<string>
    ghost var history: map<string, seq<Observation>>
    ghost var clock: nat

    /** Every entry is what its topic's whole history of observations makes of it. */
    ghost predicate Valid()
      reads this
    {
      AllAccumulated(topics, history, clock)
    }

    constructor (connect: string, keyexpr: string)
      ensures Valid() && topics == map[] && adminEntries == [] && history == map[] && clock == 0
      ensures lastAdminPollMs == 0 && lastError == adminError == None
      ensures this.connect == connect && this.keyexpr == keyexpr
    {
      this.connect, this.keyexpr := connect, keyexpr;
      topics, adminEntries, history, clock := map[], [], map[], 0;
      lastAdminPollMs, lastError, adminError := 0, None, None;
    }

    ghost function HistoryOf(topic: string): seq<Observation>
      reads this
    {
      if topic in history then history[topic] else []
    }

    /** observe_topic, `now` being the milliseconds since start. */
    method ObserveTopic(topic: string, payloadLen: nat, rootType: Option<string>, now: nat)
      requires Valid() && clock <= now
      modifies this`topics, this`history, this`clock
      ensures Valid() && clock == now
      ensures history == old(history)[topic := old(HistoryOf(topic)) + [Observation(now, payloadLen, rootType)]]
    {
      ghost var o := Observation(now, payloadLen, rootType);
      ghost var before := HistoryOf(topic);
      AccumulateOne(topic, before, o, clock);
      hide Accumulated, After, Observed, PopOld;
      var stats := if topic in topics then topics[topic] else TopicStats(topic, rootType, 0, 0, 0, now, []);
      stats := Observe(stats, payloadLen, rootType, now);
      AccumulatedInAll(topics, history, clock, topic, stats, before + [o], now);
      topics := topics[topic := stats];
      history := history[topic := before + [o]];
      clock := now;
    }

    /** snapshot: every observed topic shows its whole history, as a node and as a row, and the graph is sound. */
    method TakeSnapshot(now: nat, order: seq<string>, parse: Parser) returns (shot: GraphSnapshot)
      requires Valid()
      requires AdminKeys.Distinct(order) && forall t :: t in order <==> t in topics
      ensures shot.graph == Snapshot(connect, Listed(topics, order), Payloads(adminEntries, parse),
                                     AdminKeys.ParseEntities(Keys(adminEntries)), now)
      ensures Sound(shot.graph)
      ensures forall t :: t in topics ==>
                TopicId(t) in shot.graph.nodes && Shows(shot.graph.nodes[TopicId(t)], t, history[t], now)
      ensures |shot.topics| == |order|
      ensures forall i :: 0 <= i < |order| ==> RowShows(shot.topics[i], order[i], history[order[i]], now)
      ensures shot == GraphSnapshot(now, connect, keyexpr, |adminEntries|, lastAdminPollMs, lastError, adminError,
                                    shot.graph, shot.topics)
    {
      var g := BuildGraph(now, order, parse);
      var listed := Listed(topics, order);
      var rows := seq(|listed|, i requires 0 <= i < |listed| => RowOf(listed[i], now));
      RowsShow(topics, order, history, clock, now);
      shot := GraphSnapshot(now, connect, keyexpr, |adminEntries|, lastAdminPollMs, lastError, adminError, g, rows);
    }

    /** The nodes and links of a snapshot. */
    method BuildGraph(now: nat, order: seq<string>, parse: Parser) returns (g: Graph)
      requires Valid()
      requires AdminKeys.Distinct(order) && forall t :: t in order <==> t in topics
      ensures g == Snapshot(connect, Listed(topics, order), Payloads(adminEntries, parse),
                            AdminKeys.ParseEntities(Keys(adminEntries)), now)
      ensures Sound(g)
      ensures forall t :: t in topics ==> TopicId(t) in g.nodes && Shows(g.nodes[TopicId(t)], t, history[t], now)
    {
      var b := new Builder(connect);
      b.InsertTopics(Listed(topics, order), now);
      b.AddAdminTopology(adminEntries, parse);
      b.InsertEntities(AdminKeys.ParseEntities(Keys(adminEntries)));
      g := b.View();
      SnapshotIsSound(connect, Listed(topics, order), Payloads(adminEntries, parse),
                      AdminKeys.ParseEntities(Keys(adminEntries)), now);
      hide Snapshot, Fold;
      forall t | t in topics
        ensures TopicId(t) in g.nodes && Shows(g.nodes[TopicId(t)], t, history[t], now)
      {
        SnapshotShows(topics, order, history, clock, t, connect, Payloads(adminEntries, parse),
                      AdminKeys.ParseEntities(Keys(adminEntries)), now);
      }
    }
  }

  ghost predicate Accumulated(topic: string, stats: TopicStats, history: seq<Observation>, clock: nat) {
    && history != [] && Nondecreasing(history) && history[|history| - 1].at <= clock
    && stats == After(topic, history)
  }

  ghost predicate AllAccumulated(topics: map<string, TopicStats>, history: map<string, seq<Observation>>, clock: nat) {
    && topics.Keys == history.Keys
    && forall t :: t in topics ==> Accumulated(t, topics[t], history[t], clock)
  }

  lemma AccumulatedLater(topic: string, stats: TopicStats, history: seq<Observation>, earlier: nat, now: nat)
    requires Accumulated(topic, stats, history, earlier) && earlier <= now
    ensures Accumulated(topic, stats, history, now)
  {
    hide After;
  }

  lemma AccumulatedInAll(topics: map<string, TopicStats>, history: map<string, seq<Observation>>, earlier: nat,
                         topic: string, stats: TopicStats, all: seq<Observation>, now: nat)
    requires AllAccumulated(topics, history, earlier)
    requires Accumulated(topic, stats, all, now) && earlier <= now
    ensures AllAccumulated(topics[topic := stats], history[topic := all], now)
  {
    hide Accumulated;
    forall t | t in topics
      ensures Accumulated(t, topics[t], history[t], now)
    {
      AccumulatedLater(t, topics[t], history[t], earlier, now);
    }
  }

  lemma NondecreasingAppend(before: seq<Observation>, o: Observation)
    requires before != [] ==> Nondecreasing(before) && before[|before| - 1].at <= o.at
    ensures Nondecreasing(before + [o])
  {
    var all, n := before + [o], |before|;
    forall i, j | 0 <= i < j < |all|
      ensures all[i].at <= all[j].at
    {
      if j == n {
        assert i < n - 1 ==> before[i].at <= before[n - 1].at;
      } else {
        assert all[i] == before[i] && all[j] == before[j];
      }
    }
  }

  lemma AccumulateOne(topic: string, before: seq<Observation>, o: Observation, clock: nat)
    requires clock <= o.at
    requires before != [] ==> Accumulated(topic, After(topic, before), before, clock)
    ensures Accumulated(topic, Observed(if before == [] then Created(topic, o) else After(topic, before), o),
                        before + [o], o.at)
  {
    hide After, Observed, Created, Nondecreasing;
    NondecreasingAppend(before, o);
    AfterOfAppend(topic, before, o);
  }

  /** The update of one entry: counters first, then the window pruned from the front. */
  method Observe(before: TopicStats, payloadLen: nat, rootType: Option<string>, now: nat) returns (stats: TopicStats)
    ensures stats == Observed(before, Observation(now, payloadLen, rootType))
  {
    stats := before;
    if stats.rootType.None? {
      stats := stats.(rootType := rootType);
    }
    stats := stats.(messages := stats.messages + 1, bytes := stats.bytes + payloadLen,
                    lastPayloadBytes := payloadLen, lastSeenMs := now);
    var recent := stats.recent + [now];
    while recent != [] && SaturatingSub(now, recent[0]) > WINDOW_MS
      invariant PopOld(recent, now) == PopOld(before.recent + [now], now)
    {
      recent := recent[1..];
    }
    stats := stats.(recent := recent);
  }

  lemma RowsShow(topics: map<string, TopicStats>, order: seq<string>, history: map<string, seq<Observation>>,
                 clock: nat, now: nat)
    requires AllAccumulated(topics, history, clock) && forall t :: t in order ==> t in topics
    ensures forall t :: t in order ==> history[t] != []
    ensures
      var listed := Listed(topics, order);
      forall i :: 0 <= i < |order| ==> RowShows(RowOf(listed[i], now), order[i], history[order[i]], now)
  {
    var listed := Listed(topics, order);
    forall i | 0 <= i < |order|
      ensures history[order[i]] != [] && RowShows(RowOf(listed[i], now), order[i], history[order[i]], now)
    {
      WindowIsFilterOfHistory(order[i], history[order[i]]);
    }
  }

  lemma SnapshotShows(topics: map<string, TopicStats>, order: seq<string>,
                      history: map<string, seq<Observation>>, clock: nat, t: string, connect: string,
                      payloads: seq<Option<Json>>, entities: seq<AdminKeys.Entity>, now: nat)
    requires AllAccumulated(topics, history, clock)
    requires AdminKeys.Distinct(order) && (forall u :: u in order <==> u in topics) && t in topics
    ensures history[t] != []
    ensures
      var g := Snapshot(connect, Listed(topics, order), payloads, entities, now);
      TopicId(t) in g.nodes && Shows(g.nodes[TopicId(t)], t, history[t], now)
  {
    hide Snapshot, TopicId;
    var listed := Listed(topics, order);
    forall i | 0 <= i < |listed|
      ensures listed[i].topic == order[i]
    {
      WindowIsFilterOfHistory(order[i], history[order[i]]);
    }
    var i :| 0 <= i < |order| && order[i] == t;
    WindowIsFilterOfHistory(t, history[t]);
    hide Accumulated, After;
    assert DistinctTopics(listed);
    ObservedTopicsKeepCounters(connect, listed, payloads, entities, now, i);
  }
}
