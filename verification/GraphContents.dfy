/** What a snapshot holds, said without building it: which node ids, and which links in which order. */
module GraphContents {
  import opened Options
  import opened TrafficWindow
  import opened Graph
  import AdminKeys

  /** h is g with those node ids and those links added. */
  ghost predicate Adds(g: Graph, h: Graph, ids: set<string>, links: seq<Link>) {
    h.nodes.Keys == g.nodes.Keys + ids && h.links == g.links + links
  }

  function Union<A(!new)>(xs: seq<A>, ids: A -> set<string>): (all: set<string>)
    ensures forall id :: id in all <==> exists x :: x in xs && id in ids(x)
  {
    if xs == [] then {}
    else
      var n := |xs| - 1;
      assert forall x :: x in xs <==> x in xs[..n] || x == xs[n];
      Union(xs[..n], ids) + ids(xs[n])
  }

  function Concat<A(!new)>(xs: seq<A>, links: A -> seq<Link>): (all: seq<Link>)
    ensures forall link :: link in all <==> exists x :: x in xs && link in links(x)
  {
    if xs == [] then []
    else
      var n := |xs| - 1;
      assert forall x :: x in xs <==> x in xs[..n] || x == xs[n];
      Concat(xs[..n], links) + links(xs[n])
  }

  lemma {:induction false} ConcatOfNothing<A(!new)>(xs: seq<A>, links: A -> seq<Link>)
    requires forall x :: links(x) == []
    ensures Concat(xs, links) == []
  {
    if xs != [] {
      ConcatOfNothing(xs[..|xs| - 1], links);
    }
  }

  lemma {:induction false} FoldAdds<A(!new)>(g: Graph, xs: seq<A>, f: (Graph, A) -> Graph,
                                             ids: A -> set<string>, links: A -> seq<Link>)
    requires forall h, x :: Adds(h, f(h, x), ids(x), links(x))
    ensures Adds(g, Fold(g, xs, f), Union(xs, ids), Concat(xs, links))
  {
    if xs != [] {
      var before, x := xs[..|xs| - 1], xs[|xs| - 1];
      FoldAdds(g, before, f, ids, links);
      var h := Fold(g, before, f);
      assert Adds(h, f(h, x), ids(x), links(x));
    }
  }

  function OwnId(obj: map<string, Json>): set<string> {
    var zid, whatami := StringField(obj, "zid"), StringField(obj, "whatami");
    if zid.Some? && whatami.Some? then {AdminNodeId(whatami.value, zid.value)} else {}
  }

  function ZidIds(obj: map<string, Json>, field: string, mode: string): set<string> {
    var zids := ArrayField(obj, field);
    if zids.None? then {} else set zid | zid in zids.value && zid.Text? :: AdminNodeId(mode, zid.s)
  }

  function PeerOf(session: Json): Option<string> {
    if session.Object? then StringField(session.fields, "peer") else None
  }

  function PeerId(session: Json): string
    requires PeerOf(session).Some?
  {
    AdminNodeId(OrElse(StringField(session.fields, "whatami"), "client"), PeerOf(session).value)
  }

  function PeerIds(session: Json): set<string> {
    if PeerOf(session).Some? then {PeerId(session)} else {}
  }

  function PeerLinks(routerId: string, session: Json): seq<Link> {
    if PeerOf(session).None? then [] else
    var region := OrElse(StringField(session.fields, "region"), "");
    [Link(routerId, PeerId(session), if region == "" then "session" else region, "admin")]
  }

  /** The ids of a session report: the router itself and every peer. */
  function SessionIds(obj: map<string, Json>): set<string> {
    var zid, sessions := StringField(obj, "zid"), ArrayField(obj, "sessions");
    if zid.None? || sessions.None? then {} else {AdminNodeId("router", zid.value)} + Union(sessions.value, PeerIds)
  }

  function SessionLinks(obj: map<string, Json>): seq<Link> {
    var zid, sessions := StringField(obj, "zid"), ArrayField(obj, "sessions");
    if zid.None? || sessions.None? then []
    else Concat(sessions.value, session => PeerLinks(AdminNodeId("router", zid.value), session))
  }

  /** The ids an admin payload names: its own, those in its lists, and those of its sessions. */
  function PayloadIds(value: Option<Json>): set<string> {
    if value.None? || !value.value.Object? then {} else
    var obj := value.value.fields;
    OwnId(obj) + ZidIds(obj, "routers", "router") + ZidIds(obj, "peers", "peer") + ZidIds(obj, "clients", "client")
    + SessionIds(obj)
  }

  function PayloadLinks(value: Option<Json>): seq<Link> {
    if value.None? || !value.value.Object? then [] else SessionLinks(value.value.fields)
  }

  function EntityIds(e: AdminKeys.Entity): set<string> {
    {AdminNodeId(e.mode, e.zid), EntityId(e)}
    + (if e.kind == "publisher" || e.kind == "subscriber" then {TopicId(e.expr)} else {})
  }

  function TopicIds(stats: TopicStats): set<string> { {TopicId(stats.topic)} }

  function TopicLinks(stats: TopicStats): seq<Link> {
    [Link(ZENOH, TopicId(stats.topic), Decimal(stats.messages) + " msg", "traffic")]
  }

  lemma AddsTransitively(g: Graph, h: Graph, k: Graph, ids: set<string>, links: seq<Link>,
                         moreIds: set<string>, moreLinks: seq<Link>)
    requires Adds(g, h, ids, links) && Adds(h, k, moreIds, moreLinks)
    ensures Adds(g, k, ids + moreIds, links + moreLinks)
  {
  }

  lemma AddZidsAdds(g: Graph, obj: map<string, Json>, field: string, mode: string)
    ensures Adds(g, AddZids(g, obj, field, mode), ZidIds(obj, field, mode), [])
  {
    var zids := ArrayField(obj, field);
    if zids.Some? {
      var f := (g': Graph, zid: Json) => AddZid(g', mode, zid);
      var ids := (zid: Json) => if zid.Text? then {AdminNodeId(mode, zid.s)} else {};
      var none := (zid: Json) => [];
      FoldAdds(g, zids.value, f, ids, none);
      assert Union(zids.value, ids) == ZidIds(obj, field, mode);
      ConcatOfNothing(zids.value, none);
    }
  }

  lemma AddSessionAdds(g: Graph, routerId: string, session: Json)
    ensures Adds(g, AddSession(g, routerId, session), PeerIds(session), PeerLinks(routerId, session))
  {
  }

  lemma AddRouterSessionsAdds(g: Graph, obj: map<string, Json>)
    ensures Adds(g, AddRouterSessions(g, obj), SessionIds(obj), SessionLinks(obj))
  {
    var zid, sessions := StringField(obj, "zid"), ArrayField(obj, "sessions");
    if zid.Some? && sessions.Some? {
      var routerId := AdminNodeId("router", zid.value);
      var h := InsertAdminNode(g, routerId, "router", zid.value, zid.value);
      var f := (g': Graph, session: Json) => AddSession(g', routerId, session);
      var links := (session: Json) => PeerLinks(routerId, session);
      forall g', session
        ensures Adds(g', f(g', session), PeerIds(session), links(session))
      {
        AddSessionAdds(g', routerId, session);
      }
      FoldAdds(h, sessions.value, f, PeerIds, links);
      AddsTransitively(g, h, Fold(h, sessions.value, f), {routerId}, [],
                       Union(sessions.value, PeerIds), Concat(sessions.value, links));
    }
  }

  lemma AddPayloadAdds(g: Graph, value: Option<Json>)
    ensures Adds(g, AddPayload(g, value), PayloadIds(value), PayloadLinks(value))
  {
    if value.Some? && value.value.Object? {
      var obj := value.value.fields;
      var own := OwnNode(g, obj);
      OwnNodeAdds(g, obj);
      hide AddZids, AddRouterSessions, OwnNode, ZidIds, OwnId, SessionIds, SessionLinks, Adds;
      var routers := AddZids(own, obj, "routers", "router");
      var peers := AddZids(routers, obj, "peers", "peer");
      var clients := AddZids(peers, obj, "clients", "client");
      var a, b := OwnId(obj), ZidIds(obj, "routers", "router");
      var c, d := ZidIds(obj, "peers", "peer"), ZidIds(obj, "clients", "client");
      AddZidsAdds(own, obj, "routers", "router");
      AddsTransitively(g, own, routers, a, [], b, []);
      AddZidsAdds(routers, obj, "peers", "peer");
      AddsTransitively(g, routers, peers, a + b, [], c, []);
      AddZidsAdds(peers, obj, "clients", "client");
      AddsTransitively(g, peers, clients, a + b + c, [], d, []);
      AddRouterSessionsAdds(clients, obj);
      AddsTransitively(g, clients, AddRouterSessions(clients, obj), a + b + c + d, [],
                       SessionIds(obj), SessionLinks(obj));
      assert [] + SessionLinks(obj) == SessionLinks(obj);
    }
  }

  lemma OwnNodeAdds(g: Graph, obj: map<string, Json>)
    ensures Adds(g, OwnNode(g, obj), OwnId(obj), [])
  {
  }

  lemma AddEntityAdds(g: Graph, e: AdminKeys.Entity)
    ensures Adds(g, AddEntity(g, e), EntityIds(e), LinksOfEntity(e))
  {
    hide EntityId, AdminNodeId, TopicId, LinksOfEntity;
  }

  /**
   * Nothing is dropped and nothing is invented: the nodes of a snapshot are the transport, the observed
   * topics, and whatever a payload or an entity names; its links are the observed topics', then the
   * reported sessions', then the declared entities', in order.
   */
  lemma SnapshotIsExact(connect: string, topics: seq<TopicStats>, payloads: seq<Option<Json>>,
                        entities: seq<AdminKeys.Entity>, now: nat)
    ensures
      var g := Snapshot(connect, topics, payloads, entities, now);
      && (forall id :: id in g.nodes <==>
            || id == ZENOH
            || (exists stats :: stats in topics && id == TopicId(stats.topic))
            || (exists value :: value in payloads && id in PayloadIds(value))
            || (exists e :: e in entities && id in EntityIds(e)))
      && g.links == Concat(topics, TopicLinks) + Concat(payloads, PayloadLinks) + Concat(entities, LinksOfEntity)
  {
    hide Fold, Adds, AddPayload, AddEntity, AddTopic;
    hide TopicIds, PayloadIds, EntityIds, TopicId, TopicLinks, PayloadLinks, LinksOfEntity;
    var start := Start(connect);
    var observed := WithTopics(connect, topics, now);
    var admin := Fold(observed, payloads, AddPayload);
    TopicsAdd(connect, topics, now);
    PayloadsAdd(observed, payloads);
    EntitiesAdd(admin, entities);
    AddsTransitively(start, observed, admin, Union(topics, TopicIds), Concat(topics, TopicLinks),
                     Union(payloads, PayloadIds), Concat(payloads, PayloadLinks));
    var g := Snapshot(connect, topics, payloads, entities, now);
    AddsTransitively(start, admin, g, Union(topics, TopicIds) + Union(payloads, PayloadIds),
                     Concat(topics, TopicLinks) + Concat(payloads, PayloadLinks),
                     Union(entities, EntityIds), Concat(entities, LinksOfEntity));
    StartHolds(connect, g, Union(topics, TopicIds) + Union(payloads, PayloadIds) + Union(entities, EntityIds),
               Concat(topics, TopicLinks) + Concat(payloads, PayloadLinks) + Concat(entities, LinksOfEntity));
    TopicIdsAre(topics);
  }

  lemma StartHolds(connect: string, g: Graph, ids: set<string>, links: seq<Link>)
    requires Adds(Start(connect), g, ids, links)
    ensures g.nodes.Keys == {ZENOH} + ids && g.links == links
  {
  }

  lemma TopicIdsAre(topics: seq<TopicStats>)
    ensures forall id :: id in Union(topics, TopicIds) <==>
                         exists stats :: stats in topics && id == TopicId(stats.topic)
  {
    hide TopicId;
  }

  lemma TopicsAdd(connect: string, topics: seq<TopicStats>, now: nat)
    ensures Adds(Start(connect), WithTopics(connect, topics, now), Union(topics, TopicIds), Concat(topics, TopicLinks))
  {
    var f := (g: Graph, stats: TopicStats) => AddTopic(g, stats, now);
    forall g, stats
      ensures Adds(g, f(g, stats), TopicIds(stats), TopicLinks(stats))
    {
    }
    FoldAdds(Start(connect), topics, f, TopicIds, TopicLinks);
  }

  lemma PayloadsAdd(g: Graph, payloads: seq<Option<Json>>)
    ensures Adds(g, Fold(g, payloads, AddPayload), Union(payloads, PayloadIds), Concat(payloads, PayloadLinks))
  {
    forall h, value
      ensures Adds(h, AddPayload(h, value), PayloadIds(value), PayloadLinks(value))
    {
      AddPayloadAdds(h, value);
    }
    FoldAdds(g, payloads, AddPayload, PayloadIds, PayloadLinks);
  }

  lemma EntitiesAdd(g: Graph, entities: seq<AdminKeys.Entity>)
    ensures Adds(g, Fold(g, entities, AddEntity), Union(entities, EntityIds), Concat(entities, LinksOfEntity))
  {
    forall h, e
      ensures Adds(h, AddEntity(h, e), EntityIds(e), LinksOfEntity(e))
    {
      AddEntityAdds(h, e);
    }
    FoldAdds(g, entities, AddEntity, EntityIds, LinksOfEntity);
  }

  /**
   * The "publisher" links of a snapshot are exactly those from a declared publisher to its topic, and the
   * "subscriber" links exactly those from a topic to a subscriber declared for it.
   */
  lemma DeclarationLinksAreExact(connect: string, topics: seq<TopicStats>, payloads: seq<Option<Json>>,
                                 entities: seq<AdminKeys.Entity>, now: nat, source: string, target: string)
    ensures
      var links := Snapshot(connect, topics, payloads, entities, now).links;
      && (Link(source, target, "publisher", "publisher") in links <==>
            exists e :: e in entities && e.kind == "publisher" && source == EntityId(e) && target == TopicId(e.expr))
      && (Link(source, target, "subscriber", "subscriber") in links <==>
            exists e :: e in entities && e.kind == "subscriber" && source == TopicId(e.expr) && target == EntityId(e))
  {
    var p, s := Link(source, target, "publisher", "publisher"), Link(source, target, "subscriber", "subscriber");
    SnapshotIsExact(connect, topics, payloads, entities, now);
    forall value
      ensures p !in PayloadLinks(value) && s !in PayloadLinks(value)
    {
    }
    forall stats: TopicStats
      ensures p !in TopicLinks(stats) && s !in TopicLinks(stats)
    {
    }
    hide Snapshot, EntityId, TopicId, AdminNodeId;
    forall e
      ensures p in LinksOfEntity(e) <==> e.kind == "publisher" && source == EntityId(e) && target == TopicId(e.expr)
      ensures s in LinksOfEntity(e) <==> e.kind == "subscriber" && source == TopicId(e.expr) && target == EntityId(e)
    {
    }
    hide LinksOfEntity, PayloadLinks, TopicLinks;
  }

  /** The "admin" links are exactly those from a declared entity's router to it, and the reported sessions'. */
  lemma AdminLinksAreExact(connect: string, topics: seq<TopicStats>, payloads: seq<Option<Json>>,
                           entities: seq<AdminKeys.Entity>, now: nat, source: string, target: string, caption: string)
    ensures
      var link := Link(source, target, caption, "admin");
      link in Snapshot(connect, topics, payloads, entities, now).links <==>
        || (caption == "admin"
            && exists e :: e in entities && source == AdminNodeId(e.mode, e.zid) && target == EntityId(e))
        || (exists value :: value in payloads && link in PayloadLinks(value))
  {
    var link := Link(source, target, caption, "admin");
    SnapshotIsExact(connect, topics, payloads, entities, now);
    forall stats: TopicStats
      ensures link !in TopicLinks(stats)
    {
    }
    hide Snapshot, EntityId, TopicId, AdminNodeId, PayloadLinks, TopicLinks;
    forall e
      ensures link in LinksOfEntity(e) <==>
              caption == "admin" && source == AdminNodeId(e.mode, e.zid) && target == EntityId(e)
    {
    }
    hide LinksOfEntity;
  }
}
