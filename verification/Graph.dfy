/** The traffic graph: observed topics, the admin topology and declared entities become nodes and links. */
module Graph {
  import opened Options
  import opened TrafficWindow
  import AdminKeys
  import Strings

  datatype Json =
    | Null
    | Bool(b: bool)
    | Number(n: real)
    | Text(s: string)
    | Array(items: seq<Json>)
    | Object(fields: map<string, Json>)

  datatype Node = Node(id: string, caption: string, kind: string, detail: string, messages: nat, bytes: nat,
                       rateHz: real, stale: bool)

  datatype Link = Link(source: string, target: string, caption: string, kind: string)

  datatype Graph = Graph(nodes: map<string, Node>, links: seq<Link>)

  datatype Entry = Entry(key: string, payload: string)

  const ZENOH := "zenoh"

  function AdminKind(mode: string): string {
    if mode == "router" || mode == "peer" || mode == "client" then mode else "other"
  }

  function AdminNodeId(mode: string, zid: string): string {
    AdminKind(mode) + ":" + zid
  }

  function TopicId(topic: string): string {
    "topic:" + topic
  }

  function Underscored(s: string): string {
    if s == [] then [] else [if s[0] == '/' then '_' else s[0]] + Underscored(s[1..])
  }

  function EntityId(e: AdminKeys.Entity): string {
    "admin:" + e.kind + ":" + e.zid + ":" + Underscored(e.expr)
  }

  predicate Known(mode: string) { mode == "router" || mode == "peer" || mode == "client" }

  /** Nodes of known modes have the id their mode and zid spell, and share none; all other modes are one. */
  lemma AdminIdsTellApart(mode: string, zid: string, mode': string, zid': string)
    ensures Known(mode) ==> AdminNodeId(mode, zid) == mode + ":" + zid
    ensures !Known(mode) ==> AdminNodeId(mode, zid) == "other:" + zid
    ensures AdminNodeId(mode, zid) == AdminNodeId(mode', zid') <==>
            zid == zid' && (mode == mode' || (!Known(mode) && !Known(mode')))
  {
    assert !Known(mode) ==> "other" + ":" + zid == "other:" + zid;
    if AdminNodeId(mode, zid) == AdminNodeId(mode', zid') {
      Strings.CutAt(':', AdminKind(mode), AdminKind(mode'), zid, zid');
    }
  }

  /** Entities of colon-free kind and zid share an id exactly when kind, zid and the underscored expression agree. */
  lemma EntityIdsTellApart(e: AdminKeys.Entity, f: AdminKeys.Entity)
    requires ':' !in e.kind && ':' !in f.kind && ':' !in e.zid && ':' !in f.zid
    ensures EntityId(e) == EntityId(f) <==>
            e.kind == f.kind && e.zid == f.zid && Underscored(e.expr) == Underscored(f.expr)
  {
    if EntityId(e) == EntityId(f) {
      var a, b := e.zid + ":" + Underscored(e.expr), f.zid + ":" + Underscored(f.expr);
      assert EntityId(e) == "admin" + ":" + (e.kind + ":" + a);
      assert EntityId(f) == "admin" + ":" + (f.kind + ":" + b);
      hide EntityId, Underscored;
      Strings.CutAt(':', "admin", "admin", e.kind + ":" + a, f.kind + ":" + b);
      Strings.CutAt(':', e.kind, f.kind, a, b);
      Strings.CutAt(':', e.zid, f.zid, Underscored(e.expr), Underscored(f.expr));
    }
  }

  lemma {:induction false} UnderscoredAt(s: string, i: nat)
    requires i < |s|
    ensures |Underscored(s)| == |s| && Underscored(s)[i] == if s[i] == '/' then '_' else s[i]
  {
    if |s| > 1 {
      UnderscoredAt(s[1..], if i > 0 then i - 1 else 0);
    }
  }

  /** At most `limit` bytes of a text; the original returns only if a character ends at that byte. */
  function Shorten(s: string, limit: nat): string {
    if Strings.Utf8Length(s) <= limit then s else Strings.Head(s, limit) + "..."
  }

  function Decimal(n: nat): string {
    if n < 10 then ["0123456789"[n]] else Decimal(n / 10) + ["0123456789"[n % 10]]
  }

  function DecimalValue(digits: string): int {
    if digits == [] then 0
    else 10 * DecimalValue(digits[..|digits| - 1]) + (digits[|digits| - 1] as int - '0' as int)
  }

  /** The decimal digits of a number mean that number. */
  lemma {:induction false} DecimalMeansNumber(n: nat)
    ensures DecimalValue(Decimal(n)) == n
  {
    assert "0123456789"[n % 10] as int - '0' as int == n % 10;
    if n >= 10 {
      DecimalMeansNumber(n / 10);
      assert Decimal(n)[..|Decimal(n)| - 1] == Decimal(n / 10);
    } else {
      assert Decimal(n)[..0] == [];
    }
  }

  function StringField(obj: map<string, Json>, field: string): Option<string> {
    if field in obj && obj[field].Text? then Some(obj[field].s) else None
  }

  function ArrayField(obj: map<string, Json>, field: string): Option<seq<Json>> {
    if field in obj && obj[field].Array? then Some(obj[field].items) else None
  }

  /** entry(id).or_insert: a node already there is kept. */
  function OrInsert(g: Graph, id: string, node: Node): Graph {
    if id in g.nodes then g else g.(nodes := g.nodes[id := node])
  }

  function PlainNode(id: string, caption: string, kind: string, detail: string, stale: bool): Node {
    Node(id, caption, kind, detail, 0, 0, 0.0, stale)
  }

  function InsertAdminNode(g: Graph, id: string, mode: string, zid: string, detail: string): Graph {
    OrInsert(g, id, PlainNode(id, AdminKind(mode) + " " + Shorten(zid, 8), AdminKind(mode), detail, false))
  }

  function Push(g: Graph, link: Link): Graph {
    g.(links := g.links + [link])
  }

  /** What a loop over `xs` that applies f at every turn leaves of g. */
  function Fold<A>(g: Graph, xs: seq<A>, f: (Graph, A) -> Graph): Graph {
    if xs == [] then g else f(Fold(g, xs[..|xs| - 1], f), xs[|xs| - 1])
  }

  lemma FoldStep<A>(g: Graph, xs: seq<A>, i: nat, f: (Graph, A) -> Graph)
    requires i < |xs|
    ensures Fold(g, xs[..i + 1], f) == f(Fold(g, xs[..i], f), xs[i])
  {
    assert xs[..i + 1][..i] == xs[..i];
  }

  function Start(connect: string): Graph {
    Graph(map[ZENOH := Node(ZENOH, "Zenoh", "transport", connect, 0, 0, 0.0, false)], [])
  }

  function TopicNode(stats: TopicStats, now: nat): Node {
    Node(TopicId(stats.topic), stats.topic, "topic",
         if stats.rootType.Some? then stats.rootType.value else "unknown payload",
         stats.messages, stats.bytes, |stats.recent| as real / 5.0,
         SaturatingSub(now, stats.lastSeenMs) > WINDOW_MS)
  }

  function AddTopic(g: Graph, stats: TopicStats, now: nat): Graph {
    Graph(g.nodes[TopicId(stats.topic) := TopicNode(stats, now)],
          g.links + [Link(ZENOH, TopicId(stats.topic), Decimal(stats.messages) + " msg", "traffic")])
  }

  function AddZid(g: Graph, mode: string, zid: Json): Graph {
    if zid.Text? then InsertAdminNode(g, AdminNodeId(mode, zid.s), mode, zid.s, zid.s) else g
  }

  /** The "src -> dst" texts of a session's links. */
  function RenderedLinks(links: seq<Json>): seq<string> {
    if links == [] then []
    else
      var before, link := RenderedLinks(links[..|links| - 1]), links[|links| - 1];
      if link.Object? && StringField(link.fields, "src").Some? && StringField(link.fields, "dst").Some?
      then before + [StringField(link.fields, "src").value + " -> " + StringField(link.fields, "dst").value]
      else before
  }

  function Commas(parts: seq<string>): string {
    if parts == [] then [] else if |parts| == 1 then parts[0] else parts[0] + ", " + Commas(parts[1..])
  }

  function SessionLinks(session: map<string, Json>): Option<string> {
    var links := ArrayField(session, "links");
    if links.None? || RenderedLinks(links.value) == [] then None else Some(Commas(RenderedLinks(links.value)))
  }

  function SessionDetail(session: map<string, Json>, region: string, peer: string): string {
    match SessionLinks(session)
    case Some(links) => if region == "" then links else region + "; " + links
    case None => if region == "" then peer else region
  }

  /** The links of a session that name both their ends. */
  predicate Renders(link: Json, text: string) {
    && link.Object? && StringField(link.fields, "src").Some? && StringField(link.fields, "dst").Some?
    && text == StringField(link.fields, "src").value + " -> " + StringField(link.fields, "dst").value
  }

  lemma {:induction false} EveryLinkIsRendered(links: seq<Json>)
    ensures forall text :: text in RenderedLinks(links) <==> exists link :: link in links && Renders(link, text)
  {
    if links != [] {
      var n := |links| - 1;
      EveryLinkIsRendered(links[..n]);
      assert forall link :: link in links <==> link in links[..n] || link == links[n];
      assert forall text :: text in RenderedLinks(links) <==>
                            text in RenderedLinks(links[..n]) || Renders(links[n], text);
      hide Renders, RenderedLinks;
    }
  }

  /**
   * A session's detail holds its region, if it names one, and all its links, if it has any; the peer stands in
   * when it has neither.
   */
  lemma SessionDetailParts(session: map<string, Json>, region: string, peer: string)
    ensures
      var links := SessionLinks(session);
      var parts := (if region != "" then [region] else []) + (if links.Some? then [links.value] else []);
      SessionDetail(session, region, peer) ==
      if |parts| == 0 then peer else if |parts| == 1 then parts[0] else parts[0] + "; " + parts[1]
  {
  }

  function OrElse(o: Option<string>, default: string): string {
    if o.Some? then o.value else default
  }

  function AddSession(g: Graph, routerId: string, session: Json): Graph {
    if !session.Object? then g else
    var peer := StringField(session.fields, "peer");
    if peer.None? then g else
    var mode := OrElse(StringField(session.fields, "whatami"), "client");
    var region := OrElse(StringField(session.fields, "region"), "");
    var id := AdminNodeId(mode, peer.value);
    Push(InsertAdminNode(g, id, mode, peer.value, SessionDetail(session.fields, region, peer.value)),
         Link(routerId, id, if region == "" then "session" else region, "admin"))
  }

  function AddZids(g: Graph, obj: map<string, Json>, field: string, mode: string): Graph {
    var zids := ArrayField(obj, field);
    if zids.None? then g else Fold(g, zids.value, (g', zid) => AddZid(g', mode, zid))
  }

  function AddRouterSessions(g: Graph, obj: map<string, Json>): Graph {
    var zid, sessions := StringField(obj, "zid"), ArrayField(obj, "sessions");
    if zid.None? || sessions.None? then g else
    var routerId := AdminNodeId("router", zid.value);
    Fold(InsertAdminNode(g, routerId, "router", zid.value, zid.value), sessions.value,
         (g', session) => AddSession(g', routerId, session))
  }

  function OwnNode(g: Graph, obj: map<string, Json>): Graph {
    var zid, whatami := StringField(obj, "zid"), StringField(obj, "whatami");
    if zid.Some? && whatami.Some?
    then InsertAdminNode(g, AdminNodeId(whatami.value, zid.value), whatami.value, zid.value, zid.value)
    else g
  }

  /** One admin payload: its own node, the zids it lists, and its sessions. */
  function AddPayload(g: Graph, value: Option<Json>): Graph {
    if value.None? || !value.value.Object? then g else
    var obj := value.value.fields;
    AddRouterSessions(AddZids(AddZids(AddZids(OwnNode(g, obj), obj, "routers", "router"), obj, "peers", "peer"),
                              obj, "clients", "client"), obj)
  }

  function DeclaredTopic(topic: string): Node {
    PlainNode(TopicId(topic), topic, "topic", "declared in Zenoh admin space", true)
  }

  /** The links of a declared entity: from its router, and to or from its topic. */
  function LinksOfEntity(e: AdminKeys.Entity): seq<Link> {
    [Link(AdminNodeId(e.mode, e.zid), EntityId(e), "admin", "admin")]
    + (if e.kind == "publisher" then [Link(EntityId(e), TopicId(e.expr), e.kind, e.kind)]
       else if e.kind == "subscriber" then [Link(TopicId(e.expr), EntityId(e), e.kind, e.kind)]
       else [])
  }

  function EntityNodes(g: Graph, e: AdminKeys.Entity): Graph {
    var g1 := InsertAdminNode(g, AdminNodeId(e.mode, e.zid), e.mode, e.zid, e.zid);
    var g2 := OrInsert(g1, EntityId(e), PlainNode(EntityId(e), e.kind, e.kind, e.expr, false));
    if e.kind == "publisher" || e.kind == "subscriber" then OrInsert(g2, TopicId(e.expr), DeclaredTopic(e.expr)) else g2
  }

  function AddEntity(g: Graph, e: AdminKeys.Entity): Graph {
    var h := EntityNodes(g, e);
    h.(links := h.links + LinksOfEntity(e))
  }

  function Snapshot(connect: string, topics: seq<TopicStats>, payloads: seq<Option<Json>>,
                    entities: seq<AdminKeys.Entity>, now: nat): Graph
  {
    var observed := Fold(Start(connect), topics, (g, stats) => AddTopic(g, stats, now));
    Fold(Fold(observed, payloads, AddPayload), entities, AddEntity)
  }

  /** An admin node's label: its kind and the first eight bytes of its zid. */
  ghost predicate AdminLabel(n: Node, mode: string, zid: string) {
    && n.id == AdminNodeId(mode, zid)
    && n.kind == AdminKind(mode)
    && n.caption == AdminKind(mode) + " " + Shorten(zid, 8)
    && !n.stale
  }

  ghost predicate EntityLabel(n: Node, e: AdminKeys.Entity) {
    n.id == EntityId(e) && n.kind == e.kind && n.caption == e.kind && n.detail == e.expr && !n.stale
  }

  ghost predicate TopicLabel(n: Node) {
    n.id == TopicId(n.caption) && n.kind == "topic"
  }

  /** A node's id, kind and label belong together: the transport, a topic, an admin node, or a declared entity. */
  ghost predicate Labelled(n: Node) {
    || (n.id == ZENOH && n.caption == "Zenoh" && n.kind == "transport")
    || TopicLabel(n)
    || (exists mode, zid :: AdminLabel(n, mode, zid))
    || (exists e: AdminKeys.Entity :: EntityLabel(n, e))
  }

  /** Every node is stored under its own id and labelled accordingly, and every link joins nodes of the graph. */
  ghost predicate Sound(g: Graph) {
    && (forall id :: id in g.nodes ==> g.nodes[id].id == id && Labelled(g.nodes[id]))
    && (forall i :: 0 <= i < |g.links| ==> g.links[i].source in g.nodes && g.links[i].target in g.nodes)
  }

  /** Nodes of g are kept as they are, and its links come first. */
  ghost predicate Extends(g: Graph, h: Graph) {
    && (forall id :: id in g.nodes ==> id in h.nodes && h.nodes[id] == g.nodes[id])
    && g.links <= h.links
  }

  /** A sound graph that only adds to a sound one. */
  ghost predicate Grows(g: Graph, h: Graph) {
    Sound(h) && Extends(g, h)
  }

  /** A step that only grows sound graphs which have the given node. */
  ghost predicate Careful<A(!new)>(f: (Graph, A) -> Graph, anchor: string) {
    forall g, x :: Sound(g) && anchor in g.nodes ==> Grows(g, f(g, x))
  }

  lemma GrowsTransitively(g: Graph, h: Graph, k: Graph)
    requires Grows(g, h) && Grows(h, k)
    ensures Grows(g, k)
  {
    assert forall i :: 0 <= i < |h.links| ==> k.links[i] == h.links[i];
  }

  lemma {:induction false} FoldIsCareful<A(!new)>(g: Graph, xs: seq<A>, f: (Graph, A) -> Graph, anchor: string)
    requires Sound(g) && anchor in g.nodes && Careful(f, anchor)
    ensures Grows(g, Fold(g, xs, f))
  {
    if xs != [] {
      FoldIsCareful(g, xs[..|xs| - 1], f, anchor);
      var before := Fold(g, xs[..|xs| - 1], f);
      GrowsTransitively(g, before, f(before, xs[|xs| - 1]));
    }
  }

  lemma InsertGrows(g: Graph, id: string, node: Node)
    requires Sound(g) && node.id == id && Labelled(node)
    ensures Grows(g, OrInsert(g, id, node)) && id in OrInsert(g, id, node).nodes
  {
  }

  lemma AdminNodeGrows(g: Graph, mode: string, zid: string, detail: string)
    requires Sound(g)
    ensures
      var id := AdminNodeId(mode, zid);
      var h := InsertAdminNode(g, id, mode, zid, detail);
      Grows(g, h) && id in h.nodes
  {
    var id, kind := AdminNodeId(mode, zid), AdminKind(mode);
    var node := PlainNode(id, kind + " " + Shorten(zid, 8), kind, detail, false);
    assert AdminLabel(node, mode, zid);
    hide AdminLabel, AdminNodeId, AdminKind, Shorten, Sound, PlainNode;
    assert node.id == id && Labelled(node) by {
      PlainNodeId(id, kind + " " + Shorten(zid, 8), kind, detail);
    }
    hide Labelled, OrInsert;
    InsertGrows(g, id, node);
  }

  lemma PlainNodeId(id: string, caption: string, kind: string, detail: string)
    ensures PlainNode(id, caption, kind, detail, false).id == id
  {
  }

  lemma AddZidsGrows(g: Graph, obj: map<string, Json>, field: string, mode: string)
    requires Sound(g) && ZENOH in g.nodes
    ensures Grows(g, AddZids(g, obj, field, mode))
  {
    var zids := ArrayField(obj, field);
    if zids.Some? {
      var f := (g': Graph, zid: Json) => AddZid(g', mode, zid);
      forall g', zid | Sound(g')
        ensures Grows(g', f(g', zid))
      {
        if zid.Text? {
          AdminNodeGrows(g', mode, zid.s, zid.s);
        }
      }
      FoldIsCareful(g, zids.value, f, ZENOH);
    }
  }

  lemma PushGrows(g: Graph, link: Link)
    requires Sound(g) && link.source in g.nodes && link.target in g.nodes
    ensures Grows(g, Push(g, link))
  {
  }

  lemma AddSessionGrows(g: Graph, routerId: string, session: Json)
    requires Sound(g) && routerId in g.nodes
    ensures Grows(g, AddSession(g, routerId, session))
  {
    if session.Object? && StringField(session.fields, "peer").Some? {
      var peer := StringField(session.fields, "peer").value;
      var mode := OrElse(StringField(session.fields, "whatami"), "client");
      var region := OrElse(StringField(session.fields, "region"), "");
      var id, detail := AdminNodeId(mode, peer), SessionDetail(session.fields, region, peer);
      var link := Link(routerId, id, if region == "" then "session" else region, "admin");
      var h := InsertAdminNode(g, id, mode, peer, detail);
      AdminNodeGrows(g, mode, peer, detail);
      PushGrows(h, link);
      GrowsTransitively(g, h, Push(h, link));
    }
  }

  lemma AddRouterSessionsGrows(g: Graph, obj: map<string, Json>)
    requires Sound(g)
    ensures Grows(g, AddRouterSessions(g, obj))
  {
    var zid, sessions := StringField(obj, "zid"), ArrayField(obj, "sessions");
    if zid.Some? && sessions.Some? {
      var routerId := AdminNodeId("router", zid.value);
      var f := (g': Graph, session: Json) => AddSession(g', routerId, session);
      AdminNodeGrows(g, "router", zid.value, zid.value);
      var h := InsertAdminNode(g, routerId, "router", zid.value, zid.value);
      forall g', session | Sound(g') && routerId in g'.nodes
        ensures Grows(g', f(g', session))
      {
        AddSessionGrows(g', routerId, session);
      }
      FoldIsCareful(h, sessions.value, f, routerId);
      GrowsTransitively(g, h, Fold(h, sessions.value, f));
    }
  }

  lemma AddPayloadGrows(g: Graph, value: Option<Json>)
    requires Sound(g) && ZENOH in g.nodes
    ensures Grows(g, AddPayload(g, value))
  {
    if value.Some? && value.value.Object? {
      var obj := value.value.fields;
      var own := OwnNode(g, obj);
      OwnNodeGrows(g, obj);
      hide InsertAdminNode, AddZids, AddRouterSessions, OwnNode;
      var routers := AddZids(own, obj, "routers", "router");
      var peers := AddZids(routers, obj, "peers", "peer");
      var clients := AddZids(peers, obj, "clients", "client");
      AddZidsGrows(own, obj, "routers", "router");
      GrowsTransitively(g, own, routers);
      AddZidsGrows(routers, obj, "peers", "peer");
      GrowsTransitively(g, routers, peers);
      AddZidsGrows(peers, obj, "clients", "client");
      GrowsTransitively(g, peers, clients);
      AddRouterSessionsGrows(clients, obj);
      GrowsTransitively(g, clients, AddRouterSessions(clients, obj));
    }
  }

  lemma OwnNodeGrows(g: Graph, obj: map<string, Json>)
    requires Sound(g)
    ensures Grows(g, OwnNode(g, obj))
  {
    var zid, whatami := StringField(obj, "zid"), StringField(obj, "whatami");
    if zid.Some? && whatami.Some? {
      AdminNodeGrows(g, whatami.value, zid.value, zid.value);
    }
  }

  /** The nodes an entity brings: its router, itself, and its topic if it publishes or subscribes. */
  lemma EntityNodesGrow(g: Graph, e: AdminKeys.Entity)
    requires Sound(g)
    ensures
      var h := EntityNodes(g, e);
      && Grows(g, h) && h.links == g.links
      && AdminNodeId(e.mode, e.zid) in h.nodes && EntityId(e) in h.nodes
      && (e.kind == "publisher" || e.kind == "subscriber" ==> TopicId(e.expr) in h.nodes)
  {
    var g1 := InsertAdminNode(g, AdminNodeId(e.mode, e.zid), e.mode, e.zid, e.zid);
    var own, topic := PlainNode(EntityId(e), e.kind, e.kind, e.expr, false), DeclaredTopic(e.expr);
    assert EntityLabel(own, e) && TopicLabel(topic);
    assert own.id == EntityId(e) && topic.id == TopicId(e.expr);
    hide EntityLabel, TopicLabel, EntityId, AdminNodeId, TopicId, PlainNode, DeclaredTopic, Sound;
    assert Labelled(own) && Labelled(topic);
    hide Labelled;
    AdminNodeGrows(g, e.mode, e.zid, e.zid);
    InsertGrows(g1, EntityId(e), own);
    InsertGrows(OrInsert(g1, EntityId(e), own), TopicId(e.expr), topic);
  }

  lemma AppendGrows(g: Graph, h: Graph, links: seq<Link>)
    requires Grows(g, h) && forall l :: l in links ==> l.source in h.nodes && l.target in h.nodes
    ensures Grows(g, h.(links := h.links + links))
  {
    hide Labelled;
  }

  lemma AddEntityGrows(g: Graph, e: AdminKeys.Entity)
    requires Sound(g)
    ensures Grows(g, AddEntity(g, e))
  {
    EntityNodesGrow(g, e);
    hide EntityNodes, EntityId, AdminNodeId, TopicId, Grows, Sound;
    AppendGrows(g, EntityNodes(g, e), LinksOfEntity(e));
  }

  lemma PayloadsGrow(g: Graph, payloads: seq<Option<Json>>)
    requires Sound(g) && ZENOH in g.nodes
    ensures Grows(g, Fold(g, payloads, AddPayload))
  {
    forall g', value | Sound(g') && ZENOH in g'.nodes
      ensures Grows(g', AddPayload(g', value))
    {
      AddPayloadGrows(g', value);
    }
    FoldIsCareful(g, payloads, AddPayload, ZENOH);
  }

  lemma EntitiesGrow(g: Graph, entities: seq<AdminKeys.Entity>)
    requires Sound(g) && ZENOH in g.nodes
    ensures Grows(g, Fold(g, entities, AddEntity))
  {
    forall g', e | Sound(g') && ZENOH in g'.nodes
      ensures Grows(g', AddEntity(g', e))
    {
      AddEntityGrows(g', e);
    }
    FoldIsCareful(g, entities, AddEntity, ZENOH);
  }

  predicate DistinctTopics(topics: seq<TopicStats>) {
    forall i, j :: 0 <= i < j < |topics| ==> topics[i].topic != topics[j].topic
  }

  function WithTopics(connect: string, topics: seq<TopicStats>, now: nat): Graph {
    Fold(Start(connect), topics, (g, stats) => AddTopic(g, stats, now))
  }

  lemma TopicIdIsInjective(a: string, b: string)
    ensures TopicId(a) == TopicId(b) ==> a == b
    ensures TopicId(a) != ZENOH
  {
    assert TopicId(a)[|"topic:"|..] == a && TopicId(b)[|"topic:"|..] == b;
    assert TopicId(a)[0] == 't';
  }

  lemma WithTopicsStep(connect: string, topics: seq<TopicStats>, now: nat)
    requires topics != []
    ensures WithTopics(connect, topics, now) ==
            AddTopic(WithTopics(connect, topics[..|topics| - 1], now), topics[|topics| - 1], now)
  {
  }

  lemma AddTopicIsSound(g: Graph, stats: TopicStats, now: nat)
    requires Sound(g) && ZENOH in g.nodes
    ensures Sound(AddTopic(g, stats, now)) && ZENOH in AddTopic(g, stats, now).nodes
  {
    TopicIdIsInjective(stats.topic, stats.topic);
  }

  lemma {:induction false} TopicsAreSound(connect: string, topics: seq<TopicStats>, now: nat)
    ensures Sound(WithTopics(connect, topics, now)) && ZENOH in WithTopics(connect, topics, now).nodes
  {
    if topics != [] {
      hide AddTopic;
      WithTopicsStep(connect, topics, now);
      TopicsAreSound(connect, topics[..|topics| - 1], now);
      AddTopicIsSound(WithTopics(connect, topics[..|topics| - 1], now), topics[|topics| - 1], now);
    }
  }

  lemma {:induction false} TopicIsKept(connect: string, topics: seq<TopicStats>, now: nat, i: nat)
    requires DistinctTopics(topics) && i < |topics|
    ensures
      var g := WithTopics(connect, topics, now);
      TopicId(topics[i].topic) in g.nodes && g.nodes[TopicId(topics[i].topic)] == TopicNode(topics[i], now)
  {
    hide WithTopics, Fold, TopicNode;
    var n := |topics| - 1;
    WithTopicsStep(connect, topics, now);
    if i < n {
      TopicIsKept(connect, topics[..n], now, i);
      TopicIdIsInjective(topics[i].topic, topics[n].topic);
    }
  }

  /** The snapshot only adds to the graph of the observed topics: first the admin topology, then the declarations. */
  lemma SnapshotGrows(connect: string, topics: seq<TopicStats>, payloads: seq<Option<Json>>,
                      entities: seq<AdminKeys.Entity>, now: nat) returns (observed: Graph, admin: Graph, g: Graph)
    ensures observed == WithTopics(connect, topics, now) && Sound(observed)
    ensures admin == Fold(observed, payloads, AddPayload) && Grows(observed, admin)
    ensures g == Fold(admin, entities, AddEntity) == Snapshot(connect, topics, payloads, entities, now)
    ensures Grows(admin, g) && Grows(observed, g)
  {
    observed := WithTopics(connect, topics, now);
    TopicsAreSound(connect, topics, now);
    admin := Fold(observed, payloads, AddPayload);
    PayloadsGrow(observed, payloads);
    g := Fold(admin, entities, AddEntity);
    EntitiesGrow(admin, entities);
    GrowsTransitively(observed, admin, g);
  }

  /**
   * Referential integrity: for every topic table and every set of admin entries, each node of the
   * snapshot is stored under its own id and each link joins two of its nodes.
   */
  lemma SnapshotIsSound(connect: string, topics: seq<TopicStats>, payloads: seq<Option<Json>>,
                        entities: seq<AdminKeys.Entity>, now: nat)
    ensures Sound(Snapshot(connect, topics, payloads, entities, now))
  {
    var _, _, _ := SnapshotGrows(connect, topics, payloads, entities, now);
  }

  /** Observed topics keep their counters and rate, whatever admin entries name the same topics. */
  lemma ObservedTopicsKeepCounters(connect: string, topics: seq<TopicStats>, payloads: seq<Option<Json>>,
                                   entities: seq<AdminKeys.Entity>, now: nat, i: nat)
    requires DistinctTopics(topics) && i < |topics|
    ensures
      var g := Snapshot(connect, topics, payloads, entities, now);
      TopicId(topics[i].topic) in g.nodes && g.nodes[TopicId(topics[i].topic)] == TopicNode(topics[i], now)
  {
    var _, _, _ := SnapshotGrows(connect, topics, payloads, entities, now);
    TopicIsKept(connect, topics, now, i);
    hide Fold, TopicNode, TopicId;
  }

  type Parser = string -> Option<Json>

  function Payloads(entries: seq<Entry>, parse: Parser): seq<Option<Json>> {
    seq(|entries|, i requires 0 <= i < |entries| => parse(entries[i].payload))
  }

  function Keys(entries: seq<Entry>): seq<string> {
    seq(|entries|, i requires 0 <= i < |entries| => entries[i].key)
  }
}
