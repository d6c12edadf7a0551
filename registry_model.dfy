/**
 * The master's registration graph as a value: node records live in an arena
 * addressed by identifiers, so that "the same record" (as `registerService`
 * compares them) is identifier equality. Each operation of
 * `MasterRegistrationManagerImpl` is a function from the old graph to the new
 * one; the imperative class in module MasterRegistration is proved to compute
 * exactly these functions.
 */
module RegistryModel {
  import opened Wrappers
  import opened JavaBase
  import opened TopicRegistration

  /**
   * `NodeRegistrationInfo`: a node's name, its slave server's address, and the
   * names of the topics it publishes and subscribes to and of the services it
   * offers (topic and service records compare by name).
   */
  datatype NodeRecord = NodeRecord(
    nodeName: GraphName,
    nodeSlaveUri: InetSocketAddress,
    publishers: set<GraphName>,
    subscribers: set<GraphName>,
    services: set<GraphName>)
  {
    predicate HasRegistrations() { publishers != {} || subscribers != {} || services != {} }
  }

  function NewNodeRecord(nodeName: GraphName, nodeSlaveUri: InetSocketAddress): NodeRecord
  {
    NodeRecord(nodeName, nodeSlaveUri, {}, {}, {})
  }

  /** `ServiceRegistrationInfo`: a service's name, its server's address and its one owning node. */
  datatype ServiceRecord = ServiceRecord(serviceName: GraphName, serviceUri: InetSocketAddress, node: NodeId)

  /** The three name-keyed maps of the manager, plus the arena of node records. */
  datatype Registry = Registry(
    nodes: map<GraphName, NodeId>,
    records: map<NodeId, NodeRecord>,
    nextId: NodeId,
    services: map<GraphName, ServiceRecord>,
    topics: map<GraphName, TopicState>)

  /** The manager as its constructor leaves it. */
  function Empty(): Registry
  {
    Registry(map[], map[], 0, map[], map[])
  }

  // ---------------------------------------------------------------------------
  // Well-formedness: what every lookup in the operations relies on.

  ghost predicate ArenaBounded(r: Registry) { forall id :: id in r.records ==> id < r.nextId }

  ghost predicate NodesIndexed(r: Registry)
  {
    forall n :: n in r.nodes ==> r.nodes[n] in r.records && r.records[r.nodes[n]].nodeName == n
  }

  ghost predicate TopicsKeyed(r: Registry) { forall t :: t in r.topics ==> r.topics[t].topicName == t }

  ghost predicate EdgesKnown(r: Registry)
  {
    forall id :: id in r.records ==>
      r.records[id].publishers <= r.topics.Keys && r.records[id].subscribers <= r.topics.Keys
  }

  ghost predicate OwnersInArena(r: Registry) { forall s :: s in r.services ==> r.services[s].node in r.records }

  ghost predicate WellFormed(r: Registry)
  {
    ArenaBounded(r) && NodesIndexed(r) && TopicsKeyed(r) && EdgesKnown(r) && OwnersInArena(r)
  }

  // ---------------------------------------------------------------------------
  // The graph invariant the operations keep.

  /** A record is live when the node index points at it under its own name. */
  predicate Live(r: Registry, id: NodeId)
  {
    id in r.records && r.records[id].nodeName in r.nodes && r.nodes[r.records[id].nodeName] == id
  }

  /** Every publisher a topic lists is a live node that lists the topic back. */
  ghost predicate TopicPublishersLinked(r: Registry)
  {
    forall t, id :: t in r.topics && id in r.topics[t].publishers ==>
      Live(r, id) && t in r.records[id].publishers
  }

  ghost predicate TopicSubscribersLinked(r: Registry)
  {
    forall t, id :: t in r.topics && id in r.topics[t].subscribers ==>
      Live(r, id) && t in r.records[id].subscribers
  }

  /** Every topic an indexed node publishes lists the node back. */
  ghost predicate NodePublicationsLinked(r: Registry)
  {
    forall n, t :: n in r.nodes && r.nodes[n] in r.records && t in r.records[r.nodes[n]].publishers ==>
      t in r.topics && r.nodes[n] in r.topics[t].publishers
  }

  ghost predicate NodeSubscriptionsLinked(r: Registry)
  {
    forall n, t :: n in r.nodes && r.nodes[n] in r.records && t in r.records[r.nodes[n]].subscribers ==>
      t in r.topics && r.nodes[n] in r.topics[t].subscribers
  }

  /** A service name has one owner: a live node whose record lists the service. */
  ghost predicate ServicesOwned(r: Registry)
  {
    forall s :: s in r.services ==>
      r.services[s].serviceName == s && Live(r, r.services[s].node)
      && s in r.records[r.services[s].node].services
  }

  /** A node stays indexed only while it has a registration. */
  ghost predicate IndexedNodesRegistered(r: Registry)
  {
    forall n :: n in r.nodes && r.nodes[n] in r.records ==> r.records[r.nodes[n]].HasRegistrations()
  }

  /** Everything but garbage collection. */
  ghost predicate Linked(r: Registry)
  {
    WellFormed(r) && TopicPublishersLinked(r) && TopicSubscribersLinked(r)
    && NodePublicationsLinked(r) && NodeSubscriptionsLinked(r) && ServicesOwned(r)
  }

  ghost predicate Inv(r: Registry)
  {
    Linked(r) && IndexedNodesRegistered(r)
  }

  /** Garbage collection holds for every node not named in `except`. */
  ghost predicate RegisteredExcept(r: Registry, except: set<GraphName>)
  {
    forall n :: n in r.nodes && n !in except && r.nodes[n] in r.records ==> r.records[r.nodes[n]].HasRegistrations()
  }

  lemma EmptyIsValid()
    ensures Inv(Empty())
  {
  }

  // ---------------------------------------------------------------------------
  // The private helpers of the manager.

  /** `obtainTopicRegistrationInfo`: look a topic up, creating an empty one if asked to. */
  function ObtainTopic(r: Registry, t: GraphName, shouldCreate: bool): (r': Registry)
    ensures shouldCreate ==> t in r'.topics
    ensures t in r.topics || !shouldCreate ==> r' == r
    ensures t !in r.topics && shouldCreate ==> r' == r.(topics := r.topics[t := NewTopic(t)])
  {
    if t !in r.topics && shouldCreate then r.(topics := r.topics[t := NewTopic(t)]) else r
  }

  /**
   * `cleanupNode`: detach a record from every topic it publishes or subscribes
   * to and drop its services from the index.
   */
  function CleanupNode(r: Registry, id: NodeId): (r': Registry)
    requires id in r.records
    ensures r'.nodes == r.nodes && r'.records == r.records && r'.nextId == r.nextId
    ensures r'.services == r.services - r.records[id].services
    ensures r'.topics.Keys == r.topics.Keys
  {
    var rec := r.records[id];
    r.(topics := map t | t in r.topics ::
                   var afterPub := if t in rec.publishers then r.topics[t].RemovePublisher(id) else r.topics[t];
                   if t in rec.subscribers then afterPub.RemoveSubscriber(id) else afterPub,
       services := r.services - rec.services)
  }

  /**
   * Cleaning up takes the record out of exactly the topics it lists, as a
   * publisher and as a subscriber; every topic keeps its name and its type.
   */
  lemma CleanupNodeDetachesTopics(r: Registry, id: NodeId, t: GraphName)
    requires id in r.records && t in r.topics
    ensures var r' := CleanupNode(r, id);
      t in r'.topics
      && r'.topics[t].topicName == r.topics[t].topicName
      && r'.topics[t].messageType == r.topics[t].messageType
      && r'.topics[t].isPublisherDefinedMessageType == r.topics[t].isPublisherDefinedMessageType
      && (forall x :: x in r'.topics[t].publishers <==>
            x in r.topics[t].publishers && !(x == id && t in r.records[id].publishers))
      && (forall x :: x in r'.topics[t].subscribers <==>
            x in r.topics[t].subscribers && !(x == id && t in r.records[id].subscribers))
  {
  }

  /** `potentiallyDeleteNode`: remove a record's name from the index once it has no registrations. */
  function PotentiallyDeleteNode(r: Registry, id: NodeId): (r': Registry)
    requires id in r.records
    ensures r'.records == r.records && r'.topics == r.topics && r'.services == r.services
    ensures r'.nextId == r.nextId
    ensures r.records[id].nodeName !in r'.nodes <==>
              r.records[id].nodeName !in r.nodes || !r.records[id].HasRegistrations()
    ensures forall n :: n in r'.nodes <==> n in r.nodes && (n != r.records[id].nodeName || r.records[id].HasRegistrations())
    ensures forall n :: n in r'.nodes ==> r'.nodes[n] == r.nodes[n]
  {
    if !r.records[id].HasRegistrations() then r.(nodes := r.nodes - {r.records[id].nodeName}) else r
  }

  /** Install a fresh empty record for `n` at `a` in the arena and the index. */
  function InstallNewNode(r: Registry, n: GraphName, a: InetSocketAddress): (r': Registry)
  {
    r.(records := r.records[r.nextId := NewNodeRecord(n, a)], nextId := r.nextId + 1,
       nodes := r.nodes[n := r.nextId])
  }

  /**
   * `obtainNodeRegistrationInfo`: the record indexed under `n` if its address is
   * `a`; otherwise a fresh empty record, after the old one (if any) has been
   * unindexed and cleaned up.
   */
  function ObtainNode(r: Registry, n: GraphName, a: InetSocketAddress): (res: (Registry, NodeId))
    requires WellFormed(r)
    ensures var (r', id) := res;
      WellFormed(r') && n in r'.nodes && r'.nodes[n] == id && id in r'.records
      && r'.records[id].nodeName == n && r'.records[id].nodeSlaveUri == a
      && r'.topics.Keys == r.topics.Keys
      && (forall t :: t in r.topics ==>
            r'.topics[t].messageType == r.topics[t].messageType
            && r'.topics[t].isPublisherDefinedMessageType == r.topics[t].isPublisherDefinedMessageType)
      && r'.nextId >= r.nextId
      && (forall k :: k in r.records ==> k in r'.records && r'.records[k] == r.records[k])
  {
    if n in r.nodes then
      var old_ := r.nodes[n];
      if r.records[old_].nodeSlaveUri == a then (r, old_)
      else
        var cleaned := CleanupNode(r.(nodes := r.nodes - {n}), old_);
        (InstallNewNode(cleaned, n, a), cleaned.nextId)
    else
      (InstallNewNode(r, n, a), r.nextId)
  }

  // ---------------------------------------------------------------------------
  // The public operations.

  /** `topic.addPublisher(node, type)` followed by `node.addPublisher(topic)`. */
  function LinkPublisher(r: Registry, id: NodeId, t: GraphName, ty: Option<string>): (r': Registry)
    requires id in r.records && t in r.topics
    ensures r'.nodes == r.nodes && r'.services == r.services && r'.nextId == r.nextId
    ensures r'.records.Keys == r.records.Keys && r'.topics.Keys == r.topics.Keys
  {
    var rec := r.records[id];
    r.(topics := r.topics[t := r.topics[t].AddPublisher(id, ty)],
       records := r.records[id := rec.(publishers := rec.publishers + {t})])
  }

  /** `topic.addSubscriber(node, type)` followed by `node.addSubscriber(topic)`. */
  function LinkSubscriber(r: Registry, id: NodeId, t: GraphName, ty: Option<string>): (r': Registry)
    requires id in r.records && t in r.topics
    ensures r'.nodes == r.nodes && r'.services == r.services && r'.nextId == r.nextId
    ensures r'.records.Keys == r.records.Keys && r'.topics.Keys == r.topics.Keys
  {
    var rec := r.records[id];
    r.(topics := r.topics[t := r.topics[t].AddSubscriber(id, ty)],
       records := r.records[id := rec.(subscribers := rec.subscribers + {t})])
  }

  /** `registerPublisher`; the returned topic record is the new `topics[t]`. */
  function RegisterPublisher(r: Registry, n: GraphName, a: InetSocketAddress, t: GraphName, ty: Option<string>): (r': Registry)
    requires WellFormed(r)
    ensures t in r'.topics
    ensures r'.topics.Keys == r.topics.Keys + {t}
  {
    var r1 := ObtainTopic(r, t, true);
    var (r2, id) := ObtainNode(r1, n, a);
    LinkPublisher(r2, id, t, ty)
  }

  /** `registerSubscriber`. */
  function RegisterSubscriber(r: Registry, n: GraphName, a: InetSocketAddress, t: GraphName, ty: Option<string>): (r': Registry)
    requires WellFormed(r)
    ensures t in r'.topics
    ensures r'.topics.Keys == r.topics.Keys + {t}
  {
    var r1 := ObtainTopic(r, t, true);
    var (r2, id) := ObtainNode(r1, n, a);
    LinkSubscriber(r2, id, t, ty)
  }

  /** `unregisterPublisher`: succeeds whenever both the topic and the node are known. */
  function UnregisterPublisher(r: Registry, n: GraphName, t: GraphName): (res: (Registry, bool))
    requires WellFormed(r)
    ensures res.1 <==> t in r.topics && n in r.nodes
    ensures !res.1 ==> res.0 == r
    ensures res.0.topics.Keys == r.topics.Keys
  {
    if t !in r.topics then (r, false)
    else if n !in r.nodes then (r, false)
    else
      var id := r.nodes[n];
      (PotentiallyDeleteNode(UnlinkPublisher(r, id, t), id), true)
  }

  /** `unregisterSubscriber`. */
  function UnregisterSubscriber(r: Registry, n: GraphName, t: GraphName): (res: (Registry, bool))
    requires WellFormed(r)
    ensures res.1 <==> t in r.topics && n in r.nodes
    ensures !res.1 ==> res.0 == r
    ensures res.0.topics.Keys == r.topics.Keys
  {
    if t !in r.topics then (r, false)
    else if n !in r.nodes then (r, false)
    else
      var id := r.nodes[n];
      (PotentiallyDeleteNode(UnlinkSubscriber(r, id, t), id), true)
  }

  /** `node.removePublisher(topic)` followed by `topic.removePublisher(node)`. */
  function UnlinkPublisher(r: Registry, id: NodeId, t: GraphName): (r': Registry)
    requires id in r.records && t in r.topics
    ensures r'.nodes == r.nodes && r'.services == r.services && r'.nextId == r.nextId
    ensures r'.records.Keys == r.records.Keys && r'.topics.Keys == r.topics.Keys
  {
    var rec := r.records[id];
    r.(records := r.records[id := rec.(publishers := rec.publishers - {t})],
       topics := r.topics[t := r.topics[t].RemovePublisher(id)])
  }

  /** `node.removeSubscriber(topic)` followed by `topic.removeSubscriber(node)`. */
  function UnlinkSubscriber(r: Registry, id: NodeId, t: GraphName): (r': Registry)
    requires id in r.records && t in r.topics
    ensures r'.nodes == r.nodes && r'.services == r.services && r'.nextId == r.nextId
    ensures r'.records.Keys == r.records.Keys && r'.topics.Keys == r.topics.Keys
  {
    var rec := r.records[id];
    r.(records := r.records[id := rec.(subscribers := rec.subscribers - {t})],
       topics := r.topics[t := r.topics[t].RemoveSubscriber(id)])
  }

  /** `services.remove(s)` followed by `node.removeService(service)`. */
  function DropService(r: Registry, id: NodeId, s: GraphName): (r': Registry)
    requires id in r.records
    ensures r'.nodes == r.nodes && r'.topics == r.topics && r'.nextId == r.nextId
    ensures r'.records.Keys == r.records.Keys && r'.services == r.services - {s}
  {
    var rec := r.records[id];
    r.(services := r.services - {s}, records := r.records[id := rec.(services := rec.services - {s})])
  }

  /** `node.addService(service)` followed by `services.put(name, service)`. */
  function AddService(r: Registry, svc: ServiceRecord): (r': Registry)
    requires svc.node in r.records
    ensures r'.nodes == r.nodes && r'.topics == r.topics && r'.nextId == r.nextId
    ensures r'.records.Keys == r.records.Keys && r'.services == r.services[svc.serviceName := svc]
  {
    var rec := r.records[svc.node];
    r.(records := r.records[svc.node := rec.(services := rec.services + {svc.serviceName})],
       services := r.services[svc.serviceName := svc])
  }

  /** Detach service `s` from its previous owner `prev` and collect that owner if it is now empty. */
  function DetachService(r: Registry, prev: NodeId, s: GraphName): (r': Registry)
    requires prev in r.records
  {
    var prec := r.records[prev];
    PotentiallyDeleteNode(r.(records := r.records[prev := prec.(services := prec.services - {s})]), prev)
  }

  /**
   * `registerService`: a no-op returning the existing record when the same node
   * record already owns the service; otherwise the previous owner (if any) is
   * detached and a new record owned by the caller's node is indexed.
   */
  function RegisterService(r: Registry, n: GraphName, a: InetSocketAddress, s: GraphName, sa: InetSocketAddress): (res: (Registry, ServiceRecord))
    requires WellFormed(r)
    ensures res.0.topics.Keys == r.topics.Keys
    ensures s in res.0.services && res.0.services[s] == res.1
  {
    var (r1, id) := ObtainNode(r, n, a);
    if s in r1.services && r1.services[s].node == id then (r1, r1.services[s])
    else
      var r2 := if s in r1.services then DetachService(r1, r1.services[s].node, s) else r1;
      var svc := ServiceRecord(s, sa, id);
      (AddService(r2, svc), svc)
  }

  /**
   * `unregisterService`: succeeds whenever the service and the node are known,
   * and then unindexes the service even when another node owns it.
   */
  function UnregisterService(r: Registry, n: GraphName, s: GraphName, sa: InetSocketAddress): (res: (Registry, bool))
    requires WellFormed(r)
    ensures res.1 <==> s in r.services && n in r.nodes
    ensures !res.1 ==> res.0 == r
    ensures res.1 ==> res.0.services == r.services - {s}
    ensures res.0.topics == r.topics
  {
    if s !in r.services then (r, false)
    else if n !in r.nodes then (r, false)
    else
      var id := r.nodes[n];
      (PotentiallyDeleteNode(DropService(r, id, s), id), true)
  }

  // ---------------------------------------------------------------------------
  // The invariant is kept.

  lemma ObtainTopicKeepsInv(r: Registry, t: GraphName, shouldCreate: bool)
    requires Inv(r)
    ensures Inv(ObtainTopic(r, t, shouldCreate))
  {
    if t !in r.topics && shouldCreate {
      var r' := r.(topics := r.topics[t := NewTopic(t)]);
      assert forall u :: u in r.topics ==> r'.topics[u] == r.topics[u];
      assert forall x :: Live(r, x) <==> Live(r', x);
      TopicEdgesCarryOver(r, r', {});
    }
  }


  /**
   * Looking a node up under a new address replaces its record: the old record
   * leaves every topic's publisher and subscriber sets, its services leave the
   * index, and a fresh record with no registrations takes its name.
   */
  lemma ReplacementDetachesOldRecord(r: Registry, n: GraphName, a: InetSocketAddress)
    requires WellFormed(r) && TopicPublishersLinked(r) && TopicSubscribersLinked(r) && ServicesOwned(r)
    requires n in r.nodes && r.records[r.nodes[n]].nodeSlaveUri != a
    ensures var (r', id) := ObtainNode(r, n, a);
      var old_ := r.nodes[n];
      id == r.nextId && id != old_ && !Live(r', old_)
      && r'.records[id] == NewNodeRecord(n, a) && r'.nodes == r.nodes[n := id]
      && r'.services == r.services - r.records[old_].services
      && (forall s :: s in r'.services ==> r'.services[s].node != old_)
      && (forall t :: t in r'.topics ==>
            r'.topics[t] == r.topics[t].(publishers := r.topics[t].publishers - {old_},
                                         subscribers := r.topics[t].subscribers - {old_}))
  {
    var old_ := r.nodes[n];
    var rec := r.records[old_];
    var (r', id) := ObtainNode(r, n, a);
    var cleaned := CleanupNode(r.(nodes := r.nodes - {n}), old_);
    assert r' == InstallNewNode(cleaned, n, a);
    forall t | t in r'.topics
      ensures r'.topics[t] == r.topics[t].(publishers := r.topics[t].publishers - {old_},
                                           subscribers := r.topics[t].subscribers - {old_})
    {
      assert old_ in r.topics[t].publishers ==> t in rec.publishers;
      assert old_ in r.topics[t].subscribers ==> t in rec.subscribers;
    }
  }

  /** Looking a node up under its current address changes nothing and returns its record. */
  lemma SameAddressKeepsRecord(r: Registry, n: GraphName, a: InetSocketAddress)
    requires WellFormed(r)
    requires n in r.nodes && r.records[r.nodes[n]].nodeSlaveUri == a
    ensures ObtainNode(r, n, a) == (r, r.nodes[n])
  {
  }

  /** A name seen for the first time gets a fresh empty record. */
  lemma UnknownNameGetsFreshRecord(r: Registry, n: GraphName, a: InetSocketAddress)
    requires WellFormed(r)
    requires n !in r.nodes
    ensures var (r', id) := ObtainNode(r, n, a);
      id == r.nextId && id !in r.records && r'.records == r.records[id := NewNodeRecord(n, a)]
      && r'.nodes == r.nodes[n := id] && r'.topics == r.topics && r'.services == r.services
  {
  }

  /** The old record's neighbours: every other indexed name and every other live record is untouched. */
  /**
   * Topic edges survive a step after which every topic member was already a
   * member before and lies outside `gone`, and every live record outside
   * `gone` stays live with the same edges.
   */
  lemma TopicEdgesCarryOver(r: Registry, r': Registry, gone: set<NodeId>)
    requires TopicPublishersLinked(r) && TopicSubscribersLinked(r)
    requires forall t :: t in r'.topics && t !in r.topics ==>
               r'.topics[t].publishers == {} && r'.topics[t].subscribers == {}
    requires forall t :: t in r'.topics && t in r.topics ==>
               r'.topics[t].publishers <= r.topics[t].publishers - gone
               && r'.topics[t].subscribers <= r.topics[t].subscribers - gone
    requires forall x :: Live(r, x) && x !in gone ==>
               Live(r', x) && r'.records[x].publishers == r.records[x].publishers
               && r'.records[x].subscribers == r.records[x].subscribers
    ensures TopicPublishersLinked(r') && TopicSubscribersLinked(r')
  {
    forall t, x | t in r'.topics && x in r'.topics[t].publishers
      ensures Live(r', x) && t in r'.records[x].publishers
    {
      assert t in r.topics && x in r.topics[t].publishers && x !in gone;
    }
    forall t, x | t in r'.topics && x in r'.topics[t].subscribers
      ensures Live(r', x) && t in r'.records[x].subscribers
    {
      assert t in r.topics && x in r.topics[t].subscribers && x !in gone;
    }
  }


  /** A step that touches neither topics, nor the node index, nor any record's name or edges. */
  ghost predicate SameEdges(r: Registry, r': Registry)
  {
    r'.topics == r.topics && r'.nodes == r.nodes && r'.records.Keys == r.records.Keys
    && forall x :: x in r.records ==>
         r'.records[x].nodeName == r.records[x].nodeName
         && r'.records[x].publishers == r.records[x].publishers
         && r'.records[x].subscribers == r.records[x].subscribers
  }

  /** Such a step keeps liveness and all four kinds of edge. */
  lemma SameEdgesKeepLinks(r: Registry, r': Registry)
    requires SameEdges(r, r')
    requires TopicPublishersLinked(r) && TopicSubscribersLinked(r)
    requires NodePublicationsLinked(r) && NodeSubscriptionsLinked(r)
    ensures forall x :: Live(r, x) <==> Live(r', x)
    ensures TopicPublishersLinked(r') && TopicSubscribersLinked(r')
    ensures NodePublicationsLinked(r') && NodeSubscriptionsLinked(r')
  {
    assert forall x :: Live(r, x) <==> Live(r', x);
    TopicEdgesCarryOver(r, r', {});
    forall m, t | m in r'.nodes && r'.nodes[m] in r'.records && t in r'.records[r'.nodes[m]].publishers
      ensures t in r'.topics && r'.nodes[m] in r'.topics[t].publishers
    {
      assert t in r.records[r.nodes[m]].publishers;
    }
    forall m, t | m in r'.nodes && r'.nodes[m] in r'.records && t in r'.records[r'.nodes[m]].subscribers
      ensures t in r'.topics && r'.nodes[m] in r'.topics[t].subscribers
    {
      assert t in r.records[r.nodes[m]].subscribers;
    }
  }

  lemma ReplacementKeepsOthers(r: Registry, n: GraphName, a: InetSocketAddress)
    requires Inv(r)
    requires n in r.nodes && r.records[r.nodes[n]].nodeSlaveUri != a
    ensures var r' := ObtainNode(r, n, a).0;
      (forall m :: m in r'.nodes && m != n ==>
         m in r.nodes && r'.nodes[m] == r.nodes[m] && r.nodes[m] != r.nodes[n]
         && r'.records[r'.nodes[m]] == r.records[r.nodes[m]])
      && (forall x :: Live(r, x) && x != r.nodes[n] ==> Live(r', x) && r'.records[x] == r.records[x])
  {
    ReplacementDetachesOldRecord(r, n, a);
  }

  lemma ReplacementKeepsTopicEdges(r: Registry, n: GraphName, a: InetSocketAddress)
    requires Inv(r)
    requires n in r.nodes && r.records[r.nodes[n]].nodeSlaveUri != a
    ensures var r' := ObtainNode(r, n, a).0;
      TopicPublishersLinked(r') && TopicSubscribersLinked(r')
  {
    var r' := ObtainNode(r, n, a).0;
    ReplacementDetachesOldRecord(r, n, a);
    ReplacementKeepsOthers(r, n, a);
    TopicEdgesCarryOver(r, r', {r.nodes[n]});
  }

  lemma ReplacementKeepsPublications(r: Registry, n: GraphName, a: InetSocketAddress)
    requires Inv(r)
    requires n in r.nodes && r.records[r.nodes[n]].nodeSlaveUri != a
    ensures NodePublicationsLinked(ObtainNode(r, n, a).0)
  {
    var r' := ObtainNode(r, n, a).0;
    var old_ := r.nodes[n];
    ReplacementDetachesOldRecord(r, n, a);
    ReplacementKeepsOthers(r, n, a);
    forall m, t | m in r'.nodes && r'.nodes[m] in r'.records && t in r'.records[r'.nodes[m]].publishers
      ensures t in r'.topics && r'.nodes[m] in r'.topics[t].publishers
    {
      assert m != n && r'.nodes[m] == r.nodes[m] != old_;
      assert t in r.records[r.nodes[m]].publishers;
    }
  }

  lemma ReplacementKeepsSubscriptions(r: Registry, n: GraphName, a: InetSocketAddress)
    requires Inv(r)
    requires n in r.nodes && r.records[r.nodes[n]].nodeSlaveUri != a
    ensures NodeSubscriptionsLinked(ObtainNode(r, n, a).0)
  {
    var r' := ObtainNode(r, n, a).0;
    var old_ := r.nodes[n];
    ReplacementDetachesOldRecord(r, n, a);
    ReplacementKeepsOthers(r, n, a);
    forall m, t | m in r'.nodes && r'.nodes[m] in r'.records && t in r'.records[r'.nodes[m]].subscribers
      ensures t in r'.topics && r'.nodes[m] in r'.topics[t].subscribers
    {
      assert m != n && r'.nodes[m] == r.nodes[m] != old_;
      assert t in r.records[r.nodes[m]].subscribers;
    }
  }

  lemma ReplacementKeepsNodeEdges(r: Registry, n: GraphName, a: InetSocketAddress)
    requires Inv(r)
    requires n in r.nodes && r.records[r.nodes[n]].nodeSlaveUri != a
    ensures var r' := ObtainNode(r, n, a).0;
      NodePublicationsLinked(r') && NodeSubscriptionsLinked(r') && RegisteredExcept(r', {n})
  {
    ReplacementKeepsOthers(r, n, a);
    ReplacementKeepsPublications(r, n, a);
    ReplacementKeepsSubscriptions(r, n, a);
  }

  lemma ReplacementKeepsServices(r: Registry, n: GraphName, a: InetSocketAddress)
    requires Inv(r)
    requires n in r.nodes && r.records[r.nodes[n]].nodeSlaveUri != a
    ensures var r' := ObtainNode(r, n, a).0;
      ServicesOwned(r') && r'.services.Keys <= r.services.Keys
  {
    var r' := ObtainNode(r, n, a).0;
    ReplacementDetachesOldRecord(r, n, a);
    ReplacementKeepsOthers(r, n, a);
    forall s | s in r'.services
      ensures r'.services[s].serviceName == s && Live(r', r'.services[s].node)
              && s in r'.records[r'.services[s].node].services
    {
      assert s in r.services && r'.services[s] == r.services[s];
    }
  }

  /** Installing a record for a new name: nothing else changes, and no edge names the new record. */
  lemma InstallNewNodeKeepsLive(r: Registry, n: GraphName, a: InetSocketAddress)
    requires WellFormed(r) && n !in r.nodes
    ensures var r' := InstallNewNode(r, n, a);
      WellFormed(r') && r'.topics == r.topics && r'.services == r.services
      && r.nextId !in r.records && r'.nodes == r.nodes[n := r.nextId]
      && r'.records[r.nextId] == NewNodeRecord(n, a)
      && (forall x :: Live(r, x) ==> Live(r', x) && r'.records[x] == r.records[x])
  {
  }

  /** Installing a new name's record keeps every node-side edge. */
  lemma FreshNameKeepsNodeEdges(r: Registry, n: GraphName, a: InetSocketAddress)
    requires WellFormed(r) && n !in r.nodes
    requires NodePublicationsLinked(r) && NodeSubscriptionsLinked(r)
    ensures var r' := InstallNewNode(r, n, a);
      NodePublicationsLinked(r') && NodeSubscriptionsLinked(r')
  {
    var r' := InstallNewNode(r, n, a);
    InstallNewNodeKeepsLive(r, n, a);
    forall m, t | m in r'.nodes && r'.nodes[m] in r'.records && t in r'.records[r'.nodes[m]].publishers
      ensures t in r'.topics && r'.nodes[m] in r'.topics[t].publishers
    {
      assert m != n && t in r.records[r.nodes[m]].publishers;
    }
    forall m, t | m in r'.nodes && r'.nodes[m] in r'.records && t in r'.records[r'.nodes[m]].subscribers
      ensures t in r'.topics && r'.nodes[m] in r'.topics[t].subscribers
    {
      assert m != n && t in r.records[r.nodes[m]].subscribers;
    }
  }

  /** Installing a new name's record keeps every service owned and every other node registered. */
  lemma FreshNameKeepsServices(r: Registry, n: GraphName, a: InetSocketAddress)
    requires WellFormed(r) && n !in r.nodes
    requires ServicesOwned(r) && IndexedNodesRegistered(r)
    ensures var r' := InstallNewNode(r, n, a);
      ServicesOwned(r') && RegisteredExcept(r', {n})
  {
    var r' := InstallNewNode(r, n, a);
    InstallNewNodeKeepsLive(r, n, a);
    forall s | s in r'.services
      ensures r'.services[s].serviceName == s && Live(r', r'.services[s].node)
              && s in r'.records[r'.services[s].node].services
    {
      assert Live(r, r.services[s].node);
    }
  }

  /** The graph after a new name's record is installed. */
  lemma FreshNameKeepsLinked(r: Registry, n: GraphName, a: InetSocketAddress)
    requires Inv(r)
    requires n !in r.nodes
    ensures var r' := InstallNewNode(r, n, a);
      Linked(r') && RegisteredExcept(r', {n})
  {
    var r' := InstallNewNode(r, n, a);
    InstallNewNodeKeepsLive(r, n, a);
    TopicEdgesCarryOver(r, r', {});
    FreshNameKeepsNodeEdges(r, n, a);
    FreshNameKeepsServices(r, n, a);
  }

  /** Obtaining a node keeps the graph linked; only the obtained node may lack registrations. */
  lemma ObtainNodeKeepsLinked(r: Registry, n: GraphName, a: InetSocketAddress)
    requires Inv(r)
    ensures var (r', id) := ObtainNode(r, n, a);
      Linked(r') && RegisteredExcept(r', {n}) && r'.services.Keys <= r.services.Keys
  {
    if n !in r.nodes {
      assert ObtainNode(r, n, a).0 == InstallNewNode(r, n, a);
      FreshNameKeepsLinked(r, n, a);
    } else if r.records[r.nodes[n]].nodeSlaveUri != a {
      ReplacementKeepsTopicEdges(r, n, a);
      ReplacementKeepsNodeEdges(r, n, a);
      ReplacementKeepsServices(r, n, a);
    } else {
      SameAddressKeepsRecord(r, n, a);
    }
  }

  /**
   * `r'` differs from `r` only in whether record `id` and topic `t` list each
   * other as publisher: the edge is set or cleared in both directions at once.
   */
  ghost predicate PublisherEdgeEdit(r: Registry, r': Registry, id: NodeId, t: GraphName)
  {
    id in r.records && id in r'.records && t in r.topics && t in r'.topics
    && r'.nodes == r.nodes && r'.topics.Keys == r.topics.Keys && r'.records.Keys == r.records.Keys
    && (forall x :: x in r.records && x != id ==> r'.records[x] == r.records[x])
    && (forall u :: u in r.topics && u != t ==> r'.topics[u] == r.topics[u])
    && r'.records[id].nodeName == r.records[id].nodeName
    && r'.records[id].subscribers == r.records[id].subscribers
    && r'.topics[t].subscribers == r.topics[t].subscribers
    && r'.records[id].publishers - {t} == r.records[id].publishers - {t}
    && r'.topics[t].publishers - {id} == r.topics[t].publishers - {id}
    && (id in r'.topics[t].publishers <==> t in r'.records[id].publishers)
  }

  lemma PublisherEdgeEditKeepsLive(r: Registry, r': Registry, id: NodeId, t: GraphName)
    requires PublisherEdgeEdit(r, r', id, t)
    ensures forall x :: Live(r, x) <==> Live(r', x)
  {
  }

  /** The edited edge itself: both ends agree after the edit. */
  lemma PublisherEdgeEditKeepsOwnEdges(r: Registry, r': Registry, id: NodeId, t: GraphName)
    requires PublisherEdgeEdit(r, r', id, t) && Live(r, id) && TopicPublishersLinked(r)
    ensures TopicPublishersLinked(r')
  {
    PublisherEdgeEditKeepsLive(r, r', id, t);
    forall u, x | u in r'.topics && x in r'.topics[u].publishers
      ensures Live(r', x) && u in r'.records[x].publishers
    {
      if u != t || x != id {
        if u == t {
          assert x in r'.topics[t].publishers - {id};
        }
        assert x in r.topics[u].publishers;
        if x == id {
          assert u in r.records[id].publishers - {t};
        }
      }
    }
  }

  lemma PublisherEdgeEditKeepsOtherEdges(r: Registry, r': Registry, id: NodeId, t: GraphName)
    requires PublisherEdgeEdit(r, r', id, t) && TopicSubscribersLinked(r)
    ensures TopicSubscribersLinked(r')
  {
    PublisherEdgeEditKeepsLive(r, r', id, t);
    forall u, x | u in r'.topics && x in r'.topics[u].subscribers
      ensures Live(r', x) && u in r'.records[x].subscribers
    {
      assert x in r.topics[u].subscribers;
    }
  }

  lemma PublisherEdgeEditKeepsTopicEdges(r: Registry, r': Registry, id: NodeId, t: GraphName)
    requires PublisherEdgeEdit(r, r', id, t) && Live(r, id)
    requires TopicPublishersLinked(r) && TopicSubscribersLinked(r)
    ensures forall x :: Live(r, x) <==> Live(r', x)
    ensures TopicPublishersLinked(r') && TopicSubscribersLinked(r')
  {
    PublisherEdgeEditKeepsLive(r, r', id, t);
    PublisherEdgeEditKeepsOwnEdges(r, r', id, t);
    PublisherEdgeEditKeepsOtherEdges(r, r', id, t);
  }

  lemma PublisherEdgeEditKeepsNodeEdges(r: Registry, r': Registry, id: NodeId, t: GraphName)
    requires PublisherEdgeEdit(r, r', id, t) && NodesIndexed(r)
    requires NodePublicationsLinked(r) && NodeSubscriptionsLinked(r)
    ensures NodePublicationsLinked(r') && NodeSubscriptionsLinked(r')
  {
    forall m, u | m in r'.nodes && r'.nodes[m] in r'.records && u in r'.records[r'.nodes[m]].publishers
      ensures u in r'.topics && r'.nodes[m] in r'.topics[u].publishers
    {
      var x := r.nodes[m];
      if x != id || u != t {
        if x == id {
          assert u in r'.records[id].publishers - {t};
        }
        assert u in r.records[x].publishers;
        if u == t {
          assert x in r.topics[t].publishers - {id};
        }
      }
    }
    forall m, u | m in r'.nodes && r'.nodes[m] in r'.records && u in r'.records[r'.nodes[m]].subscribers
      ensures u in r'.topics && r'.nodes[m] in r'.topics[u].subscribers
    {
      assert u in r.records[r.nodes[m]].subscribers;
    }
  }

  /**
   * `r'` differs from `r` only in whether record `id` and topic `t` list each
   * other as subscriber: the edge is set or cleared in both directions at once.
   */
  ghost predicate SubscriberEdgeEdit(r: Registry, r': Registry, id: NodeId, t: GraphName)
  {
    id in r.records && id in r'.records && t in r.topics && t in r'.topics
    && r'.nodes == r.nodes && r'.topics.Keys == r.topics.Keys && r'.records.Keys == r.records.Keys
    && (forall x :: x in r.records && x != id ==> r'.records[x] == r.records[x])
    && (forall u :: u in r.topics && u != t ==> r'.topics[u] == r.topics[u])
    && r'.records[id].nodeName == r.records[id].nodeName
    && r'.records[id].publishers == r.records[id].publishers
    && r'.topics[t].publishers == r.topics[t].publishers
    && r'.records[id].subscribers - {t} == r.records[id].subscribers - {t}
    && r'.topics[t].subscribers - {id} == r.topics[t].subscribers - {id}
    && (id in r'.topics[t].subscribers <==> t in r'.records[id].subscribers)
  }

  lemma SubscriberEdgeEditKeepsLive(r: Registry, r': Registry, id: NodeId, t: GraphName)
    requires SubscriberEdgeEdit(r, r', id, t)
    ensures forall x :: Live(r, x) <==> Live(r', x)
  {
  }

  /** The edited edge itself: both ends agree after the edit. */
  lemma SubscriberEdgeEditKeepsOwnEdges(r: Registry, r': Registry, id: NodeId, t: GraphName)
    requires SubscriberEdgeEdit(r, r', id, t) && Live(r, id) && TopicSubscribersLinked(r)
    ensures TopicSubscribersLinked(r')
  {
    SubscriberEdgeEditKeepsLive(r, r', id, t);
    forall u, x | u in r'.topics && x in r'.topics[u].subscribers
      ensures Live(r', x) && u in r'.records[x].subscribers
    {
      if u != t || x != id {
        if u == t {
          assert x in r'.topics[t].subscribers - {id};
        }
        assert x in r.topics[u].subscribers;
        if x == id {
          assert u in r.records[id].subscribers - {t};
        }
      }
    }
  }

  lemma SubscriberEdgeEditKeepsOtherEdges(r: Registry, r': Registry, id: NodeId, t: GraphName)
    requires SubscriberEdgeEdit(r, r', id, t) && TopicPublishersLinked(r)
    ensures TopicPublishersLinked(r')
  {
    SubscriberEdgeEditKeepsLive(r, r', id, t);
    forall u, x | u in r'.topics && x in r'.topics[u].publishers
      ensures Live(r', x) && u in r'.records[x].publishers
    {
      assert x in r.topics[u].publishers;
    }
  }

  lemma SubscriberEdgeEditKeepsTopicEdges(r: Registry, r': Registry, id: NodeId, t: GraphName)
    requires SubscriberEdgeEdit(r, r', id, t) && Live(r, id)
    requires TopicPublishersLinked(r) && TopicSubscribersLinked(r)
    ensures forall x :: Live(r, x) <==> Live(r', x)
    ensures TopicPublishersLinked(r') && TopicSubscribersLinked(r')
  {
    SubscriberEdgeEditKeepsLive(r, r', id, t);
    SubscriberEdgeEditKeepsOwnEdges(r, r', id, t);
    SubscriberEdgeEditKeepsOtherEdges(r, r', id, t);
  }

  lemma SubscriberEdgeEditKeepsNodeEdges(r: Registry, r': Registry, id: NodeId, t: GraphName)
    requires SubscriberEdgeEdit(r, r', id, t) && NodesIndexed(r)
    requires NodePublicationsLinked(r) && NodeSubscriptionsLinked(r)
    ensures NodePublicationsLinked(r') && NodeSubscriptionsLinked(r')
  {
    forall m, u | m in r'.nodes && r'.nodes[m] in r'.records && u in r'.records[r'.nodes[m]].subscribers
      ensures u in r'.topics && r'.nodes[m] in r'.topics[u].subscribers
    {
      var x := r.nodes[m];
      if x != id || u != t {
        if x == id {
          assert u in r'.records[id].subscribers - {t};
        }
        assert u in r.records[x].subscribers;
        if u == t {
          assert x in r.topics[t].subscribers - {id};
        }
      }
    }
    forall m, u | m in r'.nodes && r'.nodes[m] in r'.records && u in r'.records[r'.nodes[m]].publishers
      ensures u in r'.topics && r'.nodes[m] in r'.topics[u].publishers
    {
      assert u in r.records[r.nodes[m]].publishers;
    }
  }

  /** Linking the obtained node to a topic as a publisher: the node's own edge, then everything else. */
  lemma LinkPublisherKeepsLive(r: Registry, id: NodeId, t: GraphName, ty: Option<string>)
    requires WellFormed(r) && id in r.records && t in r.topics
    ensures var r' := LinkPublisher(r, id, t, ty);
      WellFormed(r') && (forall x :: Live(r, x) <==> Live(r', x))
      && (forall x :: x in r.records && x != id ==> r'.records[x] == r.records[x])
      && r'.records[id].publishers == r.records[id].publishers + {t}
      && r'.records[id].subscribers == r.records[id].subscribers
      && r'.records[id].services == r.records[id].services
      && (forall u :: u in r.topics && u != t ==> r'.topics[u] == r.topics[u])
      && r'.topics[t].publishers == r.topics[t].publishers + {id}
      && r'.topics[t].subscribers == r.topics[t].subscribers
  {
  }

  lemma LinkPublisherKeepsTopicEdges(r: Registry, n: GraphName, t: GraphName, ty: Option<string>)
    requires Linked(r) && n in r.nodes && t in r.topics
    ensures TopicPublishersLinked(LinkPublisher(r, r.nodes[n], t, ty)) && TopicSubscribersLinked(LinkPublisher(r, r.nodes[n], t, ty))
  {
    var id := r.nodes[n];
    var r' := LinkPublisher(r, id, t, ty);
    LinkPublisherKeepsLive(r, id, t, ty);
    PublisherEdgeEditKeepsTopicEdges(r, r', id, t);
  }


  lemma LinkPublisherKeepsNodeEdges(r: Registry, n: GraphName, t: GraphName, ty: Option<string>)
    requires Linked(r) && RegisteredExcept(r, {n}) && n in r.nodes && t in r.topics
    ensures var r' := LinkPublisher(r, r.nodes[n], t, ty);
      NodePublicationsLinked(r') && NodeSubscriptionsLinked(r') && ServicesOwned(r') && IndexedNodesRegistered(r')
  {
    var id := r.nodes[n];
    var r' := LinkPublisher(r, id, t, ty);
    LinkPublisherKeepsLive(r, id, t, ty);
    PublisherEdgeEditKeepsNodeEdges(r, r', id, t);
  }


  lemma LinkPublisherKeepsInv(r: Registry, n: GraphName, t: GraphName, ty: Option<string>)
    requires Linked(r) && RegisteredExcept(r, {n}) && n in r.nodes && t in r.topics
    ensures Inv(LinkPublisher(r, r.nodes[n], t, ty))
  {
    LinkPublisherKeepsLive(r, r.nodes[n], t, ty);
    LinkPublisherKeepsTopicEdges(r, n, t, ty);
    LinkPublisherKeepsNodeEdges(r, n, t, ty);
  }

  /** Linking the obtained node to a topic as a subscriber: the node's own edge, then everything else. */
  lemma LinkSubscriberKeepsLive(r: Registry, id: NodeId, t: GraphName, ty: Option<string>)
    requires WellFormed(r) && id in r.records && t in r.topics
    ensures var r' := LinkSubscriber(r, id, t, ty);
      WellFormed(r') && (forall x :: Live(r, x) <==> Live(r', x))
      && (forall x :: x in r.records && x != id ==> r'.records[x] == r.records[x])
      && r'.records[id].subscribers == r.records[id].subscribers + {t}
      && r'.records[id].publishers == r.records[id].publishers
      && r'.records[id].services == r.records[id].services
      && (forall u :: u in r.topics && u != t ==> r'.topics[u] == r.topics[u])
      && r'.topics[t].subscribers == r.topics[t].subscribers + {id}
      && r'.topics[t].publishers == r.topics[t].publishers
  {
  }

  lemma LinkSubscriberKeepsTopicEdges(r: Registry, n: GraphName, t: GraphName, ty: Option<string>)
    requires Linked(r) && n in r.nodes && t in r.topics
    ensures TopicSubscribersLinked(LinkSubscriber(r, r.nodes[n], t, ty)) && TopicPublishersLinked(LinkSubscriber(r, r.nodes[n], t, ty))
  {
    var id := r.nodes[n];
    var r' := LinkSubscriber(r, id, t, ty);
    LinkSubscriberKeepsLive(r, id, t, ty);
    SubscriberEdgeEditKeepsTopicEdges(r, r', id, t);
  }


  lemma LinkSubscriberKeepsNodeEdges(r: Registry, n: GraphName, t: GraphName, ty: Option<string>)
    requires Linked(r) && RegisteredExcept(r, {n}) && n in r.nodes && t in r.topics
    ensures var r' := LinkSubscriber(r, r.nodes[n], t, ty);
      NodeSubscriptionsLinked(r') && NodePublicationsLinked(r') && ServicesOwned(r') && IndexedNodesRegistered(r')
  {
    var id := r.nodes[n];
    var r' := LinkSubscriber(r, id, t, ty);
    LinkSubscriberKeepsLive(r, id, t, ty);
    SubscriberEdgeEditKeepsNodeEdges(r, r', id, t);
  }


  lemma LinkSubscriberKeepsInv(r: Registry, n: GraphName, t: GraphName, ty: Option<string>)
    requires Linked(r) && RegisteredExcept(r, {n}) && n in r.nodes && t in r.topics
    ensures Inv(LinkSubscriber(r, r.nodes[n], t, ty))
  {
    LinkSubscriberKeepsLive(r, r.nodes[n], t, ty);
    LinkSubscriberKeepsTopicEdges(r, n, t, ty);
    LinkSubscriberKeepsNodeEdges(r, n, t, ty);
  }

  lemma RegisterPublisherKeepsInv(r: Registry, n: GraphName, a: InetSocketAddress, t: GraphName, ty: Option<string>)
    requires Inv(r)
    ensures Inv(RegisterPublisher(r, n, a, t, ty))
  {
    var r1 := ObtainTopic(r, t, true);
    ObtainTopicKeepsInv(r, t, true);
    ObtainNodeKeepsLinked(r1, n, a);
    var (r2, id) := ObtainNode(r1, n, a);
    LinkPublisherKeepsInv(r2, n, t, ty);
  }

  lemma RegisterSubscriberKeepsInv(r: Registry, n: GraphName, a: InetSocketAddress, t: GraphName, ty: Option<string>)
    requires Inv(r)
    ensures Inv(RegisterSubscriber(r, n, a, t, ty))
  {
    var r1 := ObtainTopic(r, t, true);
    ObtainTopicKeepsInv(r, t, true);
    ObtainNodeKeepsLinked(r1, n, a);
    var (r2, id) := ObtainNode(r1, n, a);
    LinkSubscriberKeepsInv(r2, n, t, ty);
  }

  /** Unindexing a record with no registrations removes no topic edge's far end. */
  lemma PotentiallyDeleteKeepsTopicEdges(r: Registry, m: GraphName)
    requires WellFormed(r) && TopicPublishersLinked(r) && TopicSubscribersLinked(r) && m in r.nodes
    ensures var r' := PotentiallyDeleteNode(r, r.nodes[m]);
      TopicPublishersLinked(r') && TopicSubscribersLinked(r')
  {
    var id := r.nodes[m];
    var r' := PotentiallyDeleteNode(r, id);
    if !r.records[id].HasRegistrations() {
      assert forall x :: Live(r', x) <==> Live(r, x) && x != id;
      forall t, x | t in r'.topics && x in r'.topics[t].publishers
        ensures Live(r', x) && t in r'.records[x].publishers
      {
        assert Live(r, x) && t in r.records[x].publishers;
      }
      forall t, x | t in r'.topics && x in r'.topics[t].subscribers
        ensures Live(r', x) && t in r'.records[x].subscribers
      {
        assert Live(r, x) && t in r.records[x].subscribers;
      }
    }
  }

  /** Collecting a node that is left without registrations keeps the graph linked. */
  lemma PotentiallyDeleteKeepsLinked(r: Registry, m: GraphName, except: set<GraphName>)
    requires Linked(r) && RegisteredExcept(r, except + {m}) && m in r.nodes
    ensures var r' := PotentiallyDeleteNode(r, r.nodes[m]);
      Linked(r') && RegisteredExcept(r', except)
  {
    var id := r.nodes[m];
    var r' := PotentiallyDeleteNode(r, id);
    PotentiallyDeleteKeepsTopicEdges(r, m);
    if !r.records[id].HasRegistrations() {
      assert forall x :: Live(r', x) <==> Live(r, x) && x != id;
      forall s | s in r'.services
        ensures Live(r', r'.services[s].node)
      {
        assert s in r.records[r.services[s].node].services;
      }
    }
  }

  lemma UnlinkPublisherKeepsLive(r: Registry, id: NodeId, t: GraphName)
    requires WellFormed(r) && id in r.records && t in r.topics
    ensures var r' := UnlinkPublisher(r, id, t);
      WellFormed(r') && (forall x :: Live(r, x) <==> Live(r', x))
      && (forall x :: x in r.records && x != id ==> r'.records[x] == r.records[x])
      && r'.records[id].publishers == r.records[id].publishers - {t}
      && r'.records[id].subscribers == r.records[id].subscribers
      && r'.records[id].services == r.records[id].services
      && (forall u :: u in r.topics && u != t ==> r'.topics[u] == r.topics[u])
      && r'.topics[t].publishers == r.topics[t].publishers - {id}
      && r'.topics[t].subscribers == r.topics[t].subscribers
  {
  }

  lemma UnlinkPublisherKeepsTopicEdges(r: Registry, n: GraphName, t: GraphName)
    requires Inv(r) && n in r.nodes && t in r.topics
    ensures var r' := UnlinkPublisher(r, r.nodes[n], t);
      TopicPublishersLinked(r') && TopicSubscribersLinked(r')
  {
    var id := r.nodes[n];
    var r' := UnlinkPublisher(r, id, t);
    UnlinkPublisherKeepsLive(r, id, t);
    PublisherEdgeEditKeepsTopicEdges(r, r', id, t);
  }


  lemma UnlinkPublisherKeepsNodeEdges(r: Registry, n: GraphName, t: GraphName)
    requires Inv(r) && n in r.nodes && t in r.topics
    ensures var r' := UnlinkPublisher(r, r.nodes[n], t);
      NodePublicationsLinked(r') && NodeSubscriptionsLinked(r') && ServicesOwned(r')
      && RegisteredExcept(r', {n})
  {
    var id := r.nodes[n];
    var r' := UnlinkPublisher(r, id, t);
    UnlinkPublisherKeepsLive(r, id, t);
    PublisherEdgeEditKeepsNodeEdges(r, r', id, t);
  }


  lemma UnlinkPublisherKeepsLinked(r: Registry, n: GraphName, t: GraphName)
    requires Inv(r) && n in r.nodes && t in r.topics
    ensures var r' := UnlinkPublisher(r, r.nodes[n], t);
      Linked(r') && RegisteredExcept(r', {n})
  {
    UnlinkPublisherKeepsLive(r, r.nodes[n], t);
    UnlinkPublisherKeepsTopicEdges(r, n, t);
    UnlinkPublisherKeepsNodeEdges(r, n, t);
  }


  lemma UnlinkSubscriberKeepsLive(r: Registry, id: NodeId, t: GraphName)
    requires WellFormed(r) && id in r.records && t in r.topics
    ensures var r' := UnlinkSubscriber(r, id, t);
      WellFormed(r') && (forall x :: Live(r, x) <==> Live(r', x))
      && (forall x :: x in r.records && x != id ==> r'.records[x] == r.records[x])
      && r'.records[id].subscribers == r.records[id].subscribers - {t}
      && r'.records[id].publishers == r.records[id].publishers
      && r'.records[id].services == r.records[id].services
      && (forall u :: u in r.topics && u != t ==> r'.topics[u] == r.topics[u])
      && r'.topics[t].subscribers == r.topics[t].subscribers - {id}
      && r'.topics[t].publishers == r.topics[t].publishers
  {
  }

  lemma UnlinkSubscriberKeepsTopicEdges(r: Registry, n: GraphName, t: GraphName)
    requires Inv(r) && n in r.nodes && t in r.topics
    ensures var r' := UnlinkSubscriber(r, r.nodes[n], t);
      TopicPublishersLinked(r') && TopicSubscribersLinked(r')
  {
    var id := r.nodes[n];
    var r' := UnlinkSubscriber(r, id, t);
    UnlinkSubscriberKeepsLive(r, id, t);
    SubscriberEdgeEditKeepsTopicEdges(r, r', id, t);
  }


  lemma UnlinkSubscriberKeepsNodeEdges(r: Registry, n: GraphName, t: GraphName)
    requires Inv(r) && n in r.nodes && t in r.topics
    ensures var r' := UnlinkSubscriber(r, r.nodes[n], t);
      NodePublicationsLinked(r') && NodeSubscriptionsLinked(r') && ServicesOwned(r')
      && RegisteredExcept(r', {n})
  {
    var id := r.nodes[n];
    var r' := UnlinkSubscriber(r, id, t);
    UnlinkSubscriberKeepsLive(r, id, t);
    SubscriberEdgeEditKeepsNodeEdges(r, r', id, t);
  }


  lemma UnlinkSubscriberKeepsLinked(r: Registry, n: GraphName, t: GraphName)
    requires Inv(r) && n in r.nodes && t in r.topics
    ensures var r' := UnlinkSubscriber(r, r.nodes[n], t);
      Linked(r') && RegisteredExcept(r', {n})
  {
    UnlinkSubscriberKeepsLive(r, r.nodes[n], t);
    UnlinkSubscriberKeepsTopicEdges(r, n, t);
    UnlinkSubscriberKeepsNodeEdges(r, n, t);
  }


  lemma UnregisterPublisherKeepsInv(r: Registry, n: GraphName, t: GraphName)
    requires Inv(r)
    ensures Inv(UnregisterPublisher(r, n, t).0)
  {
    if t in r.topics && n in r.nodes {
      UnlinkPublisherKeepsLinked(r, n, t);
      PotentiallyDeleteKeepsLinked(UnlinkPublisher(r, r.nodes[n], t), n, {});
    }
  }

  lemma UnregisterSubscriberKeepsInv(r: Registry, n: GraphName, t: GraphName)
    requires Inv(r)
    ensures Inv(UnregisterSubscriber(r, n, t).0)
  {
    if t in r.topics && n in r.nodes {
      UnlinkSubscriberKeepsLinked(r, n, t);
      PotentiallyDeleteKeepsLinked(UnlinkSubscriber(r, r.nodes[n], t), n, {});
    }
  }

  /** Dropping a service from the index and from one indexed node's record keeps the graph linked. */
  lemma DropServiceKeepsLinked(r: Registry, m: GraphName, s: GraphName, except: set<GraphName>)
    requires Linked(r) && RegisteredExcept(r, except) && m in r.nodes
    ensures var r' := DropService(r, r.nodes[m], s);
      Linked(r') && RegisteredExcept(r', except + {m})
  {
    var id := r.nodes[m];
    var r' := DropService(r, id, s);
    assert SameEdges(r, r');
    SameEdgesKeepLinks(r, r');
  }

  lemma UnregisterServiceKeepsInv(r: Registry, n: GraphName, s: GraphName, sa: InetSocketAddress)
    requires Inv(r)
    ensures Inv(UnregisterService(r, n, s, sa).0)
  {
    if s in r.services && n in r.nodes {
      DropServiceKeepsLinked(r, n, s, {});
      PotentiallyDeleteKeepsLinked(DropService(r, r.nodes[n], s), n, {});
    }
  }

  /** Indexing a service owned by the obtained node restores the whole invariant. */
  lemma AddServiceKeepsInv(r: Registry, n: GraphName, svc: ServiceRecord)
    requires Linked(r) && RegisteredExcept(r, {n}) && n in r.nodes && svc.node == r.nodes[n]
    ensures Inv(AddService(r, svc))
  {
    var r' := AddService(r, svc);
    assert SameEdges(r, r');
    SameEdgesKeepLinks(r, r');
  }

  /** Moving a service away from another live owner: detach it there, then index it for the obtained node. */
  lemma MoveServiceKeepsInv(r1: Registry, n: GraphName, s: GraphName, sa: InetSocketAddress)
    requires Linked(r1) && RegisteredExcept(r1, {n}) && n in r1.nodes
    requires s in r1.services && r1.services[s].node != r1.nodes[n]
    ensures Inv(AddService(DetachService(r1, r1.services[s].node, s), ServiceRecord(s, sa, r1.nodes[n])))
  {
    var id := r1.nodes[n];
    var svc := ServiceRecord(s, sa, id);
    var prev := r1.services[s].node;
    var m := r1.records[prev].nodeName;
    assert m != n && m in r1.nodes && r1.nodes[m] == prev;
    DropServiceKeepsLinked(r1, m, s, {n});
    var r2 := DropService(r1, prev, s);
    PotentiallyDeleteKeepsLinked(r2, m, {n});
    var r3 := PotentiallyDeleteNode(r2, prev);
    assert r3.nodes[n] == id;
    DetachThenAddIsDropThenAdd(r1, prev, svc);
    AddServiceKeepsInv(r3, n, svc);
  }

  /**
   * Detaching a service from its owner's record and then indexing it anew ends
   * where dropping it from the index as well would: the new entry overwrites the old.
   */
  lemma DetachThenAddIsDropThenAdd(r: Registry, prev: NodeId, svc: ServiceRecord)
    requires prev in r.records && svc.node in r.records
    ensures AddService(DetachService(r, prev, svc.serviceName), svc)
         == AddService(PotentiallyDeleteNode(DropService(r, prev, svc.serviceName), prev), svc)
  {
    var s := svc.serviceName;
    var d1 := DetachService(r, prev, s);
    var d2 := PotentiallyDeleteNode(DropService(r, prev, s), prev);
    assert d1 == d2.(services := r.services);
    assert r.services[s := svc] == (r.services - {s})[s := svc];
  }

  lemma RegisterServiceKeepsInv(r: Registry, n: GraphName, a: InetSocketAddress, s: GraphName, sa: InetSocketAddress)
    requires Inv(r)
    ensures Inv(RegisterService(r, n, a, s, sa).0)
  {
    ObtainNodeKeepsLinked(r, n, a);
    var (r1, id) := ObtainNode(r, n, a);
    if s in r1.services && r1.services[s].node == id {
    } else if s in r1.services {
      MoveServiceKeepsInv(r1, n, s, sa);
    } else {
      AddServiceKeepsInv(r1, n, ServiceRecord(s, sa, id));
    }
  }

  // ---------------------------------------------------------------------------
  // What the operations do.

  /** The topic as `obtainTopicRegistrationInfo(t, true)` hands it to a registration. */
  function TopicBefore(r: Registry, t: GraphName): TopicState
  {
    if t in r.topics then r.topics[t] else NewTopic(t)
  }

  /**
   * After `registerPublisher(n, a, t, ty)` the topic exists, `n` is indexed at
   * `a`, the publication edge is there in both directions, and the topic's type
   * is `ty`, fixed by a publisher.
   */
  lemma RegisterPublisherEstablishesEdge(r: Registry, n: GraphName, a: InetSocketAddress, t: GraphName, ty: Option<string>)
    requires WellFormed(r)
    ensures var r' := RegisterPublisher(r, n, a, t, ty);
      t in r'.topics && n in r'.nodes && Live(r', r'.nodes[n])
      && r'.records[r'.nodes[n]].nodeSlaveUri == a
      && r'.nodes[n] in r'.topics[t].publishers && t in r'.records[r'.nodes[n]].publishers
      && r'.topics[t].messageType == ty && r'.topics[t].isPublisherDefinedMessageType
  {
  }

  /**
   * After `registerSubscriber(n, a, t, ty)` the subscription edge is there in
   * both directions, and the topic's type follows the subscriber policy.
   */
  lemma RegisterSubscriberEstablishesEdge(r: Registry, n: GraphName, a: InetSocketAddress, t: GraphName, ty: Option<string>)
    requires WellFormed(r)
    ensures var r' := RegisterSubscriber(r, n, a, t, ty);
      var before := TopicBefore(r, t);
      t in r'.topics && n in r'.nodes && Live(r', r'.nodes[n])
      && r'.records[r'.nodes[n]].nodeSlaveUri == a
      && r'.nodes[n] in r'.topics[t].subscribers && t in r'.records[r'.nodes[n]].subscribers
      && r'.topics[t].messageType == (if before.SubscriberTypeAdopted(ty) then ty else before.messageType)
      && r'.topics[t].isPublisherDefinedMessageType == before.isPublisherDefinedMessageType
  {
    var r1 := ObtainTopic(r, t, true);
    var (r2, id) := ObtainNode(r1, n, a);
    AddSubscriberTypePolicy(r2.topics[t], id, ty);
  }

  /** An unknown topic or node makes every unregistration fail without touching anything; no topic is created. */
  lemma UnknownNamesLeaveRegistryUnchanged(r: Registry, n: GraphName, t: GraphName, s: GraphName, sa: InetSocketAddress)
    requires WellFormed(r)
    ensures t !in r.topics || n !in r.nodes ==>
      UnregisterPublisher(r, n, t) == (r, false) && UnregisterSubscriber(r, n, t) == (r, false)
    ensures s !in r.services || n !in r.nodes ==> UnregisterService(r, n, s, sa) == (r, false)
  {
  }

  /**
   * A successful `unregisterPublisher` removes the edge in both directions,
   * leaves every other topic alone, and keeps `n` indexed exactly when its
   * record still has a registration.
   */
  lemma UnregisterPublisherRemovesEdge(r: Registry, n: GraphName, t: GraphName)
    requires WellFormed(r) && t in r.topics && n in r.nodes
    ensures var (r', ok) := UnregisterPublisher(r, n, t);
      var id := r.nodes[n];
      var rec := r.records[id].(publishers := r.records[id].publishers - {t});
      ok && r'.topics[t].publishers == r.topics[t].publishers - {id}
      && r'.topics[t].subscribers == r.topics[t].subscribers
      && r'.topics[t].messageType == r.topics[t].messageType
      && (forall u :: u in r.topics && u != t ==> r'.topics[u] == r.topics[u])
      && r'.records[id] == rec
      && (n in r'.nodes <==> rec.HasRegistrations())
      && (forall m :: m != n ==> (m in r'.nodes <==> m in r.nodes))
  {
  }

  lemma UnregisterSubscriberRemovesEdge(r: Registry, n: GraphName, t: GraphName)
    requires WellFormed(r) && t in r.topics && n in r.nodes
    ensures var (r', ok) := UnregisterSubscriber(r, n, t);
      var id := r.nodes[n];
      var rec := r.records[id].(subscribers := r.records[id].subscribers - {t});
      ok && r'.topics[t].subscribers == r.topics[t].subscribers - {id}
      && r'.topics[t].publishers == r.topics[t].publishers
      && r'.topics[t].messageType == r.topics[t].messageType
      && (forall u :: u in r.topics && u != t ==> r'.topics[u] == r.topics[u])
      && r'.records[id] == rec
      && (n in r'.nodes <==> rec.HasRegistrations())
      && (forall m :: m != n ==> (m in r'.nodes <==> m in r.nodes))
  {
  }

  /**
   * Success does not depend on the node having been a publisher: when it was
   * not, the call still returns true and nothing changes.
   */
  lemma UnregisterNonPublisherSucceeds(r: Registry, n: GraphName, t: GraphName)
    requires Inv(r) && t in r.topics && n in r.nodes && r.nodes[n] !in r.topics[t].publishers
    ensures UnregisterPublisher(r, n, t) == (r, true)
  {
    var id := r.nodes[n];
    var rec := r.records[id];
    assert t !in rec.publishers;
    assert rec.(publishers := rec.publishers - {t}) == rec;
    assert r.topics[t].RemovePublisher(id) == r.topics[t];
    assert UnlinkPublisher(r, id, t) == r;
  }

  lemma UnregisterNonSubscriberSucceeds(r: Registry, n: GraphName, t: GraphName)
    requires Inv(r) && t in r.topics && n in r.nodes && r.nodes[n] !in r.topics[t].subscribers
    ensures UnregisterSubscriber(r, n, t) == (r, true)
  {
    var id := r.nodes[n];
    var rec := r.records[id];
    assert t !in rec.subscribers;
    assert rec.(subscribers := rec.subscribers - {t}) == rec;
    assert r.topics[t].RemoveSubscriber(id) == r.topics[t];
    assert UnlinkSubscriber(r, id, t) == r;
  }

  /**
   * `unregisterService` by a node that does not own the service still removes
   * it from the index, while the owner stays indexed and keeps the name in its
   * record.
   */
  lemma UnregisterServiceByNonOwner(r: Registry, n: GraphName, s: GraphName, sa: InetSocketAddress)
    requires Inv(r) && s in r.services && n in r.nodes && r.services[s].node != r.nodes[n]
    ensures var (r', ok) := UnregisterService(r, n, s, sa);
      var owner := r.services[s].node;
      ok && s !in r'.services && Live(r', owner) && s in r'.records[owner].services
  {
    var owner := r.services[s].node;
    assert Live(r, owner);
  }

  /**
   * A successful `unregisterService` keeps `n` indexed exactly when its record
   * still has a registration.
   */
  lemma UnregisterServiceCollectsNode(r: Registry, n: GraphName, s: GraphName, sa: InetSocketAddress)
    requires WellFormed(r) && s in r.services && n in r.nodes
    ensures var (r', ok) := UnregisterService(r, n, s, sa);
      var id := r.nodes[n];
      var rec := r.records[id].(services := r.records[id].services - {s});
      ok && r'.records[id] == rec && (n in r'.nodes <==> rec.HasRegistrations())
      && (forall m :: m != n ==> (m in r'.nodes <==> m in r.nodes))
  {
  }

  /** Registering a service the same node record already owns returns that record and changes nothing. */
  lemma RegisterServiceSameNodeIsNoOp(r: Registry, n: GraphName, a: InetSocketAddress, s: GraphName, sa: InetSocketAddress)
    requires WellFormed(r) && n in r.nodes && r.records[r.nodes[n]].nodeSlaveUri == a
    requires s in r.services && r.services[s].node == r.nodes[n]
    ensures RegisterService(r, n, a, s, sa) == (r, r.services[s])
  {
    SameAddressKeepsRecord(r, n, a);
  }

  /**
   * Otherwise the service gets a fresh record owned by the caller's node; a
   * previous owner loses the name and stays indexed exactly when it still
   * has a registration.
   */
  lemma RegisterServiceMovesOwner(r: Registry, n: GraphName, a: InetSocketAddress, s: GraphName, sa: InetSocketAddress)
    requires Inv(r)
    requires !(n in r.nodes && r.records[r.nodes[n]].nodeSlaveUri == a && s in r.services && r.services[s].node == r.nodes[n])
    ensures var (r', svc) := RegisterService(r, n, a, s, sa);
      n in r'.nodes && r'.nodes[n] in r'.records
      && svc == ServiceRecord(s, sa, r'.nodes[n]) && r'.services[s] == svc
      && s in r'.records[r'.nodes[n]].services
    ensures var (r1, id) := ObtainNode(r, n, a);
      var (r', svc) := RegisterService(r, n, a, s, sa);
      s in r1.services && r1.services[s].node != id ==>
        var prev := r1.services[s].node;
        prev in r1.records && prev in r'.records
        && var m := r1.records[prev].nodeName;
        var prec := r1.records[prev].(services := r1.records[prev].services - {s});
        m != n && r'.records[prev] == prec && (m in r'.nodes <==> prec.HasRegistrations())
  {
    ObtainNodeKeepsLinked(r, n, a);
    var (r1, id) := ObtainNode(r, n, a);
    if n in r.nodes && r.records[r.nodes[n]].nodeSlaveUri == a {
      SameAddressKeepsRecord(r, n, a);
    }
    if s in r1.services && r1.services[s].node != id {
      MoveToNewOwner(r1, n, id, s, sa);
    }
  }

  /** Moving service `s` away from its live previous owner to the record indexed under `n`. */
  lemma MoveToNewOwner(r1: Registry, n: GraphName, id: NodeId, s: GraphName, sa: InetSocketAddress)
    requires WellFormed(r1) && ServicesOwned(r1)
    requires n in r1.nodes && r1.nodes[n] == id
    requires s in r1.services && r1.services[s].node != id
    ensures var prev := r1.services[s].node;
      var m := r1.records[prev].nodeName;
      var prec := r1.records[prev].(services := r1.records[prev].services - {s});
      var r' := AddService(DetachService(r1, prev, s), ServiceRecord(s, sa, id));
      prev in r'.records && m != n && r'.records[prev] == prec && (m in r'.nodes <==> prec.HasRegistrations())
      && n in r'.nodes && r'.nodes[n] == id && id in r'.records && s in r'.records[id].services
  {
    var prev := r1.services[s].node;
    assert Live(r1, prev);
  }

  /** No operation removes a topic. */
  lemma TopicsPersist(r: Registry, n: GraphName, a: InetSocketAddress, t: GraphName, ty: Option<string>, s: GraphName, sa: InetSocketAddress)
    requires WellFormed(r)
    ensures r.topics.Keys <= RegisterPublisher(r, n, a, t, ty).topics.Keys
    ensures r.topics.Keys <= RegisterSubscriber(r, n, a, t, ty).topics.Keys
    ensures UnregisterPublisher(r, n, t).0.topics.Keys == r.topics.Keys
    ensures UnregisterSubscriber(r, n, t).0.topics.Keys == r.topics.Keys
    ensures RegisterService(r, n, a, s, sa).0.topics.Keys == r.topics.Keys
    ensures UnregisterService(r, n, s, sa).0.topics.Keys == r.topics.Keys
  {
  }
}
