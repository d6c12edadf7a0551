/**
 * `MasterRegistrationManagerImpl` as an object: the three name-keyed maps are
 * fields the methods reassign, topic records are `TopicRegistrationInfo`
 * objects updated in place, and node records sit in an arena addressed by
 * identifiers. Every public method is proved to move the abstract state
 * `State()` exactly as the corresponding function of module RegistryModel
 * does, and to keep the graph invariant `Valid()`.
 */
module MasterRegistration {
  import opened Wrappers
  import opened JavaBase
  import opened TopicRegistration
  import opened RegistryModel

  /** The current value of every topic record in `ts`. */
  ghost function StatesOf(ts: map<GraphName, TopicRegistrationInfo>): map<GraphName, TopicState>
    reads ts.Values
  {
    map t | t in ts :: ts[t].State()
  }

  class MasterRegistrationManagerImpl {
    var nodes: map<GraphName, NodeId>
    var records: map<NodeId, NodeRecord>
    var nextId: NodeId
    var services: map<GraphName, ServiceRecord>
    var topics: map<GraphName, TopicRegistrationInfo>

    ghost function TopicStates(): map<GraphName, TopicState>
      reads this, topics.Values
    {
      StatesOf(topics)
    }

    ghost function State(): Registry
      reads this, topics.Values
    {
      Registry(nodes, records, nextId, services, StatesOf(topics))
    }

    /** No topic record object is shared between two names. */
    ghost predicate TopicsDistinct()
      reads this
    {
      forall u, v :: u in topics && v in topics && u != v ==> topics[u] != topics[v]
    }

    ghost predicate Valid()
      reads this, topics.Values
    {
      TopicsDistinct() && Inv(State())
    }

    constructor ()
      ensures State() == Empty() && Valid()
    {
      nodes := map[];
      records := map[];
      nextId := 0;
      services := map[];
      topics := map[];
      new;
      EmptyIsValid();
    }

    /** `obtainTopicRegistrationInfo`: null exactly when the topic is unknown and not to be created. */
    method ObtainTopicRegistrationInfo(t: GraphName, shouldCreate: bool) returns (info: TopicRegistrationInfo?)
      requires TopicsDistinct()
      modifies this
      ensures TopicsDistinct()
      ensures State() == ObtainTopic(old(State()), t, shouldCreate)
      ensures info == null <==> t !in topics
      ensures info != null ==> info == topics[t]
      ensures forall u :: u in old(topics) ==> u in topics && topics[u] == old(topics[u])
      ensures topics.Keys <= old(topics.Keys) + {t}
      ensures forall u :: u in topics && u !in old(topics) ==> fresh(topics[u])
    {
      if t in topics {
        info := topics[t];
      } else if shouldCreate {
        var created := new TopicRegistrationInfo(t);
        topics := topics[t := created];
        info := created;
        assert TopicStates() == old(TopicStates())[t := NewTopic(t)];
      } else {
        info := null;
      }
    }

    /** The first loop of `cleanupNode`: `topic.removePublisher(node)` for each topic in `ts`. */
    method RemovePublisherFromTopics(id: NodeId, ts: set<GraphName>)
      requires TopicsDistinct() && ts <= topics.Keys
      modifies topics.Values
      ensures TopicStates() == map u | u in old(TopicStates()) ::
                if u in ts then old(TopicStates())[u].RemovePublisher(id) else old(TopicStates())[u]
    {
      ghost var before := TopicStates();
      var pending := ts;
      while pending != {}
        invariant pending <= ts
        invariant forall u :: u in topics ==>
          topics[u].State() == if u in ts - pending then before[u].RemovePublisher(id) else before[u]
        decreases pending
      {
        var t :| t in pending;
        var _ := topics[t].RemovePublisher(id);
        pending := pending - {t};
      }
    }

    /** The second loop of `cleanupNode`: `topic.removeSubscriber(node)` for each topic in `ts`. */
    method RemoveSubscriberFromTopics(id: NodeId, ts: set<GraphName>)
      requires TopicsDistinct() && ts <= topics.Keys
      modifies topics.Values
      ensures TopicStates() == map u | u in old(TopicStates()) ::
                if u in ts then old(TopicStates())[u].RemoveSubscriber(id) else old(TopicStates())[u]
    {
      ghost var before := TopicStates();
      var pending := ts;
      while pending != {}
        invariant pending <= ts
        invariant forall u :: u in topics ==>
          topics[u].State() == if u in ts - pending then before[u].RemoveSubscriber(id) else before[u]
        decreases pending
      {
        var t :| t in pending;
        var _ := topics[t].RemoveSubscriber(id);
        pending := pending - {t};
      }
    }

    /** The third loop of `cleanupNode`: `services.remove(name)` for each name in `names`. */
    method RemoveServices(names: set<GraphName>)
      modifies this
      ensures services == old(services) - names
      ensures nodes == old(nodes) && records == old(records) && nextId == old(nextId) && topics == old(topics)
    {
      var pending := names;
      while pending != {}
        invariant pending <= names
        invariant services == old(services) - (names - pending)
        invariant nodes == old(nodes) && records == old(records) && nextId == old(nextId) && topics == old(topics)
        decreases pending
      {
        var s :| s in pending;
        services := services - {s};
        pending := pending - {s};
      }
    }

    /**
     * `cleanupNode`: detach the record from every topic it publishes or
     * subscribes to, then unindex its services.
     */
    method CleanupNode(id: NodeId)
      requires TopicsDistinct() && id in records
      requires records[id].publishers <= topics.Keys && records[id].subscribers <= topics.Keys
      modifies this, topics.Values
      ensures topics == old(topics)
      ensures State() == RegistryModel.CleanupNode(old(State()), id)
    {
      ghost var expected := RegistryModel.CleanupNode(State(), id);
      var rec := records[id];
      RemovePublisherFromTopics(id, rec.publishers);
      RemoveSubscriberFromTopics(id, rec.subscribers);
      assert TopicStates() == expected.topics;
      ghost var cleaned := TopicStates();
      RemoveServices(rec.services);
      assert TopicStates() == cleaned;
      assert State() == Registry(expected.nodes, expected.records, expected.nextId, expected.services, cleaned);
    }

    /**
     * `obtainNodeRegistrationInfo`: the record indexed under `n` when its
     * address is `a`; otherwise the old record (if any) is unindexed and
     * cleaned up and a fresh one takes the name.
     */
    method ObtainNodeRegistrationInfo(n: GraphName, a: InetSocketAddress) returns (id: NodeId)
      requires TopicsDistinct() && WellFormed(State())
      modifies this, topics.Values
      ensures topics == old(topics) && TopicsDistinct()
      ensures (State(), id) == ObtainNode(old(State()), n, a)
    {
      if n in nodes {
        var current := nodes[n];
        if records[current].nodeSlaveUri == a {
          return current;
        }
        id := ReplaceNodeRecord(n, a);
      } else {
        id := InstallNewNode(n, a);
      }
    }

    /** The replacement path of `obtainNodeRegistrationInfo`. */
    method ReplaceNodeRecord(n: GraphName, a: InetSocketAddress) returns (id: NodeId)
      requires TopicsDistinct() && WellFormed(State())
      requires n in nodes && records[nodes[n]].nodeSlaveUri != a
      modifies this, topics.Values
      ensures topics == old(topics)
      ensures (State(), id) == ObtainNode(old(State()), n, a)
    {
      var current := nodes[n];
      nodes := nodes - {n};
      CleanupNode(current);
      id := InstallNewNode(n, a);
    }

    /** A fresh empty record for `n` at `a`, indexed under `n`. */
    method InstallNewNode(n: GraphName, a: InetSocketAddress) returns (id: NodeId)
      modifies this
      ensures topics == old(topics)
      ensures State() == RegistryModel.InstallNewNode(old(State()), n, a) && id == old(nextId)
    {
      id := nextId;
      records := records[id := NewNodeRecord(n, a)];
      nextId := nextId + 1;
      nodes := nodes[n := id];
    }

    /** `potentiallyDeleteNode`: unindex the record's name once it has no registrations. */
    method PotentiallyDeleteNode(id: NodeId)
      requires id in records
      modifies this
      ensures topics == old(topics)
      ensures State() == RegistryModel.PotentiallyDeleteNode(old(State()), id)
    {
      if !records[id].HasRegistrations() {
        nodes := nodes - {records[id].nodeName};
      }
    }

    /** `topic.addPublisher(node, type)` followed by `node.addPublisher(topic)`. */
    method LinkPublisherEdge(topic: TopicRegistrationInfo, id: NodeId, t: GraphName, ty: Option<string>)
      requires TopicsDistinct() && t in topics && topic == topics[t] && id in records
      modifies this, topic
      ensures topics == old(topics)
      ensures State() == LinkPublisher(old(State()), id, t, ty)
    {
      ghost var before := TopicStates();
      topic.AddPublisher(id, ty);
      assert TopicStates() == before[t := before[t].AddPublisher(id, ty)];
      var rec := records[id];
      records := records[id := rec.(publishers := rec.publishers + {t})];
    }

    /** `topic.addSubscriber(node, type)` followed by `node.addSubscriber(topic)`. */
    method LinkSubscriberEdge(topic: TopicRegistrationInfo, id: NodeId, t: GraphName, ty: Option<string>)
      requires TopicsDistinct() && t in topics && topic == topics[t] && id in records
      modifies this, topic
      ensures topics == old(topics)
      ensures State() == LinkSubscriber(old(State()), id, t, ty)
    {
      ghost var before := TopicStates();
      topic.AddSubscriber(id, ty);
      assert TopicStates() == before[t := before[t].AddSubscriber(id, ty)];
      var rec := records[id];
      records := records[id := rec.(subscribers := rec.subscribers + {t})];
    }

    /** `registerPublisher`: returns the topic's record object, now holding the publisher. */
    method RegisterPublisher(n: GraphName, a: InetSocketAddress, t: GraphName, ty: Option<string>)
      returns (topic: TopicRegistrationInfo)
      requires Valid()
      modifies this, topics.Values
      ensures Valid()
      ensures State() == RegistryModel.RegisterPublisher(old(State()), n, a, t, ty)
      ensures t in topics && topic == topics[t]
    {
      RegisterPublisherKeepsInv(State(), n, a, t, ty);
      topic := RegisterPublisherSteps(n, a, t, ty);
    }

    /** The three steps of `registerpublisher`: obtain the topic, obtain the node, link them. */
    method RegisterPublisherSteps(n: GraphName, a: InetSocketAddress, t: GraphName, ty: Option<string>)
      returns (topic: TopicRegistrationInfo)
      requires TopicsDistinct() && WellFormed(State())
      modifies this, topics.Values
      ensures TopicsDistinct()
      ensures State() == RegistryModel.RegisterPublisher(old(State()), n, a, t, ty)
      ensures t in topics && topic == topics[t]
    {
      var info := ObtainTopicRegistrationInfo(t, true);
      topic := info;
      var id := ObtainNodeRegistrationInfo(n, a);
      LinkPublisherEdge(topic, id, t, ty);
    }

    /** `registerSubscriber`: returns the topic's record object, now holding the subscriber. */
    method RegisterSubscriber(n: GraphName, a: InetSocketAddress, t: GraphName, ty: Option<string>)
      returns (topic: TopicRegistrationInfo)
      requires Valid()
      modifies this, topics.Values
      ensures Valid()
      ensures State() == RegistryModel.RegisterSubscriber(old(State()), n, a, t, ty)
      ensures t in topics && topic == topics[t]
    {
      RegisterSubscriberKeepsInv(State(), n, a, t, ty);
      topic := RegisterSubscriberSteps(n, a, t, ty);
    }

    /** The three steps of `registersubscriber`: obtain the topic, obtain the node, link them. */
    method RegisterSubscriberSteps(n: GraphName, a: InetSocketAddress, t: GraphName, ty: Option<string>)
      returns (topic: TopicRegistrationInfo)
      requires TopicsDistinct() && WellFormed(State())
      modifies this, topics.Values
      ensures TopicsDistinct()
      ensures State() == RegistryModel.RegisterSubscriber(old(State()), n, a, t, ty)
      ensures t in topics && topic == topics[t]
    {
      var info := ObtainTopicRegistrationInfo(t, true);
      topic := info;
      var id := ObtainNodeRegistrationInfo(n, a);
      LinkSubscriberEdge(topic, id, t, ty);
    }

    /** `node.removePublisher(topic)` followed by `topic.removePublisher(node)`. */
    method UnlinkPublisherEdge(topic: TopicRegistrationInfo, id: NodeId, t: GraphName)
      requires TopicsDistinct() && t in topics && topic == topics[t] && id in records
      modifies this, topic
      ensures topics == old(topics)
      ensures State() == UnlinkPublisher(old(State()), id, t)
    {
      ghost var before := TopicStates();
      var rec := records[id];
      records := records[id := rec.(publishers := rec.publishers - {t})];
      assert TopicStates() == before;
      var _ := topic.RemovePublisher(id);
      assert TopicStates() == before[t := before[t].RemovePublisher(id)];
      assert State() == old(State()).(records := records, topics := TopicStates());
    }

    /** `unregisterPublisher`: true exactly when both the topic and the node are known. */
    method UnregisterPublisher(n: GraphName, t: GraphName) returns (ok: bool)
      requires Valid()
      modifies this, topics.Values
      ensures Valid()
      ensures (State(), ok) == RegistryModel.UnregisterPublisher(old(State()), n, t)
    {
      UnregisterPublisherKeepsInv(State(), n, t);
      ok := UnregisterPublisherSteps(n, t);
    }

    method UnregisterPublisherSteps(n: GraphName, t: GraphName) returns (ok: bool)
      requires TopicsDistinct() && WellFormed(State())
      modifies this, topics.Values
      ensures TopicsDistinct()
      ensures (State(), ok) == RegistryModel.UnregisterPublisher(old(State()), n, t)
    {
      var topic := ObtainTopicRegistrationInfo(t, false);
      if topic == null {
        return false;
      }
      if n !in nodes {
        return false;
      }
      var id := nodes[n];
      UnlinkPublisherEdge(topic, id, t);
      PotentiallyDeleteNode(id);
      return true;
    }

    /** `node.removeSubscriber(topic)` followed by `topic.removeSubscriber(node)`. */
    method UnlinkSubscriberEdge(topic: TopicRegistrationInfo, id: NodeId, t: GraphName)
      requires TopicsDistinct() && t in topics && topic == topics[t] && id in records
      modifies this, topic
      ensures topics == old(topics)
      ensures State() == UnlinkSubscriber(old(State()), id, t)
    {
      ghost var before := TopicStates();
      var rec := records[id];
      records := records[id := rec.(subscribers := rec.subscribers - {t})];
      assert TopicStates() == before;
      var _ := topic.RemoveSubscriber(id);
      assert TopicStates() == before[t := before[t].RemoveSubscriber(id)];
      assert State() == old(State()).(records := records, topics := TopicStates());
    }

    /** `unregisterSubscriber`: true exactly when both the topic and the node are known. */
    method UnregisterSubscriber(n: GraphName, t: GraphName) returns (ok: bool)
      requires Valid()
      modifies this, topics.Values
      ensures Valid()
      ensures (State(), ok) == RegistryModel.UnregisterSubscriber(old(State()), n, t)
    {
      UnregisterSubscriberKeepsInv(State(), n, t);
      ok := UnregisterSubscriberSteps(n, t);
    }

    method UnregisterSubscriberSteps(n: GraphName, t: GraphName) returns (ok: bool)
      requires TopicsDistinct() && WellFormed(State())
      modifies this, topics.Values
      ensures TopicsDistinct()
      ensures (State(), ok) == RegistryModel.UnregisterSubscriber(old(State()), n, t)
    {
      var topic := ObtainTopicRegistrationInfo(t, false);
      if topic == null {
        return false;
      }
      if n !in nodes {
        return false;
      }
      var id := nodes[n];
      UnlinkSubscriberEdge(topic, id, t);
      PotentiallyDeleteNode(id);
      return true;
    }

    /**
     * `registerService`: the existing record when the obtained node already
     * owns the service; otherwise a fresh record owned by that node, after
     * the previous owner (if any) has given the service up.
     */
    method RegisterService(n: GraphName, a: InetSocketAddress, s: GraphName, sa: InetSocketAddress)
      returns (service: ServiceRecord)
      requires Valid()
      modifies this, topics.Values
      ensures Valid()
      ensures (State(), service) == RegistryModel.RegisterService(old(State()), n, a, s, sa)
    {
      RegisterServiceKeepsInv(State(), n, a, s, sa);
      service := RegisterServiceSteps(n, a, s, sa);
    }

    method RegisterServiceSteps(n: GraphName, a: InetSocketAddress, s: GraphName, sa: InetSocketAddress)
      returns (service: ServiceRecord)
      requires TopicsDistinct() && WellFormed(State())
      modifies this, topics.Values
      ensures TopicsDistinct()
      ensures (State(), service) == RegistryModel.RegisterService(old(State()), n, a, s, sa)
    {
      var id := ObtainNodeRegistrationInfo(n, a);
      if s in services {
        var previous := services[s];
        if previous.node == id {
          return previous;
        }
        DetachService(previous.node, s);
      }
      service := ServiceRecord(s, sa, id);
      AddService(service);
    }

    /** `previousServiceNode.removeService(service)` followed by `potentiallyDeleteNode(previousServiceNode)`. */
    method DetachService(prev: NodeId, s: GraphName)
      requires prev in records
      modifies this
      ensures topics == old(topics)
      ensures State() == RegistryModel.DetachService(old(State()), prev, s)
    {
      var prec := records[prev];
      records := records[prev := prec.(services := prec.services - {s})];
      PotentiallyDeleteNode(prev);
    }

    /** `node.addService(service)` followed by `services.put(name, service)`. */
    method AddService(service: ServiceRecord)
      requires service.node in records
      modifies this
      ensures topics == old(topics)
      ensures State() == RegistryModel.AddService(old(State()), service)
    {
      var rec := records[service.node];
      records := records[service.node := rec.(services := rec.services + {service.serviceName})];
      services := services[service.serviceName := service];
    }

    /** `unregisterService`: true exactly when both the service and the node are known. */
    method UnregisterService(n: GraphName, s: GraphName, sa: InetSocketAddress) returns (ok: bool)
      requires Valid()
      modifies this
      ensures Valid() && topics == old(topics)
      ensures (State(), ok) == RegistryModel.UnregisterService(old(State()), n, s, sa)
    {
      UnregisterServiceKeepsInv(State(), n, s, sa);
      ok := UnregisterServiceSteps(n, s, sa);
    }

    method UnregisterServiceSteps(n: GraphName, s: GraphName, sa: InetSocketAddress) returns (ok: bool)
      requires WellFormed(State())
      modifies this
      ensures topics == old(topics)
      ensures (State(), ok) == RegistryModel.UnregisterService(old(State()), n, s, sa)
    {
      if s !in services {
        return false;
      }
      if n !in nodes {
        return false;
      }
      var id := nodes[n];
      DropService(id, s);
      PotentiallyDeleteNode(id);
      return true;
    }

    /** `services.remove(name)` followed by `node.removeService(service)`. */
    method DropService(id: NodeId, s: GraphName)
      requires id in records
      modifies this
      ensures topics == old(topics)
      ensures State() == RegistryModel.DropService(old(State()), id, s)
    {
      services := services - {s};
      var rec := records[id];
      records := records[id := rec.(services := rec.services - {s})];
    }

    /** `getAllTopics`: every topic record, including those left with no registrations. */
    method GetAllTopics() returns (all: set<TopicRegistrationInfo>)
      requires Valid()
      ensures forall info :: info in all <==> info.topicName in topics && topics[info.topicName] == info
    {
      all := topics.Values;
      forall info | info in all
        ensures info.topicName in topics && topics[info.topicName] == info
      {
        var t :| t in topics && topics[t] == info;
        assert State().topics[t].topicName == t;
      }
    }

    /** `getTopicRegistrationInfo`: null exactly for a topic never registered. */
    method GetTopicRegistrationInfo(t: GraphName) returns (info: TopicRegistrationInfo?)
      requires Valid()
      ensures info == null <==> t !in State().topics
      ensures info != null ==> t in topics && info == topics[t]
      ensures info != null ==> info.topicName == t && info.State() == State().topics[t]
    {
      if t in topics {
        info := topics[t];
        assert State().topics[t] == info.State();
      } else {
        info := null;
      }
    }

    /** `getNodeRegistrationInfo`: an indexed node's record, which always holds a registration. */
    method GetNodeRegistrationInfo(n: GraphName) returns (rec: Option<NodeRecord>)
      requires Valid()
      ensures rec.Some? <==> n in State().nodes
      ensures rec.Some? ==>
                (rec.value.nodeName == n && rec.value.HasRegistrations()
                 && rec.value == State().records[State().nodes[n]])
    {
      if n in nodes {
        rec := Some(records[nodes[n]]);
      } else {
        rec := None;
      }
    }

    /** `getAllServices`: every indexed service record, each filed under its own name. */
    method GetAllServices() returns (all: set<ServiceRecord>)
      requires Valid()
      ensures forall svc :: svc in all <==> svc.serviceName in State().services && State().services[svc.serviceName] == svc
    {
      all := services.Values;
    }

    /** `getServiceRegistrationInfo`: null exactly for an unindexed name; otherwise a record its live owner lists. */
    method GetServiceRegistrationInfo(s: GraphName) returns (service: Option<ServiceRecord>)
      requires Valid()
      ensures service.Some? <==> s in State().services
      ensures service.Some? ==>
                (service.value.serviceName == s && Live(State(), service.value.node)
                 && s in State().records[service.value.node].services)
      ensures service.Some? ==> service.value == State().services[s]
    {
      if s in services {
        service := Some(services[s]);
      } else {
        service := None;
      }
    }
  }
}
