/**
 * `TopicRegistrationInfo`: what the master knows about one topic, namely its
 * publishers, its subscribers and its message type. The type follows one
 * policy: a publisher's type always wins, a subscriber's type is taken only
 * while no publisher has fixed one, and the wildcard never changes it.
 */
module TopicRegistration {
  import opened Wrappers
  import opened JavaBase

  type GraphName = string

  /** A node registration record, named by its place in the master's arena. */
  type NodeId = nat

  /** `Subscriber.TOPIC_MESSAGE_TYPE_WILDCARD`. */
  const Wildcard: string := "*"

  /** The value of a topic record's fields at one moment. */
  datatype TopicState = TopicState(
    topicName: GraphName,
    messageType: Option<string>,
    isPublisherDefinedMessageType: bool,
    publishers: set<NodeId>,
    subscribers: set<NodeId>)
  {
    predicate HasPublishers() { publishers != {} }
    predicate HasSubscribers() { subscribers != {} }
    predicate HasRegistrations() { HasPublishers() || HasSubscribers() }

    /** Whether a subscriber registering `ty` gets its type adopted. */
    predicate SubscriberTypeAdopted(ty: Option<string>)
    {
      ty != Some(Wildcard) && (messageType.None? || !isPublisherDefinedMessageType)
    }

    /** `setMessageType`: the resolution policy for a registration's type. */
    function SetMessageType(ty: Option<string>, isPublisher: bool): TopicState
    {
      if isPublisher then this.(messageType := ty, isPublisherDefinedMessageType := true)
      else if ty != Some(Wildcard) then
        if messageType.Some? then
          if !isPublisherDefinedMessageType then this.(messageType := ty) else this
        else this.(messageType := ty)
      else this
    }

    function AddPublisher(p: NodeId, ty: Option<string>): TopicState
    {
      this.(publishers := publishers + {p}).SetMessageType(ty, true)
    }

    function AddSubscriber(p: NodeId, ty: Option<string>): TopicState
    {
      this.(subscribers := subscribers + {p}).SetMessageType(ty, false)
    }

    function RemovePublisher(p: NodeId): TopicState
    {
      this.(publishers := publishers - {p})
    }

    function RemoveSubscriber(p: NodeId): TopicState
    {
      this.(subscribers := subscribers - {p})
    }
  }

  /** A fresh topic: no publishers, no subscribers, no type, not fixed by a publisher. */
  function NewTopic(topicName: GraphName): TopicState
  {
    TopicState(topicName, None, false, {}, {})
  }

  lemma NewTopicIsEmpty(topicName: GraphName)
    ensures var t := NewTopic(topicName);
      t.topicName == topicName && t.publishers == {} && t.subscribers == {}
      && t.messageType.None? && !t.isPublisherDefinedMessageType && !t.HasRegistrations()
  {
  }

  /** A publisher always sets the type, even to null, and marks it publisher-defined. */
  lemma AddPublisherFixesType(t: TopicState, p: NodeId, ty: Option<string>)
    ensures var r := t.AddPublisher(p, ty);
      r.publishers == t.publishers + {p} && r.subscribers == t.subscribers
      && r.messageType == ty && r.isPublisherDefinedMessageType && r.topicName == t.topicName
  {
  }

  /**
   * A subscriber changes the type exactly when its type is adopted: it is not
   * the wildcard and either no type is known or no publisher has fixed it.
   */
  lemma AddSubscriberTypePolicy(t: TopicState, p: NodeId, ty: Option<string>)
    ensures var r := t.AddSubscriber(p, ty);
      r.subscribers == t.subscribers + {p} && r.publishers == t.publishers
      && r.isPublisherDefinedMessageType == t.isPublisherDefinedMessageType
      && (t.SubscriberTypeAdopted(ty) ==> r.messageType == ty)
      && (!t.SubscriberTypeAdopted(ty) ==> r.messageType == t.messageType)
  {
  }

  /**
   * A publisher that registers a null type still marks the type publisher-defined,
   * yet the next subscriber with a concrete type sets it, since the type is null.
   */
  lemma NullPublisherTypeYieldsToSubscriber(t: TopicState, p: NodeId, q: NodeId, ty: string)
    requires ty != Wildcard
    ensures t.AddPublisher(p, None).isPublisherDefinedMessageType
    ensures t.AddPublisher(p, None).AddSubscriber(q, Some(ty)).messageType == Some(ty)
  {
  }

  /** Removal takes out that one node and leaves the type alone. */
  lemma RemoveTouchesOnlyThatNode(t: TopicState, p: NodeId)
    ensures t.RemovePublisher(p).publishers == t.publishers - {p}
    ensures t.RemovePublisher(p).(publishers := t.publishers) == t
    ensures t.RemoveSubscriber(p).subscribers == t.subscribers - {p}
    ensures t.RemoveSubscriber(p).(subscribers := t.subscribers) == t
  {
  }

  /** One registration or removal against a topic record. */
  datatype TopicOp =
    | AddPublisherOp(node: NodeId, ty: Option<string>)
    | AddSubscriberOp(node: NodeId, ty: Option<string>)
    | RemovePublisherOp(node: NodeId)
    | RemoveSubscriberOp(node: NodeId)

  function Apply(t: TopicState, op: TopicOp): TopicState
  {
    match op
    case AddPublisherOp(p, ty) => t.AddPublisher(p, ty)
    case AddSubscriberOp(p, ty) => t.AddSubscriber(p, ty)
    case RemovePublisherOp(p) => t.RemovePublisher(p)
    case RemoveSubscriberOp(p) => t.RemoveSubscriber(p)
  }

  /** The topic after a sequence of operations, first to last. */
  function ApplyAll(t: TopicState, ops: seq<TopicOp>): TopicState
    decreases |ops|
  {
    if ops == [] then t else ApplyAll(Apply(t, ops[0]), ops[1..])
  }

  /** Once a publisher has defined the type, no sequence of operations undoes that. */
  lemma {:induction false} PublisherDefinedIsSticky(t: TopicState, ops: seq<TopicOp>)
    requires t.isPublisherDefinedMessageType
    ensures ApplyAll(t, ops).isPublisherDefinedMessageType
    decreases |ops|
  {
    if ops != [] {
      PublisherDefinedIsSticky(Apply(t, ops[0]), ops[1..]);
    }
  }

  /** The topic name never changes. */
  lemma {:induction false} TopicNameIsFixed(t: TopicState, ops: seq<TopicOp>)
    ensures ApplyAll(t, ops).topicName == t.topicName
    decreases |ops|
  {
    if ops != [] {
      TopicNameIsFixed(Apply(t, ops[0]), ops[1..]);
    }
  }

  predicate NoPublisherRegistration(ops: seq<TopicOp>)
  {
    forall i :: 0 <= i < |ops| ==> !ops[i].AddPublisherOp?
  }

  /**
   * A type fixed by a publisher survives any sequence of subscriber
   * registrations and removals that registers no further publisher.
   */
  lemma {:induction false} PublisherTypeSurvivesSubscribers(t: TopicState, ops: seq<TopicOp>)
    requires t.isPublisherDefinedMessageType && t.messageType.Some?
    requires NoPublisherRegistration(ops)
    ensures ApplyAll(t, ops).messageType == t.messageType
    ensures ApplyAll(t, ops).isPublisherDefinedMessageType
    decreases |ops|
  {
    if ops != [] {
      assert !ops[0].AddPublisherOp?;
      var t' := Apply(t, ops[0]);
      assert t'.messageType == t.messageType && t'.isPublisherDefinedMessageType;
      assert NoPublisherRegistration(ops[1..]) by {
        forall i | 0 <= i < |ops[1..]| ensures !ops[1..][i].AddPublisherOp? {
          assert ops[1..][i] == ops[i + 1];
        }
      }
      PublisherTypeSurvivesSubscribers(t', ops[1..]);
    }
  }

  /** Removals never change the type, so a later type is always set by some registration. */
  lemma {:induction false} RemovalsKeepType(t: TopicState, ops: seq<TopicOp>)
    requires forall i :: 0 <= i < |ops| ==> ops[i].RemovePublisherOp? || ops[i].RemoveSubscriberOp?
    ensures ApplyAll(t, ops).messageType == t.messageType
    ensures ApplyAll(t, ops).isPublisherDefinedMessageType == t.isPublisherDefinedMessageType
    decreases |ops|
  {
    if ops != [] {
      assert forall i :: 0 <= i < |ops[1..]| ==> ops[1..][i] == ops[i + 1];
      RemovalsKeepType(Apply(t, ops[0]), ops[1..]);
    }
  }

  /** Publisher P1 followed by a wildcard subscriber leaves the type P1. */
  lemma WildcardSubscriberKeepsPublisherType(name: GraphName, pub: NodeId, sub: NodeId, p1: string)
    ensures ApplyAll(NewTopic(name), [AddPublisherOp(pub, Some(p1)), AddSubscriberOp(sub, Some(Wildcard))]).messageType
         == Some(p1)
  {
    var ops := [AddPublisherOp(pub, Some(p1)), AddSubscriberOp(sub, Some(Wildcard))];
    var t1 := Apply(NewTopic(name), ops[0]);
    var t2 := Apply(t1, ops[1]);
    assert ops[1..][1..] == [];
    assert ApplyAll(NewTopic(name), ops) == ApplyAll(t1, ops[1..]) == ApplyAll(t2, []) == t2;
  }

  /** With subscribers alone the latest non-wildcard type wins: S1 then S2 gives S2. */
  lemma LatestSubscriberTypeWins(name: GraphName, a: NodeId, b: NodeId, s1: string, s2: string)
    requires s1 != Wildcard && s2 != Wildcard
    ensures ApplyAll(NewTopic(name), [AddSubscriberOp(a, Some(s1)), AddSubscriberOp(b, Some(s2))]).messageType
         == Some(s2)
  {
    var ops := [AddSubscriberOp(a, Some(s1)), AddSubscriberOp(b, Some(s2))];
    var t1 := Apply(NewTopic(name), ops[0]);
    var t2 := Apply(t1, ops[1]);
    assert ops[1..][1..] == [];
    assert ApplyAll(NewTopic(name), ops) == ApplyAll(t1, ops[1..]) == ApplyAll(t2, []) == t2;
  }

  /** The mutable topic record; its equality and hash code use the topic name only. */
  class TopicRegistrationInfo {
    const topicName: GraphName
    var messageType: Option<string>
    var isPublisherDefinedMessageType: bool
    var publishers: set<NodeId>
    var subscribers: set<NodeId>

    function State(): TopicState
      reads this
    {
      TopicState(topicName, messageType, isPublisherDefinedMessageType, publishers, subscribers)
    }

    constructor (topicName: GraphName)
      ensures State() == NewTopic(topicName)
    {
      this.topicName := topicName;
      messageType := None;
      isPublisherDefinedMessageType := false;
      publishers := {};
      subscribers := {};
    }

    function GetMessageType(): (ty: Option<string>)
      reads this
      ensures ty == State().messageType
    {
      messageType
    }

    predicate HasPublishers()
      reads this
      ensures HasPublishers() <==> publishers != {}
    {
      publishers != {}
    }

    predicate HasSubscribers()
      reads this
      ensures HasSubscribers() <==> subscribers != {}
    {
      subscribers != {}
    }

    predicate HasRegistrations()
      reads this
      ensures HasRegistrations() <==> State().HasRegistrations()
    {
      HasPublishers() || HasSubscribers()
    }

    method SetMessageType(ty: Option<string>, isPublisher: bool)
      modifies this
      ensures State() == old(State()).SetMessageType(ty, isPublisher)
    {
      if isPublisher {
        messageType := ty;
        isPublisherDefinedMessageType := true;
      } else {
        if ty != Some(Wildcard) {
          if messageType.Some? {
            if !isPublisherDefinedMessageType {
              messageType := ty;
            }
          } else {
            messageType := ty;
          }
        }
      }
    }

    method AddPublisher(publisher: NodeId, ty: Option<string>)
      modifies this
      ensures State() == old(State()).AddPublisher(publisher, ty)
    {
      publishers := publishers + {publisher};
      SetMessageType(ty, true);
    }

    /** Returns whether the publisher was registered in the first place. */
    method RemovePublisher(publisher: NodeId) returns (found: bool)
      modifies this
      ensures found <==> publisher in old(publishers)
      ensures State() == old(State()).RemovePublisher(publisher)
    {
      found := publisher in publishers;
      publishers := publishers - {publisher};
    }

    method AddSubscriber(subscriber: NodeId, ty: Option<string>)
      modifies this
      ensures State() == old(State()).AddSubscriber(subscriber, ty)
    {
      subscribers := subscribers + {subscriber};
      SetMessageType(ty, false);
    }

    /** Returns whether the subscriber was registered in the first place. */
    method RemoveSubscriber(subscriber: NodeId) returns (found: bool)
      modifies this
      ensures found <==> subscriber in old(subscribers)
      ensures State() == old(State()).RemoveSubscriber(subscriber)
    {
      found := subscriber in subscribers;
      subscribers := subscribers - {subscriber};
    }

    /** `equals`: the same object, or another record for the same topic name. */
    predicate Equals(other: TopicRegistrationInfo?)
      ensures Equals(other) ==> other != null && other.topicName == topicName
    {
      other == this || (other != null && topicName == other.topicName)
    }

    /** `hashCode`, given the hash of `GraphName`: `31 * 1 + name hash` in Java `int`. */
    function HashCode(nameHash: GraphName -> Int32): (h: Int32)
      ensures h == Wrap32(31 + nameHash(topicName))
    {
      HashStep(1, nameHash(topicName))
    }
  }

  /** Records for the same topic name are equal and hash alike, whatever else differs. */
  lemma EqualityIsByName(a: TopicRegistrationInfo, b: TopicRegistrationInfo, nameHash: GraphName -> Int32)
    ensures a.Equals(b) <==> a.topicName == b.topicName
    ensures a.Equals(b) ==> b.Equals(a) && a.HashCode(nameHash) == b.HashCode(nameHash)
  {
  }
}
