# RosJavaLite core, modelled in Dafny

RosJavaLite is a light Java implementation of the ROS client library. It has
two halves. The first is the master's registration bookkeeping. The second is
the transport plumbing a node uses to talk to its peers. This project models
the following classes:

- `MasterRegistrationManagerImpl` (module `MasterRegistration`, with the
  value-level model in `RegistryModel`). It keeps three name-keyed indexes:
  topics, nodes and services. Publishers, subscribers and service servers
  register and unregister under a node name and a slave address. A node that
  re-registers under a new address replaces its old record. A node record
  that has no registrations left is dropped from the index.
- `TopicRegistrationInfo` (module `TopicRegistration`). It holds a topic's
  publishers and subscribers, and the type policy for the topic's message
  type: a publisher's type always wins, a subscriber's type is taken only
  while no publisher has fixed one, and the wildcard `*` never changes it.
- `NodeIdentifier` and `ProtocolDescription`: value classes with null-aware
  `equals` and `hashCode`. The hash codes model Java `int` wrap-around.
  `ProtocolDescription.toList` is the wire form.
- `InetSocketAddressResultFactory`: it decodes an XML-RPC response into an
  address. Every cast and array index that can throw is modelled as an
  error result.
- `ChannelPipelineImpl` (module `ChannelPipelines`): a deque of named
  handlers. It supports insertion and removal at both ends, lookup and
  removal by name or by handler, and event propagation head to tail
  (exceptions go tail to head).
- `OutgoingMessageQueue` (module `OutgoingMessages`): a publisher's message
  deque, with latching. One pass of the writer loop hands the head message to
  every channel context that is ready and subscribed to the message's type. A
  failed write closes that context.
- `ChannelInitializerFactoryStack` (module `ChannelInitializers`): a deque of
  channel initializers, each run once per new channel.

Objects the source updates in place are Dafny classes whose methods state
their whole new state:

- the manager;
- topic records;
- pipelines;
- queues;
- channel contexts;
- initializer stacks.

The manager's public methods are proved to move its abstract state
`State()` exactly as the corresponding function of `RegistryModel` does. They
also keep the registration graph invariant `RegistryModel.Inv`, which says:

- every edge is present in both directions (topic to node and node to topic);
- every indexed service is listed by its owner;
- every indexed node still holds a registration.

Lemmas about those functions state what each operation does.

Node records are kept in an arena. It maps identifiers to records and has a
counter for fresh identifiers, so record identity, which the Java code relies
on (`previousServiceNode == node`), can be stated. Java `null` is `Option`,
and exceptions are `Result` values carrying a `JavaException`. Values that
depend on code outside the model are parameters:

- the hash functions of `GraphName` and of addresses;
- how a message's class name is found;
- how each socket write ends;
- what a handler's `channelRead` returns.

The code and its documentation differ in one place, and the model follows the
code. The doc comments of `unregisterPublisher`, `unregisterSubscriber` and
`unregisterService` say they return true "if the ... was actually registered
before the call". The code returns true whenever the topic (or service) and
the node name are both known. `UnregisterNonPublisherSucceeds`,
`UnregisterNonSubscriberSucceeds` and `UnregisterServiceByNonOwner` state what
the code does.

## Model

All source paths are under `src/main/java/org/ros/internal/`, which the table
writes out in full.

| member | source | states |
|---|---|---|
| JavaBase.Wrap32 | src/main/java/org/ros/internal/node/server/NodeIdentifier.java:99-106 | The wrapped value is congruent to the input modulo 2^32 and equals it when the input fits in an `int`, as Java's `int` arithmetic in `hashCode` behaves |
| JavaBase.HashStep | src/main/java/org/ros/internal/node/server/NodeIdentifier.java:103-104 | One `result = 31 * result + h` step in `int` equals the exact value `31 * result + h` wrapped once |
| JavaBase.TwoStepHash | src/main/java/org/ros/internal/node/server/NodeIdentifier.java:101-105 | Two steps from `result = 1` equal `961 + 31 * a + b` wrapped once: the intermediate wrap-around never changes the final `int` |
| JavaBase.FieldEquals | src/main/java/org/ros/internal/node/server/NodeIdentifier.java:117-125 | The null-aware comparison of one field (`x == null ? other.x == null : x.equals(other.x)`) holds exactly when the two fields are equal |
| JavaBase.FieldHash | src/main/java/org/ros/internal/node/server/NodeIdentifier.java:103-104 | A null field hashes to 0, a present one to its own hash |
| JavaBase.CastToArray | src/main/java/org/ros/internal/node/response/InetSocketAddressResultFactory.java:14 | `(Object[])` succeeds exactly on null and arrays: null gives null, an array its items; anything else is a class-cast error |
| JavaBase.Index | src/main/java/org/ros/internal/node/response/InetSocketAddressResultFactory.java:15 | Indexing succeeds exactly on a non-null array and an index in range, and yields that element; a null array is a null-pointer error, an index past the end an index-out-of-bounds error |
| JavaBase.CastToString | src/main/java/org/ros/internal/node/response/InetSocketAddressResultFactory.java:15 | `(String)` succeeds exactly on null and strings, giving null for null and the string itself for a string; anything else is a class-cast error |
| JavaBase.CastToInt | src/main/java/org/ros/internal/node/response/InetSocketAddressResultFactory.java:15 | `(int)` on an Object succeeds exactly on integers and gives that integer; null fails with a null-pointer error on unboxing, any other value with a class-cast error |
| JavaBase.NewInetSocketAddress | src/main/java/org/ros/internal/node/response/InetSocketAddressResultFactory.java:15 | The address exists exactly when the host is non-null and the port is in 0..65535, and it holds that host and port; otherwise an illegal-argument error |
| NodeIdentifiers.New | src/main/java/org/ros/internal/node/server/NodeIdentifier.java:71-78 | The constructor demands one present part and a global name, and stores both parts |
| NodeIdentifiers.ForName | src/main/java/org/ros/internal/node/server/NodeIdentifier.java:40-42 | A name-only identifier with a null address |
| NodeIdentifiers.ForUri | src/main/java/org/ros/internal/node/server/NodeIdentifier.java:44-46 | Succeeds exactly for a valid port, giving an address-only identifier; otherwise an illegal-argument error |
| NodeIdentifiers.ForNameAndUri | src/main/java/org/ros/internal/node/server/NodeIdentifier.java:48-50 | Succeeds exactly for a valid port, holding both the name and the address; otherwise the address constructor's illegal-argument error |
| NodeIdentifiers.Equals | src/main/java/org/ros/internal/node/server/NodeIdentifier.java:108-136 | The null-aware field-wise comparison holds exactly when both name and address agree, null matching only null |
| NodeIdentifiers.HashCode | src/main/java/org/ros/internal/node/server/NodeIdentifier.java:99-106 | The hash is `961 + 31 * (name hash) + (address hash)` in Java `int`, each null part hashing to 0; the all-null identifier hashes to 31*31 |
| NodeIdentifiers.EqualsIsEquivalence | src/main/java/org/ros/internal/node/server/NodeIdentifier.java:108-136 | `equals` is reflexive, symmetric and transitive |
| NodeIdentifiers.EqualsImpliesSameHash | src/main/java/org/ros/internal/node/server/NodeIdentifier.java:99-136 | Equal identifiers hash alike for any component hash functions |
| NodeIdentifiers.NameOnlyNeverEqualsUriOnly | src/main/java/org/ros/internal/node/server/NodeIdentifier.java:40-46 | A name-only and an address-only identifier are never equal |
| ProtocolDescriptions.New | src/main/java/org/ros/internal/transport/ProtocolDescription.java:37-46 | The constructor stores the name and the address as given, and `getName` returns the name |
| ProtocolDescriptions.GetName | src/main/java/org/ros/internal/transport/ProtocolDescription.java:44-46 | Returns the stored name, null included |
| ProtocolDescriptions.ToList | src/main/java/org/ros/internal/transport/ProtocolDescription.java:56-62 | Succeeds exactly when the address is non-null, giving three elements with a string host at 1 and an integer port at 2; a null address is a null-pointer error |
| ProtocolDescriptions.ToListRoundTrip | src/main/java/org/ros/internal/transport/ProtocolDescription.java:56-62 | Reading the list back gives the original description |
| ProtocolDescriptions.Equals | src/main/java/org/ros/internal/transport/ProtocolDescription.java:78-98 | Holds exactly when addresses and names agree, null matching only null |
| ProtocolDescriptions.HashCode | src/main/java/org/ros/internal/transport/ProtocolDescription.java:69-76 | The hash is `961 + 31 * (address hash) + (name hash)` in Java `int`, each null part hashing to 0; the all-null description hashes to 31*31 |
| ProtocolDescriptions.EqualsImpliesSameHash | src/main/java/org/ros/internal/transport/ProtocolDescription.java:69-98 | Equal descriptions hash alike for any component hash functions |
| InetSocketAddressResults.NewFromValue | src/main/java/org/ros/internal/node/response/InetSocketAddressResultFactory.java:13-18 | A null response is a null-pointer error (the for-each loop dereferences it), a non-array a class-cast error, an empty array gives null; a non-empty array gives whatever its first pair decodes to, so any address returned is the host at element 0 and the port at element 1 of the first pair |
| InetSocketAddressResults.DecodePair | src/main/java/org/ros/internal/node/response/InetSocketAddressResultFactory.java:15 | A pair decodes exactly when it is an array whose first two elements are a string and an integer in 0..65535, and then to that host and port; a null pair is a null-pointer error, a non-array a class-cast error |
| InetSocketAddressResults.EmptyArrayGivesNull | src/main/java/org/ros/internal/node/response/InetSocketAddressResultFactory.java:13-18 | An empty response array decodes to null |
| InetSocketAddressResults.FirstPairDecoded | src/main/java/org/ros/internal/node/response/InetSocketAddressResultFactory.java:13-18 | A well-formed first pair decodes to exactly its host and port |
| InetSocketAddressResults.OnlyFirstPairMatters | src/main/java/org/ros/internal/node/response/InetSocketAddressResultFactory.java:13-18 | The result does not depend on the pairs after the first (the loop returns in its first iteration) |
| InetSocketAddressResults.ShortPairFails | src/main/java/org/ros/internal/node/response/InetSocketAddressResultFactory.java:13-18 | A pair with only a host fails with an index error |
| TopicRegistration.NewTopicIsEmpty | src/main/java/org/ros/internal/node/server/master/TopicRegistrationInfo.java:47-52 | A new topic has its name, no publishers, no subscribers, no type, not publisher-defined, no registrations |
| TopicRegistration.AddPublisherFixesType | src/main/java/org/ros/internal/node/server/master/TopicRegistrationInfo.java:114-119 | Adding a publisher adds it, leaves subscribers and name alone, and sets the type (even to null), marking it publisher-defined |
| TopicRegistration.AddSubscriberTypePolicy | src/main/java/org/ros/internal/node/server/master/TopicRegistrationInfo.java:150-155 | Adding a subscriber adds it; the type becomes the subscriber's exactly when that type is not the wildcard and no type is known or no publisher fixed it, and stays as it was otherwise |
| TopicRegistration.NullPublisherTypeYieldsToSubscriber | src/main/java/org/ros/internal/node/server/master/TopicRegistrationInfo.java:180-202 | A publisher with a null type marks the type publisher-defined, yet a later concrete subscriber type is adopted |
| TopicRegistration.RemoveTouchesOnlyThatNode | src/main/java/org/ros/internal/node/server/master/TopicRegistrationInfo.java:129-131 | Removing a publisher (or subscriber, 165-167) takes out that one node and changes nothing else |
| TopicRegistration.PublisherDefinedIsSticky | src/main/java/org/ros/internal/node/server/master/TopicRegistrationInfo.java:180-202 | Once publisher-defined, the type stays publisher-defined after any sequence of operations |
| TopicRegistration.TopicNameIsFixed | src/main/java/org/ros/internal/node/server/master/TopicRegistrationInfo.java:47-52 | No sequence of operations changes the topic name |
| TopicRegistration.PublisherTypeSurvivesSubscribers | src/main/java/org/ros/internal/node/server/master/TopicRegistrationInfo.java:180-202 | A publisher-fixed type survives every sequence of operations that registers no further publisher |
| TopicRegistration.RemovalsKeepType | src/main/java/org/ros/internal/node/server/master/TopicRegistrationInfo.java:129-167 | Removals alone never change the type or its publisher-defined flag |
| TopicRegistration.WildcardSubscriberKeepsPublisherType | src/main/java/org/ros/internal/node/server/master/TopicRegistrationInfo.java:180-202 | Publisher type P1 then a wildcard subscriber leaves the type P1 |
| TopicRegistration.LatestSubscriberTypeWins | src/main/java/org/ros/internal/node/server/master/TopicRegistrationInfo.java:180-202 | With subscribers only, S1 then S2 gives S2 |
| TopicRegistration.TopicRegistrationInfo.constructor | src/main/java/org/ros/internal/node/server/master/TopicRegistrationInfo.java:47-52 | The new object's state is the empty topic |
| TopicRegistration.TopicRegistrationInfo.GetMessageType | src/main/java/org/ros/internal/node/server/master/TopicRegistrationInfo.java:66-68 | The current message type |
| TopicRegistration.TopicRegistrationInfo.HasPublishers | src/main/java/org/ros/internal/node/server/master/TopicRegistrationInfo.java:75-77 | True exactly when some publisher is registered |
| TopicRegistration.TopicRegistrationInfo.HasSubscribers | src/main/java/org/ros/internal/node/server/master/TopicRegistrationInfo.java:84-86 | True exactly when some subscriber is registered |
| TopicRegistration.TopicRegistrationInfo.HasRegistrations | src/main/java/org/ros/internal/node/server/master/TopicRegistrationInfo.java:93-95 | Agrees with the value-level `HasRegistrations` of the current state |
| TopicRegistration.TopicRegistrationInfo.SetMessageType | src/main/java/org/ros/internal/node/server/master/TopicRegistrationInfo.java:180-202 | The new state is the type policy applied to the old state |
| TopicRegistration.TopicRegistrationInfo.AddPublisher | src/main/java/org/ros/internal/node/server/master/TopicRegistrationInfo.java:114-119 | The new state is `AddPublisher` of the old |
| TopicRegistration.TopicRegistrationInfo.RemovePublisher | src/main/java/org/ros/internal/node/server/master/TopicRegistrationInfo.java:129-131 | Returns whether the node was a publisher, and removes it |
| TopicRegistration.TopicRegistrationInfo.AddSubscriber | src/main/java/org/ros/internal/node/server/master/TopicRegistrationInfo.java:150-155 | The new state is `AddSubscriber` of the old |
| TopicRegistration.TopicRegistrationInfo.RemoveSubscriber | src/main/java/org/ros/internal/node/server/master/TopicRegistrationInfo.java:165-167 | Returns whether the node was a subscriber, and removes it |
| TopicRegistration.TopicRegistrationInfo.Equals | src/main/java/org/ros/internal/node/server/master/TopicRegistrationInfo.java:212-224 | Equality implies a non-null record with the same topic name |
| TopicRegistration.TopicRegistrationInfo.HashCode | src/main/java/org/ros/internal/node/server/master/TopicRegistrationInfo.java:204-210 | The hash is `31 + (topic name hash)` in Java `int`: it depends on the name alone |
| TopicRegistration.EqualityIsByName | src/main/java/org/ros/internal/node/server/master/TopicRegistrationInfo.java:204-224 | Two records are equal exactly when their topic names agree; equal records are symmetric and hash alike |
| RegistryModel.EmptyIsValid | src/main/java/org/ros/internal/node/server/master/MasterRegistrationManagerImpl.java:55-60 | The empty registry satisfies the graph invariant |
| RegistryModel.ObtainTopic | src/main/java/org/ros/internal/node/server/master/MasterRegistrationManagerImpl.java:384-392 | With creation the topic is present afterwards; a known topic or no creation changes nothing; otherwise exactly an empty topic is added |
| RegistryModel.CleanupNode | src/main/java/org/ros/internal/node/server/master/MasterRegistrationManagerImpl.java:445-457 | Only topics and services change: the record's services leave the index and no topic is created or dropped |
| RegistryModel.CleanupNodeDetachesTopics | src/main/java/org/ros/internal/node/server/master/MasterRegistrationManagerImpl.java:445-452 | In every topic the record leaves the publishers exactly when it lists the topic as a publication, and the subscribers exactly when it lists it as a subscription; nothing else in the topic changes |
| RegistryModel.PotentiallyDeleteNode | src/main/java/org/ros/internal/node/server/master/MasterRegistrationManagerImpl.java:498-502 | Only the node index changes: the record's name leaves it exactly when the record has no registrations |
| RegistryModel.ObtainNode | src/main/java/org/ros/internal/node/server/master/MasterRegistrationManagerImpl.java:405-436 | Afterwards `n` is indexed to a record named `n` at address `a`; no topic appears or changes its type; no existing arena record changes |
| RegistryModel.SameAddressKeepsRecord | src/main/java/org/ros/internal/node/server/master/MasterRegistrationManagerImpl.java:409-411 | The same address returns the indexed record and changes nothing |
| RegistryModel.ReplacementDetachesOldRecord | src/main/java/org/ros/internal/node/server/master/MasterRegistrationManagerImpl.java:413-429 | A new address yields a fresh empty record under `n`; the old record is no longer live, has left every topic's sets, and its services have left the index |
| RegistryModel.UnknownNameGetsFreshRecord | src/main/java/org/ros/internal/node/server/master/MasterRegistrationManagerImpl.java:430-435 | An unknown name gets a fresh empty record |
| RegistryModel.ObtainTopicKeepsInv | src/main/java/org/ros/internal/node/server/master/MasterRegistrationManagerImpl.java:384-392 | Obtaining a topic keeps the graph invariant |
| RegistryModel.ObtainNodeKeepsLinked | src/main/java/org/ros/internal/node/server/master/MasterRegistrationManagerImpl.java:405-457 | Obtaining a node keeps every edge two-way; only the obtained node may lack registrations |
| RegistryModel.PotentiallyDeleteKeepsLinked | src/main/java/org/ros/internal/node/server/master/MasterRegistrationManagerImpl.java:498-502 | Collecting an unregistered node keeps the graph linked |
| RegistryModel.RegisterPublisher | src/main/java/org/ros/internal/node/server/master/MasterRegistrationManagerImpl.java:76-90 | The topic exists afterwards and no other topic is created or dropped |
| RegistryModel.RegisterPublisherKeepsInv | src/main/java/org/ros/internal/node/server/master/MasterRegistrationManagerImpl.java:76-90 | Registering a publisher keeps the graph invariant |
| RegistryModel.RegisterPublisherEstablishesEdge | src/main/java/org/ros/internal/node/server/master/MasterRegistrationManagerImpl.java:84-89 | Afterwards the node is live at the given address, the publication edge is there in both directions, and the topic's type is the publisher's, publisher-defined |
| RegistryModel.RegisterSubscriber | src/main/java/org/ros/internal/node/server/master/MasterRegistrationManagerImpl.java:153-167 | The topic exists afterwards and no other topic is created or dropped |
| RegistryModel.RegisterSubscriberKeepsInv | src/main/java/org/ros/internal/node/server/master/MasterRegistrationManagerImpl.java:153-167 | Registering a subscriber keeps the graph invariant |
| RegistryModel.RegisterSubscriberEstablishesEdge | src/main/java/org/ros/internal/node/server/master/MasterRegistrationManagerImpl.java:153-167 | Afterwards the subscription edge is there in both directions and the type follows the subscriber policy against the topic as it was |
| RegistryModel.UnregisterPublisher | src/main/java/org/ros/internal/node/server/master/MasterRegistrationManagerImpl.java:103-137 | True exactly when the topic and the node name are known; false changes nothing; no topic is dropped |
| RegistryModel.UnregisterPublisherKeepsInv | src/main/java/org/ros/internal/node/server/master/MasterRegistrationManagerImpl.java:103-137 | Unregistering a publisher keeps the graph invariant |
| RegistryModel.UnregisterPublisherRemovesEdge | src/main/java/org/ros/internal/node/server/master/MasterRegistrationManagerImpl.java:110-118 | The edge goes in both directions, other topics are untouched, and the node stays indexed exactly when its record still has a registration |
| RegistryModel.UnregisterNonPublisherSucceeds | src/main/java/org/ros/internal/node/server/master/MasterRegistrationManagerImpl.java:110-118 | A known node that never published still gets true, and nothing changes |
| RegistryModel.UnregisterSubscriber | src/main/java/org/ros/internal/node/server/master/MasterRegistrationManagerImpl.java:180-210 | True exactly when the topic and the node name are known; false changes nothing; no topic is dropped |
| RegistryModel.UnregisterSubscriberKeepsInv | src/main/java/org/ros/internal/node/server/master/MasterRegistrationManagerImpl.java:180-210 | Unregistering a subscriber keeps the graph invariant |
| RegistryModel.UnregisterSubscriberRemovesEdge | src/main/java/org/ros/internal/node/server/master/MasterRegistrationManagerImpl.java:180-210 | The edge goes in both directions, other topics are untouched, and the node stays indexed exactly when its record still has a registration |
| RegistryModel.UnregisterNonSubscriberSucceeds | src/main/java/org/ros/internal/node/server/master/MasterRegistrationManagerImpl.java:180-210 | A known node that never subscribed still gets true, and nothing changes |
| RegistryModel.UnknownNamesLeaveRegistryUnchanged | src/main/java/org/ros/internal/node/server/master/MasterRegistrationManagerImpl.java:103-314 | An unknown topic, service or node makes the unregistration return false and leaves the registry unchanged |
| RegistryModel.RegisterService | src/main/java/org/ros/internal/node/server/master/MasterRegistrationManagerImpl.java:226-262 | Afterwards the returned record is indexed under the service name; no topic is created or dropped (a replaced node record still leaves its topics). The owner and address of the returned record are stated by `RegisterServiceMovesOwner` and `RegisterServiceSameNodeIsNoOp` |
| RegistryModel.RegisterServiceKeepsInv | src/main/java/org/ros/internal/node/server/master/MasterRegistrationManagerImpl.java:226-262 | Registering a service keeps the graph invariant |
| RegistryModel.AddServiceKeepsInv | src/main/java/org/ros/internal/node/server/master/MasterRegistrationManagerImpl.java:256-259 | Indexing a service owned by the obtained node restores the whole invariant |
| RegistryModel.MoveServiceKeepsInv | src/main/java/org/ros/internal/node/server/master/MasterRegistrationManagerImpl.java:248-259 | Moving a service from another owner to the obtained node keeps the invariant |
| RegistryModel.RegisterServiceSameNodeIsNoOp | src/main/java/org/ros/internal/node/server/master/MasterRegistrationManagerImpl.java:236-247 | The same node record re-registering gets the existing record back and nothing changes |
| RegistryModel.RegisterServiceMovesOwner | src/main/java/org/ros/internal/node/server/master/MasterRegistrationManagerImpl.java:248-259 | Otherwise a fresh record owned by the caller's node is indexed and listed by it; a previous owner loses the service and stays indexed exactly when it still has a registration |
| RegistryModel.UnregisterService | src/main/java/org/ros/internal/node/server/master/MasterRegistrationManagerImpl.java:277-314 | True exactly when the service and the node name are known; true removes exactly that service from the index; false changes nothing; topics are unchanged |
| RegistryModel.UnregisterServiceKeepsInv | src/main/java/org/ros/internal/node/server/master/MasterRegistrationManagerImpl.java:277-314 | Unregistering a service keeps the graph invariant |
| RegistryModel.UnregisterServiceByNonOwner | src/main/java/org/ros/internal/node/server/master/MasterRegistrationManagerImpl.java:284-292 | A node that does not own the service still unindexes it; the owner stays live and still lists the name |
| RegistryModel.UnregisterServiceCollectsNode | src/main/java/org/ros/internal/node/server/master/MasterRegistrationManagerImpl.java:284-292 | The calling node stays indexed exactly when its record still has a registration |
| RegistryModel.TopicsPersist | src/main/java/org/ros/internal/node/server/master/MasterRegistrationManagerImpl.java:76-314 | No operation removes a topic |
| MasterRegistration.MasterRegistrationManagerImpl.constructor | src/main/java/org/ros/internal/node/server/master/MasterRegistrationManagerImpl.java:55-60 | Starts from the empty registry, which is valid |
| MasterRegistration.MasterRegistrationManagerImpl.ObtainTopicRegistrationInfo | src/main/java/org/ros/internal/node/server/master/MasterRegistrationManagerImpl.java:384-392 | Moves the state as `ObtainTopic`; null exactly when the topic is unknown and not created; existing record objects are kept, a created one is fresh |
| MasterRegistration.MasterRegistrationManagerImpl.CleanupNode | src/main/java/org/ros/internal/node/server/master/MasterRegistrationManagerImpl.java:445-457 | Its three loops move the state as `RegistryModel.CleanupNode` |
| MasterRegistration.MasterRegistrationManagerImpl.ObtainNodeRegistrationInfo | src/main/java/org/ros/internal/node/server/master/MasterRegistrationManagerImpl.java:405-436 | Moves the state and returns the record as `ObtainNode` |
| MasterRegistration.MasterRegistrationManagerImpl.PotentiallyDeleteNode | src/main/java/org/ros/internal/node/server/master/MasterRegistrationManagerImpl.java:498-502 | Moves the state as `RegistryModel.PotentiallyDeleteNode` |
| MasterRegistration.MasterRegistrationManagerImpl.RegisterPublisher | src/main/java/org/ros/internal/node/server/master/MasterRegistrationManagerImpl.java:76-90 | Moves the state as `RegistryModel.RegisterPublisher`, keeps `Valid()`, and returns the topic's record object |
| MasterRegistration.MasterRegistrationManagerImpl.RegisterSubscriber | src/main/java/org/ros/internal/node/server/master/MasterRegistrationManagerImpl.java:153-167 | Moves the state as `RegistryModel.RegisterSubscriber`, keeps `Valid()`, and returns the topic's record object |
| MasterRegistration.MasterRegistrationManagerImpl.UnregisterPublisher | src/main/java/org/ros/internal/node/server/master/MasterRegistrationManagerImpl.java:103-137 | State and result as `RegistryModel.UnregisterPublisher`; keeps `Valid()` |
| MasterRegistration.MasterRegistrationManagerImpl.UnregisterSubscriber | src/main/java/org/ros/internal/node/server/master/MasterRegistrationManagerImpl.java:180-210 | State and result as `RegistryModel.UnregisterSubscriber`; keeps `Valid()` |
| MasterRegistration.MasterRegistrationManagerImpl.RegisterService | src/main/java/org/ros/internal/node/server/master/MasterRegistrationManagerImpl.java:226-262 | State and result as `RegistryModel.RegisterService`; keeps `Valid()` |
| MasterRegistration.MasterRegistrationManagerImpl.UnregisterService | src/main/java/org/ros/internal/node/server/master/MasterRegistrationManagerImpl.java:277-314 | State and result as `RegistryModel.UnregisterService`; keeps `Valid()` and the topic map |
| MasterRegistration.MasterRegistrationManagerImpl.GetAllTopics | src/main/java/org/ros/internal/node/server/master/MasterRegistrationManagerImpl.java:321-323 | A record is returned exactly when it is the one filed under its own topic name |
| MasterRegistration.MasterRegistrationManagerImpl.GetTopicRegistrationInfo | src/main/java/org/ros/internal/node/server/master/MasterRegistrationManagerImpl.java:334-336 | Null exactly for an unknown topic; otherwise the very record object stored under that name, which later registrations update |
| MasterRegistration.MasterRegistrationManagerImpl.GetNodeRegistrationInfo | src/main/java/org/ros/internal/node/server/master/MasterRegistrationManagerImpl.java:347-349 | Null exactly for an unindexed name; otherwise that name's record, which has a registration |
| MasterRegistration.MasterRegistrationManagerImpl.GetAllServices | src/main/java/org/ros/internal/node/server/master/MasterRegistrationManagerImpl.java:356-358 | A record is returned exactly when it is the one filed under its own service name |
| MasterRegistration.MasterRegistrationManagerImpl.GetServiceRegistrationInfo | src/main/java/org/ros/internal/node/server/master/MasterRegistrationManagerImpl.java:369-371 | Null exactly for an unindexed name; otherwise exactly the record indexed under it, whose owner is live and lists it |
| ChannelPipelines.FirstIndexOfName | src/main/java/org/ros/internal/transport/ChannelPipelineImpl.java:66-79 | The position of the first entry with that name, or the length when there is none |
| ChannelPipelines.FirstIndexOfHandler | src/main/java/org/ros/internal/transport/ChannelPipelineImpl.java:53-63 | The position of the first entry with that handler, or the length when there is none |
| ChannelPipelines.RemoveAt | src/main/java/org/ros/internal/transport/ChannelPipelineImpl.java:53-79 | One entry fewer; the others keep their order |
| ChannelPipelines.Lookup | src/main/java/org/ros/internal/transport/ChannelPipelineImpl.java:114-126 | None exactly on an empty pipeline; the first matching entry's handler when the name is present; otherwise the last entry's handler (the iterator's leftover) |
| ChannelPipelines.MapOf | src/main/java/org/ros/internal/transport/ChannelPipelineImpl.java:142-151 | Its keys are exactly the entries' names |
| ChannelPipelines.MapOfLaterWins | src/main/java/org/ros/internal/transport/ChannelPipelineImpl.java:142-151 | For duplicate names the map holds the last entry's handler |
| ChannelPipelines.ChannelPipeline.constructor | src/main/java/org/ros/internal/transport/ChannelPipelineImpl.java:24-26 | Starts empty |
| ChannelPipelines.ChannelPipeline.AddFirst | src/main/java/org/ros/internal/transport/ChannelPipelineImpl.java:38-41 | The entry goes in front |
| ChannelPipelines.ChannelPipeline.AddLast | src/main/java/org/ros/internal/transport/ChannelPipelineImpl.java:45-48 | The entry goes at the back |
| ChannelPipelines.ChannelPipeline.RemoveHandler | src/main/java/org/ros/internal/transport/ChannelPipelineImpl.java:53-63 | The first entry holding the handler is removed, if any |
| ChannelPipelines.ChannelPipeline.RemoveName | src/main/java/org/ros/internal/transport/ChannelPipelineImpl.java:66-79 | The first entry with the name is removed, if any; returns what `Lookup` reports |
| ChannelPipelines.ChannelPipeline.RemoveFirst | src/main/java/org/ros/internal/transport/ChannelPipelineImpl.java:83-87 | The head handler is removed and returned; no-such-element on an empty pipeline |
| ChannelPipelines.ChannelPipeline.RemoveLast | src/main/java/org/ros/internal/transport/ChannelPipelineImpl.java:90-94 | The tail handler is removed and returned; no-such-element on an empty pipeline |
| ChannelPipelines.ChannelPipeline.First | src/main/java/org/ros/internal/transport/ChannelPipelineImpl.java:98-102 | The head handler; an error exactly when empty |
| ChannelPipelines.ChannelPipeline.Last | src/main/java/org/ros/internal/transport/ChannelPipelineImpl.java:106-110 | The tail handler; an error exactly when empty |
| ChannelPipelines.ChannelPipeline.Get | src/main/java/org/ros/internal/transport/ChannelPipelineImpl.java:114-126 | Its loop returns what `Lookup` specifies |
| ChannelPipelines.ChannelPipeline.Names | src/main/java/org/ros/internal/transport/ChannelPipelineImpl.java:130-139 | One name per entry, in pipeline order |
| ChannelPipelines.ChannelPipeline.ToMap | src/main/java/org/ros/internal/transport/ChannelPipelineImpl.java:142-151 | Its loop builds `MapOf` of the entries |
| ChannelPipelines.ChannelPipeline.Fire | src/main/java/org/ros/internal/transport/ChannelPipelineImpl.java:154-241 | One call per handler, head to tail, and tail to head for an exception |
| ChannelPipelines.ChannelPipeline.FireChannelRead | src/main/java/org/ros/internal/transport/ChannelPipelineImpl.java:222-230 | The head reads the message, each later handler reads what the one before returned, and the tail's return value is the result |
| OutgoingMessages.ReplaceDots | src/main/java/org/ros/internal/transport/queue/OutgoingMessageQueue.java:72-75 | Same length; every dot becomes a slash and every other character stays |
| OutgoingMessages.ReplaceDotsIsIdempotent | src/main/java/org/ros/internal/transport/queue/OutgoingMessageQueue.java:72-75 | The result holds no dot, and replacing again changes nothing |
| OutgoingMessages.ChannelContext.constructor | src/main/java/org/ros/internal/transport/queue/OutgoingMessageQueue.java:47 | A context with the given readiness and types, not closed |
| OutgoingMessages.OutgoingMessageQueue.constructor | src/main/java/org/ros/internal/transport/queue/OutgoingMessageQueue.java:105-114 | Empty deque, latch mode off, nothing latched, the given contexts |
| OutgoingMessages.OutgoingMessageQueue.SetLatchMode | src/main/java/org/ros/internal/transport/queue/OutgoingMessageQueue.java:116-118 | Sets the latch mode only |
| OutgoingMessages.OutgoingMessageQueue.GetLatchMode | src/main/java/org/ros/internal/transport/queue/OutgoingMessageQueue.java:120-122 | The current latch mode |
| OutgoingMessages.OutgoingMessageQueue.Add | src/main/java/org/ros/internal/transport/queue/OutgoingMessageQueue.java:128-137 | Appends the message at the tail and latches it |
| OutgoingMessages.OutgoingMessageQueue.GetNumberOfChannels | src/main/java/org/ros/internal/transport/queue/OutgoingMessageQueue.java:162-164 | The number of contexts |
| OutgoingMessages.OutgoingMessageQueue.WriterLoop | src/main/java/org/ros/internal/transport/queue/OutgoingMessageQueue.java:57-102 | On an empty deque nothing happens; otherwise the head message is taken, exactly the contexts that were ready and take its type are written to, in order, and exactly the failed writes close their context and clear its readiness |
| OutgoingMessages.OutgoingMessageQueue.WriteLatchedMessage | src/main/java/org/ros/internal/transport/queue/OutgoingMessageQueue.java:147-157 | The latched message goes to every context in order |
| ChannelInitializers.ChannelInitializerFactoryStack.constructor | src/main/java/org/ros/internal/transport/tcp/ChannelInitializerFactoryStack.java:23 | Starts empty |
| ChannelInitializers.ChannelInitializerFactoryStack.AddFirst | src/main/java/org/ros/internal/transport/tcp/ChannelInitializerFactoryStack.java:25-27 | The initializer goes in front |
| ChannelInitializers.ChannelInitializerFactoryStack.AddLast | src/main/java/org/ros/internal/transport/tcp/ChannelInitializerFactoryStack.java:28-30 | The initializer goes at the back |
| ChannelInitializers.ChannelInitializerFactoryStack.Inject | src/main/java/org/ros/internal/transport/tcp/ChannelInitializerFactoryStack.java:37-42 | One `initChannel(ctx)` call per initializer, front to back |

## Left out

- Concurrency: the manager's callers, the writer's executor thread, `CancellableLoop`, `shutdown`, the queue's mutex and the asynchronous completion handlers. A writer pass is one atomic step.
- The writer's blocking `takeFirst`: on an empty deque a pass returns no message instead of waiting.
- `DEQUE_CAPACITY` of the circular deque: `add` never overwrites on overflow.
- Message serialization, `MessageBufferPool`, the latched `ByteBuffer` and logging: messages are opaque values.
- WriterLoop: it requires the contexts to be distinct objects; a list holding one context twice is not modelled.
- WriteLatchedMessage: it returns the positions it would write to; the write itself and its outcome are not modelled, and the source never calls it.
- `replaceNode` in the manager is never called; its removal loops are the same as `cleanupNode`'s, which is modelled.
- The registration listener hooks of the topic record, `getTopicName`, and the `getPublishers`/`getSubscribers` getters, which only read fields.
- `NodeRegistrationInfo` and `ServiceRegistrationInfo` are not part of this model. Their records are inferred from how the manager uses them: node records compare by identity (arena identifiers); a service record is a value, and `node.removeService(service)` is modelled as removing the service's name from the node's set of service names, so two records with the same name are not told apart there.
- `GraphName` canonicalisation and the namespace layer: names are strings.
- Host name resolution: an `InetSocketAddress` is an unresolved (host, port) pair and compares structurally.
- `NodeIdentifier`: the no-argument constructor, `toConnectionHeader` and `toString`.
- `ProtocolDescription`: the no-argument constructor, `getAddress`, `toString`, and how `AdvertiseAddress` resolves its host.
- NodeIdentifiers.HashCode, ProtocolDescriptions.HashCode and TopicRegistration.TopicRegistrationInfo.HashCode: the hash functions of `GraphName`, `InetSocketAddress`, `AdvertiseAddress` and `String` are parameters, not their Java definitions; the combination recipe, its wrap-around and the agreement with `equals` are stated for every choice of them.
- Null arguments outside the pipeline: `ForUri` and `ForNameAndUri` take a non-null host, so the illegal-argument error of a null host is reachable only from `newFromValue`; `forName(null)` (what `GraphName.of` does with null is not part of this model) and null names or addresses passed to the manager's operations are not modelled.
- The pipeline's `iterator()`, `setContext`, its context field and `toString`; handlers receive the context, which is not modelled.
- Handlers that throw or modify the pipeline while an event propagates; null names or handlers.
- `InetSocketAddressFactory`, `RpcServer`, `ChannelHandlerContextImpl`, `DefaultServiceServer`, `TcpClientPipelineFactory` and the command-line loader test are context for the modelled classes and are not modelled.
