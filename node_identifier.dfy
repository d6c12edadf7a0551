/**
 * `NodeIdentifier`: a node's graph name together with the address of its
 * slave server. Either part may be null, but not both; null is an ordinary
 * value for equality, never a wildcard.
 */
module NodeIdentifiers {
  import opened Wrappers
  import opened JavaBase

  /** A resolved graph name; its canonicalisation belongs to the namespace layer. */
  type GraphName = string

  /** `GraphName.isGlobal`: a global name starts with a slash. */
  predicate IsGlobal(n: GraphName) { |n| > 0 && n[0] == '/' }

  datatype NodeIdentifier = NodeIdentifier(name: Option<GraphName>, uri: Option<InetSocketAddress>)

  /** The constructor asserts that one part is present and that a present name is global. */
  predicate Admissible(name: Option<GraphName>, uri: Option<InetSocketAddress>)
  {
    (name.Some? || uri.Some?) && (name.Some? ==> IsGlobal(name.value))
  }

  function New(name: Option<GraphName>, uri: Option<InetSocketAddress>): (id: NodeIdentifier)
    requires Admissible(name, uri)
    ensures id.name == name && id.uri == uri
  {
    NodeIdentifier(name, uri)
  }

  /** `forName`: an identifier that carries no address. */
  function ForName(name: GraphName): (id: NodeIdentifier)
    requires IsGlobal(name)
    ensures id.name == Some(name) && id.uri.None?
  {
    New(Some(name), None)
  }

  /** `forUri`: an identifier that carries no name; the address constructor may throw. */
  function ForUri(host: string, port: int): (r: Result<NodeIdentifier>)
    ensures r.Ok? <==> ValidPort(port)
    ensures r.Ok? ==> r.value.name.None? && r.value.uri == Some(InetSocketAddress(host, port))
    ensures r.Err? ==> r.error == IllegalArgument
  {
    match NewInetSocketAddress(Some(host), port)
    case Ok(a) => Ok(New(None, Some(a)))
    case Err(e) => Err(e)
  }

  /** `forNameAndUri`. */
  function ForNameAndUri(name: GraphName, host: string, port: int): (r: Result<NodeIdentifier>)
    requires IsGlobal(name)
    ensures r.Ok? <==> ValidPort(port)
    ensures r.Ok? ==> r.value.name == Some(name) && r.value.uri == Some(InetSocketAddress(host, port))
    ensures r.Err? ==> r.error == IllegalArgument
  {
    match NewInetSocketAddress(Some(host), port)
    case Ok(a) => Ok(New(Some(name), Some(a)))
    case Err(e) => Err(e)
  }

  /** `equals`: field-wise and null-aware on the name and on the address. */
  function Equals(a: NodeIdentifier, b: NodeIdentifier): (r: bool)
    ensures r <==> a == b
  {
    FieldEquals(a.name, b.name) && FieldEquals(a.uri, b.uri)
  }

  /**
   * `hashCode`, given the hash functions of `GraphName` and `InetSocketAddress`:
   * `31 * (31 * 1 + name hash) + address hash` in Java `int`, a null part
   * hashing to 0.
   */
  function HashCode(id: NodeIdentifier, nameHash: GraphName -> Int32, uriHash: InetSocketAddress -> Int32): (h: Int32)
    ensures h == Wrap32(961 + 31 * FieldHash(id.name, nameHash) + FieldHash(id.uri, uriHash))
    ensures id.name.None? && id.uri.None? ==> h == 31 * 31
  {
    TwoStepHash(FieldHash(id.name, nameHash), FieldHash(id.uri, uriHash));
    HashStep(HashStep(1, FieldHash(id.name, nameHash)), FieldHash(id.uri, uriHash))
  }

  lemma EqualsIsEquivalence(a: NodeIdentifier, b: NodeIdentifier, c: NodeIdentifier)
    ensures Equals(a, a)
    ensures Equals(a, b) == Equals(b, a)
    ensures Equals(a, b) && Equals(b, c) ==> Equals(a, c)
  {
  }

  /** Equal identifiers have equal hash codes, whatever the component hashes. */
  lemma EqualsImpliesSameHash(a: NodeIdentifier, b: NodeIdentifier,
                              nameHash: GraphName -> Int32, uriHash: InetSocketAddress -> Int32)
    requires Equals(a, b)
    ensures HashCode(a, nameHash, uriHash) == HashCode(b, nameHash, uriHash)
  {
  }

  /** A name-only and an address-only identifier are never equal, even with matching parts. */
  lemma NameOnlyNeverEqualsUriOnly(name: GraphName, host: string, port: int)
    requires IsGlobal(name) && ValidPort(port)
    ensures !Equals(ForName(name), ForUri(host, port).value)
  {
  }
}
