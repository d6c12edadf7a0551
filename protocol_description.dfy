/**
 * `ProtocolDescription`: the name of a transport protocol together with the
 * address at which it is advertised, shipped between nodes as a list.
 */
module ProtocolDescriptions {
  import opened Wrappers
  import opened JavaBase

  /** `AdvertiseAddress` seen through `getHost` and `getPort`. */
  datatype AdvertiseAddress = AdvertiseAddress(host: string, port: int)

  datatype ProtocolDescription = ProtocolDescription(name: Option<string>, address: Option<AdvertiseAddress>)

  /** The constructor stores both arguments as given; either may be null. */
  function New(name: Option<string>, address: Option<AdvertiseAddress>): (pd: ProtocolDescription)
    ensures GetName(pd) == name && pd.address == address
  {
    ProtocolDescription(name, address)
  }

  function GetName(pd: ProtocolDescription): (r: Option<string>)
    ensures r == pd.name
  {
    pd.name
  }

  /** A nullable string as a list element. */
  function StringValue(s: Option<string>): Value
  {
    if s.None? then Null else Str(s.value)
  }

  /**
   * `toList`: the name, then the host, then the port; a null address makes
   * `address.getHost()` throw.
   */
  function ToList(pd: ProtocolDescription): (r: Result<seq<Value>>)
    ensures r.Ok? <==> pd.address.Some?
    ensures r.Err? ==> r.error == NullPointer
    ensures r.Ok? ==> |r.value| == 3 && r.value[1].Str? && r.value[2].Int?
  {
    match pd.address
    case None => Err(NullPointer)
    case Some(a) => Ok([StringValue(pd.name), Str(a.host), Int(a.port)])
  }

  /**
   * How a peer reads the three-element list back: element 0 is the name,
   * elements 1 and 2 are host and port.
   */
  function FromList(l: seq<Value>): Option<ProtocolDescription>
  {
    if |l| == 3 && (l[0].Null? || l[0].Str?) && l[1].Str? && l[2].Int? then
      Some(ProtocolDescription(if l[0].Null? then None else Some(l[0].s),
                               Some(AdvertiseAddress(l[1].s, l[2].i))))
    else None
  }

  /** The list carries the whole description: reading it back gives the original. */
  lemma ToListRoundTrip(pd: ProtocolDescription)
    requires pd.address.Some?
    ensures ToList(pd).Ok? && FromList(ToList(pd).value) == Some(pd)
  {
  }

  /** `equals`: the addresses, then the names, each null-aware. */
  function Equals(a: ProtocolDescription, b: ProtocolDescription): (r: bool)
    ensures r <==> a.address == b.address && a.name == b.name
  {
    FieldEquals(a.address, b.address) && FieldEquals(a.name, b.name)
  }

  /**
   * `hashCode`: `31 * (31 * 1 + address hash) + name hash` in Java `int`, a
   * null part hashing to 0.
   */
  function HashCode(pd: ProtocolDescription, addressHash: AdvertiseAddress -> Int32, nameHash: string -> Int32): (h: Int32)
    ensures h == Wrap32(961 + 31 * FieldHash(pd.address, addressHash) + FieldHash(pd.name, nameHash))
    ensures pd.address.None? && pd.name.None? ==> h == 31 * 31
  {
    TwoStepHash(FieldHash(pd.address, addressHash), FieldHash(pd.name, nameHash));
    HashStep(HashStep(1, FieldHash(pd.address, addressHash)), FieldHash(pd.name, nameHash))
  }

  lemma EqualsImpliesSameHash(a: ProtocolDescription, b: ProtocolDescription,
                              addressHash: AdvertiseAddress -> Int32, nameHash: string -> Int32)
    requires Equals(a, b)
    ensures HashCode(a, addressHash, nameHash) == HashCode(b, addressHash, nameHash)
  {
  }
}
