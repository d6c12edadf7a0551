/**
 * `InetSocketAddressResultFactory.newFromValue`: reads a socket address out
 * of an XML-RPC response shaped as an array of (host, port) pairs.
 */
module InetSocketAddressResults {
  import opened Wrappers
  import opened JavaBase

  /**
   * The first pair is decoded and returned; an empty array gives null. Every
   * cast and index of the Java expression can throw, in evaluation order:
   * the outer cast, then the host (pair cast, index 0, String cast), then the
   * port (pair cast, index 1, Integer cast and unboxing), then the address
   * constructor.
   */
  function NewFromValue(value: Value): (r: Result<Option<InetSocketAddress>>)
    ensures value.Null? ==> r == Err(NullPointer)
    ensures !value.Null? && !value.Arr? ==> r == Err(ClassCast)
    ensures value.Arr? && |value.items| == 0 ==> r == Ok(None)
    ensures value.Arr? && |value.items| > 0 ==> r == DecodePair(value.items[0])
    ensures r.Ok? && r.value.Some? ==>
              value.Arr? && |value.items| > 0 && value.items[0].Arr? && |value.items[0].items| >= 2
              && value.items[0].items[0] == Str(r.value.value.host)
              && value.items[0].items[1] == Int(r.value.value.port)
  {
    match CastToArray(value)
    case Err(e) => Err(e)
    case Ok(None) => Err(NullPointer)      // the for-each loop dereferences the array
    case Ok(Some(pairs)) =>
      if |pairs| == 0 then Ok(None)
      else DecodePair(pairs[0])
  }

  /**
   * One `(host, port)` pair: it decodes exactly when it is an array whose
   * first two elements are a string and an integer in the port range, and
   * then to that host and port.
   */
  function DecodePair(pair: Value): (r: Result<Option<InetSocketAddress>>)
    ensures r.Ok? <==> pair.Arr? && |pair.items| >= 2 && pair.items[0].Str? && pair.items[1].Int?
                       && ValidPort(pair.items[1].i)
    ensures r.Ok? ==> r.value == Some(InetSocketAddress(pair.items[0].s, pair.items[1].i))
    ensures pair.Null? ==> r == Err(NullPointer)
    ensures !pair.Null? && !pair.Arr? ==> r == Err(ClassCast)
  {
    match CastToArray(pair)
    case Err(e) => Err(e)
    case Ok(items) =>
      match Index(items, 0)
      case Err(e) => Err(e)
      case Ok(h) =>
        match CastToString(h)
        case Err(e) => Err(e)
        case Ok(host) =>
          match Index(items, 1)
          case Err(e) => Err(e)
          case Ok(p) =>
            match CastToInt(p)
            case Err(e) => Err(e)
            case Ok(port) =>
              match NewInetSocketAddress(host, port)
              case Err(e) => Err(e)
              case Ok(a) => Ok(Some(a))
  }

  lemma EmptyArrayGivesNull()
    ensures NewFromValue(Arr([])) == Ok(None)
  {
  }

  /** A well-formed first pair yields exactly its host (element 0) and port (element 1). */
  lemma FirstPairDecoded(host: string, port: int, pairRest: seq<Value>, rest: seq<Value>)
    requires ValidPort(port)
    ensures NewFromValue(Arr([Arr([Str(host), Int(port)] + pairRest)] + rest))
         == Ok(Some(InetSocketAddress(host, port)))
  {
    var pair := [Str(host), Int(port)] + pairRest;
    assert pair[0] == Str(host) && pair[1] == Int(port);
  }

  /** Pairs after the first are never inspected: the result depends only on the first pair. */
  lemma OnlyFirstPairMatters(first: Value, rest1: seq<Value>, rest2: seq<Value>)
    ensures NewFromValue(Arr([first] + rest1)) == NewFromValue(Arr([first] + rest2))
  {
    assert ([first] + rest1)[0] == first && ([first] + rest2)[0] == first;
  }

  /** A pair with fewer than two elements fails with an index error once its host is read. */
  lemma ShortPairFails(host: string, rest: seq<Value>)
    ensures NewFromValue(Arr([Arr([Str(host)])] + rest)) == Err(IndexOutOfBounds)
  {
    assert ([Arr([Str(host)])] + rest)[0] == Arr([Str(host)]);
  }
}
