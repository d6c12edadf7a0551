/**
 * The few pieces of the Java platform that the modelled classes use:
 * 32-bit `int` arithmetic as `hashCode` performs it, untyped `Object`
 * values as they arrive from XML-RPC, and `java.net.InetSocketAddress`.
 */
module JavaBase {
  import opened Wrappers

  const IntRange: int := 0x1_0000_0000

  /** The values of Java's 32-bit `int`. */
  type Int32 = x: int | -0x8000_0000 <= x < 0x8000_0000

  /** Wrap-around of an unbounded integer into Java `int`, as `+` and `*` on `int` do. */
  function Wrap32(x: int): (r: Int32)
    ensures (r - x) % IntRange == 0
    ensures -0x8000_0000 <= x < 0x8000_0000 ==> r == x
  {
    (x + 0x8000_0000) % IntRange - 0x8000_0000
  }

  /** Integers congruent modulo 2^32 wrap to the same `int`. */
  lemma WrapCongruent(u: int, v: int)
    requires (u - v) % IntRange == 0
    ensures Wrap32(u) == Wrap32(v)
  {
    var k := (u - v) / IntRange;
    assert u == v + k * IntRange;
    assert (u + 0x8000_0000) % IntRange == (v + 0x8000_0000) % IntRange;
  }

  /**
   * One step of the `result = prime * result + h` recipe that Eclipse-generated
   * `hashCode` methods use: multiplying and adding in `int` is the exact
   * result wrapped once.
   */
  function HashStep(result: Int32, h: Int32): (r: Int32)
    ensures r == Wrap32(31 * result + h)
  {
    WrapCongruent(Wrap32(31 * result) + h, 31 * result + h);
    Wrap32(Wrap32(31 * result) + h)
  }

  /**
   * Two steps of the recipe from the initial `result = 1`: the hash of fields
   * `a` then `b` is `31 * (31 * 1 + a) + b` wrapped once, with no wrap-around
   * in between that could change the value.
   */
  lemma TwoStepHash(a: Int32, b: Int32)
    ensures HashStep(HashStep(1, a), b) == Wrap32(961 + 31 * a + b)
  {
    var x := HashStep(1, a);
    assert (x - (31 + a)) % IntRange == 0;
    var k := (x - (31 + a)) / IntRange;
    assert 31 * x + b == 961 + 31 * a + b + (31 * k) * IntRange;
    WrapCongruent(31 * x + b, 961 + 31 * a + b);
  }

  /** Equality of two nullable fields: null equals only null. */
  function FieldEquals<T(==)>(a: Option<T>, b: Option<T>): (r: bool)
    ensures r <==> a == b
  {
    if a.None? then b.None? else b.Some? && a.value == b.value
  }

  /** The hash of a nullable field: 0 for null. */
  function FieldHash<T>(f: Option<T>, hash: T -> Int32): (h: Int32)
    ensures f.None? ==> h == 0
    ensures f.Some? ==> h == hash(f.value)
  {
    if f.None? then 0 else hash(f.value)
  }

  /** A dynamically typed Java `Object` as an XML-RPC response carries it. */
  datatype Value =
    | Null
    | Str(s: string)
    | Int(i: int)
    | Arr(items: seq<Value>)

  /** `(Object[]) v`: null stays null, anything else that is not an array fails the cast. */
  function CastToArray(v: Value): (r: Result<Option<seq<Value>>>)
    ensures r.Ok? <==> (v.Null? || v.Arr?)
    ensures v.Null? ==> r == Ok(None)
    ensures v.Arr? ==> r == Ok(Some(v.items))
    ensures r.Err? ==> r.error == ClassCast
  {
    match v
    case Null => Ok(None)
    case Arr(items) => Ok(Some(items))
    case _ => Err(ClassCast)
  }

  /** `a[i]` on a possibly null `Object[]`. */
  function Index(a: Option<seq<Value>>, i: nat): (r: Result<Value>)
    ensures r.Ok? <==> (a.Some? && i < |a.value|)
    ensures r.Ok? ==> r.value == a.value[i]
    ensures a.None? ==> r == Err(NullPointer)
    ensures a.Some? && i >= |a.value| ==> r == Err(IndexOutOfBounds)
  {
    match a
    case None => Err(NullPointer)
    case Some(items) => if i < |items| then Ok(items[i]) else Err(IndexOutOfBounds)
  }

  /** `(String) v`: null stays null. */
  function CastToString(v: Value): (r: Result<Option<string>>)
    ensures r.Ok? <==> (v.Null? || v.Str?)
    ensures v.Null? ==> r == Ok(None)
    ensures v.Str? ==> r == Ok(Some(v.s))
    ensures r.Err? ==> r.error == ClassCast
  {
    match v
    case Null => Ok(None)
    case Str(s) => Ok(Some(s))
    case _ => Err(ClassCast)
  }

  /** `(int) v` on an `Object`: a cast to `Integer` followed by unboxing, which fails on null. */
  function CastToInt(v: Value): (r: Result<int>)
    ensures r.Ok? <==> v.Int?
    ensures v.Int? ==> r == Ok(v.i)
    ensures v.Null? ==> r == Err(NullPointer)
    ensures !v.Int? && !v.Null? ==> r == Err(ClassCast)
  {
    match v
    case Int(i) => Ok(i)
    case Null => Err(NullPointer)
    case _ => Err(ClassCast)
  }

  /** An unresolved `java.net.InetSocketAddress`; equality is on host name and port. */
  datatype InetSocketAddress = InetSocketAddress(host: string, port: int)

  predicate ValidPort(port: int) { 0 <= port <= 0xFFFF }

  /** `new InetSocketAddress(hostname, port)`: rejects a port out of range and a null host name. */
  function NewInetSocketAddress(hostname: Option<string>, port: int): (r: Result<InetSocketAddress>)
    ensures r.Ok? <==> hostname.Some? && ValidPort(port)
    ensures r.Ok? ==> r.value.host == hostname.value && r.value.port == port
    ensures r.Err? ==> r.error == IllegalArgument
  {
    if !ValidPort(port) || hostname.None? then Err(IllegalArgument)
    else Ok(InetSocketAddress(hostname.value, port))
  }
}
