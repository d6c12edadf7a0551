/**
 * `ChannelPipelineImpl`: an ordered deque of (name, handler) entries. Handlers
 * are inserted at either end, removed or looked up by the first matching
 * name or handler, and events are propagated over the entries head to tail,
 * exceptions tail to head. What a handler does with a callback is outside
 * the model; the propagation methods return the calls they make, in order.
 */
module ChannelPipelines {
  import opened Wrappers

  type Entry<H> = (string, H)

  /** The index of the first entry named `name`, or `|es|` when there is none. */
  function FirstIndexOfName<H>(es: seq<Entry<H>>, name: string): (i: nat)
    ensures i <= |es|
    ensures i < |es| ==> es[i].0 == name
    ensures forall j :: 0 <= j < i ==> es[j].0 != name
  {
    if |es| == 0 then 0
    else if es[0].0 == name then 0
    else 1 + FirstIndexOfName(es[1..], name)
  }

  /** The index of the first entry whose handler equals `h`, or `|es|` when there is none. */
  function FirstIndexOfHandler<H(==)>(es: seq<Entry<H>>, h: H): (i: nat)
    ensures i <= |es|
    ensures i < |es| ==> es[i].1 == h
    ensures forall j :: 0 <= j < i ==> es[j].1 != h
  {
    if |es| == 0 then 0
    else if es[0].1 == h then 0
    else 1 + FirstIndexOfHandler(es[1..], h)
  }

  /** The entries without the one at `i`; all others keep their order. */
  function RemoveAt<H>(es: seq<Entry<H>>, i: nat): (r: seq<Entry<H>>)
    requires i < |es|
    ensures |r| == |es| - 1
    ensures forall j :: 0 <= j < i ==> r[j] == es[j]
    ensures forall j :: i <= j < |r| ==> r[j] == es[j + 1]
  {
    es[..i] + es[i + 1..]
  }

  /**
   * The handler `get(name)` and `remove(name)` report: the first entry's with
   * that name; for an absent name the iterator's last entry's, or null on an
   * empty pipeline.
   */
  function Lookup<H>(es: seq<Entry<H>>, name: string): (r: Option<H>)
    ensures r.None? <==> |es| == 0
    ensures (exists i :: 0 <= i < |es| && es[i].0 == name) ==>
              r == Some(es[FirstIndexOfName(es, name)].1)
    ensures (forall i :: 0 <= i < |es| ==> es[i].0 != name) && |es| > 0 ==> r == Some(es[|es| - 1].1)
  {
    var i := FirstIndexOfName(es, name);
    if i < |es| then Some(es[i].1)
    else if |es| == 0 then None
    else Some(es[|es| - 1].1)
  }

  /** The map `toMap()` builds by putting every entry in order. */
  function MapOf<H>(es: seq<Entry<H>>): (m: map<string, H>)
    ensures forall n :: n in m <==> exists i :: 0 <= i < |es| && es[i].0 == n
  {
    if |es| == 0 then map[]
    else MapOf(es[..|es| - 1])[es[|es| - 1].0 := es[|es| - 1].1]
  }

  /** With duplicate names, the later entry wins. */
  lemma {:induction false} MapOfLaterWins<H>(es: seq<Entry<H>>, i: nat)
    requires i < |es|
    requires forall j :: i < j < |es| ==> es[j].0 != es[i].0
    ensures MapOf(es)[es[i].0] == es[i].1
    decreases |es|
  {
    if i < |es| - 1 {
      var init := es[..|es| - 1];
      assert forall j :: i < j < |init| ==> init[j].0 != init[i].0;
      MapOfLaterWins(init, i);
      assert init[i] == es[i];
    }
  }

  /** The callbacks that propagate over every handler without a value flowing between them. */
  datatype Callback<X> =
    | HandlerAdded
    | HandlerRemoved
    | ChannelActive
    | ChannelInactive
    | UserEventTriggered(event: X)
    | ChannelReadComplete
    | ExceptionCaught(cause: X)
  {
    /** Only exceptions travel from the tail to the head. */
    predicate TailToHead() { ExceptionCaught? }
  }

  class ChannelPipeline<H(==)> {
    var entries: seq<Entry<H>>

    constructor ()
      ensures entries == []
    {
      entries := [];
    }

    method AddFirst(name: string, handler: H)
      modifies this
      ensures entries == [(name, handler)] + old(entries)
    {
      entries := [(name, handler)] + entries;
    }

    method AddLast(name: string, handler: H)
      modifies this
      ensures entries == old(entries) + [(name, handler)]
    {
      entries := entries + [(name, handler)];
    }

    /** `remove(handler)`: drop the first entry holding `handler`, if any. */
    method RemoveHandler(handler: H)
      modifies this
      ensures var i := FirstIndexOfHandler(old(entries), handler);
        entries == if i < |old(entries)| then RemoveAt(old(entries), i) else old(entries)
    {
      var i := 0;
      while i < |entries| && entries[i].1 != handler
        invariant 0 <= i <= |entries|
        invariant forall j :: 0 <= j < i ==> entries[j].1 != handler
      {
        i := i + 1;
      }
      if i < |entries| {
        entries := RemoveAt(entries, i);
      }
    }

    /**
     * `remove(name)`: drop the first entry named `name` and return its handler;
     * for an absent name nothing is removed and the last entry's handler (or
     * null) comes back.
     */
    method RemoveName(name: string) returns (h: Option<H>)
      modifies this
      ensures h == Lookup(old(entries), name)
      ensures var i := FirstIndexOfName(old(entries), name);
        entries == if i < |old(entries)| then RemoveAt(old(entries), i) else old(entries)
    {
      var i := 0;
      var me: Option<Entry<H>> := None;
      while i < |entries| && (i == 0 || entries[i - 1].0 != name)
        invariant 0 <= i <= |entries|
        invariant forall j :: 0 <= j < i - 1 ==> entries[j].0 != name
        invariant me == if i == 0 then None else Some(entries[i - 1])
      {
        me := Some(entries[i]);
        i := i + 1;
      }
      if me.Some? && me.value.0 == name {
        entries := RemoveAt(entries, i - 1);
      }
      h := if me.None? then None else Some(me.value.1);
    }

    /** `removeFirst`: the deque throws on an empty pipeline. */
    method RemoveFirst() returns (h: Result<H>)
      modifies this
      ensures old(entries) == [] ==> h == Err(NoSuchElement) && entries == old(entries)
      ensures old(entries) != [] ==> h == Ok(old(entries)[0].1) && entries == old(entries)[1..]
    {
      if |entries| == 0 {
        return Err(NoSuchElement);
      }
      h := Ok(entries[0].1);
      entries := entries[1..];
    }

    /** `removeLast`: the deque throws on an empty pipeline. */
    method RemoveLast() returns (h: Result<H>)
      modifies this
      ensures old(entries) == [] ==> h == Err(NoSuchElement) && entries == old(entries)
      ensures old(entries) != [] ==>
                h == Ok(old(entries)[|old(entries)| - 1].1) && entries == old(entries)[..|old(entries)| - 1]
    {
      if |entries| == 0 {
        return Err(NoSuchElement);
      }
      h := Ok(entries[|entries| - 1].1);
      entries := entries[..|entries| - 1];
    }

    /** `first`: the head handler; the deque throws on an empty pipeline. */
    method First() returns (h: Result<H>)
      ensures entries == [] <==> h == Err(NoSuchElement)
      ensures entries != [] ==> h == Ok(entries[0].1)
    {
      if |entries| == 0 {
        return Err(NoSuchElement);
      }
      return Ok(entries[0].1);
    }

    /** `last`: the tail handler; the deque throws on an empty pipeline. */
    method Last() returns (h: Result<H>)
      ensures entries == [] <==> h == Err(NoSuchElement)
      ensures entries != [] ==> h == Ok(entries[|entries| - 1].1)
    {
      if |entries| == 0 {
        return Err(NoSuchElement);
      }
      return Ok(entries[|entries| - 1].1);
    }

    /** `get(name)`: the lookup `remove(name)` reports, without removing anything. */
    method Get(name: string) returns (h: Option<H>)
      ensures h == Lookup(entries, name)
    {
      var i := 0;
      var me: Option<Entry<H>> := None;
      while i < |entries| && (i == 0 || entries[i - 1].0 != name)
        invariant 0 <= i <= |entries|
        invariant forall j :: 0 <= j < i - 1 ==> entries[j].0 != name
        invariant me == if i == 0 then None else Some(entries[i - 1])
      {
        me := Some(entries[i]);
        i := i + 1;
      }
      h := if me.None? then None else Some(me.value.1);
    }

    /** `names()`: one name per entry, in pipeline order. */
    method Names() returns (ns: seq<string>)
      ensures |ns| == |entries|
      ensures forall i :: 0 <= i < |entries| ==> ns[i] == entries[i].0
    {
      ns := [];
      var i := 0;
      while i < |entries|
        invariant 0 <= i <= |entries|
        invariant |ns| == i
        invariant forall j :: 0 <= j < i ==> ns[j] == entries[j].0
      {
        ns := ns + [entries[i].0];
        i := i + 1;
      }
    }

    /** `toMap()`: every entry put in pipeline order. */
    method ToMap() returns (m: map<string, H>)
      ensures m == MapOf(entries)
    {
      m := map[];
      var i := 0;
      while i < |entries|
        invariant 0 <= i <= |entries|
        invariant m == MapOf(entries[..i])
      {
        assert entries[..i + 1][..i] == entries[..i];
        m := m[entries[i].0 := entries[i].1];
        i := i + 1;
      }
      assert entries[..i] == entries;
    }

    /**
     * `fireChannelRegistered`, `fireChannelUnregistered`, `fireChannelActive`,
     * `fireChannelInactive`, `fireUserEventTriggered`, `fireChannelReadComplete`
     * and `fireExceptionCaught`: one call per handler, head to tail, or tail to
     * head for an exception.
     */
    method Fire<X>(callback: Callback<X>) returns (calls: seq<(H, Callback<X>)>)
      ensures |calls| == |entries|
      ensures !callback.TailToHead() ==> forall i :: 0 <= i < |entries| ==> calls[i] == (entries[i].1, callback)
      ensures callback.TailToHead() ==>
                forall i :: 0 <= i < |entries| ==> calls[i] == (entries[|entries| - 1 - i].1, callback)
    {
      calls := [];
      var i := 0;
      while i < |entries|
        invariant 0 <= i <= |entries|
        invariant |calls| == i
        invariant !callback.TailToHead() ==> forall j :: 0 <= j < i ==> calls[j] == (entries[j].1, callback)
        invariant callback.TailToHead() ==>
                    forall j :: 0 <= j < i ==> calls[j] == (entries[|entries| - 1 - j].1, callback)
      {
        var k := if callback.TailToHead() then |entries| - 1 - i else i;
        calls := calls + [(entries[k].1, callback)];
        i := i + 1;
      }
    }

    /**
     * `fireChannelRead(msg)`: the head handler reads `msg` and each later
     * handler reads what the one before it returned. `inputs[i]` is what
     * handler `i` read and `result` what the tail returned.
     */
    method FireChannelRead<M>(msg: M, channelRead: (H, M) -> M) returns (inputs: seq<M>, result: M)
      ensures |inputs| == |entries|
      ensures |entries| > 0 ==> inputs[0] == msg
      ensures forall i :: 0 < i < |entries| ==> inputs[i] == channelRead(entries[i - 1].1, inputs[i - 1])
      ensures result == if |entries| == 0 then msg else channelRead(entries[|entries| - 1].1, inputs[|entries| - 1])
    {
      inputs := [];
      result := msg;
      var i := 0;
      while i < |entries|
        invariant 0 <= i <= |entries|
        invariant |inputs| == i
        invariant i > 0 ==> inputs[0] == msg
        invariant forall j :: 0 < j < i ==> inputs[j] == channelRead(entries[j - 1].1, inputs[j - 1])
        invariant result == if i == 0 then msg else channelRead(entries[i - 1].1, inputs[i - 1])
      {
        inputs := inputs + [result];
        result := channelRead(entries[i].1, result);
        i := i + 1;
      }
    }
  }
}
