/**
 * `OutgoingMessageQueue`: a publisher's deque of messages and the writer that
 * delivers each dequeued message to the channel contexts that are ready and
 * subscribed to its type. One pass of the writer loop is a method; the
 * outcome of each write, which the network decides, is an input.
 */
module OutgoingMessages {
  import opened Wrappers

  /** `message.getClass().getName().replace('.', '/')`: the ROS type name of a Java class name. */
  function ReplaceDots(s: string): (r: string)
    ensures |r| == |s|
    ensures forall i :: 0 <= i < |s| ==> r[i] == if s[i] == '.' then '/' else s[i]
  {
    if |s| == 0 then ""
    else [if s[0] == '.' then '/' else s[0]] + ReplaceDots(s[1..])
  }

  /** The result holds no dot, and replacing again changes nothing. */
  lemma ReplaceDotsIsIdempotent(s: string)
    ensures forall i :: 0 <= i < |ReplaceDots(s)| ==> ReplaceDots(s)[i] != '.'
    ensures ReplaceDots(ReplaceDots(s)) == ReplaceDots(s)
  {
  }

  /** The state of a `ChannelHandlerContext` the writer reads and changes. */
  class ChannelContext {
    var ready: bool
    var closed: bool
    var messageTypes: set<string>

    constructor (ready: bool, messageTypes: set<string>)
      ensures this.ready == ready && !closed && this.messageTypes == messageTypes
    {
      this.ready := ready;
      closed := false;
      this.messageTypes := messageTypes;
    }

    /** Whether the writer sends a message with this ROS type name here. */
    predicate Accepts(typeName: string)
      reads this
    {
      ready && typeName in messageTypes
    }
  }

  /** `ctxs` holds no context twice. */
  predicate Distinct(ctxs: seq<ChannelContext>)
  {
    forall i, j :: 0 <= i < j < |ctxs| ==> ctxs[i] != ctxs[j]
  }

  /** `ws` lists positions below `n` in strictly increasing order. */
  predicate Increasing(ws: seq<nat>, n: nat)
  {
    (forall k :: 0 <= k < |ws| ==> ws[k] < n)
    && (forall k, l :: 0 <= k < l < |ws| ==> ws[k] < ws[l])
  }

  class OutgoingMessageQueue<T> {
    var deque: seq<T>
    var latchMode: bool
    var latchedMessage: Option<T>
    var channels: seq<ChannelContext>

    constructor (ctxs: seq<ChannelContext>)
      ensures deque == [] && !latchMode && latchedMessage == None && channels == ctxs
    {
      deque := [];
      latchMode := false;
      latchedMessage := None;
      channels := ctxs;
    }

    method SetLatchMode(enabled: bool)
      modifies this
      ensures latchMode == enabled
      ensures deque == old(deque) && latchedMessage == old(latchedMessage) && channels == old(channels)
    {
      latchMode := enabled;
    }

    /** `getLatchMode`: the value last set, false from construction. */
    method GetLatchMode() returns (enabled: bool)
      ensures enabled == latchMode
    {
      return latchMode;
    }

    /** `add`: enqueue at the tail and latch the message. */
    method Add(message: T)
      modifies this
      ensures deque == old(deque) + [message] && latchedMessage == Some(message)
      ensures latchMode == old(latchMode) && channels == old(channels)
    {
      deque := deque + [message];
      latchedMessage := Some(message);
    }

    /** `getNumberOfChannels`. */
    method GetNumberOfChannels() returns (n: nat)
      ensures n == |channels|
    {
      return |channels|;
    }

    /**
     * One pass of `Writer.loop`: take the head message (none while the deque is
     * empty, where the writer blocks) and visit the contexts in order,
     * writing to each one that is ready and takes the message's type.
     * `written` lists the positions written to; a write to position `i`
     * succeeds exactly when `writeOk[i]`, and a failed one closes the context
     * and marks it not ready.
     */
    method WriterLoop(className: T -> string, writeOk: seq<bool>) returns (message: Option<T>, written: seq<nat>)
      requires |writeOk| == |channels| && Distinct(channels)
      modifies this, set c | c in channels
      ensures channels == old(channels) && latchMode == old(latchMode) && latchedMessage == old(latchedMessage)
      ensures old(deque) == [] ==> message == None && deque == [] && written == []
      ensures old(deque) == [] ==> forall c :: c in channels ==> unchanged(c)
      ensures old(deque) != [] ==> message == Some(old(deque)[0]) && deque == old(deque)[1..]
      ensures Increasing(written, |channels|)
      ensures old(deque) != [] ==> forall i :: 0 <= i < |channels| ==>
                (i in written <==> old(channels[i].Accepts(ReplaceDots(className(message.value)))))
      ensures forall i :: 0 <= i < |channels| ==>
                var failed := i in written && !writeOk[i];
                channels[i].ready == (old(channels[i].ready) && !failed)
                && channels[i].closed == (old(channels[i].closed) || failed)
                && channels[i].messageTypes == old(channels[i].messageTypes)
    {
      if |deque| == 0 {
        return None, [];
      }
      var m := deque[0];
      deque := deque[1..];
      message := Some(m);
      var typeName := ReplaceDots(className(m));
      written := [];
      var i := 0;
      while i < |channels|
        invariant 0 <= i <= |channels|
        invariant channels == old(channels) && deque == old(deque)[1..]
        invariant latchMode == old(latchMode) && latchedMessage == old(latchedMessage)
        invariant Increasing(written, i)
        invariant forall j :: 0 <= j < i ==> (j in written <==> old(channels[j].Accepts(typeName)))
        invariant forall j :: i <= j < |channels| ==> unchanged(channels[j])
        invariant forall j :: 0 <= j < i ==>
                    var failed := j in written && !writeOk[j];
                    channels[j].ready == (old(channels[j].ready) && !failed)
                    && channels[j].closed == (old(channels[j].closed) || failed)
                    && channels[j].messageTypes == old(channels[j].messageTypes)
      {
        var ctx := channels[i];
        var sendMessage := typeName in ctx.messageTypes;
        if ctx.ready && sendMessage {
          written := written + [i];
          if !writeOk[i] {
            ctx.closed := true;
            ctx.ready := false;
          }
        }
        i := i + 1;
      }
    }

    /**
     * `writeLatchedMessage` (private, and called from nowhere): the latched
     * message goes to every context, ready or not, whatever its types.
     */
    method WriteLatchedMessage() returns (message: Option<T>, written: seq<nat>)
      ensures message == latchedMessage
      ensures |written| == |channels| && forall i :: 0 <= i < |channels| ==> written[i] == i
    {
      written := [];
      var i := 0;
      while i < |channels|
        invariant 0 <= i <= |channels|
        invariant |written| == i && forall j :: 0 <= j < i ==> written[j] == j
      {
        written := written + [i];
        i := i + 1;
      }
      message := latchedMessage;
    }
  }
}
