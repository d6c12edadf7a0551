/**
 * `ChannelInitializerFactoryStack`: the deque of channel initializers run, in
 * order, against the context of every new channel. What an initializer does
 * to the context's pipeline is outside the model; `Inject` returns the
 * `initChannel` calls it makes.
 */
module ChannelInitializers {

  class ChannelInitializerFactoryStack<I> {
    var queue: seq<I>

    constructor ()
      ensures queue == []
    {
      queue := [];
    }

    method AddFirst(ch: I)
      modifies this
      ensures queue == [ch] + old(queue)
    {
      queue := [ch] + queue;
    }

    method AddLast(ch: I)
      modifies this
      ensures queue == old(queue) + [ch]
    {
      queue := queue + [ch];
    }

    /** `inject(ctx)`: `initChannel(ctx)` on every initializer once, front to back; the stack is left as it was. */
    method Inject<C>(ctx: C) returns (calls: seq<(I, C)>)
      ensures |calls| == |queue|
      ensures forall i :: 0 <= i < |queue| ==> calls[i] == (queue[i], ctx)
    {
      calls := [];
      var i := 0;
      while i < |queue|
        invariant 0 <= i <= |queue|
        invariant |calls| == i
        invariant forall j :: 0 <= j < i ==> calls[j] == (queue[j], ctx)
      {
        calls := calls + [(queue[i], ctx)];
        i := i + 1;
      }
    }
  }
}
