/** A Go channel, sequentialised: the values sent on it so far, in order,
    and whether it has been closed. A receiver ranging over the channel sees
    exactly `sent` once the channel is closed. */
module Conduits {

  class Channel<T> {
    var sent: seq<T>
    var closed: bool

    /** `make(chan T, 0)`: open and empty. */
    constructor ()
      ensures sent == [] && !closed
    {
      sent := [];
      closed := false;
    }

    /** `ch <- x`. Sending on a closed channel panics in Go, so no caller may. */
    method Send(x: T)
      requires !closed
      modifies this
      ensures sent == old(sent) + [x] && !closed
    {
      sent := sent + [x];
    }

    /** `close(ch)`. Closing twice panics in Go, so no caller may. */
    method Close()
      requires !closed
      modifies this
      ensures closed && sent == old(sent)
    {
      closed := true;
    }
  }
}
