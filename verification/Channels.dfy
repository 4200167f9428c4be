/** The one-slot channels on which the verdict about a stress sidecar is delivered, and what a failure is. */
module Channels {
  /** Why a stress sidecar is reported as failed. */
  datatype Failure =
    | KillTimedOut
    | WaitLost
    | NoStatus
    | ExitedWith(code: int)
    | OutputLost
    | InspectFailed

  /**
    A channel with one slot, seen from its only sender; `sent` is all it sent. A receiver can only empty
    the slot, so a send blocks at most if something was sent before, and a send after the close panics.
   */
  class Channel<T> {
    var sent: seq<T>
    var closed: bool

    constructor ()
      ensures sent == [] && !closed
    {
      sent, closed := [], false;
    }

    method Send(x: T)
      requires !closed && sent == []
      modifies this
      ensures sent == [x] && !closed
    {
      sent := [x];
    }

    method Close()
      requires !closed
      modifies this
      ensures closed && sent == old(sent)
    {
      closed := true;
    }
  }
}
