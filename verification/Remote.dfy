/** Calls to services on the network, any of which may fail. */
module Remote {

  /** How a remote call can end. A lost call took effect, but its caller sees an error. */
  datatype Reply = Succeeded | Refused | Lost

  /** Makes the calls and counts those that did not succeed, so that an operation can promise to fail for no other
      reason than it names, and not to succeed after a failing call unless it may go on without it. */
  class Wire {
    ghost var faults: nat
    ghost var tolerated: nat

    constructor ()
    {
    }

    /** Nothing is promised about the reply: what is proved holds for every way in which the calls can end. */
    method Call() returns (reply: Reply)
      modifies this
      ensures faults == old(faults) + if reply.Succeeded? then 0 else 1
      ensures tolerated == old(tolerated)
    {
      reply := *;
      if !reply.Succeeded? {
        faults := faults + 1;
      }
    }

    /** The caller of a call that did not succeed goes on without it. */
    ghost method Tolerate()
      requires faults > 0
      modifies this
      ensures faults == old(faults) - 1 && tolerated == old(tolerated) + 1
    {
      faults, tolerated := faults - 1, tolerated + 1;
    }
  }
}
