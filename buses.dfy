/** The buffered channels ("buses") that connect the bridge's stages, as
    bounded first-in first-out queues. */
module Buses {
  import opened Stages

  /** Capacities of the four buses. */
  const OutputBuffer: nat := 200
  const InputBuffer: nat := 20
  const SignalBuffer: nat := 20
  const StateChangeBuffer: nat := 20

  /** The outcome of a send: the value was buffered; the buffer was full (a
      Go send would block here); or the bus was closed (a Go send panics). */
  datatype SendOutcome = Sent | Full | SendOnClosed

  /** The outcome of a receive: the oldest buffered value; nothing yet (a Go
      receive would block); or nothing ever again, the bus being closed and
      drained (a Go `range` loop ends). */
  datatype Receipt<T> = Received(value: T) | Empty | Drained

  /** A Go channel `make(chan T, capacity)`. */
  class Bus<T> {
    const capacity: nat
    var buffered: seq<T>
    var closed: bool
    /** Everything ever sent, and everything ever received, in order. */
    ghost var sent: seq<T>
    ghost var received: seq<T>

    /** The buffer never exceeds the capacity, and values leave in the
        order they came in: what was received followed by what is buffered
        is exactly what was sent. */
    ghost predicate Valid()
      reads this
    {
      |buffered| <= capacity && sent == received + buffered
    }

    constructor (capacity: nat)
      ensures Valid()
      ensures this.capacity == capacity
      ensures buffered == [] && !closed
      ensures sent == [] && received == []
    {
      this.capacity := capacity;
      buffered := [];
      closed := false;
      sent := [];
      received := [];
    }

    /** `bus <- v`. */
    method Send(v: T) returns (outcome: SendOutcome)
      requires Valid()
      modifies this
      ensures Valid()
      ensures outcome == if old(closed) then SendOnClosed else if |old(buffered)| < capacity then Sent else Full
      ensures outcome == Sent ==> buffered == old(buffered) + [v] && sent == old(sent) + [v]
      ensures outcome != Sent ==> buffered == old(buffered) && sent == old(sent)
      ensures closed == old(closed) && received == old(received)
    {
      if closed {
        return SendOnClosed;
      }
      if |buffered| == capacity {
        return Full;
      }
      buffered := buffered + [v];
      sent := sent + [v];
      outcome := Sent;
    }

    /** `v, ok := <-bus`. */
    method Receive() returns (r: Receipt<T>)
      requires Valid()
      modifies this
      ensures Valid()
      ensures old(buffered) != [] ==> r == Received(old(buffered)[0]) && buffered == old(buffered)[1..]
      ensures old(buffered) == [] ==> r == (if closed then Drained else Empty) && buffered == []
      ensures r.Received? ==> received == old(received) + [r.value]
      ensures !r.Received? ==> received == old(received)
      ensures closed == old(closed) && sent == old(sent)
    {
      if buffered != [] {
        r := Received(buffered[0]);
        received := received + [buffered[0]];
        buffered := buffered[1..];
      } else if closed {
        r := Drained;
      } else {
        r := Empty;
      }
    }

    /** `close(bus)`; closing a closed bus panics, which `ok == false` reports. */
    method Close() returns (ok: bool)
      requires Valid()
      modifies this
      ensures Valid()
      ensures ok == !old(closed) && closed
      ensures buffered == old(buffered) && sent == old(sent) && received == old(received)
    {
      ok := !closed;
      closed := true;
    }
  }

  /** The four buses of a run, each with its capacity. */
  method MakeBuses() returns (outputLines: Bus<string>, inputLines: Bus<string>,
                               stateChanges: Bus<StateChange>, signals: Bus<Signal>)
    ensures fresh(outputLines) && fresh(inputLines) && fresh(stateChanges) && fresh(signals)
    ensures outputLines.Valid() && inputLines.Valid() && stateChanges.Valid() && signals.Valid()
    ensures outputLines.capacity == OutputBuffer && inputLines.capacity == InputBuffer
    ensures stateChanges.capacity == StateChangeBuffer && signals.capacity == SignalBuffer
    ensures outputLines.buffered == inputLines.buffered == []
    ensures stateChanges.buffered == [] && signals.buffered == []
    ensures !outputLines.closed && !inputLines.closed && !stateChanges.closed && !signals.closed
    ensures outputLines.sent == outputLines.received == []
    ensures inputLines.sent == inputLines.received == []
    ensures stateChanges.sent == stateChanges.received == []
    ensures signals.sent == signals.received == []
  {
    outputLines := new Bus(OutputBuffer);
    inputLines := new Bus(InputBuffer);
    stateChanges := new Bus(StateChangeBuffer);
    signals := new Bus(SignalBuffer);
  }
}
