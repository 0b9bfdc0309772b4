/** Values shared by every stage of the I/O bridge: Go's error values, how a
    goroutine ends, and the peers (a writer, a process) a stage talks to. */
module Base {

  datatype Option<+T> = None | Some(value: T)

  /** A Go `error`: the sentinel `io.EOF`, or any other error, known only by its text. */
  datatype Error = EOF | Failure(message: string)

  /** How a stage's goroutine ends: it returns, or it panics with an error. */
  datatype Halt = Returned | Panicked(err: Error)

  /** Something a stage sends requests to: the child's input for the line
      writer, the child process for the signal relay. It honours its first
      `accepts` requests and answers every later one with `failure`. Every
      stage stops at the first failed request, so only the position and the
      value of the first failure are observable; this pair describes any
      behaviour of the peer as far as the stages can see it. */
  datatype Peer = Peer(accepts: nat, failure: Error)

  /** The answer to the request numbered `i` (from 0): `None` is success. */
  function Answer(p: Peer, i: nat): (r: Option<Error>)
    ensures r.None? <==> i < p.accepts
    ensures r.Some? ==> r.value == p.failure
  {
    if i < p.accepts then None else Some(p.failure)
  }

  /** How many of `n` requests a peer honours before it fails. */
  function Honoured(p: Peer, n: nat): (k: nat)
    ensures k <= n && k <= p.accepts
    ensures k == n || k == p.accepts
  {
    if p.accepts < n then p.accepts else n
  }
}
