/** Exit-status decoding: how the bridge turns the outcome of waiting for the
    child into the exit code and error it reports. */
module ExitStatus {
  import opened Base

  /** The platform wait status of a finished child; only its exit status is
      observable here, as an opaque integer. */
  datatype WaitStatus = WaitStatus(exitStatus: int)

  /** A non-nil error from `cmd.Wait()`: an `*exec.ExitError`, whose system
      detail may or may not be a wait status, or any other error. */
  datatype WaitError = ExitError(sys: Option<WaitStatus>) | OtherError(err: Error)

  /** The pair `waitCommand` returns: the exit code and the error (`None` is nil). */
  datatype Exit = Exit(code: int, err: Option<WaitError>)

  /** Whether a `Wait` outcome carries a decodable wait status. */
  predicate HasStatus(wait: Option<WaitError>)
  {
    wait.Some? && wait.value.ExitError? && wait.value.sys.Some?
  }

  /** `waitCommand`: an exit error with a wait status becomes that status's
      exit code and no error; success becomes code 0 and no error; every
      other error is passed on unchanged with code 0. */
  function WaitCommand(wait: Option<WaitError>): (r: Exit)
    ensures r.err.None? <==> wait.None? || HasStatus(wait)
    ensures HasStatus(wait) ==> r.code == wait.value.sys.value.exitStatus
    ensures !HasStatus(wait) ==> r.code == 0
    ensures r.err.Some? ==> r.err == wait
    ensures r.err.Some? ==> r.code == 0
  {
    match wait
    case Some(ExitError(Some(status))) => Exit(status.exitStatus, None)
    case _ => Exit(0, wait)
  }

  /** What `cmd.Wait()` returns for a child that ran to completion with the
      given status: nil when the exit status is 0, otherwise an exit error
      carrying the status. */
  function WaitResult(status: WaitStatus): (wait: Option<WaitError>)
    ensures wait.None? <==> status.exitStatus == 0
    ensures wait.Some? ==> HasStatus(wait) && wait.value.sys.value == status
  {
    if status.exitStatus == 0 then None else Some(ExitError(Some(status)))
  }

  /** For a child that ran to completion, the bridge always reports its exit
      status as the code and never an error, whether the status is zero or not. */
  lemma CompletedChildReportsStatus(status: WaitStatus)
    ensures WaitCommand(WaitResult(status)) == Exit(status.exitStatus, None)
  {
  }
}
