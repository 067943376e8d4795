/** The running service. Every external call (HTTP, SQL, SSH, file rename) is one
    attempt: it takes effect and reports success, or has no effect and reports
    failure. A crash between two calls is an attempt that finds the process dead:
    from then on nothing takes effect until a restart. */
module Process {

  class Process {
    var alive: bool
    /** The calls that failed or were refused, and the cancellations that were seen: what
        an operation can blame for stopping short. */
    ghost var failures: nat

    constructor ()
      ensures alive && failures == 0
    {
      alive, failures := true, 0;
    }

    /** One external call, up to its effect. */
    method Attempt() returns (ok: bool)
      modifies this
      ensures ok ==> old(alive) && alive
      ensures alive ==> old(alive)
      ensures failures == old(failures) + if ok then 0 else 1
    {
      if * {
        alive := false;
      }
      ok := *;
      ok := ok && alive;
      if !ok {
        failures := failures + 1;
      }
    }

    /** A call that reached the outside and was refused there. */
    ghost method Refused()
      modifies this`failures
      ensures failures == old(failures) + 1
    {
      failures := failures + 1;
    }

    /** Whether ctx is cancelled where the code looks. */
    method Cancelled() returns (cancelled: bool)
      modifies this`failures
      ensures failures == old(failures) + if cancelled then 1 else 0
    {
      cancelled := *;
      if cancelled {
        failures := failures + 1;
      }
    }

    /** The service gives up. */
    method Stop()
      modifies this`alive
      ensures !alive
    {
      alive := false;
    }

    method Restart()
      modifies this`alive
      ensures alive
    {
      alive := true;
    }
  }
}
