/** What the runtime cannot control: pipes that move any number of bytes, processes that end at any
    point, a disk that may refuse. Only finitely many interruptions and processes are assumed. */
module Environment {
  import opened Protocol

  datatype ReadOutcome = Data(bytes: Bytes) | ReadWouldBlock | EndOfFile | ReadInterrupted | ReadError
  datatype WriteOutcome = Wrote(count: nat) | WriteWouldBlock | WriteInterrupted | WriteError
  datatype WaitStatus = ExitStatus(code: int) | SignalStatus(signal: int) | OtherStatus
  datatype Awaited = WaitOver | WaitInterrupted | WaitFailed
  datatype Waited = NoChild | Child(primary: bool, status: WaitStatus)

  class Kernel {
    /** How many more system calls a signal may interrupt. */
    var interrupts: nat
    /** How many children run, and how many have ended and can be reaped. */
    var living: nat
    var ended: nat
    /** How often the system has failed a request. */
    ghost var failures: nat

    constructor (interrupts: nat, children: nat)
      ensures this.interrupts == interrupts && living == children && ended == 0 && failures == 0
    {
      this.interrupts, living, ended, failures := interrupts, children, 0, 0;
    }

    ghost function Children(): nat
      reads this
    {
      living + ended
    }

    /** Reap a child that has ended; more may end first. */
    method Wait() returns (r: Waited)
      modifies this`living, this`ended
      ensures r.Child? ==> Children() < old(Children())
      ensures r.NoChild? ==> Children() == old(Children()) && ended == 0
    {
      var ending: nat := *;
      if 0 <= ending <= living {
        living, ended := living - ending, ended + ending;
      }
      if ended > 0 {
        ended := ended - 1;
        var primary: bool := *;
        var status: WaitStatus := *;
        r := Child(primary, status);
      } else {
        r := NoChild;
      }
    }

    /** A request that may fail for reasons of its own. */
    method Attempt() returns (ok: bool)
      modifies this`failures
      ensures failures == old(failures) + if ok then 0 else 1
    {
      ok := *;
      failures := failures + if ok then 0 else 1;
    }

    /** A question that may be answered either way, or not at all. */
    method Ask() returns (ok: bool, yes: bool)
      modifies this`failures
      ensures failures == old(failures) + if ok then 0 else 1
    {
      yes := *;
      ok := Attempt();
    }

    /** What was awaited of the system has not come in time. */
    ghost method Miss()
      modifies this`failures
      ensures failures == old(failures) + 1
    {
      failures := failures + 1;
    }

    /** Before the pipes are looked at: a signal may interrupt the wait, or the wait may fail. */
    method Await() returns (r: Awaited)
      modifies this`interrupts, this`failures
      ensures interrupts <= old(interrupts)
      ensures r == WaitInterrupted <==> interrupts < old(interrupts)
      ensures failures == old(failures) + if r == WaitFailed then 1 else 0
    {
      var interrupted: bool, broken: bool := *, *;
      if interrupted && interrupts > 0 {
        interrupts := interrupts - 1;
        return WaitInterrupted;
      }
      if broken {
        failures := failures + 1;
        return WaitFailed;
      }
      r := WaitOver;
    }
  }

  /** The read end of one of the workload's output pipes. */
  class OutputPipe {
    /** Bytes the workload wrote that have not been read. */
    var waiting: Bytes
    /** Some process still holds the write end. */
    var writers: bool
    /** Everything read so far. */
    ghost var consumed: Bytes

    constructor ()
      ensures consumed == [] && fresh(this)
    {
      waiting, writers, consumed := [], true, [];
    }

    /** Whether a read would find bytes or the end; more bytes may arrive first. */
    method Ready() returns (ready: bool)
      modifies this`waiting, this`writers
      ensures ready <==> waiting != [] || !writers
      ensures old(waiting) <= waiting && (old(!writers) ==> !writers && waiting == old(waiting))
    {
      var arrived: Bytes, closing: bool := *, *;
      if writers {
        waiting := waiting + arrived;
        writers := !closing;
      }
      ready := waiting != [] || !writers;
    }

    /** A non-blocking read. More bytes may arrive first; a pipe with bytes gives at least one. */
    method Read(limit: nat, kernel: Kernel) returns (r: ReadOutcome)
      requires limit > 0
      modifies this, kernel`interrupts, kernel`failures
      ensures kernel.failures == old(kernel.failures) + if r.ReadError? then 1 else 0
      ensures kernel.interrupts <= old(kernel.interrupts)
      ensures r.ReadInterrupted? ==> kernel.interrupts < old(kernel.interrupts)
      ensures consumed == old(consumed) + if r.Data? then r.bytes else []
      ensures old(waiting) <= (if r.Data? then r.bytes else []) + waiting
      ensures r.Data? ==> 0 < |r.bytes| <= limit
      ensures r.ReadWouldBlock? ==> waiting == []
      ensures r.EndOfFile? ==> waiting == [] && !writers
    {
      var arrived: Bytes := *;
      var closing: bool, interrupted: bool, broken: bool, wanted: nat := *, *, *, *;
      if writers {
        waiting := waiting + arrived;
        writers := !closing;
      }
      if interrupted && kernel.interrupts > 0 {
        kernel.interrupts := kernel.interrupts - 1;
        return ReadInterrupted;
      }
      if broken {
        kernel.failures := kernel.failures + 1;
        return ReadError;
      }
      if waiting == [] {
        return if writers then ReadWouldBlock else EndOfFile;
      }
      var most := if |waiting| < limit then |waiting| else limit;
      var count := if 0 < wanted <= most then wanted else most;
      r := Data(waiting[..count]);
      consumed := consumed + waiting[..count];
      waiting := waiting[count..];
    }
  }

  /** The write end of the workload's input pipe. */
  class InputPipe {
    /** Everything the child has been given. */
    var delivered: Bytes
    /** The last write found no room. */
    ghost var full: bool

    constructor ()
      ensures delivered == [] && fresh(this)
    {
      delivered, full := [], false;
    }

    /** A non-blocking write; to write none of some bytes is a failure of the pipe. */
    method Write(data: Bytes, kernel: Kernel) returns (r: WriteOutcome)
      modifies this, kernel`interrupts, kernel`failures
      ensures full == r.WriteWouldBlock?
      ensures kernel.failures == old(kernel.failures) + if r.WriteError? || (r == Wrote(0) && data != []) then 1 else 0
      ensures kernel.interrupts <= old(kernel.interrupts)
      ensures r.WriteInterrupted? ==> kernel.interrupts < old(kernel.interrupts)
      ensures r.Wrote? ==> r.count <= |data|
      ensures delivered == old(delivered) + if r.Wrote? then data[..r.count] else []
    {
      var interrupted: bool, blocked: bool, broken: bool, count: nat := *, *, *, *;
      full := false;
      if interrupted && kernel.interrupts > 0 {
        kernel.interrupts := kernel.interrupts - 1;
        return WriteInterrupted;
      }
      if blocked {
        full := true;
        return WriteWouldBlock;
      }
      if broken {
        kernel.failures := kernel.failures + 1;
        return WriteError;
      }
      var written := if count <= |data| then count else |data|;
      if written == 0 && data != [] {
        kernel.failures := kernel.failures + 1;
      }
      delivered := delivered + data[..written];
      r := Wrote(written);
    }
  }
}
