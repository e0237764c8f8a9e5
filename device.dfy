/**
 * The oldest device object (Devices/Device.cs): a holder of the current
 * loader with a synchronisation retry loop, register reads, chip detection,
 * a baud change and default answers for the operations only chip-specific
 * devices implement. Loader calls answer with a success flag and an error,
 * or throw; the model reaches the loader through a `LoaderPort` and the
 * serial line's baud setting through the `Communicator`.
 */
module Devices {
  import opened Common
  import opened Errors
  import opened LoaderCommands
  import opened Link
  import opened Port

  /** `Result`: a success flag and an error. */
  datatype Result = Result(success: bool, error: Status)

  const OK := Result(true, NoError)
  const TASK_CANCELED := Result(false, TaskCancelled)
  const UNSUPPORTED_BY_LOADER := Result(false, UnsupportedByLoader)
  /** The initial value of the synchronisation result: note that it reports success. */
  const UNKNOWN_ERROR := Result(true, Unknown)

  /** The loader object a device holds. */
  datatype LoaderKind = BaseLoader | Esp32RomLoader | StubLoader

  /** A loader answer as a `Result`, or the exception it threw. */
  function ResultOf(reply: Reply): Outcome<Result>
  {
    match reply
    case Answer(success, error, _, _) => Ok(Result(success, error))
    case Raised(f) => Fail(f)
  }

  /** A register read: the answer's status and its value word. */
  datatype Register = Register(result: Result, value: u32)

  function RegisterOf(reply: Reply): Outcome<Register>
  {
    match reply
    case Answer(success, error, value, _) => Ok(Register(Result(success, error), value))
    case Raised(f) => Fail(f)
  }

  /** This ROM address holds a different value on each chip model. */
  const CHIP_DETECT_MAGIC_REG_ADDR: u32 := 0x4000_1000

  const MAX_TRIES: nat := 100

  /** The caller's token, observed as cancelled after attempt `n` and later ones when `cancelFrom == Some(n)`. */
  predicate TokenCancelled(cancelFrom: Option<nat>, tryNo: nat)
  {
    cancelFrom.Some? && cancelFrom.value <= tryNo
  }

  /** A reply that makes the loop try again unless the caller cancelled. */
  predicate FailedAnswer(reply: Reply)
  {
    reply.Answer? && !reply.success
  }

  /**
   * The retry loop from attempt `tryNo` on, with `res` the result so far,
   * where attempt `k` is answered by `ReplyAt(script, k)`: the result and the
   * number of synchronisation calls made in all.
   */
  function SyncFrom(script: seq<Reply>, cancelFrom: Option<nat>, tryNo: nat, res: Result): (r: (Outcome<Result>, nat))
    requires tryNo <= MAX_TRIES
    ensures tryNo <= r.1 <= MAX_TRIES
    decreases MAX_TRIES - tryNo
  {
    if tryNo == MAX_TRIES then (Ok(res), tryNo)
    else
      match ReplyAt(script, tryNo)
      case Raised(f) => (Fail(f), tryNo + 1)
      case Answer(success, error, _, _) =>
        if success then (Ok(OK), tryNo + 1)
        else if TokenCancelled(cancelFrom, tryNo) then (Ok(TASK_CANCELED), tryNo + 1)
        else SyncFrom(script, cancelFrom, tryNo + 1, Result(false, error))
  }

  function SyncRun(script: seq<Reply>, cancelFrom: Option<nat>): (Outcome<Result>, nat)
  {
    SyncFrom(script, cancelFrom, 0, UNKNOWN_ERROR)
  }

  /** Attempts `k` up to `j` all failed with the caller not cancelled. */
  predicate Retried(script: seq<Reply>, cancelFrom: Option<nat>, k: nat, j: nat)
  {
    forall i :: k <= i < j ==> FailedAnswer(ReplyAt(script, i)) && !TokenCancelled(cancelFrom, i)
  }

  /**
   * Synchronisation reports OK exactly when some attempt succeeds, every
   * earlier attempt having failed without the caller cancelling.
   */
  lemma {:induction false} SyncSucceedsIff(script: seq<Reply>, cancelFrom: Option<nat>, k: nat, res: Result)
    requires k <= MAX_TRIES && res != OK
    ensures SyncFrom(script, cancelFrom, k, res).0 == Ok(OK) <==>
      exists j :: k <= j < MAX_TRIES && ReplyAt(script, j).Answer? && ReplyAt(script, j).success &&
        Retried(script, cancelFrom, k, j)
    decreases MAX_TRIES - k
  {
    if k < MAX_TRIES {
      var reply := ReplyAt(script, k);
      if FailedAnswer(reply) && !TokenCancelled(cancelFrom, k) {
        SyncSucceedsIff(script, cancelFrom, k + 1, Result(false, reply.error));
        if SyncFrom(script, cancelFrom, k, res).0 == Ok(OK) {
          var j :| k + 1 <= j < MAX_TRIES && ReplyAt(script, j).Answer? && ReplyAt(script, j).success &&
            Retried(script, cancelFrom, k + 1, j);
          assert Retried(script, cancelFrom, k, j);
        }
      } else if reply.Answer? && reply.success {
        assert Retried(script, cancelFrom, k, k);
      }
    }
  }

  /** A failed attempt after which the caller's token is cancelled ends the loop with TaskCanceled. */
  lemma {:induction false} SyncCancelsAfterFailure(script: seq<Reply>, cancelFrom: Option<nat>, k: nat, j: nat, res: Result)
    requires k <= j < MAX_TRIES && Retried(script, cancelFrom, k, j)
    requires FailedAnswer(ReplyAt(script, j)) && TokenCancelled(cancelFrom, j)
    ensures SyncFrom(script, cancelFrom, k, res) == (Ok(TASK_CANCELED), j + 1)
    decreases j - k
  {
    if k < j {
      SyncCancelsAfterFailure(script, cancelFrom, k + 1, j, Result(false, ReplyAt(script, k).error));
    }
  }

  /** A hundred failed attempts without cancellation: the loop stops with the last attempt's failure. */
  lemma {:induction false} SyncGivesUpWithLast(script: seq<Reply>, cancelFrom: Option<nat>, k: nat, res: Result)
    requires k < MAX_TRIES && Retried(script, cancelFrom, k, MAX_TRIES)
    ensures SyncFrom(script, cancelFrom, k, res) == (Ok(Result(false, ReplyAt(script, MAX_TRIES - 1).error)), MAX_TRIES)
    decreases MAX_TRIES - k
  {
    if k + 1 < MAX_TRIES {
      SyncGivesUpWithLast(script, cancelFrom, k + 1, Result(false, ReplyAt(script, k).error));
    }
  }

  /**
   * The loop runs at least once, so its initial value never escapes: every
   * result is OK, TaskCanceled or an attempt's failure.
   */
  lemma {:induction false} SyncResultIsAnAttempts(script: seq<Reply>, cancelFrom: Option<nat>, k: nat, res: Result)
    requires k < MAX_TRIES || !res.success
    requires k <= MAX_TRIES
    ensures var r := SyncFrom(script, cancelFrom, k, res).0;
      r.Ok? ==> r.value == OK || r.value == TASK_CANCELED || !r.value.success
    decreases MAX_TRIES - k
  {
    if k < MAX_TRIES && FailedAnswer(ReplyAt(script, k)) && !TokenCancelled(cancelFrom, k) {
      SyncResultIsAnAttempts(script, cancelFrom, k + 1, Result(false, ReplyAt(script, k).error));
    }
  }

  /** `n` copies of a call. */
  function Repeat(c: Call, n: nat): (r: seq<Call>)
    ensures |r| == n && forall i :: 0 <= i < n ==> r[i] == c
  {
    seq(n, _ => c)
  }

  class Device {
    const port: LoaderPort
    const com: Communicator
    var loader: LoaderKind

    constructor(port: LoaderPort, com: Communicator)
      ensures this.port == port && this.com == com && loader == BaseLoader
    {
      this.port := port;
      this.com := com;
      loader := BaseLoader;
    }

    /** The copy constructor: the new device holds the same loader, and so the same link. */
    constructor Copy(dev: Device)
      ensures port == dev.port && com == dev.com && loader == dev.loader
    {
      port := dev.port;
      com := dev.com;
      loader := dev.loader;
    }

    /** The retry loop: at most 100 synchronisation calls. */
    method Sync(cancelFrom: Option<nat>) returns (r: Outcome<Result>)
      modifies port
      ensures var s := SyncRun(old(port.script), cancelFrom);
        r == s.0 && port.calls == old(port.calls) + Repeat(LoaderCommands.Sync, s.1) &&
        port.script == Drop(old(port.script), s.1)
    {
      ghost var script0, calls0 := port.script, port.calls;
      var res := UNKNOWN_ERROR;
      var done := false;
      var tryNo := 0;
      ghost var n := 0;
      while !done && tryNo < MAX_TRIES
        invariant tryNo <= MAX_TRIES
        invariant port.calls == calls0 + Repeat(LoaderCommands.Sync, n) && port.script == Drop(script0, n)
        invariant !done ==> n == tryNo && SyncRun(script0, cancelFrom) == SyncFrom(script0, cancelFrom, tryNo, res)
        invariant done ==> SyncRun(script0, cancelFrom) == (Ok(res), n)
        decreases MAX_TRIES - tryNo, if done then 0 else 1
      {
        DropStep(script0, n);
        var reply := port.Invoke(LoaderCommands.Sync);
        DropDrop(script0, n, 1);
        assert Repeat(LoaderCommands.Sync, n + 1) == Repeat(LoaderCommands.Sync, n) + [LoaderCommands.Sync];
        n := n + 1;
        if reply.Raised? {
          return Fail(reply.fault);
        }
        res := Result(reply.success, reply.error);
        if res.success {
          res := OK;
          done := true;
        } else {
          if TokenCancelled(cancelFrom, tryNo) {
            res := TASK_CANCELED;
            done := true;
          }
          tryNo := tryNo + 1;
        }
      }
      return Ok(res);
    }

    method ReadRegister(address: u32) returns (r: Outcome<Register>)
      modifies port
      ensures port.calls == old(port.calls) + [LoaderCommands.ReadRegister(address)]
      ensures r == RegisterOf(Head(old(port.script))) && port.script == Tail(old(port.script))
    {
      var reply := port.Invoke(LoaderCommands.ReadRegister(address));
      r := RegisterOf(reply);
    }

    /** Reads the magic register; its value is the chip type's code. */
    method DetectChipType() returns (r: Outcome<Register>)
      modifies port
      ensures port.calls == old(port.calls) + [LoaderCommands.ReadRegister(CHIP_DETECT_MAGIC_REG_ADDR)]
      ensures r == RegisterOf(Head(old(port.script))) && port.script == Tail(old(port.script))
    {
      r := ReadRegister(CHIP_DETECT_MAGIC_REG_ADDR);
    }

    /**
     * Asks the loader to change to `baud`, passing the line's current rate,
     * and reconfigures the line only when the loader reports success.
     */
    method ChangeBaud(baud: int) returns (r: Outcome<Result>)
      modifies port, com
      ensures port.calls == old(port.calls) + [LoaderCommands.ChangeBaud(baud, old(com.baud))]
      ensures r == ResultOf(Head(old(port.script))) && port.script == Tail(old(port.script))
      ensures r.Ok? && r.value.success ==> com.baud == baud && com.log == old(com.log) + [BaudSet(baud)]
      ensures !(r.Ok? && r.value.success) ==> com.baud == old(com.baud) && com.log == old(com.log)
      ensures com.buffered == old(com.buffered) && com.incoming == old(com.incoming)
    {
      var oldBaud := com.GetBaudRate();
      var reply := port.Invoke(LoaderCommands.ChangeBaud(baud, oldBaud));
      r := ResultOf(reply);
      if r.Ok? && r.value.success {
        com.ChangeBaudRate(baud);
      }
    }

    method UploadToRam() returns (r: Result)
      ensures r == UNSUPPORTED_BY_LOADER
    {
      r := UNSUPPORTED_BY_LOADER;
    }

    method UploadToFlash() returns (r: Result)
      ensures r == UNSUPPORTED_BY_LOADER
    {
      r := UNSUPPORTED_BY_LOADER;
    }

    method UploadToFlashDeflated() returns (r: Result)
      ensures r == UNSUPPORTED_BY_LOADER
    {
      r := UNSUPPORTED_BY_LOADER;
    }

    method StartStubloader() returns (r: Result)
      ensures r == UNSUPPORTED_BY_LOADER
    {
      r := UNSUPPORTED_BY_LOADER;
    }

    method EraseFlash() returns (r: Result)
      ensures r == UNSUPPORTED_BY_LOADER
    {
      r := UNSUPPORTED_BY_LOADER;
    }
  }
}
