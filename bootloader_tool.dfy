/**
 * Entering the ROM bootloader and synchronising with it. Up to 100 attempts
 * are made; each runs under its own short timeout, which the model treats as
 * an attempt whose read is cancelled. A failed or cancelled attempt is
 * absorbed and the next one follows; any other exception ends the loop. The
 * caller's token is checked at the start of every attempt.
 */
module BootloaderTool {
  import opened Common
  import opened Errors
  import opened Link
  import opened LoaderCommands
  import RomLoader

  const MAX_TRIES: nat := 100

  /** The caller's token, cancelled from attempt `n` on when `cancelFrom == Some(n)`. */
  predicate OuterCancelled(cancelFrom: Option<nat>, tryNo: nat)
  {
    cancelFrom.Some? && cancelFrom.value <= tryNo
  }

  /** Attempt outcomes the loop carries on after. */
  predicate Absorbed(o: Outcome<bool>)
  {
    o == Ok(false) || o == Fail(Canceled)
  }

  /** Attempt `k`: one synchronisation through the ROM loader, answered by the `k`-th read. */
  function Attempt(incoming: seq<ReadResult>, k: nat): Outcome<bool>
  {
    RomLoader.SynchronizeReply(ReadAt(incoming, k))
  }

  /** Every attempt's outcome, indexed by attempt number. */
  function Attempts(incoming: seq<ReadResult>): nat -> Outcome<bool>
  {
    (k: nat) => Attempt(incoming, k)
  }

  /**
   * The loop from attempt `k` on, given each attempt's outcome: its outcome
   * and how many attempts have run when it ends.
   */
  function LoopFrom(attempt: nat -> Outcome<bool>, cancelFrom: Option<nat>, k: nat): (r: (Outcome<bool>, nat))
    requires k <= MAX_TRIES
    decreases MAX_TRIES - k
    ensures k <= r.1 <= MAX_TRIES
  {
    if k == MAX_TRIES then (Ok(false), k)
    else if OuterCancelled(cancelFrom, k) then (Fail(Canceled), k)
    else if attempt(k) == Ok(true) then (Ok(true), k + 1)
    else if Absorbed(attempt(k)) then LoopFrom(attempt, cancelFrom, k + 1)
    else (attempt(k), k + 1)
  }

  /** `Synchronize` over the reads the link delivers. */
  function SyncRun(incoming: seq<ReadResult>, cancelFrom: Option<nat>): (Outcome<bool>, nat)
  {
    LoopFrom(Attempts(incoming), cancelFrom, 0)
  }

  /**
   * The loop reports success exactly when some attempt succeeds before the
   * caller cancels, every earlier attempt having been absorbed.
   */
  lemma {:induction false} LoopSucceedsIff(attempt: nat -> Outcome<bool>, cancelFrom: Option<nat>, k: nat)
    requires k <= MAX_TRIES
    ensures LoopFrom(attempt, cancelFrom, k).0 == Ok(true) <==>
      exists j :: k <= j < MAX_TRIES && attempt(j) == Ok(true) && !OuterCancelled(cancelFrom, j) &&
        forall i :: k <= i < j ==> Absorbed(attempt(i))
    decreases MAX_TRIES - k
  {
    if k < MAX_TRIES && !OuterCancelled(cancelFrom, k) && Absorbed(attempt(k)) {
      LoopSucceedsIff(attempt, cancelFrom, k + 1);
      if LoopFrom(attempt, cancelFrom, k).0 == Ok(true) {
        var j :| k + 1 <= j < MAX_TRIES && attempt(j) == Ok(true) && !OuterCancelled(cancelFrom, j) &&
          forall i :: k + 1 <= i < j ==> Absorbed(attempt(i));
        assert forall i :: k <= i < j ==> Absorbed(attempt(i));
      }
    } else if k < MAX_TRIES && OuterCancelled(cancelFrom, k) {
      assert forall j :: k <= j ==> OuterCancelled(cancelFrom, j);
    }
  }

  /** The loop reports false exactly when every remaining attempt is absorbed and the caller never cancels. */
  lemma {:induction false} LoopGivesUpIff(attempt: nat -> Outcome<bool>, cancelFrom: Option<nat>, k: nat)
    requires k <= MAX_TRIES
    ensures LoopFrom(attempt, cancelFrom, k).0 == Ok(false) <==>
      forall i :: k <= i < MAX_TRIES ==> Absorbed(attempt(i)) && !OuterCancelled(cancelFrom, i)
    decreases MAX_TRIES - k
  {
    if k < MAX_TRIES && !OuterCancelled(cancelFrom, k) && Absorbed(attempt(k)) {
      LoopGivesUpIff(attempt, cancelFrom, k + 1);
    }
  }

  /** An attempt that succeeds is the last one made. */
  lemma {:induction false} LoopEndsAtSuccess(attempt: nat -> Outcome<bool>, cancelFrom: Option<nat>, k: nat)
    requires k <= MAX_TRIES
    ensures LoopFrom(attempt, cancelFrom, k).0 == Ok(true) ==>
      k < LoopFrom(attempt, cancelFrom, k).1 && attempt(LoopFrom(attempt, cancelFrom, k).1 - 1) == Ok(true)
    decreases MAX_TRIES - k
  {
    if k < MAX_TRIES && !OuterCancelled(cancelFrom, k) && Absorbed(attempt(k)) {
      LoopEndsAtSuccess(attempt, cancelFrom, k + 1);
    }
  }

  /** One step of the loop: each way attempt `k`, ending as `o`, ends the loop or lets it go on. */
  lemma LoopCases(attempt: nat -> Outcome<bool>, cancelFrom: Option<nat>, k: nat, o: Outcome<bool>)
    requires k < MAX_TRIES && attempt(k) == o
    ensures OuterCancelled(cancelFrom, k) ==> LoopFrom(attempt, cancelFrom, k) == (Fail(Canceled), k)
    ensures !OuterCancelled(cancelFrom, k) && o == Ok(true) ==> LoopFrom(attempt, cancelFrom, k) == (Ok(true), k + 1)
    ensures !OuterCancelled(cancelFrom, k) && !Absorbed(o) ==> LoopFrom(attempt, cancelFrom, k) == (o, k + 1)
    ensures !OuterCancelled(cancelFrom, k) && Absorbed(o) ==>
      LoopFrom(attempt, cancelFrom, k) == LoopFrom(attempt, cancelFrom, k + 1)
  {
  }

  class BootloaderTool {
    const com: Communicator

    constructor(com: Communicator)
      ensures this.com == com
    {
      this.com := com;
    }

    /** The bounded retry loop over the given bootloader. */
    method Synchronize(loader: RomLoader.BootLoader, cancelFrom: Option<nat>) returns (r: Outcome<bool>)
      requires loader.com == com
      modifies com
      ensures r == SyncRun(old(com.incoming), cancelFrom).0
      ensures com.incoming == Skip(old(com.incoming), SyncRun(old(com.incoming), cancelFrom).1)
      ensures com.baud == old(com.baud)
    {
      ghost var incoming := com.incoming;
      ghost var attempts := Attempts(incoming);
      ghost var run := LoopFrom(attempts, cancelFrom, 0);
      var tryNo := 0;
      while tryNo < MAX_TRIES
        invariant 0 <= tryNo <= MAX_TRIES
        invariant com.incoming == Skip(incoming, tryNo)
        invariant run == LoopFrom(attempts, cancelFrom, tryNo)
        invariant com.baud == old(com.baud)
        decreases MAX_TRIES - tryNo
      {
        var stop, outcome := SyncStep(loader, incoming, attempts, cancelFrom, tryNo);
        if stop {
          return outcome;
        }
        tryNo := tryNo + 1;
      }
      return Ok(false);
    }

    /**
     * One pass of the loop: the caller's token is checked, then one attempt
     * consumes the next read; either the loop stops with the outcome it
     * reports, or it goes on to the next attempt.
     */
    method SyncStep(loader: RomLoader.BootLoader, ghost incoming: seq<ReadResult>, ghost attempts: nat -> Outcome<bool>,
                    cancelFrom: Option<nat>, tryNo: nat) returns (stop: bool, outcome: Outcome<bool>)
      requires tryNo < MAX_TRIES && attempts == Attempts(incoming)
      requires loader.com == com && com.incoming == Skip(incoming, tryNo)
      modifies com
      ensures stop ==> LoopFrom(attempts, cancelFrom, tryNo).0 == outcome
      ensures stop ==> com.incoming == Skip(incoming, LoopFrom(attempts, cancelFrom, tryNo).1)
      ensures !stop ==> LoopFrom(attempts, cancelFrom, tryNo) == LoopFrom(attempts, cancelFrom, tryNo + 1)
      ensures !stop ==> com.incoming == Skip(incoming, tryNo + 1)
      ensures com.baud == old(com.baud)
    {
      if OuterCancelled(cancelFrom, tryNo) {
        LoopCases(attempts, cancelFrom, tryNo, attempts(tryNo));
        return true, Fail(Canceled);
      }
      SkipStep(incoming, tryNo);
      var attempt := loader.Synchronize();
      LoopCases(attempts, cancelFrom, tryNo, attempt);
      stop := !Absorbed(attempt) || attempt == Ok(true);
      outcome := attempt;
    }

    /**
     * `StartAsync`: a fresh bootloader on this link, returned only when
     * synchronisation succeeded; a loop that gives up raises a plain exception.
     */
    method Start(cancelFrom: Option<nat>) returns (r: Outcome<RomLoader.BootLoader>)
      modifies com
      ensures r.Ok? <==> SyncRun(old(com.incoming), cancelFrom).0 == Ok(true)
      ensures r.Ok? ==> fresh(r.value) && r.value.com == com
      ensures SyncRun(old(com.incoming), cancelFrom).0 == Ok(false) ==> r == Fail(Failure)
      ensures SyncRun(old(com.incoming), cancelFrom).0.Fail? ==>
        r == Fail(SyncRun(old(com.incoming), cancelFrom).0.fault)
    {
      var bootloader := new RomLoader.BootLoader(com);
      var synced := Synchronize(bootloader, cancelFrom);
      match synced {
        case Ok(true) => r := Ok(bootloader);
        case Ok(false) => r := Fail(Failure);
        case Fail(f) => r := Fail(f);
      }
    }
  }
}
