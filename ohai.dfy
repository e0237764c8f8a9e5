/**
 * Waiting for the stub loader's greeting: after the stub starts it sends the
 * four-byte frame "OHAI". The wait reads frames until one equals it; null
 * frames and other frames are passed over, and a cancelled or failed read
 * ends the wait with that exception.
 */
module Ohai {
  import opened Common
  import opened Link

  const OHAI: seq<byte> := [0x4F, 0x48, 0x41, 0x49]

  /** A read the wait passes over. */
  predicate Skipped(r: ReadResult)
  {
    r.Missing? || (r.Got? && r.frame != OHAI)
  }

  /** How a read that is not passed over ends the wait. */
  function Settle(r: ReadResult): Outcome<()>
  {
    if r.Got? then Ok(()) else if r.Cancelled? then Fail(Canceled) else Fail(IOFailure)
  }

  /**
   * The wait over the reads still to come: its outcome and the reads it
   * leaves unconsumed. It succeeds exactly when an OHAI frame comes before
   * any cancelled or failed read, and then consumes the reads up to it.
   */
  function Await(pending: seq<ReadResult>): (r: (Outcome<()>, seq<ReadResult>))
    decreases |pending|
    ensures r.0.Ok? <==>
      exists k :: 0 <= k < |pending| && pending[k] == Got(OHAI) && r.1 == pending[k + 1..] &&
        forall j :: 0 <= j < k ==> Skipped(pending[j])
    ensures r.0.Fail? ==> r.0.fault in {Canceled, IOFailure}
  {
    var first := Next(pending);
    if Skipped(first) then
      var t := Await(Rest(pending));
      if t.0.Ok? then
        var k :| 0 <= k < |Rest(pending)| && Rest(pending)[k] == Got(OHAI) && t.1 == Rest(pending)[k + 1..] &&
          forall j :: 0 <= j < k ==> Skipped(Rest(pending)[j]);
        assert pending[k + 1] == Got(OHAI) && t.1 == pending[k + 2..];
        t
      else
        t
    else
      (Settle(first), Rest(pending))
  }

  /** Frames other than OHAI ahead of it in the input change nothing but the reads consumed. */
  lemma {:induction false} NoiseIsSkipped(noise: seq<ReadResult>, rest: seq<ReadResult>)
    requires forall i :: 0 <= i < |noise| ==> Skipped(noise[i])
    ensures Await(noise + [Got(OHAI)] + rest) == (Ok(()), rest)
    decreases |noise|
  {
    if noise == [] {
      assert ([] + [Got(OHAI)] + rest)[1..] == rest;
    } else {
      assert (noise + [Got(OHAI)] + rest)[1..] == noise[1..] + [Got(OHAI)] + rest;
      NoiseIsSkipped(noise[1..], rest);
    }
  }

  /** Reads frames until OHAI arrives or a read is cancelled or fails. */
  method WaitForOhai(com: Communicator) returns (r: Outcome<()>)
    modifies com
    ensures (r, com.Pending()) == Await(old(com.Pending()))
    ensures com.baud == old(com.baud)
  {
    var frame := com.ReadFrame();
    while Skipped(frame)
      invariant Await(old(com.Pending())) ==
        (if Skipped(frame) then Await(com.Pending()) else (Settle(frame), com.Pending()))
      invariant com.baud == old(com.baud)
      decreases |com.Pending()| + (if Skipped(frame) then 1 else 0)
    {
      frame := com.ReadFrame();
    }
    r := Settle(frame);
  }
}
