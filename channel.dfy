/**
 * The communicator as the command layers see it: a sink of request frames and
 * a source of response frames, plus the host-side baud setting.
 *
 * The serial port itself is not modelled. Frames that already sit in the
 * host's input buffer are `buffered`; `incoming` says, read by read, what the
 * device will deliver afterwards. A read with nothing left to deliver waits
 * until its cancellation token fires, so an exhausted `incoming` reads as a
 * cancellation, which is also how a per-attempt timeout shows up.
 */
module Link {
  import opened Common

  /** What one frame read yields. */
  datatype ReadResult =
    | Got(frame: seq<byte>)   // a complete frame
    | Missing                 // the read completed without a frame (a null frame)
    | Cancelled               // the token fired while waiting (TaskCanceledException)
    | Faulted                 // any other I/O failure

  /** Everything the host did on the link, in order. */
  datatype Event = Cleared | Wrote(frame: seq<byte>) | Read(result: ReadResult) | BaudSet(baud: int)

  /** The next read result the device delivers, and what remains after it. */
  function Next(incoming: seq<ReadResult>): ReadResult
  {
    if incoming == [] then Cancelled else incoming[0]
  }

  function Rest(incoming: seq<ReadResult>): seq<ReadResult>
  {
    if incoming == [] then [] else incoming[1..]
  }

  /** Frames already sitting in the input buffer, as the reads that will return them. */
  function Gots(frames: seq<seq<byte>>): (r: seq<ReadResult>)
    ensures |r| == |frames| && forall i :: 0 <= i < |frames| ==> r[i] == Got(frames[i])
  {
    seq(|frames|, i requires 0 <= i < |frames| => Got(frames[i]))
  }

  /** The `k`-th read from now, when every read takes one entry. */
  function ReadAt(incoming: seq<ReadResult>, k: nat): ReadResult
  {
    if k < |incoming| then incoming[k] else Cancelled
  }

  /** The entries left after `k` reads. */
  function Skip(incoming: seq<ReadResult>, k: nat): seq<ReadResult>
  {
    if k <= |incoming| then incoming[k..] else []
  }

  lemma SkipStep(incoming: seq<ReadResult>, k: nat)
    ensures Next(Skip(incoming, k)) == ReadAt(incoming, k)
    ensures Rest(Skip(incoming, k)) == Skip(incoming, k + 1)
  {
  }

  /** Everything the next reads will return, buffered frames first. */
  function Upcoming(buffered: seq<seq<byte>>, incoming: seq<ReadResult>): seq<ReadResult>
  {
    Gots(buffered) + incoming
  }

  class Communicator {
    var buffered: seq<seq<byte>>
    var incoming: seq<ReadResult>
    var log: seq<Event>
    var baud: int

    /** What the next reads will return. */
    function Pending(): seq<ReadResult>
      reads this
    {
      Upcoming(buffered, incoming)
    }

    constructor(baud: int, incoming: seq<ReadResult>)
      ensures this.baud == baud && this.incoming == incoming && buffered == [] && log == []
    {
      this.baud := baud;
      this.incoming := incoming;
      buffered := [];
      log := [];
    }

    /** Discards whatever the host has received but not yet read. */
    method ClearBuffer()
      modifies this
      ensures buffered == [] && incoming == old(incoming) && baud == old(baud)
      ensures log == old(log) + [Cleared]
    {
      buffered := [];
      log := log + [Cleared];
    }

    method WriteFrame(frame: seq<byte>)
      modifies this
      ensures buffered == old(buffered) && incoming == old(incoming) && baud == old(baud)
      ensures log == old(log) + [Wrote(frame)]
    {
      log := log + [Wrote(frame)];
    }

    /** Reads one frame: stale buffered frames first, then what the device delivers. */
    method ReadFrame() returns (r: ReadResult)
      modifies this
      ensures old(buffered) != [] ==>
        r == Got(old(buffered)[0]) && buffered == old(buffered)[1..] && incoming == old(incoming)
      ensures old(buffered) == [] ==>
        r == Next(old(incoming)) && buffered == [] && incoming == Rest(old(incoming))
      ensures baud == old(baud) && log == old(log) + [Read(r)]
      ensures r == Next(old(Pending())) && Pending() == Rest(old(Pending()))
    {
      if buffered != [] {
        r := Got(buffered[0]);
        assert Gots(buffered[1..]) == Gots(buffered)[1..];
        buffered := buffered[1..];
      } else {
        r := Next(incoming);
        incoming := Rest(incoming);
      }
      log := log + [Read(r)];
    }

    method GetBaudRate() returns (b: int)
      ensures b == baud
    {
      b := baud;
    }

    /** Reconfigures the host side of the link. */
    method ChangeBaudRate(b: int)
      modifies this
      ensures baud == b && buffered == old(buffered) && incoming == old(incoming)
      ensures log == old(log) + [BaudSet(b)]
    {
      baud := b;
      log := log + [BaudSet(b)];
    }
  }
}
