/**
 * The ROM bootloader, in its two revisions: the loader with a throwing
 * `SyncAsync` and an OHAI wait, and the later one whose `SynchronizeAsync`
 * returns the response's Success instead of throwing. Both send every call
 * through the ROM executor with the same encodings as the stub loader, except
 * that the baud change's second word is always 0.
 */
module RomLoader {
  import opened Common
  import opened Requests
  import opened Responses
  import opened Errors
  import opened Link
  import opened LoaderCommands
  import opened Port
  import Ohai
  import RomExecutor

  /** The calls the ROM loader implements: no erase, no MD5, no compressed flash. */
  predicate Supports(call: Call)
  {
    Encoded(call) && !call.EraseFlash? && !call.FlashMd5? &&
    !((call.Begin? || call.Data? || call.End?) && call.region == FlashDefl)
  }

  /** The request the ROM loader sends: the baud change drops the old rate and sends 0. */
  function RequestFor(call: Call): (r: Request)
    requires Supports(call)
    ensures call.ChangeBaud? ==> r == RequestOf(ChangeBaud(call.baud, 0))
    ensures !call.ChangeBaud? ==> r == RequestOf(call)
  {
    if call.ChangeBaud? then RequestOf(ChangeBaud(call.baud, 0)) else RequestOf(call)
  }

  /** The exception a failed call throws: InvalidOperationException for the baud change only. */
  function FailureOf(call: Call): (f: Fault)
    ensures f == InvalidOperation <==> call.ChangeBaud?
    ensures f != InvalidOperation ==> f == Failure
  {
    if call.ChangeBaud? then InvalidOperation else Failure
  }

  /** The outcome of a call that throws when the response lacks Success. */
  function ReplyTo(call: Call, reply: ReadResult): (r: Reply)
    requires Supports(call)
    ensures r.Answer? <==>
      reply.Got? && RomExecutor.FrameToResponse(reply.frame).command == Opcode(call) &&
      RomExecutor.FrameToResponse(reply.frame).success
    ensures r.Answer? ==> r.success && r.value == ReadLE32(reply.frame, 4) && r.data == []
    ensures r.Raised? && reply.Got? && RomExecutor.FrameToResponse(reply.frame).command == Opcode(call) ==>
      r.fault == FailureOf(call)
    ensures r == Raised(Canceled) <==> reply == Cancelled
  {
    match RomExecutor.Exchange(RequestFor(call), reply)
    case Fail(f) => Raised(f)
    case Ok(response) =>
      if !response.success then Raised(FailureOf(call))
      else Answer(true, response.error, response.value, [])
  }

  /**
   * The later revision's synchronisation: a response of the right opcode is
   * returned as its Success flag; only a missing, mismatched or cancelled
   * reply throws.
   */
  function SynchronizeReply(reply: ReadResult): (r: Outcome<bool>)
    ensures r.Ok? <==> reply.Got? && RomExecutor.FrameToResponse(reply.frame).command == SYNC
    ensures r.Ok? ==> r.value == RomExecutor.FrameToResponse(reply.frame).success
    ensures r == Fail(Canceled) <==> reply == Cancelled
  {
    match RomExecutor.Exchange(RequestOf(Sync), reply)
    case Fail(f) => Fail(f)
    case Ok(response) => Ok(response.success)
  }

  /** The two revisions agree on every synchronisation that succeeds, and differ only in how they report failure. */
  lemma SynchronizeAgreesWithSync(reply: ReadResult)
    ensures SynchronizeReply(reply) == Ok(true) <==> ReplyTo(Sync, reply).Answer?
    ensures SynchronizeReply(reply) == Ok(false) <==> ReplyTo(Sync, reply) == Raised(Failure)
  {
  }

  /** The old rate the caller passes has no effect on what the ROM loader sends. */
  lemma IgnoresOldRate(baud: int, a: int, b: int)
    ensures RequestFor(ChangeBaud(baud, a)) == RequestFor(ChangeBaud(baud, b))
    ensures ReadLE32(RequestFor(ChangeBaud(baud, a)).payload, 4) == 0
  {
  }

  /** Whenever the current rate is not 0 modulo 2^32, the ROM and stub baud requests differ. */
  lemma BaudRequestsDiffer(baud: int, oldBaud: int)
    requires Wrap32(oldBaud) != 0
    ensures RequestFor(ChangeBaud(baud, oldBaud)) != RequestOf(ChangeBaud(baud, oldBaud))
  {
    var rom := RequestFor(ChangeBaud(baud, oldBaud)).payload;
    var stub := RequestOf(ChangeBaud(baud, oldBaud)).payload;
    assert ReadLE32(rom, 4) != ReadLE32(stub, 4);
  }

  /** The ROM bootloader with a throwing synchronisation and the OHAI wait. */
  class Esp32BootLoader {
    const com: Communicator

    constructor(com: Communicator)
      ensures this.com == com
    {
      this.com := com;
    }

    method Execute(call: Call) returns (r: Reply)
      requires Supports(call)
      modifies com
      ensures r == ReplyTo(call, Next(old(com.incoming)))
      ensures com.log == old(com.log) + [Cleared, Wrote(Serialize(RequestFor(call))), Read(Next(old(com.incoming)))]
      ensures com.incoming == Rest(old(com.incoming)) && com.buffered == [] && com.baud == old(com.baud)
    {
      var response := RomExecutor.ExecuteCommand(com, RequestFor(call));
      match response {
        case Fail(f) => r := Raised(f);
        case Ok(resp) =>
          if !resp.success {
            r := Raised(FailureOf(call));
          } else {
            r := Answer(true, resp.error, resp.value, []);
          }
      }
    }

    method WaitForOhai() returns (r: Outcome<()>)
      modifies com
      ensures (r, com.Pending()) == Ohai.Await(old(com.Pending()))
      ensures com.baud == old(com.baud)
    {
      r := Ohai.WaitForOhai(com);
    }
  }

  /** The later ROM bootloader: synchronisation reports Success rather than throwing. */
  class BootLoader {
    const com: Communicator

    constructor(com: Communicator)
      ensures this.com == com
    {
      this.com := com;
    }

    method Execute(call: Call) returns (r: Reply)
      requires Supports(call) && !call.Sync?
      modifies com
      ensures r == ReplyTo(call, Next(old(com.incoming)))
      ensures com.log == old(com.log) + [Cleared, Wrote(Serialize(RequestFor(call))), Read(Next(old(com.incoming)))]
      ensures com.incoming == Rest(old(com.incoming)) && com.buffered == [] && com.baud == old(com.baud)
    {
      var response := RomExecutor.ExecuteCommand(com, RequestFor(call));
      match response {
        case Fail(f) => r := Raised(f);
        case Ok(resp) =>
          if !resp.success {
            r := Raised(FailureOf(call));
          } else {
            r := Answer(true, resp.error, resp.value, []);
          }
      }
    }

    method Synchronize() returns (r: Outcome<bool>)
      modifies com
      ensures r == SynchronizeReply(Next(old(com.incoming)))
      ensures com.log == old(com.log) + [Cleared, Wrote(Serialize(RequestOf(Sync))), Read(Next(old(com.incoming)))]
      ensures com.incoming == Rest(old(com.incoming)) && com.buffered == [] && com.baud == old(com.baud)
    {
      var response := RomExecutor.ExecuteCommand(com, RequestOf(Sync));
      match response {
        case Fail(f) => r := Fail(f);
        case Ok(resp) => r := Ok(resp.success);
      }
    }
  }
}
