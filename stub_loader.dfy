/**
 * The newer stub loader: every call is one request through the stub
 * executor. A response without Success throws: InvalidOperationException for
 * the commands only the stub implements (baud change, MD5, compressed flash,
 * erase), a plain exception for the commands it shares with the ROM.
 */
module StubLoader {
  import opened Common
  import opened Requests
  import opened Responses
  import opened Errors
  import opened Link
  import opened LoaderCommands
  import opened Port
  import Ohai
  import StubExecutor

  /** Commands the stub loader implements and the ROM loader does not. */
  predicate StubOnlyCall(call: Call)
  {
    call.ChangeBaud? || call.FlashMd5? || call.EraseFlash? ||
    ((call.Begin? || call.Data? || call.End?) && call.region == FlashDefl)
  }

  /** The exception a call throws when its response lacks Success. */
  function FailureOf(call: Call): (f: Fault)
    ensures f == InvalidOperation <==> StubOnlyCall(call)
    ensures f != InvalidOperation ==> f == Failure
  {
    if StubOnlyCall(call) then InvalidOperation else Failure
  }

  /** What a call returns once its response arrived: the value word, and for MD5 the first 16 payload bytes. */
  function Answered(call: Call, response: Response<Status>): (r: Reply)
    ensures r.Answer? <==> response.success
    ensures r.Raised? ==> r.fault == FailureOf(call)
    ensures r.Answer? ==> r.error == response.error && r.value == response.value
    ensures r.Answer? && call.FlashMd5? ==>
      |r.data| == Min(16, |response.payload|) && r.data == response.payload[..|r.data|]
  {
    if !response.success then Raised(FailureOf(call))
    else Answer(true, response.error, response.value,
                if call.FlashMd5? then response.payload[..Min(16, |response.payload|)] else [])
  }

  /** The outcome of a call, given the reply the executor reads. */
  function ReplyTo(call: Call, reply: ReadResult): (r: Reply)
    requires Encoded(call)
    ensures r.Answer? <==>
      reply.Got? && StubExecutor.FrameToResponse(reply.frame).command == Opcode(call) &&
      StubExecutor.FrameToResponse(reply.frame).success
    ensures r.Answer? ==> r.success && r.error == NoError && r.value == ReadLE32(reply.frame, 4)
    ensures r == Raised(Canceled) <==> reply == Cancelled
  {
    match StubExecutor.Exchange(RequestOf(call), reply)
    case Fail(f) => Raised(f)
    case Ok(response) => Answered(call, response)
  }

  /** The register read returns the response's value word, i.e. frame bytes 4 to 7. */
  lemma ReadRegisterReturnsValue(address: u32, frame: seq<byte>)
    requires ReplyTo(ReadRegister(address), Got(frame)).Answer?
    ensures HasHeader(frame) && frame[1] == READ_REG
    ensures ReplyTo(ReadRegister(address), Got(frame)).value == ReadLE32(frame, 4)
  {
  }

  /** A response with a stub error status fails every call, whatever its success byte says. */
  lemma ErrorStatusThrows(call: Call, frame: seq<byte>)
    requires Encoded(call) && HasHeader(frame)
    requires var s := ReadLE16(frame, 2); 2 <= s <= |frame| - 8 && frame[8 + s - 2] != ESP_OK
    ensures ReplyTo(call, Got(frame)).Raised?
    ensures StubExecutor.FrameToResponse(frame).command == Opcode(call) ==>
      ReplyTo(call, Got(frame)) == Raised(FailureOf(call))
  {
  }

  /** The stub's baud change carries the current rate as its second word. */
  lemma ChangeBaudCarriesOldRate(baud: int, oldBaud: int)
    ensures ReadLE32(RequestOf(ChangeBaud(baud, oldBaud)).payload, 0) == Wrap32(baud)
    ensures ReadLE32(RequestOf(ChangeBaud(baud, oldBaud)).payload, 4) == Wrap32(oldBaud)
  {
  }

  class SoftLoader {
    const com: Communicator

    constructor(com: Communicator)
      ensures this.com == com
    {
      this.com := com;
    }

    /** Sends one call through the stub executor and interprets its response. */
    method Execute(call: Call) returns (r: Reply)
      requires Encoded(call)
      modifies com
      ensures r == ReplyTo(call, Next(old(com.incoming)))
      ensures com.log == old(com.log) + [Cleared, Wrote(Serialize(RequestOf(call))), Read(Next(old(com.incoming)))]
      ensures com.incoming == Rest(old(com.incoming)) && com.buffered == [] && com.baud == old(com.baud)
    {
      var response := StubExecutor.ExecuteCommand(com, RequestOf(call));
      match response {
        case Fail(f) => r := Raised(f);
        case Ok(resp) => r := Answered(call, resp);
      }
    }

    /** Waits for the stub's greeting. */
    method WaitForOhai() returns (r: Outcome<()>)
      modifies com
      ensures (r, com.Pending()) == Ohai.Await(old(com.Pending()))
      ensures com.baud == old(com.baud)
    {
      r := Ohai.WaitForOhai(com);
    }
  }
}
