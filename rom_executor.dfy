/**
 * The newer ROM-loader command executor. It differs from the stub executor
 * only in the status layout: Success from `Payload[Size-4] == 0` and the
 * status from `Payload[Size-3]`, set independently of each other.
 */
module RomExecutor {
  import opened Common
  import opened Requests
  import opened Responses
  import opened Errors
  import opened Link
  import StubExecutor

  function FrameToResponse(data: seq<byte>): (r: Response<Status>)
    ensures HasHeader(data) ==>
      r.direction == data[0] && r.command == data[1] && r.size == ReadLE16(data, 2) &&
      r.value == ReadLE32(data, 4) && r.payload == data[8..]
    ensures r.success <==>
      HasHeader(data) && 4 <= r.size <= |r.payload| + 2 && r.payload[r.size - 4] == 0
    ensures r.error == (if HasHeader(data) && 4 <= r.size <= |r.payload| + 2
                        then RomStatus(r.payload[r.size - 3]) else NoError)
  {
    var h := ParseHeader(data, NoError);
    if !HasHeader(data) || !InPayload(h, 4) then h
    else if !InPayload(h, 3) then h
    else h.(success := h.payload[h.size - 4] == 0, error := RomStatus(h.payload[h.size - 3]))
  }

  /**
   * Success does not look at the status byte: since the ROM table never
   * yields NoError, every successful ROM response still carries an error value.
   */
  lemma SuccessIgnoresStatus(data: seq<byte>)
    requires FrameToResponse(data).success
    ensures FrameToResponse(data).error != NoError
  {
  }

  /**
   * The two dialects read different payload bytes: the same reply is a
   * success for the ROM parser and a failure for the stub parser.
   */
  lemma DialectsDisagree()
    ensures var frame := [1, 8, 4, 0, 0, 0, 0, 0, 0, 0, 1, 0];
      FrameToResponse(frame).success && !StubExecutor.FrameToResponse(frame).success
  {
    var frame: seq<byte> := [1, 8, 4, 0, 0, 0, 0, 0, 0, 0, 1, 0];
    assert ReadLE16(frame, 2) == 4;
    assert frame[8..] == [0, 0, 1, 0];
  }

  /** As in the stub executor: a mismatched opcode or a missing frame is an InvalidOperationException. */
  function Exchange(req: Request, reply: ReadResult): (r: Outcome<Response<Status>>)
    ensures r.Ok? <==> reply.Got? && FrameToResponse(reply.frame).command == req.command
    ensures r.Ok? ==> r.value == FrameToResponse(reply.frame) && r.value.command == req.command
    ensures r == Fail(Canceled) <==> reply == Cancelled
    ensures r.Fail? ==> r.fault in {Canceled, InvalidOperation}
  {
    match reply
    case Got(frame) =>
      var response := FrameToResponse(frame);
      if response.command != req.command then Fail(InvalidOperation) else Ok(response)
    case Cancelled => Fail(Canceled)
    case _ => Fail(InvalidOperation)
  }

  method ExecuteCommand(com: Communicator, req: Request) returns (r: Outcome<Response<Status>>)
    modifies com
    ensures r == Exchange(req, Next(old(com.incoming)))
    ensures com.log == old(com.log) + [Cleared, Wrote(Serialize(req)), Read(Next(old(com.incoming)))]
    ensures com.incoming == Rest(old(com.incoming)) && com.buffered == [] && com.baud == old(com.baud)
  {
    com.ClearBuffer();
    var requestFrame := Serialize(req);
    com.WriteFrame(requestFrame);
    var reply := com.ReadFrame();
    match reply {
      case Got(frame) =>
        var response := FrameToResponse(frame);
        if response.command != req.command {
          return Fail(InvalidOperation);
        }
        return Ok(response);
      case Missing =>
        return Fail(InvalidOperation);
      case Cancelled =>
        return Fail(Canceled);
      case Faulted =>
        return Fail(InvalidOperation);
    }
  }
}
