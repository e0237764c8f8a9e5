/**
 * The newer stub-loader command executor: one request frame out, one response
 * frame in, parsed with the stub loader's status layout (success byte last,
 * status byte just before it), and correlated with the request's opcode.
 */
module StubExecutor {
  import opened Common
  import opened Requests
  import opened Responses
  import opened Errors
  import opened Link

  /**
   * Header as in every revision; then Success from `Payload[Size-1] == 0`,
   * the status from `Payload[Size-2]`, and any status other than NoError
   * forces Success to false. An index outside the frame ends parsing with
   * Success false.
   */
  function FrameToResponse(data: seq<byte>): (r: Response<Status>)
    ensures HasHeader(data) ==>
      r.direction == data[0] && r.command == data[1] && r.size == ReadLE16(data, 2) &&
      r.value == ReadLE32(data, 4) && r.payload == data[8..]
    ensures r.success ==> r.error == NoError
    ensures r.success <==>
      HasHeader(data) && 2 <= r.size <= |r.payload| &&
      r.payload[r.size - 1] == 0 && r.payload[r.size - 2] == ESP_OK
    ensures r.error == (if HasHeader(data) && 2 <= r.size <= |r.payload|
                        then StubStatus(r.payload[r.size - 2]) else NoError)
  {
    var h := ParseHeader(data, NoError);
    if !HasHeader(data) || !InPayload(h, 1) then h
    else if !InPayload(h, 2) then h
    else
      var status := StubStatus(h.payload[h.size - 2]);
      var success := h.payload[h.size - 1] == 0;
      h.(success := if status != NoError then false else success, error := status)
  }

  /** A frame too short for its own size field never parses as a success. */
  lemma UndersizedFails(data: seq<byte>)
    requires !HasHeader(data) || ReadLE16(data, 2) < 2 || ReadLE16(data, 2) > |data| - 8
    ensures !FrameToResponse(data).success
  {
  }

  /**
   * What `ExecuteCommandAsync` returns or throws, given what the read yields:
   * a missing frame and an opcode mismatch become InvalidOperationException,
   * a cancellation stays a cancellation.
   */
  function Exchange(req: Request, reply: ReadResult): (r: Outcome<Response<Status>>)
    ensures r.Ok? <==> reply.Got? && FrameToResponse(reply.frame).command == req.command
    ensures r.Ok? ==> r.value == FrameToResponse(reply.frame) && r.value.command == req.command
    ensures r == Fail(Canceled) <==> reply == Cancelled
    ensures r.Fail? ==> r.fault in {Canceled, InvalidOperation}
  {
    match reply
    case Got(frame) =>
      var response := FrameToResponse(frame);
      if response.command != req.command then Fail(InvalidOperation) else Ok(response)
    case Cancelled => Fail(Canceled)
    case _ => Fail(InvalidOperation)
  }

  /** Clears stale input, writes the request frame, reads one reply and checks its opcode. */
  method ExecuteCommand(com: Communicator, req: Request) returns (r: Outcome<Response<Status>>)
    modifies com
    ensures r == Exchange(req, Next(old(com.incoming)))
    ensures com.log == old(com.log) + [Cleared, Wrote(Serialize(req)), Read(Next(old(com.incoming)))]
    ensures com.incoming == Rest(old(com.incoming)) && com.buffered == [] && com.baud == old(com.baud)
  {
    com.ClearBuffer();
    var requestFrame := Serialize(req);
    com.WriteFrame(requestFrame);
    var reply := com.ReadFrame();
    match reply {
      case Got(frame) =>
        var response := FrameToResponse(frame);
        if response.command != req.command {
          return Fail(InvalidOperation);
        }
        return Ok(response);
      case Missing =>
        return Fail(InvalidOperation);
      case Cancelled =>
        return Fail(Canceled);
      case Faulted =>
        return Fail(InvalidOperation);
    }
  }
}
