/**
 * The older executor revision (namespace `ESPTool.CMD`): `CommandExecutor`
 * parses replies in the ROM layout, and its `SoftLoaderCommandExecutor`
 * subclass overrides only the parse, reading the stub layout without letting
 * the status byte clear Success. Neither checks the reply's opcode.
 */
module LegacyExecutor {
  import opened Common
  import opened Requests
  import opened Responses
  import opened Errors
  import opened Link
  import RomExecutor
  import StubExecutor

  /** Which `FrameToResponse` the executor object carries. */
  datatype Dialect = RomDialect | StubDialect

  /**
   * The subclass's parse: Success from `Payload[Size-1] == 0`, the error from
   * `Payload[Size-2]`, each set on its own; an index outside the frame leaves
   * Success false.
   */
  function StubFrameToResponse(data: seq<byte>): (r: Response<Status>)
    ensures HasHeader(data) ==>
      r.direction == data[0] && r.command == data[1] && r.size == ReadLE16(data, 2) &&
      r.value == ReadLE32(data, 4) && r.payload == data[8..]
    ensures r.success <==> HasHeader(data) && 2 <= r.size <= |r.payload| && r.payload[r.size - 1] == 0
    ensures r.error == (if HasHeader(data) && 2 <= r.size <= |r.payload|
                        then StubStatus(r.payload[r.size - 2]) else NoError)
  {
    var h := ParseHeader(data, NoError);
    if !HasHeader(data) || !InPayload(h, 1) then h
    else if !InPayload(h, 2) then h
    else h.(success := h.payload[h.size - 1] == 0, error := StubStatus(h.payload[h.size - 2]))
  }

  /**
   * Without the newer revision's override of Success, a reply can report
   * success together with a device error; the newer stub parser reads the
   * same reply as a failure.
   */
  lemma SuccessWithError()
    ensures var frame := [1, 0x13, 2, 0, 0, 0, 0, 0, ESP_BAD_DATA_LEN, 0];
      StubFrameToResponse(frame).success && StubFrameToResponse(frame).error == Invalid &&
      !StubExecutor.FrameToResponse(frame).success
  {
    var frame: seq<byte> := [1, 0x13, 2, 0, 0, 0, 0, 0, ESP_BAD_DATA_LEN, 0];
    assert ReadLE16(frame, 2) == 2;
    assert frame[8..] == [ESP_BAD_DATA_LEN, 0];
  }

  /** Where both parsers accept, they agree on every field except that the newer one may clear Success. */
  lemma NewerStubRefines(data: seq<byte>)
    ensures StubExecutor.FrameToResponse(data) ==
      StubFrameToResponse(data).(success := StubFrameToResponse(data).success &&
                                            StubFrameToResponse(data).error == NoError)
  {
  }

  function FrameToResponse(dialect: Dialect, data: seq<byte>): (r: Response<Status>)
    ensures dialect == RomDialect ==> r == RomExecutor.FrameToResponse(data)
    ensures dialect == StubDialect ==> r == StubFrameToResponse(data)
  {
    match dialect
    case RomDialect => RomExecutor.FrameToResponse(data)
    case StubDialect => StubFrameToResponse(data)
  }

  /**
   * What `ExecuteCommandAsync` returns or throws: any reply is returned
   * whatever its opcode; a missing frame makes the parse fail inside its own
   * handler, so a blank unsuccessful response comes back; a cancelled read
   * surfaces as a cancellation and anything else as InvalidOperationException.
   */
  function Exchange(dialect: Dialect, reply: ReadResult): (r: Outcome<Response<Status>>)
    ensures reply.Got? ==> r == Ok(FrameToResponse(dialect, reply.frame))
    ensures reply.Missing? ==> r == Ok(Blank(NoError)) && !r.value.success
    ensures reply.Cancelled? <==> r == Fail(Canceled)
    ensures reply.Faulted? <==> r == Fail(InvalidOperation)
  {
    match reply
    case Got(frame) => Ok(FrameToResponse(dialect, frame))
    case Missing => Ok(Blank(NoError))
    case Cancelled => Fail(Canceled)
    case Faulted => Fail(InvalidOperation)
  }

  /** A reply to some other command is handed back as if it answered this one. */
  lemma NoOpcodeCheck(req: Request)
    requires req.command != 0x08
    ensures var frame := [1, 0x08, 4, 0, 0, 0, 0, 0, 0, 0, 0, 0];
      Exchange(RomDialect, Got(frame)).Ok? && Exchange(RomDialect, Got(frame)).value.command != req.command &&
      StubExecutor.Exchange(req, Got(frame)) == Fail(InvalidOperation)
  {
    var frame: seq<byte> := [1, 0x08, 4, 0, 0, 0, 0, 0, 0, 0, 0, 0];
    assert frame[1] == 0x08;
  }

  /** Clears stale input, writes the request frame, reads one reply and parses it. */
  method ExecuteCommand(com: Communicator, dialect: Dialect, req: Request) returns (r: Outcome<Response<Status>>)
    modifies com
    ensures r == Exchange(dialect, Next(old(com.incoming)))
    ensures com.log == old(com.log) + [Cleared, Wrote(Serialize(req)), Read(Next(old(com.incoming)))]
    ensures com.incoming == Rest(old(com.incoming)) && com.buffered == [] && com.baud == old(com.baud)
  {
    com.ClearBuffer();
    var requestFrame := Serialize(req);
    com.WriteFrame(requestFrame);
    var reply := com.ReadFrame();
    match reply {
      case Got(frame) =>
        return Ok(FrameToResponse(dialect, frame));
      case Missing =>
        return Ok(Blank(NoError));
      case Cancelled =>
        return Fail(Canceled);
      case Faulted =>
        return Fail(InvalidOperation);
    }
  }
}
