/**
 * The oldest loader revision (namespace `ESPTool.Loaders`): `Loader` talks
 * to the ROM, `SoftLoader` derives from it for the stub. Each call builds a
 * `RequestCMD`, writes its frame without clearing stale input, and takes the
 * next frame as the reply whatever its opcode. A cancelled wait is not an
 * exception: the call returns a default reply, unsuccessful with error
 * `UnknownError`. The error field is the raw status byte (the `Errors` enum
 * is a plain cast).
 *
 * The ESP32 subclass's baud change is written against the newer command
 * layer; it is modelled as that layer's ROM-dialect executor with the old
 * rate replaced by 0.
 */
module LegacyLoader {
  import opened Common
  import opened Requests
  import opened Responses
  import opened Errors
  import opened Link
  import opened LoaderCommands
  import Ohai
  import LegacyExecutor
  import StubExecutor

  /** `Errors.UnknownError`. */
  const UNKNOWN_ERROR: byte := 0xFF

  /** Which parse the loader object uses: the base `Loader` or the `SoftLoader` override. */
  datatype Kind = RomKind | SoftKind

  /** `Loader.ToCommand`: Success from `Payload[Size-4] == 0`, the error byte from `Payload[Size-3]`. */
  function RomToCommand(data: seq<byte>): (r: Response<byte>)
    ensures HasHeader(data) ==>
      r.direction == data[0] && r.command == data[1] && r.size == ReadLE16(data, 2) &&
      r.value == ReadLE32(data, 4) && r.payload == data[8..]
    ensures r.success <==> HasHeader(data) && 4 <= r.size <= |r.payload| + 2 && r.payload[r.size - 4] == 0
    ensures r.error == (if HasHeader(data) && 4 <= r.size <= |r.payload| + 2 then r.payload[r.size - 3] else 0)
  {
    var h := ParseHeader(data, 0 as byte);
    if !HasHeader(data) || !InPayload(h, 4) then h
    else if !InPayload(h, 3) then h
    else h.(success := h.payload[h.size - 4] == 0, error := h.payload[h.size - 3])
  }

  /** `SoftLoader.ToCommand`: Success from `Payload[Size-2] == 0`, the error byte from `Payload[Size-1]`. */
  function SoftToCommand(data: seq<byte>): (r: Response<byte>)
    ensures HasHeader(data) ==>
      r.direction == data[0] && r.command == data[1] && r.size == ReadLE16(data, 2) &&
      r.value == ReadLE32(data, 4) && r.payload == data[8..]
    ensures r.success <==> HasHeader(data) && 2 <= r.size <= |r.payload| && r.payload[r.size - 2] == 0
    ensures r.error == (if HasHeader(data) && 2 <= r.size <= |r.payload| then r.payload[r.size - 1] else 0)
  {
    var h := ParseHeader(data, 0 as byte);
    if !HasHeader(data) || !InPayload(h, 2) then h
    else if !InPayload(h, 1) then h
    else h.(success := h.payload[h.size - 2] == 0, error := h.payload[h.size - 1])
  }

  function ToCommand(kind: Kind, data: seq<byte>): Response<byte>
  {
    match kind
    case RomKind => RomToCommand(data)
    case SoftKind => SoftToCommand(data)
  }

  /**
   * The oldest stub parse reads the last two status bytes in the opposite
   * order from the later stub executors: a reply whose status byte is an
   * error code and whose final byte is 0 is a success here and a failure there.
   */
  lemma SoftPositionsReversed()
    ensures var frame := [1, 0x08, 2, 0, 0, 0, 0, 0, 0x00, ESP_BAD_DATA_CHECKSUM];
      SoftToCommand(frame).success && SoftToCommand(frame).error == ESP_BAD_DATA_CHECKSUM &&
      !StubExecutor.FrameToResponse(frame).success &&
      !LegacyExecutor.StubFrameToResponse(frame).success
  {
    var frame: seq<byte> := [1, 0x08, 2, 0, 0, 0, 0, 0, 0x00, ESP_BAD_DATA_CHECKSUM];
    assert ReadLE16(frame, 2) == 2;
    assert frame[8..] == [0x00, ESP_BAD_DATA_CHECKSUM];
  }

  /** The reply `DoFrame` returns when no frame arrives before cancellation. */
  function DefaultReply(): (r: Response<byte>)
    ensures !r.success && r.error == UNKNOWN_ERROR && r.payload == []
  {
    Blank(0 as byte).(error := UNKNOWN_ERROR)
  }

  /**
   * What `DoFrame` yields for what the wait receives: the parsed frame, the
   * default reply when the wait is cancelled, or the link's exception.
   */
  function DoFrameReply(kind: Kind, reply: ReadResult): (r: Outcome<Response<byte>>)
    ensures reply.Got? ==> r == Ok(ToCommand(kind, reply.frame))
    ensures (reply.Cancelled? || reply.Missing?) ==> r == Ok(DefaultReply())
    ensures r.Fail? <==> reply.Faulted?
  {
    match reply
    case Got(frame) => Ok(ToCommand(kind, frame))
    case Faulted => Fail(IOFailure)
    case _ => Ok(DefaultReply())
  }

  /** Calls the object has a method for: no MD5, and erase only on the soft loader. */
  predicate Supports(kind: Kind, call: Call)
  {
    Encoded(call) && !call.FlashMd5? && (call.EraseFlash? ==> kind == SoftKind)
  }

  /** Calls the base loader refuses with a plain exception before sending anything. */
  predicate Refused(kind: Kind, call: Call)
  {
    kind == RomKind && (call.ChangeBaud? || ((call.Begin? || call.Data? || call.End?) && call.region == FlashDefl))
  }

  function ReplyTo(kind: Kind, call: Call, reply: ReadResult): (r: Outcome<Response<byte>>)
    ensures Refused(kind, call) ==> r == Fail(Failure)
    ensures !Refused(kind, call) ==> r == DoFrameReply(kind, reply)
  {
    if Refused(kind, call) then Fail(Failure) else DoFrameReply(kind, reply)
  }

  /** A cancelled call on a command the loader sends never throws; it reports UnknownError. */
  lemma CancelledCallReportsUnknown(kind: Kind, call: Call)
    requires !Refused(kind, call)
    ensures ReplyTo(kind, call, Cancelled) == Ok(DefaultReply())
    ensures !ReplyTo(kind, call, Cancelled).value.success
  {
  }

  class Loader {
    const com: Communicator
    const kind: Kind

    /** `new Loader()`: a ROM loader on its own link. */
    constructor(com: Communicator)
      ensures this.com == com && kind == RomKind
    {
      this.com := com;
      kind := RomKind;
    }

    /** `new SoftLoader(lod)`: a stub loader sharing the given loader's link. */
    constructor Soft(lod: Loader)
      ensures com == lod.com && kind == SoftKind
    {
      com := lod.com;
      kind := SoftKind;
    }

    /** One call: the request frame out (unless refused), the next frame in. */
    method Execute(call: Call) returns (r: Outcome<Response<byte>>)
      requires Supports(kind, call)
      modifies com
      ensures Refused(kind, call) ==> r == Fail(Failure) && com.log == old(com.log) && com.Pending() == old(com.Pending())
      ensures !Refused(kind, call) ==>
        r == DoFrameReply(kind, Next(old(com.Pending()))) &&
        com.log == old(com.log) + [Wrote(Serialize(RequestOf(call))), Read(Next(old(com.Pending())))] &&
        com.Pending() == Rest(old(com.Pending()))
      ensures com.baud == old(com.baud)
    {
      if Refused(kind, call) {
        return Fail(Failure);
      }
      com.WriteFrame(Serialize(RequestOf(call)));
      var reply := com.ReadFrame();
      match reply {
        case Got(frame) => r := Ok(ToCommand(kind, frame));
        case Faulted => r := Fail(IOFailure);
        case _ => r := Ok(DefaultReply());
      }
    }

    /** `WaitForOHAI`: true once the greeting arrives; a cancelled wait throws. */
    method WaitForOhai() returns (r: Outcome<bool>)
      modifies com
      ensures r.Ok? <==> Ohai.Await(old(com.Pending())).0.Ok?
      ensures r.Ok? ==> r.value
      ensures com.Pending() == Ohai.Await(old(com.Pending())).1 && com.baud == old(com.baud)
    {
      var w := Ohai.WaitForOhai(com);
      match w {
        case Ok(_) => r := Ok(true);
        case Fail(f) => r := Fail(f);
      }
    }
  }

  /** The ESP32 subclass's baud change: new rate and 0, a ROM-layout reply, no opcode check. */
  function Esp32ChangeBaudReply(baud: int, reply: ReadResult): (r: Outcome<()>)
    ensures r.Ok? <==> reply.Got? && LegacyExecutor.FrameToResponse(LegacyExecutor.RomDialect, reply.frame).success
    ensures reply.Cancelled? <==> r == Fail(Canceled)
    ensures reply.Faulted? ==> r == Fail(InvalidOperation)
    ensures reply.Missing? ==> r == Fail(InvalidOperation)
  {
    match LegacyExecutor.Exchange(LegacyExecutor.RomDialect, reply)
    case Fail(f) => Fail(f)
    case Ok(response) => if response.success then Ok(()) else Fail(InvalidOperation)
  }

  method Esp32ChangeBaud(com: Communicator, baud: int) returns (r: Outcome<()>)
    modifies com
    ensures r == Esp32ChangeBaudReply(baud, Next(old(com.incoming)))
    ensures com.log == old(com.log) + [Cleared, Wrote(Serialize(RequestOf(ChangeBaud(baud, 0)))), Read(Next(old(com.incoming)))]
    ensures com.incoming == Rest(old(com.incoming)) && com.buffered == [] && com.baud == old(com.baud)
  {
    var response := LegacyExecutor.ExecuteCommand(com, LegacyExecutor.RomDialect, RequestOf(ChangeBaud(baud, 0)));
    match response {
      case Fail(f) => r := Fail(f);
      case Ok(resp) => r := if resp.success then Ok(()) else Fail(InvalidOperation);
    }
  }
}
