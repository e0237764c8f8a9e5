/**
 * Responses from the device, and the part of response parsing every command
 * layer shares: the 8-byte header. The layers differ only in where they look
 * for the success and status bytes inside the payload.
 *
 * Parsing runs inside a try block that turns any exception into
 * "Success = false": the fields assigned before the faulting read keep their
 * values and the rest keep their defaults. The staged definitions below give
 * exactly that partial record.
 */
module Responses {
  import opened Common

  /** A response record; `E` is the error type of the revision that parses it. */
  datatype Response<E> = Response(
    direction: byte,
    command: byte,
    size: u16,
    value: u32,
    payload: seq<byte>,
    success: bool,
    error: E)

  /** A freshly constructed response: every field at its default. */
  function Blank<E>(noError: E): Response<E>
  {
    Response(0, 0, 0, 0, [], false, noError)
  }

  /** The frame is long enough for the whole header. */
  predicate HasHeader(data: seq<byte>)
  {
    |data| >= 8
  }

  /**
   * The header fields read in source order (direction, command, 16-bit size
   * at 2, 32-bit value at 4, payload from 8), stopping at the first read that
   * would run past the frame.
   */
  function ParseHeader<E>(data: seq<byte>, noError: E): (r: Response<E>)
    ensures !r.success && r.error == noError
    ensures HasHeader(data) ==>
      r.direction == data[0] && r.command == data[1] && r.size == ReadLE16(data, 2) &&
      r.value == ReadLE32(data, 4) && r.payload == data[8..]
    ensures !HasHeader(data) ==> r.payload == [] && r.value == 0
  {
    var r0 := Blank(noError);
    if |data| < 1 then r0
    else if |data| < 2 then r0.(direction := data[0])
    else if |data| < 4 then r0.(direction := data[0], command := data[1])
    else if |data| < 8 then r0.(direction := data[0], command := data[1], size := ReadLE16(data, 2))
    else r0.(direction := data[0], command := data[1], size := ReadLE16(data, 2),
             value := ReadLE32(data, 4), payload := data[8..])
  }

  /** Payload index `size - k` exists (C# computes it in `int`, so it may be negative). */
  predicate InPayload<E>(r: Response<E>, k: nat)
  {
    0 <= r.size - k < |r.payload|
  }
}
