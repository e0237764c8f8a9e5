/**
 * Requests to the ESP serial bootloader and their wire form.
 *
 * A request carries a direction (0 for host to device), an opcode, a 16-bit
 * size, a 32-bit checksum, a flag saying whether the checksum is wanted, and
 * a payload. On the wire it is an 8-byte header (direction, opcode,
 * little-endian size, little-endian checksum) followed by the payload.
 */
module Requests {
  import opened Common

  datatype Request = Request(
    direction: byte,
    command: byte,
    size: u16,
    checksum: u32,
    checksumRequired: bool,
    payload: seq<byte>)

  /** The protocol's checksum seed. */
  const SEED: u32 := 0xEF

  /** Payload bytes before this index are the data header and do not enter the checksum. */
  const CHECKSUM_FROM: nat := 16

  /** Exclusive or of the seed with all bytes of `data`, folded left to right. */
  function XorAll(seed: nat, data: seq<byte>): nat
    decreases |data|
  {
    if data == [] then seed else Xor(XorAll(seed, data[..|data| - 1]), data[|data| - 1])
  }

  /** 0xEF XOR every payload byte from index 16 on. */
  function ChecksumOf(payload: seq<byte>): u32
  {
    if |payload| <= CHECKSUM_FROM then SEED
    else
      XorAllFitsInByte(SEED, payload[CHECKSUM_FROM..]);
      XorAll(SEED, payload[CHECKSUM_FROM..])
  }

  /** Folding bytes into a one-byte value keeps it within one byte. */
  lemma {:induction false} XorAllFitsInByte(seed: nat, data: seq<byte>)
    requires seed < 256
    ensures XorAll(seed, data) < 256
    decreases |data|
  {
    if data != [] {
      XorAllFitsInByte(seed, data[..|data| - 1]);
      XorOfBytes(XorAll(seed, data[..|data| - 1]), data[|data| - 1]);
    }
  }

  /** The checksum always fits in one byte. */
  lemma ChecksumFitsInByte(payload: seq<byte>)
    ensures ChecksumOf(payload) < 256
  {
    if |payload| > CHECKSUM_FROM {
      XorAllFitsInByte(SEED, payload[CHECKSUM_FROM..]);
    }
  }

  /** A payload no longer than the data header checksums to the bare seed. */
  lemma ShortPayloadChecksum(payload: seq<byte>)
    requires |payload| <= CHECKSUM_FROM
    ensures ChecksumOf(payload) == SEED
  {
  }

  /** Behind a 16-byte header, the checksum is the seed XOR exactly the block bytes. */
  lemma ChecksumCoversBlock(header: seq<byte>, block: seq<byte>)
    requires |header| == CHECKSUM_FROM
    ensures ChecksumOf(header + block) == XorAll(SEED, block)
  {
    assert (header + block)[CHECKSUM_FROM..] == block;
  }

  /**
   * The request a builder chain or a constructor produces: direction 0, the
   * opcode, the payload, its length truncated to 16 bits, and the checksum
   * only when one is required (0 otherwise).
   */
  function Built(command: byte, checksumRequired: bool, payload: seq<byte>): (r: Request)
    ensures r.direction == 0 && r.command == command && r.payload == payload
    ensures r.size == |payload| % U16
    ensures !checksumRequired ==> r.checksum == 0
    ensures r.checksumRequired == checksumRequired
  {
    Request(0, command, Wrap16(|payload|), if checksumRequired then ChecksumOf(payload) else 0,
            checksumRequired, payload)
  }

  /** The frame that carries a request: the 8-byte header, then the payload. */
  function Serialize(req: Request): (frame: seq<byte>)
    ensures |frame| == 8 + |req.payload|
    ensures frame[0] == req.direction && frame[1] == req.command
    ensures ReadLE16(frame, 2) == req.size && ReadLE32(frame, 4) == req.checksum
    ensures frame[8..] == req.payload
  {
    [req.direction, req.command] + LE16(req.size) + LE32(req.checksum) + req.payload
  }
}
