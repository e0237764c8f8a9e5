/**
 * The loader commands every loader revision sends: their opcodes and the
 * layout of each payload. Every revision builds the same request for the same
 * call, except for the second word of the baud-rate change, which each loader
 * module fixes for itself.
 *
 * `BitConverter.GetBytes` of a `uint` is `LE32`; of an `int` it is the
 * little-endian two's-complement pattern, `LE32(Wrap32(v))`.
 */
module LoaderCommands {
  import opened Common
  import opened Requests

  const FLASH_BEGIN: byte := 0x02
  const FLASH_DATA: byte := 0x03
  const FLASH_END: byte := 0x04
  const MEM_BEGIN: byte := 0x05
  const MEM_END: byte := 0x06
  const MEM_DATA: byte := 0x07
  const SYNC: byte := 0x08
  const READ_REG: byte := 0x0A
  const CHANGE_BAUDRATE: byte := 0x0F
  const FLASH_DEFL_BEGIN: byte := 0x10
  const FLASH_DEFL_DATA: byte := 0x11
  const FLASH_DEFL_END: byte := 0x12
  const SPI_FLASH_MD5: byte := 0x13
  const ERASE_FLASH: byte := 0xD0

  /** The three begin/data/end families: plain flash, RAM, compressed flash. */
  datatype Region = Flash | Mem | FlashDefl

  /**
   * One call on a loader. `FlashReadBegin` and `FlashReadAck` are used by the
   * flash-read tools but no loader defines them, so they have no encoding here.
   */
  datatype Call =
    | Sync
    | ReadRegister(address: u32)
    | ChangeBaud(baud: int, oldBaud: int)
    | EraseFlash
    | FlashMd5(address: u32, size: u32)
    | Begin(region: Region, size: u32, blocks: u32, blockSize: u32, offset: u32)
    | Data(region: Region, block: seq<byte>, sequence: u32)
    | End(region: Region, flag: u32, entryPoint: u32)
    | FlashReadBegin(address: u32, size: u32, blockSize: u32, maxInFlight: u32)
    | FlashReadAck(received: u32)

  /** Calls some loader revision sends as a request of its own. */
  predicate Encoded(call: Call)
  {
    !call.FlashReadBegin? && !call.FlashReadAck?
  }

  function BeginOpcode(region: Region): byte
  {
    match region
    case Flash => FLASH_BEGIN
    case Mem => MEM_BEGIN
    case FlashDefl => FLASH_DEFL_BEGIN
  }

  function DataOpcode(region: Region): byte
  {
    match region
    case Flash => FLASH_DATA
    case Mem => MEM_DATA
    case FlashDefl => FLASH_DEFL_DATA
  }

  function EndOpcode(region: Region): byte
  {
    match region
    case Flash => FLASH_END
    case Mem => MEM_END
    case FlashDefl => FLASH_DEFL_END
  }

  function Opcode(call: Call): byte
    requires Encoded(call)
  {
    match call
    case Sync => SYNC
    case ReadRegister(_) => READ_REG
    case ChangeBaud(_, _) => CHANGE_BAUDRATE
    case EraseFlash => ERASE_FLASH
    case FlashMd5(_, _) => SPI_FLASH_MD5
    case Begin(region, _, _, _, _) => BeginOpcode(region)
    case Data(region, _, _) => DataOpcode(region)
    case End(region, _, _) => EndOpcode(region)
  }

  /** The opcode alone tells which command, and for begin/data/end which family, a request is. */
  lemma OpcodeIdentifiesCall(a: Call, b: Call)
    requires Encoded(a) && Encoded(b) && Opcode(a) == Opcode(b)
    ensures a.Sync? == b.Sync? && a.ReadRegister? == b.ReadRegister? && a.ChangeBaud? == b.ChangeBaud?
    ensures a.EraseFlash? == b.EraseFlash? && a.FlashMd5? == b.FlashMd5?
    ensures a.Begin? == b.Begin? && a.Data? == b.Data? && a.End? == b.End?
    ensures (a.Begin? || a.Data? || a.End?) ==> a.region == b.region
  {
  }

  /** `GetBytes` of an `int`: its 32-bit two's-complement pattern, least significant byte first. */
  function IntBytes(v: int): (r: seq<byte>)
    ensures |r| == 4 && ReadLE32(r, 0) == Wrap32(v)
  {
    LE32(Wrap32(v))
  }

  /** Four 32-bit words: size, block count, block size, offset. */
  function BeginPayload(size: u32, blocks: u32, blockSize: u32, offset: u32): (p: seq<byte>)
    ensures |p| == 16
    ensures ReadLE32(p, 0) == size && ReadLE32(p, 4) == blocks
    ensures ReadLE32(p, 8) == blockSize && ReadLE32(p, 12) == offset
  {
    LE32(size) + LE32(blocks) + LE32(blockSize) + LE32(offset)
  }

  /** A 16-byte data header (length, sequence number, two zero words) and then the block. */
  function DataPayload(block: seq<byte>, sequence: u32): (p: seq<byte>)
    ensures |p| == 16 + |block|
    ensures ReadLE32(p, 0) == Wrap32(|block|) && ReadLE32(p, 4) == sequence
    ensures ReadLE32(p, 8) == 0 && ReadLE32(p, 12) == 0
    ensures p[16..] == block
  {
    IntBytes(|block|) + LE32(sequence) + IntBytes(0) + IntBytes(0) + block
  }

  /** Two 32-bit words: the flag, then the entry point. */
  function EndPayload(flag: u32, entryPoint: u32): (p: seq<byte>)
    ensures |p| == 8 && ReadLE32(p, 0) == flag && ReadLE32(p, 4) == entryPoint
  {
    LE32(flag) + LE32(entryPoint)
  }

  /** The new baud rate, then the second word the loader revision chooses. */
  function BaudPayload(baud: int, second: int): (p: seq<byte>)
    ensures |p| == 8 && ReadLE32(p, 0) == Wrap32(baud) && ReadLE32(p, 4) == Wrap32(second)
  {
    IntBytes(baud) + IntBytes(second)
  }

  /** Address, size and two zero words. */
  function Md5Payload(address: u32, size: u32): (p: seq<byte>)
    ensures |p| == 16 && ReadLE32(p, 0) == address && ReadLE32(p, 4) == size
    ensures ReadLE32(p, 8) == 0 && ReadLE32(p, 12) == 0
  {
    LE32(address) + LE32(size) + IntBytes(0) + IntBytes(0)
  }

  /** The 36-byte synchronisation pattern: 07 07 12 20, then 32 bytes of 0x55. */
  function SyncPayload(): (p: seq<byte>)
    ensures |p| == 36 && p[..4] == [0x07, 0x07, 0x12, 0x20]
    ensures forall i :: 4 <= i < 36 ==> p[i] == 0x55
  {
    [0x07, 0x07, 0x12, 0x20] + seq(32, _ => 0x55)
  }

  /**
   * The request for a call, built as the loaders' builder chains and
   * constructors build it: only data commands want a checksum. The baud
   * change carries `oldBaud` as its second word.
   */
  function RequestOf(call: Call): (r: Request)
    requires Encoded(call)
    ensures r.direction == 0 && r.command == Opcode(call) && r.size == |r.payload| % U16
    ensures r.checksumRequired <==> call.Data?
    ensures call.Data? ==> r.checksum == XorAll(SEED, call.block) && |r.payload| == 16 + |call.block| && r.payload[16..] == call.block
    ensures !call.Data? ==> r.checksum == 0
    ensures call.EraseFlash? ==> r.payload == []
    ensures call.ReadRegister? ==> r.payload == LE32(call.address)
  {
    match call
    case Sync => Built(SYNC, false, SyncPayload())
    case ReadRegister(address) => Built(READ_REG, false, LE32(address))
    case ChangeBaud(baud, oldBaud) => Built(CHANGE_BAUDRATE, false, BaudPayload(baud, oldBaud))
    case EraseFlash => Built(ERASE_FLASH, false, [])
    case FlashMd5(address, size) => Built(SPI_FLASH_MD5, false, Md5Payload(address, size))
    case Begin(region, size, blocks, blockSize, offset) =>
      Built(BeginOpcode(region), false, BeginPayload(size, blocks, blockSize, offset))
    case Data(region, block, sequence) =>
      var p := DataPayload(block, sequence);
      ChecksumCoversBlock(p[..16], block);
      assert p == p[..16] + block;
      Built(DataOpcode(region), true, p)
    case End(region, flag, entryPoint) => Built(EndOpcode(region), false, EndPayload(flag, entryPoint))
  }

  /** A data request's size counts the 16-byte header and the block, modulo 2^16. */
  lemma DataRequestSize(region: Region, block: seq<byte>, sequence: u32)
    ensures RequestOf(Data(region, block, sequence)).size == (16 + |block|) % U16
  {
  }
}
