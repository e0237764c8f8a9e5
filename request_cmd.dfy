/**
 * The oldest request type: a record whose constructor sets opcode, payload
 * and size and computes the checksum when one is required.
 */
module RequestCmd {
  import opened Common
  import opened Requests

  class RequestCMD {
    var direction: byte
    var size: u16
    var checksum: u32
    var command: byte
    var checksumRequired: bool
    var payload: seq<byte>

    function Value(): Request
      reads this
    {
      Request(direction, command, size, checksum, checksumRequired, payload)
    }

    /** The parameterless constructor: direction 0, empty payload, size 0, no checksum. */
    constructor Empty()
      ensures Value() == Request(0, 0, 0, 0, false, [])
    {
      direction, size, checksum, command, checksumRequired, payload := 0, 0, 0, 0, false, [];
    }

    /**
     * The request for `cmd` with `payload`: the same value the newer builder
     * produces for that opcode, flag and payload.
     */
    constructor(cmd: byte, checksumRequired: bool, payload: seq<byte>)
      ensures Value() == Built(cmd, checksumRequired, payload)
    {
      this.checksumRequired := checksumRequired;
      direction := 0;
      command := cmd;
      this.payload := payload;
      size := Wrap16(|payload|);
      checksum := 0;
      new;
      if this.checksumRequired {
        CalculateChecksum();
      }
    }

    /** 0xEF folded with every payload byte from index 16 on. */
    method CalculateChecksum()
      modifies this
      ensures Value() == old(Value()).(checksum := ChecksumOf(old(payload)))
    {
      checksum := SEED;
      var i := CHECKSUM_FROM;
      while i < |payload|
        invariant CHECKSUM_FROM <= i
        invariant |payload| < CHECKSUM_FROM ==> i == CHECKSUM_FROM && checksum == SEED
        invariant |payload| >= CHECKSUM_FROM ==>
          (i <= |payload| && checksum == XorAll(SEED, payload[CHECKSUM_FROM..i]))
        invariant checksum < 256
        invariant Value() == old(Value()).(checksum := checksum)
      {
        assert payload[CHECKSUM_FROM..i + 1][..i - CHECKSUM_FROM] == payload[CHECKSUM_FROM..i];
        XorOfBytes(checksum, payload[i]);
        checksum := Xor(checksum, payload[i]);
        i := i + 1;
      }
      if |payload| > CHECKSUM_FROM {
        assert payload[CHECKSUM_FROM..i] == payload[CHECKSUM_FROM..];
      }
    }
  }
}
