/**
 * The fluent request builder of the newer command layer. Every builder call
 * updates one shared request object in place; `Build` fills in the checksum
 * only when one was asked for.
 */
module RequestBuilder {
  import opened Common
  import opened Requests

  /** The mutable request record (Commands/RequestCommand.cs). */
  class RequestCommand {
    var direction: byte
    var size: u16
    var checksum: u32
    var command: byte
    var checksumRequired: bool
    var payload: seq<byte>

    /** The record's fields as a value. */
    function Value(): Request
      reads this
    {
      Request(direction, command, size, checksum, checksumRequired, payload)
    }

    /** Every field starts at its default: direction 0, empty payload, checksum 0. */
    constructor()
      ensures Value() == Request(0, 0, 0, 0, false, [])
    {
      direction, size, checksum, command, checksumRequired, payload := 0, 0, 0, 0, false, [];
    }
  }

  class RequestCommandBuilder {
    const request: RequestCommand

    constructor()
      ensures fresh(request)
      ensures request.Value() == Request(0, 0, 0, 0, false, [])
    {
      request := new RequestCommand();
    }

    /** Sets the opcode and nothing else. */
    method WithCommand(cmd: byte) returns (self: RequestCommandBuilder)
      modifies request
      ensures self == this
      ensures request.Value() == old(request.Value()).(command := cmd)
    {
      request.command := cmd;
      self := this;
    }

    /** Appends a part to the payload; the size follows the new length, truncated to 16 bits. */
    method AppendPayload(part: seq<byte>) returns (self: RequestCommandBuilder)
      modifies request
      ensures self == this
      ensures request.payload == old(request.payload) + part
      ensures request.size == |request.payload| % U16
      ensures request.Value() == old(request.Value()).(payload := request.payload, size := request.size)
    {
      request.payload := request.payload + part;
      request.size := Wrap16(|request.payload|);
      self := this;
    }

    /** Records whether the checksum is wanted. */
    method RequiresChecksum(checksumRequired: bool) returns (self: RequestCommandBuilder)
      modifies request
      ensures self == this
      ensures request.Value() == old(request.Value()).(checksumRequired := checksumRequired)
    {
      request.checksumRequired := checksumRequired;
      self := this;
    }

    /** Sets the direction byte and nothing else. */
    method WithDirection(direction: byte) returns (self: RequestCommandBuilder)
      modifies request
      ensures self == this
      ensures request.Value() == old(request.Value()).(direction := direction)
    {
      request.direction := direction;
      self := this;
    }

    /** Hands out the shared request, with the checksum filled in only when it was asked for. */
    method Build() returns (r: RequestCommand)
      modifies request
      ensures r == request
      ensures old(request.checksumRequired) ==>
        r.Value() == old(request.Value()).(checksum := ChecksumOf(old(request.payload)))
      ensures !old(request.checksumRequired) ==> r.Value() == old(request.Value())
    {
      if request.checksumRequired {
        CalculateChecksum();
      }
      r := request;
    }

    /** 0xEF folded with every payload byte from index 16 on. */
    method CalculateChecksum()
      modifies request
      ensures request.Value() == old(request.Value()).(checksum := ChecksumOf(old(request.payload)))
    {
      request.checksum := SEED;
      var i := CHECKSUM_FROM;
      while i < |request.payload|
        invariant CHECKSUM_FROM <= i
        invariant |request.payload| < CHECKSUM_FROM ==> i == CHECKSUM_FROM && request.checksum == SEED
        invariant |request.payload| >= CHECKSUM_FROM ==>
          (i <= |request.payload| && request.checksum == XorAll(SEED, request.payload[CHECKSUM_FROM..i]))
        invariant request.checksum < 256
        invariant request.Value() == old(request.Value()).(checksum := request.checksum)
      {
        var p := request.payload;
        assert p[CHECKSUM_FROM..i + 1][..i - CHECKSUM_FROM] == p[CHECKSUM_FROM..i];
        XorOfBytes(request.checksum, p[i]);
        request.checksum := Xor(request.checksum, p[i]);
        i := i + 1;
      }
      var p := request.payload;
      assert p == old(request.payload);
      if |p| > CHECKSUM_FROM {
        assert p[CHECKSUM_FROM..i] == p[CHECKSUM_FROM..];
        assert request.checksum == ChecksumOf(p);
      }
    }
  }

  /**
   * A whole encoder chain: a fresh builder, the opcode, the checksum flag,
   * the payload parts in order, then `Build`. The result is the reference
   * request for that opcode, flag and concatenated payload.
   */
  method BuildChain(command: byte, checksumRequired: bool, parts: seq<seq<byte>>) returns (r: RequestCommand)
    ensures fresh(r)
    ensures r.Value() == Built(command, checksumRequired, Flatten(parts))
  {
    var builder := new RequestCommandBuilder();
    var b := builder.WithCommand(command);
    b := builder.RequiresChecksum(checksumRequired);
    var k := 0;
    while k < |parts|
      invariant 0 <= k <= |parts|
      invariant builder.request.Value() ==
        Request(0, command, |Flatten(parts[..k])| % U16, 0, checksumRequired, Flatten(parts[..k]))
    {
      b := builder.AppendPayload(parts[k]);
      FlattenSnoc(parts[..k], parts[k]);
      assert parts[..k + 1] == parts[..k] + [parts[k]];
      k := k + 1;
    }
    assert parts[..k] == parts;
    r := builder.Build();
  }
}
