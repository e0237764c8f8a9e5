/**
 * The single-stream upload tools: each sends one begin call, then the block
 * loop over a stream, and sends an end call only from `UploadAndExecute`.
 * They differ in the command family, in where the block size comes from and
 * in how the block count is computed.
 */
module UploadTools {
  import opened Common
  import opened LoaderCommands
  import opened Port
  import opened Chunking

  /**
   * `Upload` with the `uint` block count `(size + blockSize - 1) / blockSize`:
   * a zero block size divides by zero before anything is sent.
   */
  function StreamUpload(region: Region, stream: seq<byte>, offset: u32, size: u32, blockSize: u32): Plan
  {
    if blockSize == 0 then Plan([], Some(DivideByZero))
    else SegmentPlan(region, size, offset, stream, size, blockSize, UintCeilBlocks(size, blockSize))
  }

  /** `UploadAndExecute`: the upload, then an end call with flag 0 and the entry point. */
  function AndExecute(upload: Plan, region: Region, entryPoint: u32): Plan
  {
    Then(upload, Plan([End(region, 0, entryPoint)], None))
  }

  /** A plan whose calls contain no end call. */
  predicate NoEnd(calls: seq<Call>)
  {
    forall k :: 0 <= k < |calls| ==> !calls[k].End?
  }

  /**
   * With a block size that neither is zero nor makes the block count wrap,
   * and a stream holding at least `size` bytes, `Upload` announces the
   * ceiling of `size / blockSize` blocks and sends exactly the first `size`
   * bytes of the stream in data calls numbered from 0, and no end call.
   */
  lemma StreamUploadShape(region: Region, stream: seq<byte>, offset: u32, size: u32, blockSize: u32)
    requires blockSize > 0 && size + blockSize - 1 < U32 && |stream| >= size
    ensures var plan := StreamUpload(region, stream, offset, size, blockSize);
      plan.stop.None? && |plan.calls| == 1 + CeilDiv(size, blockSize) &&
      plan.calls[0] == Begin(region, size, CeilDiv(size, blockSize), blockSize, offset) &&
      (forall k :: 1 <= k < |plan.calls| ==>
        plan.calls[k].Data? && plan.calls[k].region == region && plan.calls[k].sequence == k - 1) &&
      Payload(plan.calls) == stream[..size]
  {
    UintCeilBlocksIsCeil(size, blockSize);
    SegmentPlanShape(region, size, offset, stream, size, blockSize);
  }

  /** Whatever the stream holds, the upload never sends an end call. */
  lemma StreamUploadSendsNoEnd(region: Region, stream: seq<byte>, offset: u32, size: u32, blockSize: u32)
    ensures NoEnd(StreamUpload(region, stream, offset, size, blockSize).calls)
  {
    if blockSize > 0 {
      var blocks := UintCeilBlocks(size, blockSize);
      DataCallsNumbered(region, stream, size, blockSize, blocks, 0);
      var data := DataCalls(region, stream, size, blockSize, blocks, 0);
      var calls := [Begin(region, size, blocks, blockSize, offset)] + data;
      forall k | 0 <= k < |calls|
        ensures !calls[k].End?
      {
        if k > 0 {
          assert calls[k] == data[k - 1];
        }
      }
    }
  }

  /**
   * `UploadAndExecute` of an upload that raised nothing itself ends with
   * exactly one end call, flag 0 and the entry point, after every upload call.
   */
  lemma AndExecuteEndsOnce(upload: Plan, region: Region, entryPoint: u32)
    requires upload.stop.None? && NoEnd(upload.calls)
    ensures var plan := AndExecute(upload, region, entryPoint);
      plan.stop.None? && |plan.calls| == |upload.calls| + 1 &&
      plan.calls[..|upload.calls|] == upload.calls &&
      plan.calls[|upload.calls|] == End(region, 0, entryPoint) &&
      Count(plan.calls, End(region, 0, entryPoint)) == 1
  {
    var plan := AndExecute(upload, region, entryPoint);
    assert plan.calls == upload.calls + [End(region, 0, entryPoint)];
    CountNoEnd(upload.calls, End(region, 0, entryPoint));
  }

  lemma {:induction false} CountNoEnd(calls: seq<Call>, end: Call)
    requires NoEnd(calls) && end.End?
    ensures Count(calls + [end], end) == 1
  {
    if calls == [] {
      assert [end][1..] == [];
    } else {
      assert (calls + [end])[1..] == calls[1..] + [end];
      CountNoEnd(calls[1..], end);
    }
  }

  /** Sends one end call. */
  method SendEnd(port: LoaderPort, region: Region, flag: u32, entryPoint: u32) returns (r: Outcome<()>)
    modifies port
    ensures Performed(Plan([End(region, flag, entryPoint)], None), old(port.script), old(port.calls), r, port.calls, port.script)
  {
    DropStep(port.script, 0);
    RunOne(End(region, flag, entryPoint), port.script);
    var reply := port.Invoke(End(region, flag, entryPoint));
    r := if reply.Raised? then Fail(reply.fault) else Ok(());
  }

  /** The `Upload` body shared by the tools with the `uint` ceiling formula. */
  method UploadStream(port: LoaderPort, region: Region, stream: seq<byte>, offset: u32, size: u32, blockSize: u32)
    returns (r: Outcome<()>)
    modifies port
    ensures Performed(StreamUpload(region, stream, offset, size, blockSize), old(port.script), old(port.calls), r, port.calls, port.script)
  {
    if blockSize == 0 {
      PerformedRaise(DivideByZero, port.script, port.calls);
      return Fail(DivideByZero);
    }
    var blocks := Wrap32(size + blockSize - 1) / blockSize;
    r := SendSegment(port, region, size, offset, stream, size, blockSize, blocks);
  }

  /** `Upload`, then the end call with flag 0, unless the upload raised. */
  method UploadStreamAndExecute(port: LoaderPort, region: Region, stream: seq<byte>, offset: u32, size: u32,
                                blockSize: u32, entryPoint: u32) returns (r: Outcome<()>)
    modifies port
    ensures Performed(AndExecute(StreamUpload(region, stream, offset, size, blockSize), region, entryPoint),
                      old(port.script), old(port.calls), r, port.calls, port.script)
  {
    ghost var script0, calls0 := port.script, port.calls;
    var r1 := UploadStream(port, region, stream, offset, size, blockSize);
    ghost var script1, calls1 := port.script, port.calls;
    r := r1;
    if r1.Ok? {
      r := SendEnd(port, region, 0, entryPoint);
    }
    PerformedThen(StreamUpload(region, stream, offset, size, blockSize), Plan([End(region, 0, entryPoint)], None),
                  script0, calls0, r1, calls1, script1, r, port.calls, port.script);
  }

  /** Plain flash writes with a settable block size (1024 by default). */
  class FlashUploadTool {
    const port: LoaderPort
    var blockSize: u32

    constructor(port: LoaderPort)
      ensures this.port == port && blockSize == 1024
    {
      this.port := port;
      blockSize := 1024;
    }

    method Upload(stream: seq<byte>, offset: u32, size: u32) returns (r: Outcome<()>)
      modifies port
      ensures Performed(StreamUpload(Flash, stream, offset, size, blockSize), old(port.script), old(port.calls),
                        r, port.calls, port.script)
    {
      r := UploadStream(port, Flash, stream, offset, size, blockSize);
    }

    method UploadAndExecute(stream: seq<byte>, offset: u32, size: u32, entryPoint: u32) returns (r: Outcome<()>)
      modifies port
      ensures Performed(AndExecute(StreamUpload(Flash, stream, offset, size, blockSize), Flash, entryPoint),
                        old(port.script), old(port.calls), r, port.calls, port.script)
    {
      r := UploadStreamAndExecute(port, Flash, stream, offset, size, blockSize, entryPoint);
    }
  }

  /** RAM writes with a settable block size (1024 by default). */
  class UploadRamTool {
    const port: LoaderPort
    var blockSize: u32

    constructor(port: LoaderPort)
      ensures this.port == port && blockSize == 1024
    {
      this.port := port;
      blockSize := 1024;
    }

    method Upload(stream: seq<byte>, offset: u32, size: u32) returns (r: Outcome<()>)
      modifies port
      ensures Performed(StreamUpload(Mem, stream, offset, size, blockSize), old(port.script), old(port.calls),
                        r, port.calls, port.script)
    {
      r := UploadStream(port, Mem, stream, offset, size, blockSize);
    }

    method UploadAndExecute(stream: seq<byte>, offset: u32, size: u32, entryPoint: u32) returns (r: Outcome<()>)
      modifies port
      ensures Performed(AndExecute(StreamUpload(Mem, stream, offset, size, blockSize), Mem, entryPoint),
                        old(port.script), old(port.calls), r, port.calls, port.script)
    {
      r := UploadStreamAndExecute(port, Mem, stream, offset, size, blockSize, entryPoint);
    }
  }

  /** RAM writes whose block size is the device configuration's `FlashBlockSize`, cast to `uint`. */
  class RamUploadTool {
    const port: LoaderPort
    const flashBlockSize: int

    constructor(port: LoaderPort, flashBlockSize: int)
      ensures this.port == port && this.flashBlockSize == flashBlockSize
    {
      this.port := port;
      this.flashBlockSize := flashBlockSize;
    }

    method Upload(stream: seq<byte>, offset: u32, size: u32) returns (r: Outcome<()>)
      modifies port
      ensures Performed(StreamUpload(Mem, stream, offset, size, Wrap32(flashBlockSize)), old(port.script), old(port.calls),
                        r, port.calls, port.script)
    {
      r := UploadStream(port, Mem, stream, offset, size, Wrap32(flashBlockSize));
    }

    method UploadAndExecute(stream: seq<byte>, offset: u32, size: u32, entryPoint: u32) returns (r: Outcome<()>)
      modifies port
      ensures Performed(AndExecute(StreamUpload(Mem, stream, offset, size, Wrap32(flashBlockSize)), Mem, entryPoint),
                        old(port.script), old(port.calls), r, port.calls, port.script)
    {
      r := UploadStreamAndExecute(port, Mem, stream, offset, size, Wrap32(flashBlockSize), entryPoint);
    }
  }

  /**
   * `Upload` of the compressed-flash tool: the begin call announces the
   * uncompressed size given by the caller, while the block count and the
   * blocks come from the compressed stream, counted as `size / blockSize`
   * plus one for a remainder.
   */
  function DeflatedUpload(compressed: seq<byte>, offset: u32, uncompressedSize: u32, blockSize: u32): Plan
  {
    var size := Wrap32(|compressed|);
    if blockSize == 0 then Plan([], Some(DivideByZero))
    else SegmentPlan(FlashDefl, uncompressedSize, offset, compressed, size, blockSize, RemainderBlocks(size, blockSize))
  }

  /**
   * The compressed upload announces the uncompressed size but the number of
   * compressed blocks, and its data calls carry the whole compressed stream.
   */
  lemma DeflatedUploadShape(compressed: seq<byte>, offset: u32, uncompressedSize: u32, blockSize: u32)
    requires blockSize > 0 && |compressed| < U32
    ensures var plan := DeflatedUpload(compressed, offset, uncompressedSize, blockSize);
      plan.stop.None? &&
      plan.calls[0] == Begin(FlashDefl, uncompressedSize, CeilDiv(|compressed|, blockSize), blockSize, offset) &&
      |plan.calls| == 1 + CeilDiv(|compressed|, blockSize) &&
      Payload(plan.calls) == compressed
  {
    SegmentPlanShape(FlashDefl, uncompressedSize, offset, compressed, |compressed|, blockSize);
    assert compressed[..|compressed|] == compressed;
  }

  /** Compressed flash writes with a settable block size (1024 by default). */
  class UploadFlashDeflatedTool {
    const port: LoaderPort
    var blockSize: u32

    constructor(port: LoaderPort)
      ensures this.port == port && blockSize == 1024
    {
      this.port := port;
      blockSize := 1024;
    }

    /** `compress` is the zlib compression of the whole input stream. */
    method Upload(uncompressed: seq<byte>, offset: u32, uncompressedSize: u32, compress: seq<byte> -> seq<byte>)
      returns (r: Outcome<()>)
      modifies port
      ensures Performed(DeflatedUpload(compress(uncompressed), offset, uncompressedSize, blockSize),
                        old(port.script), old(port.calls), r, port.calls, port.script)
    {
      var compressed := compress(uncompressed);
      var size := Wrap32(|compressed|);
      if blockSize == 0 {
        PerformedRaise(DivideByZero, port.script, port.calls);
        return Fail(DivideByZero);
      }
      var blocks := size / blockSize;
      if size % blockSize != 0 {
        blocks := blocks + 1;
      }
      r := SendSegment(port, FlashDefl, uncompressedSize, offset, compressed, size, blockSize, blocks);
    }

    method UploadAndExecute(uncompressed: seq<byte>, offset: u32, uncompressedSize: u32, entryPoint: u32,
                            compress: seq<byte> -> seq<byte>) returns (r: Outcome<()>)
      modifies port
      ensures Performed(AndExecute(DeflatedUpload(compress(uncompressed), offset, uncompressedSize, blockSize), FlashDefl, entryPoint),
                        old(port.script), old(port.calls), r, port.calls, port.script)
    {
      ghost var script0, calls0 := port.script, port.calls;
      var r1 := Upload(uncompressed, offset, uncompressedSize, compress);
      ghost var script1, calls1 := port.script, port.calls;
      r := r1;
      if r1.Ok? {
        r := SendEnd(port, FlashDefl, 0, entryPoint);
      }
      PerformedThen(DeflatedUpload(compress(uncompressed), offset, uncompressedSize, blockSize),
                    Plan([End(FlashDefl, 0, entryPoint)], None), script0, calls0, r1, calls1, script1, r, port.calls, port.script);
    }
  }
}
