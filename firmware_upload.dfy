/**
 * The two multi-segment firmware uploaders (Tools/FirmwareUploadTool.cs and
 * its older twin Tools/FirmwareSender.cs): every segment gets a begin call
 * and its block loop, and one end call follows the last segment. The command
 * family is chosen by the upload method, and a method outside the three
 * known ones throws when the first begin (or, without segments, the end)
 * would be sent.
 */
module FirmwareUpload {
  import opened Common
  import opened LoaderCommands
  import opened Port
  import opened Chunking

  /** `FirmwareUploadOptions`, including values outside the declared three. */
  datatype UploadMethod = FlashMethod | FlashDeflated | Ram | Undefined(code: int)

  /** The command family for a method, or none for an undefined method. */
  function RegionOf(m: UploadMethod): Option<Region>
  {
    match m
    case FlashMethod => Some(Flash)
    case FlashDeflated => Some(FlashDefl)
    case Ram => Some(Mem)
    case Undefined(_) => None
  }

  datatype Segment = Segment(offset: u32, data: seq<byte>)

  /** The end flag: 1 when the image is to be run after sending, 0 otherwise. */
  function ExecuteFlag(execute: bool): u32
  {
    if execute then 1 else 0
  }

  /**
   * One segment whose stream holds `data`: the block count is
   * `(size + blockSize - 1) / blockSize` in `uint`, with `size` the stream's
   * length cast to `uint`.
   */
  function SegmentUpload(m: UploadMethod, blockSize: u32, segment: Segment): Plan
  {
    var size := Wrap32(|segment.data|);
    if blockSize == 0 then Plan([], Some(DivideByZero))
    else if RegionOf(m).None? then Plan([], Some(Failure))
    else SegmentPlan(RegionOf(m).value, size, segment.offset, segment.data, size, blockSize, UintCeilBlocks(size, blockSize))
  }

  /** All segments in order, stopping at the first exception. */
  function SegmentsUpload(m: UploadMethod, blockSize: u32, segments: seq<Segment>): Plan
  {
    if segments == [] then Nothing
    else Then(SegmentUpload(m, blockSize, segments[0]), SegmentsUpload(m, blockSize, segments[1..]))
  }

  /** The end call after the segments. */
  function EndUpload(m: UploadMethod, execute: bool, entryPoint: u32): Plan
  {
    if RegionOf(m).None? then Plan([], Some(Failure))
    else Plan([End(RegionOf(m).value, ExecuteFlag(execute), entryPoint)], None)
  }

  /** `UploadFirmwareAsync` on already prepared segment streams. */
  function FirmwareUpload(m: UploadMethod, blockSize: u32, execute: bool, entryPoint: u32, segments: seq<Segment>): Plan
  {
    Then(SegmentsUpload(m, blockSize, segments), EndUpload(m, execute, entryPoint))
  }

  /** The segment streams as the newer tool uploads them: compressed in FlashDeflated mode. */
  function Prepared(m: UploadMethod, compress: seq<byte> -> seq<byte>, segments: seq<Segment>): (r: seq<Segment>)
    ensures |r| == |segments|
    ensures forall i :: 0 <= i < |r| ==>
      r[i].offset == segments[i].offset &&
      r[i].data == (if m == FlashDeflated then compress(segments[i].data) else segments[i].data)
  {
    seq(|segments|, i requires 0 <= i < |segments| =>
      Segment(segments[i].offset, if m == FlashDeflated then compress(segments[i].data) else segments[i].data))
  }

  /** The segment streams concatenated. */
  function AllData(segments: seq<Segment>): seq<byte>
  {
    if segments == [] then [] else segments[0].data + AllData(segments[1..])
  }

  /** Segments whose block counts do not wrap around. */
  predicate Fits(blockSize: u32, segments: seq<Segment>)
  {
    forall i :: 0 <= i < |segments| ==> |segments[i].data| + blockSize - 1 < U32
  }

  function Begins(calls: seq<Call>): nat
  {
    if calls == [] then 0 else (if calls[0].Begin? then 1 else 0) + Begins(calls[1..])
  }

  lemma {:induction false} BeginsAppend(a: seq<Call>, b: seq<Call>)
    ensures Begins(a + b) == Begins(a) + Begins(b)
  {
    if a == [] {
      assert a + b == b;
    } else {
      assert (a + b)[1..] == a[1..] + b;
      BeginsAppend(a[1..], b);
    }
  }

  /**
   * With a known method, a non-zero block size and no wrap-around, the
   * segments upload raises nothing, sends one begin call per segment, no end
   * call, and its data calls carry every segment's stream in order.
   */
  lemma {:induction false} SegmentsUploadShape(m: UploadMethod, blockSize: u32, segments: seq<Segment>)
    requires RegionOf(m).Some? && blockSize > 0 && Fits(blockSize, segments)
    ensures var plan := SegmentsUpload(m, blockSize, segments);
      plan.stop.None? && Begins(plan.calls) == |segments| &&
      (forall k :: 0 <= k < |plan.calls| ==> !plan.calls[k].End?) &&
      Payload(plan.calls) == AllData(segments)
  {
    if segments != [] {
      assert Fits(blockSize, segments[1..]) by {
        forall i | 0 <= i < |segments[1..]| ensures |segments[1..][i].data| + blockSize - 1 < U32 {
          assert segments[1..][i] == segments[i + 1];
        }
      }
      SegmentsUploadShape(m, blockSize, segments[1..]);
      SegmentUploadShape(m, blockSize, segments[0]);
      var first := SegmentUpload(m, blockSize, segments[0]).calls;
      var rest := SegmentsUpload(m, blockSize, segments[1..]).calls;
      BeginsAppend(first, rest);
      PayloadAppend(first, rest);
      var calls := first + rest;
      forall k | 0 <= k < |calls| ensures !calls[k].End? {
        if k >= |first| {
          assert calls[k] == rest[k - |first|];
        }
      }
    }
  }

  /** One segment under the same conditions: no exception, one begin, no end call, the segment's stream as payload. */
  lemma SegmentUploadShape(m: UploadMethod, blockSize: u32, segment: Segment)
    requires RegionOf(m).Some? && blockSize > 0 && |segment.data| + blockSize - 1 < U32
    ensures var plan := SegmentUpload(m, blockSize, segment);
      plan.stop.None? && Begins(plan.calls) == 1 &&
      (forall k :: 0 <= k < |plan.calls| ==> !plan.calls[k].End?) &&
      Payload(plan.calls) == segment.data
  {
    var size := |segment.data|;
    UintCeilBlocksIsCeil(size, blockSize);
    SegmentPlanShape(RegionOf(m).value, size, segment.offset, segment.data, size, blockSize);
    assert segment.data[..size] == segment.data;
    var first := SegmentUpload(m, blockSize, segment).calls;
    assert first == [first[0]] + first[1..];
    BeginsAppend([first[0]], first[1..]);
    assert [first[0]][1..] == [];
    BeginsOfData(first[1..]);
  }

  lemma {:induction false} BeginsOfData(calls: seq<Call>)
    requires forall k :: 0 <= k < |calls| ==> calls[k].Data?
    ensures Begins(calls) == 0
  {
    if calls != [] {
      BeginsOfData(calls[1..]);
    }
  }

  /**
   * The whole upload, under the same conditions: one begin per segment,
   * the data of every segment in order, and a single end call, last, that
   * carries the execute flag and the entry point.
   */
  lemma FirmwareUploadShape(m: UploadMethod, blockSize: u32, execute: bool, entryPoint: u32, segments: seq<Segment>)
    requires RegionOf(m).Some? && blockSize > 0 && Fits(blockSize, segments)
    ensures var plan := FirmwareUpload(m, blockSize, execute, entryPoint, segments);
      var end := End(RegionOf(m).value, ExecuteFlag(execute), entryPoint);
      plan.stop.None? && |plan.calls| > 0 && plan.calls[|plan.calls| - 1] == end &&
      (forall k :: 0 <= k < |plan.calls| - 1 ==> !plan.calls[k].End?) &&
      Begins(plan.calls) == |segments| && Payload(plan.calls) == AllData(segments)
  {
    SegmentsUploadShape(m, blockSize, segments);
    var body := SegmentsUpload(m, blockSize, segments).calls;
    var end := End(RegionOf(m).value, ExecuteFlag(execute), entryPoint);
    var calls := body + [end];
    forall k | 0 <= k < |calls| - 1 ensures !calls[k].End? {
      assert calls[k] == body[k];
    }
    BeginsAppend(body, [end]);
    PayloadAppend(body, [end]);
    assert [end][1..] == [];
  }

  /** An undefined method sends nothing: it fails on its first segment, or at the end when there are none. */
  lemma UndefinedMethodSendsNothing(code: int, blockSize: u32, execute: bool, entryPoint: u32, segments: seq<Segment>)
    ensures var plan := FirmwareUpload(Undefined(code), blockSize, execute, entryPoint, segments);
      plan.calls == [] &&
      plan.stop == Some(if segments != [] && blockSize == 0 then DivideByZero else Failure)
  {
  }

  /** In FlashDeflated mode the newer tool's data calls carry the compressed streams, and its begins announce their lengths. */
  lemma DeflatedUploadCarriesCompressed(blockSize: u32, execute: bool, entryPoint: u32, segments: seq<Segment>,
                                        compress: seq<byte> -> seq<byte>)
    requires blockSize > 0 && Fits(blockSize, Prepared(FlashDeflated, compress, segments))
    ensures var prepared := Prepared(FlashDeflated, compress, segments);
      var plan := FirmwareUpload(FlashDeflated, blockSize, execute, entryPoint, prepared);
      plan.stop.None? && Payload(plan.calls) == AllData(prepared) &&
      (segments != [] ==> plan.calls[0] == Begin(FlashDefl, |compress(segments[0].data)|,
                                                 CeilDiv(|compress(segments[0].data)|, blockSize), blockSize, segments[0].offset))
  {
    var prepared := Prepared(FlashDeflated, compress, segments);
    FirmwareUploadShape(FlashDeflated, blockSize, execute, entryPoint, prepared);
    if segments != [] {
      var seg := prepared[0];
      UintCeilBlocksIsCeil(|seg.data|, blockSize);
      SegmentPlanShape(FlashDefl, |seg.data|, seg.offset, seg.data, |seg.data|, blockSize);
    }
  }

  /**
   * One turn of the segment loop: after the steps done so far succeeded, the
   * next segment either succeeds, extending what is done, or fails, which
   * decides the whole upload.
   */
  lemma SegmentLoopStep(done: Plan, next: Plan, rest: Plan, whole: Plan, end: Plan,
                        script0: seq<Reply>, calls0: seq<Call>, script1: seq<Reply>, calls1: seq<Call>,
                        step: Outcome<()>, script2: seq<Reply>, calls2: seq<Call>)
    requires done.stop.None? && Then(done, Then(next, rest)) == whole
    requires Performed(done, script0, calls0, Ok(()), calls1, script1)
    requires Performed(next, script1, calls1, step, calls2, script2)
    ensures step.Ok? ==>
      Then(done, next).stop.None? && Then(Then(done, next), rest) == whole &&
      Performed(Then(done, next), script0, calls0, Ok(()), calls2, script2)
    ensures step.Fail? ==> Performed(Then(whole, end), script0, calls0, step, calls2, script2)
  {
    ThenAssoc(done, next, rest);
    PerformedThen(done, next, script0, calls0, Ok(()), calls1, script1, step, calls2, script2);
    if step.Ok? {
      var u: () := step.value;
      assert u == ();
      assert step == Ok(());
    } else {
      PerformedThen(Then(done, next), rest, script0, calls0, step, calls2, script2, step, calls2, script2);
      PerformedThen(whole, end, script0, calls0, step, calls2, script2, step, calls2, script2);
    }
  }

  /** `UploadFirmwareAsync`'s loops over the prepared segment streams. */
  method SendFirmware(port: LoaderPort, m: UploadMethod, blockSize: u32, execute: bool, entryPoint: u32, segments: seq<Segment>)
    returns (r: Outcome<()>)
    modifies port
    ensures Performed(FirmwareUpload(m, blockSize, execute, entryPoint, segments), old(port.script), old(port.calls),
                      r, port.calls, port.script)
  {
    ghost var script0, calls0 := port.script, port.calls;
    ghost var whole := SegmentsUpload(m, blockSize, segments);
    ghost var end := EndUpload(m, execute, entryPoint);
    ghost var done := Nothing;
    PerformedNothing(script0, calls0);
    assert Then(done, whole) == whole by {
      assert [] + whole.calls == whole.calls;
    }
    var k := 0;
    while k < |segments|
      invariant k <= |segments|
      invariant done.stop.None?
      invariant Then(done, SegmentsUpload(m, blockSize, segments[k..])) == whole
      invariant Performed(done, script0, calls0, Ok(()), port.calls, port.script)
    {
      assert segments[k..][1..] == segments[k + 1..];
      ghost var script1, calls1 := port.script, port.calls;
      var step := SendSegmentOf(port, m, blockSize, segments[k]);
      SegmentLoopStep(done, SegmentUpload(m, blockSize, segments[k]), SegmentsUpload(m, blockSize, segments[k + 1..]),
                      whole, end, script0, calls0, script1, calls1, step, port.script, port.calls);
      if step.Fail? {
        return step;
      }
      done := Then(done, SegmentUpload(m, blockSize, segments[k]));
      k := k + 1;
    }
    assert segments[k..] == [];
    assert done == whole by {
      assert done.calls + [] == done.calls;
    }
    ghost var script1, calls1 := port.script, port.calls;
    r := SendEndOf(port, m, execute, entryPoint);
    PerformedThen(whole, end, script0, calls0, Ok(()), calls1, script1, r, port.calls, port.script);
  }

  /** One segment: compute the block count, then begin and the block loop through the method's family. */
  method SendSegmentOf(port: LoaderPort, m: UploadMethod, blockSize: u32, segment: Segment) returns (r: Outcome<()>)
    modifies port
    ensures Performed(SegmentUpload(m, blockSize, segment), old(port.script), old(port.calls), r, port.calls, port.script)
  {
    var size := Wrap32(|segment.data|);
    if blockSize == 0 {
      PerformedRaise(DivideByZero, port.script, port.calls);
      return Fail(DivideByZero);
    }
    var blocks := UintCeilBlocks(size, blockSize);
    var region := RegionOf(m);
    if region.None? {
      PerformedRaise(Failure, port.script, port.calls);
      return Fail(Failure);
    }
    ghost var plan := SegmentPlan(region.value, size, segment.offset, segment.data, size, blockSize, blocks);
    assert SegmentUpload(m, blockSize, segment) == plan;
    r := SendSegment(port, region.value, size, segment.offset, segment.data, size, blockSize, blocks);
  }

  /** The end call through the method's family. */
  method SendEndOf(port: LoaderPort, m: UploadMethod, execute: bool, entryPoint: u32) returns (r: Outcome<()>)
    modifies port
    ensures Performed(EndUpload(m, execute, entryPoint), old(port.script), old(port.calls), r, port.calls, port.script)
  {
    var region := RegionOf(m);
    if region.None? {
      PerformedRaise(Failure, port.script, port.calls);
      return Fail(Failure);
    }
    var end := End(region.value, ExecuteFlag(execute), entryPoint);
    DropStep(port.script, 0);
    RunOne(end, port.script);
    var reply := port.Invoke(end);
    r := if reply.Raised? then Fail(reply.fault) else Ok(());
  }

  /** The newer tool: block size 1024 and no execution by default; FlashDeflated compresses each segment first. */
  class FirmwareUploadTool {
    const port: LoaderPort
    var blockSize: u32
    var uploadMethod: UploadMethod
    var executeAfterSending: bool

    constructor(port: LoaderPort, uploadMethod: UploadMethod)
      ensures this.port == port && blockSize == 1024 && this.uploadMethod == uploadMethod && !executeAfterSending
    {
      this.port := port;
      blockSize := 1024;
      this.uploadMethod := uploadMethod;
      executeAfterSending := false;
    }

    method UploadFirmware(segments: seq<Segment>, entryPoint: u32, compress: seq<byte> -> seq<byte>) returns (r: Outcome<()>)
      modifies port
      ensures Performed(FirmwareUpload(uploadMethod, blockSize, executeAfterSending, entryPoint,
                                       Prepared(uploadMethod, compress, segments)),
                        old(port.script), old(port.calls), r, port.calls, port.script)
    {
      var prepared := Prepared(uploadMethod, compress, segments);
      r := SendFirmware(port, uploadMethod, blockSize, executeAfterSending, entryPoint, prepared);
    }
  }

  /** The older tool: an `int` block size cast to `uint`, and segments sent as they are in every mode. */
  class FirmwareSender {
    const port: LoaderPort
    var blockSize: int
    var uploadMethod: UploadMethod
    var executeAfterSending: bool

    constructor(port: LoaderPort, uploadMethod: UploadMethod)
      ensures this.port == port && blockSize == 1024 && this.uploadMethod == uploadMethod && !executeAfterSending
    {
      this.port := port;
      blockSize := 1024;
      this.uploadMethod := uploadMethod;
      executeAfterSending := false;
    }

    method UploadFirmware(segments: seq<Segment>, entryPoint: u32) returns (r: Outcome<()>)
      modifies port
      ensures Performed(FirmwareUpload(uploadMethod, Wrap32(blockSize), executeAfterSending, entryPoint, segments),
                        old(port.script), old(port.calls), r, port.calls, port.script)
    {
      r := SendFirmware(port, uploadMethod, Wrap32(blockSize), executeAfterSending, entryPoint, segments);
    }
  }
}
