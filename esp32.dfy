/**
 * The ESP32 device (Devices/ESP32.cs): uploads a firmware image to RAM or to
 * flash segment by segment in fixed-size blocks, checks each flashed
 * segment against the MD5 digest the chip computes, starts the stub loader
 * and erases the flash. Every step runs only while the result so far is a
 * success; the first unsuccessful answer becomes the result and the rest is
 * skipped, while an exception ends the operation at once.
 */
module Esp32Device {
  import opened Common
  import opened Errors
  import opened LoaderCommands
  import opened Port
  import opened Link
  import Ohai
  import opened Chunking
  import opened Devices
  import FirmwareUpload

  /** The block size of a RAM upload. */
  const ESP_RAM_BLOCK: u32 := 0x1800
  /** The block size of a flash upload. */
  const FLASH_WRITE_SIZE: u32 := 0x400
  type Segment = FirmwareUpload.Segment

  datatype FirmwareImage = FirmwareImage(segments: seq<Segment>, entryPoint: u32)

  /** Every segment's length fits a `uint`, as a .NET array's always does. */
  predicate Addressable(segments: seq<Segment>)
  {
    forall k :: 0 <= k < |segments| ==> |segments[k].data| < U32
  }

  /** A segment's size as the device computes it: its length cast to `uint`. */
  function SizeOf(segment: Segment): u32
  {
    Wrap32(|segment.data|)
  }

  /** The end call's flag: 0 runs the image, 1 does not. */
  function EndFlag(execute: bool): u32
  {
    if execute then 0 else 1
  }

  /** A loader call, and the digest its answer must carry when the host compares one. */
  datatype Step = Step(call: Call, digest: Option<seq<byte>>)

  function Plain(calls: seq<Call>): (r: seq<Step>)
    ensures |r| == |calls| && forall k :: 0 <= k < |calls| ==> r[k] == Step(calls[k], None)
  {
    seq(|calls|, k requires 0 <= k < |calls| => Step(calls[k], None))
  }

  function CallsOf(steps: seq<Step>): (r: seq<Call>)
    ensures |r| == |steps| && forall k :: 0 <= k < |steps| ==> r[k] == steps[k].call
  {
    seq(|steps|, k requires 0 <= k < |steps| => steps[k].call)
  }

  /** A reply that lets the upload go on after the given step. */
  predicate Passes(step: Step, reply: Reply)
  {
    reply.Answer? && reply.success && (step.digest.Some? ==> reply.data == step.digest.value)
  }

  /**
   * The result a call leaves: the answer's own result, except that a
   * successful answer to a digest request is OK when the digest matches and
   * MD5Mismatch when it does not; an exception ends the operation.
   */
  function StepResult(step: Step, reply: Reply): (r: Outcome<Result>)
    ensures r.Ok? && r.value.success <==> Passes(step, reply)
  {
    match reply
    case Raised(f) => Fail(f)
    case Answer(success, error, _, data) =>
      if !success then Ok(Result(false, error))
      else if step.digest.None? then Ok(Result(true, error))
      else if data == step.digest.value then Ok(OK)
      else Ok(Result(false, MD5Mismatch))
  }

  /** The result goes on being a success. */
  predicate Succeeded(r: Outcome<Result>)
  {
    r.Ok? && r.value.success
  }

  /**
   * Making the calls of `steps` while the result, `last` at first, is a
   * success, the `j`-th call receiving `ReplyAt(script, j)`: the final
   * result and the number of calls made.
   */
  function Check(steps: seq<Step>, script: seq<Reply>, last: Result): (r: (Outcome<Result>, nat))
    ensures r.1 <= |steps|
    ensures Succeeded(r.0) ==> r.1 == |steps|
  {
    if steps == [] || !last.success then (Ok(last), 0)
    else
      var o := StepResult(steps[0], Head(script));
      if !Succeeded(o) then (o, 1)
      else
        var rest := Check(steps[1..], Tail(script), o.value);
        (rest.0, 1 + rest.1)
  }

  lemma TailIsDrop(script: seq<Reply>, m: nat)
    ensures Drop(Tail(script), m) == Drop(script, m + 1)
    ensures ReplyAt(Tail(script), m) == ReplyAt(script, m + 1)
  {
    assert Drop(script, 0) == script;
    DropStep(script, 0);
    DropDrop(script, 1, m);
  }

  /** An upload goes on exactly while its replies pass, and succeeds exactly when they all do. */
  lemma {:induction false} CheckSucceedsIff(steps: seq<Step>, script: seq<Reply>, last: Result)
    requires last.success
    ensures var r := Check(steps, script, last).0;
      r.Ok? && r.value.success <==> forall j :: 0 <= j < |steps| ==> Passes(steps[j], ReplyAt(script, j))
  {
    if steps != [] {
      var reply := Head(script);
      assert reply == ReplyAt(script, 0);
      if Passes(steps[0], reply) {
        CheckSucceedsIff(steps[1..], Tail(script), StepResult(steps[0], reply).value);
        forall j | 0 <= j < |steps| - 1
          ensures ReplyAt(Tail(script), j) == ReplyAt(script, j + 1)
        {
          TailIsDrop(script, j);
        }
        if forall j :: 0 <= j < |steps[1..]| ==> Passes(steps[1..][j], ReplyAt(Tail(script), j)) {
          forall j | 0 <= j < |steps|
            ensures Passes(steps[j], ReplyAt(script, j))
          {
            if j > 0 {
              assert steps[1..][j - 1] == steps[j];
            }
          }
        } else {
          var j :| 0 <= j < |steps[1..]| && !Passes(steps[1..][j], ReplyAt(Tail(script), j));
          assert !Passes(steps[j + 1], ReplyAt(script, j + 1));
        }
      }
    }
  }

  /**
   * The first reply that does not pass ends the upload: the calls made
   * stop with it, and its refusal is the result.
   */
  lemma {:induction false} CheckStopsAtFirstRefusal(steps: seq<Step>, script: seq<Reply>, last: Result, j: nat)
    requires last.success && j < |steps|
    requires forall i :: 0 <= i < j ==> Passes(steps[i], ReplyAt(script, i))
    requires !Passes(steps[j], ReplyAt(script, j))
    ensures Check(steps, script, last) == (StepResult(steps[j], ReplyAt(script, j)), j + 1)
  {
    var reply := Head(script);
    assert reply == ReplyAt(script, 0);
    if j > 0 {
      assert Passes(steps[0], reply);
      var next := StepResult(steps[0], reply).value;
      forall i | 0 <= i < j - 1
        ensures Passes(steps[1..][i], ReplyAt(Tail(script), i))
      {
        TailIsDrop(script, i);
        assert Passes(steps[i + 1], ReplyAt(script, i + 1));
      }
      TailIsDrop(script, j - 1);
      CheckStopsAtFirstRefusal(steps[1..], Tail(script), next, j - 1);
    }
  }

  /** Running `a + b` is running `a` and, when its result is a success, `b` after it. */
  lemma {:induction false} CheckAppend(a: seq<Step>, b: seq<Step>, script: seq<Reply>, last: Result)
    ensures var pa := Check(a, script, last);
      Check(a + b, script, last) ==
        if Succeeded(pa.0) then
          var pb := Check(b, Drop(script, pa.1), pa.0.value);
          (pb.0, pa.1 + pb.1)
        else pa
    decreases |a|, 1
  {
    if a == [] {
      assert a + b == b;
      assert Drop(script, 0) == script;
    } else if last.success {
      assert (a + b)[0] == a[0];
      if Succeeded(StepResult(a[0], Head(script))) {
        CheckAppendPassed(a, b, script, last);
      }
    }
  }

  /** `CheckAppend` when the first step of `a` passes. */
  lemma {:induction false} CheckAppendPassed(a: seq<Step>, b: seq<Step>, script: seq<Reply>, last: Result)
    requires a != [] && last.success && Succeeded(StepResult(a[0], Head(script)))
    ensures var pa := Check(a, script, last);
      Check(a + b, script, last) ==
        if Succeeded(pa.0) then
          var pb := Check(b, Drop(script, pa.1), pa.0.value);
          (pb.0, pa.1 + pb.1)
        else pa
    decreases |a|, 0
  {
    var o := StepResult(a[0], Head(script));
    var rest := Check(a[1..], Tail(script), o.value);
    var joined := Check(a[1..] + b, Tail(script), o.value);
    assert Check(a, script, last) == (rest.0, 1 + rest.1);
    assert Check(a + b, script, last) == (joined.0, 1 + joined.1) by {
      assert (a + b)[0] == a[0];
      assert (a + b)[1..] == a[1..] + b;
    }
    CheckAppend(a[1..], b, Tail(script), o.value);
    if Succeeded(rest.0) {
      TailIsDrop(script, rest.1);
    }
  }

  /** A run of `steps` as far as `Check` goes, from the port's state before it to its state after it. */
  ghost predicate Checked(steps: seq<Step>, script0: seq<Reply>, calls0: seq<Call>, last: Result,
                          r: Outcome<Result>, calls: seq<Call>, script: seq<Reply>)
  {
    var p := Check(steps, script0, last);
    r == p.0 && calls == calls0 + CallsOf(steps)[..p.1] && script == Drop(script0, p.1)
  }

  lemma CheckedThen(a: seq<Step>, b: seq<Step>, script0: seq<Reply>, calls0: seq<Call>, last: Result,
                    r1: Outcome<Result>, calls1: seq<Call>, script1: seq<Reply>,
                    r2: Outcome<Result>, calls2: seq<Call>, script2: seq<Reply>)
    requires Checked(a, script0, calls0, last, r1, calls1, script1)
    requires r1.Ok? ==> Checked(b, script1, calls1, r1.value, r2, calls2, script2)
    ensures r1.Ok? ==> Checked(a + b, script0, calls0, last, r2, calls2, script2)
    ensures r1.Fail? ==> Checked(a + b, script0, calls0, last, r1, calls1, script1)
  {
    if r1.Ok? && r1.value.success {
      CheckedGoesOn(a, b, script0, calls0, last, r1, calls1, script1, r2, calls2, script2);
    } else {
      CheckedStops(a, b, script0, calls0, last, r1, calls1, script1);
      if r1.Ok? {
        assert Check(b, script1, r1.value) == (Ok(r1.value), 0);
        assert calls2 == calls1 + CallsOf(b)[..0] == calls1;
        assert script2 == Drop(script1, 0) == script1;
      }
    }
  }

  lemma CheckedGoesOn(a: seq<Step>, b: seq<Step>, script0: seq<Reply>, calls0: seq<Call>, last: Result,
                      r1: Outcome<Result>, calls1: seq<Call>, script1: seq<Reply>,
                      r2: Outcome<Result>, calls2: seq<Call>, script2: seq<Reply>)
    requires Checked(a, script0, calls0, last, r1, calls1, script1) && r1.Ok? && r1.value.success
    requires Checked(b, script1, calls1, r1.value, r2, calls2, script2)
    ensures Checked(a + b, script0, calls0, last, r2, calls2, script2)
  {
    var pa := Check(a, script0, last);
    var pb := Check(b, script1, r1.value);
    CheckAppend(a, b, script0, last);
    CallsOfAppend(a, b);
    JoinCalls(calls0, CallsOf(a), CallsOf(b), pa.1, pb.1, calls1, calls2);
    DropDrop(script0, pa.1, pb.1);
  }

  /** The calls made of `ca` then of `cb`, when the second run only starts after the first ran through. */
  lemma JoinCalls(calls0: seq<Call>, ca: seq<Call>, cb: seq<Call>, n: nat, m: nat, calls1: seq<Call>, calls2: seq<Call>)
    requires n <= |ca| && m <= |cb| && (m > 0 ==> n == |ca|)
    requires calls1 == calls0 + ca[..n] && calls2 == calls1 + cb[..m]
    ensures calls2 == calls0 + (ca + cb)[..n + m]
  {
    assert (ca + cb)[..n + m] == ca[..n] + cb[..m];
  }

  lemma CheckedStops(a: seq<Step>, b: seq<Step>, script0: seq<Reply>, calls0: seq<Call>, last: Result,
                     r1: Outcome<Result>, calls1: seq<Call>, script1: seq<Reply>)
    requires Checked(a, script0, calls0, last, r1, calls1, script1) && !(r1.Ok? && r1.value.success)
    ensures Checked(a + b, script0, calls0, last, r1, calls1, script1)
  {
    CheckAppend(a, b, script0, last);
    var pa := Check(a, script0, last);
    CallsOfPrefix(a, b, pa.1, 0);
    assert CallsOf(a)[..pa.1] + CallsOf(b)[..0] == CallsOf(a)[..pa.1];
  }

  /** Running one more step extends a run of a prefix of `steps`. */
  lemma CheckedPrefix(steps: seq<Step>, n: nat, script0: seq<Reply>, calls0: seq<Call>, last: Result,
                      r1: Outcome<Result>, calls1: seq<Call>, script1: seq<Reply>,
                      r2: Outcome<Result>, calls2: seq<Call>, script2: seq<Reply>)
    requires n < |steps| && Checked(steps[..n], script0, calls0, last, r1, calls1, script1) && r1.Ok? && r1.value.success
    requires Checked([steps[n]], script1, calls1, r1.value, r2, calls2, script2)
    ensures Checked(steps[..n + 1], script0, calls0, last, r2, calls2, script2)
  {
    CheckedGoesOn(steps[..n], [steps[n]], script0, calls0, last, r1, calls1, script1, r2, calls2, script2);
    assert steps[..n] + [steps[n]] == steps[..n + 1];
  }

  /** A run of a prefix that stopped, or that covers all of `steps`, is the run of `steps`. */
  lemma CheckedWhole(steps: seq<Step>, n: nat, script0: seq<Reply>, calls0: seq<Call>, last: Result,
                     r: Outcome<Result>, calls: seq<Call>, script: seq<Reply>)
    requires n <= |steps| && Checked(steps[..n], script0, calls0, last, r, calls, script)
    requires r.Ok? && r.value.success ==> n == |steps|
    ensures Checked(steps, script0, calls0, last, r, calls, script)
  {
    assert steps[..n] + steps[n..] == steps;
    if r.Ok? && r.value.success {
      assert steps[..n] == steps;
    } else {
      CheckedStops(steps[..n], steps[n..], script0, calls0, last, r, calls, script);
    }
  }

  lemma CallsOfPrefix(a: seq<Step>, b: seq<Step>, n: nat, m: nat)
    requires n <= |a| && m <= |b| && (m > 0 ==> n == |a|)
    ensures CallsOf(a + b)[..n + m] == CallsOf(a)[..n] + CallsOf(b)[..m]
  {
    var ab := CallsOf(a + b);
    assert ab == CallsOf(a) + CallsOf(b);
  }

  /** Each of the blocks lies inside the data, and its `uint` length arithmetic does not wrap. */
  lemma BlockWithin(size: u32, blockSize: u32, i: nat)
    requires blockSize > 0 && i < RemainderBlocks(size, blockSize)
    ensures i * blockSize < size && i * blockSize + BlockLen(size, blockSize, i) <= size
    ensures BlockLen(size, blockSize, i) == Min(blockSize, size - i * blockSize)
  {
    BlockStart(size, blockSize, RemainderBlocks(size, blockSize), i);
    var start := i * blockSize;
    assert Wrap32(start) == start;
    assert Wrap32(size - start) == size - start;
  }

  /** Block `i` of a segment is the step the loop makes from `i`: its start and length in `uint` do not wrap. */
  lemma SegmentBlock(region: Region, blockSize: u32, segment: Segment, i: nat)
    requires blockSize > 0 && i < RemainderBlocks(SizeOf(segment), blockSize)
    ensures var size := SizeOf(segment);
      var start := i * blockSize;
      start < size && start + Min(blockSize, size - start) <= size &&
      Plain(SegmentCalls(region, blockSize, segment))[1 + i] ==
        Step(Data(region, segment.data[start .. start + Min(blockSize, size - start)], i), None)
  {
    BlockWithin(SizeOf(segment), blockSize, i);
    BlockCallAt(region, segment.data, blockSize, i);
  }

  /** Step `1 + i` of `steps` is the data call carrying block `i` of the segment, which lies inside its data. */
  ghost predicate BlockAt(steps: seq<Step>, region: Region, blockSize: u32, segment: Segment, i: nat)
  {
    var size, start := SizeOf(segment), i * blockSize;
    var len := Min(blockSize, size - start);
    i < U32 && 1 + i < |steps| && start < size && start + len <= size <= |segment.data| &&
    steps[1 + i] == Step(Data(region, segment.data[start .. start + len], i), None)
  }

  /** Block `i` of `data`: the bytes from `i * blockSize` on, at most a block of them. */
  function Block(region: Region, data: seq<byte>, blockSize: u32, i: nat): Call
    requires blockSize > 0 && i < RemainderBlocks(Wrap32(|data|), blockSize)
  {
    BlockWithin(Wrap32(|data|), blockSize, i);
    var start := i * blockSize;
    Data(region, data[start .. start + BlockLen(Wrap32(|data|), blockSize, i)], i)
  }

  /** The data calls of one segment, each block cut out of the segment's data by its index. */
  function BlockCalls(region: Region, data: seq<byte>, blockSize: u32): (r: seq<Call>)
    requires blockSize > 0
    ensures |r| == RemainderBlocks(Wrap32(|data|), blockSize)
  {
    var blocks := RemainderBlocks(Wrap32(|data|), blockSize);
    seq(blocks, i requires 0 <= i < blocks => Block(region, data, blockSize, i))
  }

  lemma {:induction false} BlocksFrom(region: Region, data: seq<byte>, blockSize: u32, i: nat, stream: seq<byte>)
    requires blockSize > 0 && |data| < U32 && i <= RemainderBlocks(|data|, blockSize)
    requires i < RemainderBlocks(|data|, blockSize) ==> i * blockSize <= |data| && stream == data[i * blockSize..]
    ensures DataCalls(region, stream, |data|, blockSize, RemainderBlocks(|data|, blockSize), i) ==
      BlockCalls(region, data, blockSize)[i..]
    decreases RemainderBlocks(|data|, blockSize) - i, 1
  {
    if i < RemainderBlocks(|data|, blockSize) {
      BlocksFromNext(region, data, blockSize, i, stream);
    }
  }

  lemma {:induction false} BlocksFromNext(region: Region, data: seq<byte>, blockSize: u32, i: nat, stream: seq<byte>)
    requires blockSize > 0 && |data| < U32 && i < RemainderBlocks(|data|, blockSize)
    requires i * blockSize <= |data| && stream == data[i * blockSize..]
    ensures DataCalls(region, stream, |data|, blockSize, RemainderBlocks(|data|, blockSize), i) ==
      BlockCalls(region, data, blockSize)[i..]
    decreases RemainderBlocks(|data|, blockSize) - i, 0
  {
    var blocks := RemainderBlocks(|data|, blockSize);
    var all := BlockCalls(region, data, blockSize);
    var len := BlockLen(|data|, blockSize, i);
    assert len <= |stream| by {
      BlocksFromStep(region, data, blockSize, i, stream);
    }
    var next := stream[len..];
    var first := DataCalls(region, stream, |data|, blockSize, blocks, i);
    var rest := DataCalls(region, next, |data|, blockSize, blocks, i + 1);
    assert first == [all[i]] + rest && rest == all[i + 1..] by {
      BlocksFromStep(region, data, blockSize, i, stream);
      BlocksFrom(region, data, blockSize, i + 1, next);
    }
    ConsSlice(all, i, rest, first);
  }

  lemma ConsSlice<T>(all: seq<T>, i: nat, rest: seq<T>, whole: seq<T>)
    requires i < |all| && rest == all[i + 1..] && whole == [all[i]] + rest
    ensures whole == all[i..]
  {
  }

  /** One turn of the stream loop sends block `i` and leaves the data from block `i + 1` on. */
  lemma BlocksFromStep(region: Region, data: seq<byte>, blockSize: u32, i: nat, stream: seq<byte>)
    requires blockSize > 0 && |data| < U32 && i < RemainderBlocks(|data|, blockSize)
    requires i * blockSize <= |data| && stream == data[i * blockSize..]
    ensures var blocks := RemainderBlocks(|data|, blockSize);
      var len := BlockLen(|data|, blockSize, i);
      len <= |stream| &&
      DataCalls(region, stream, |data|, blockSize, blocks, i) ==
        [BlockCalls(region, data, blockSize)[i]] + DataCalls(region, stream[len..], |data|, blockSize, blocks, i + 1) &&
      (i + 1 < blocks ==> (i + 1) * blockSize <= |data| && stream[len..] == data[(i + 1) * blockSize..])
  {
    var size := |data|;
    var len := BlockLen(size, blockSize, i);
    var start := i * blockSize;
    BlockCallAt(region, data, blockSize, i);
    assert stream[..len] == data[start .. start + len];
    if i + 1 < RemainderBlocks(size, blockSize) {
      NextBlockStart(size, blockSize, i);
      assert stream[len..] == data[start + len..];
    }
  }

  lemma BlockCallAt(region: Region, data: seq<byte>, blockSize: u32, i: nat)
    requires blockSize > 0 && i < RemainderBlocks(Wrap32(|data|), blockSize)
    ensures i * blockSize + BlockLen(Wrap32(|data|), blockSize, i) <= |data|
    ensures BlockCalls(region, data, blockSize)[i] ==
      Data(region, data[i * blockSize .. i * blockSize + BlockLen(Wrap32(|data|), blockSize, i)], i)
  {
    BlockWithin(Wrap32(|data|), blockSize, i);
  }

  /** A block followed by another is a full block, so the next one starts right after it. */
  lemma NextBlockStart(size: u32, blockSize: u32, i: nat)
    requires blockSize > 0 && i + 1 < RemainderBlocks(size, blockSize)
    ensures i * blockSize + BlockLen(size, blockSize, i) == (i + 1) * blockSize
  {
    BlockWithin(size, blockSize, i);
    BlockWithin(size, blockSize, i + 1);
    BlockStart(size, blockSize, RemainderBlocks(size, blockSize), i);
  }

  /**
   * Cutting blocks by index sends what reading the data as a stream block
   * by block sends: a block count of calls, numbered from 0, that together
   * carry the segment's data.
   */
  lemma BlockCallsCover(region: Region, data: seq<byte>, blockSize: u32)
    requires blockSize > 0 && |data| < U32
    ensures var calls := BlockCalls(region, data, blockSize);
      calls == DataCalls(region, data, |data|, blockSize, RemainderBlocks(|data|, blockSize), 0) &&
      |calls| == CeilDiv(|data|, blockSize) && Payload(calls) == data &&
      forall k :: 0 <= k < |calls| ==> calls[k] == Data(region, calls[k].block, k)
  {
    var blocks := RemainderBlocks(|data|, blockSize);
    assert data[0 * blockSize..] == data;
    BlocksFrom(region, data, blockSize, 0, data);
    assert BlockCalls(region, data, blockSize)[0..] == BlockCalls(region, data, blockSize);
    assert Remaining(|data|, blockSize, 0) == |data|;
    DataCallsCover(region, data, |data|, blockSize, blocks, 0);
    assert data[..|data|] == data;
  }

  /** One segment: begin, then its blocks. */
  function SegmentCalls(region: Region, blockSize: u32, segment: Segment): seq<Call>
    requires blockSize > 0
  {
    var size := SizeOf(segment);
    [Begin(region, size, RemainderBlocks(size, blockSize), blockSize, segment.offset)] +
      BlockCalls(region, segment.data, blockSize)
  }

  /** One segment's steps, followed for a flash upload by the digest request checked against `md5` of the data. */
  function SegmentSteps(region: Region, blockSize: u32, md5: Option<seq<byte> -> seq<byte>>, segment: Segment): seq<Step>
    requires blockSize > 0
  {
    Plain(SegmentCalls(region, blockSize, segment)) +
      if md5.Some? then [DigestStep(md5.value, segment)] else []
  }

  /** The parts one after the other. */
  function Concat(parts: seq<seq<Step>>): seq<Step>
  {
    if parts == [] then [] else parts[0] + Concat(parts[1..])
  }

  lemma {:induction false} ConcatAppend(a: seq<seq<Step>>, b: seq<seq<Step>>)
    ensures Concat(a + b) == Concat(a) + Concat(b)
  {
    if a == [] {
      assert a + b == b;
    } else {
      assert (a + b)[1..] == a[1..] + b;
      ConcatAppend(a[1..], b);
    }
  }

  /** Each segment's steps. */
  function SegmentParts(region: Region, blockSize: u32, md5: Option<seq<byte> -> seq<byte>>, segments: seq<Segment>)
    : (r: seq<seq<Step>>)
    requires blockSize > 0
    ensures |r| == |segments|
    ensures forall k :: 0 <= k < |segments| ==> r[k] == SegmentSteps(region, blockSize, md5, segments[k])
  {
    seq(|segments|, k requires 0 <= k < |segments| => SegmentSteps(region, blockSize, md5, segments[k]))
  }

  /** The steps of all the segments, segment after segment. */
  function SegmentsSteps(region: Region, blockSize: u32, md5: Option<seq<byte> -> seq<byte>>, segments: seq<Segment>): seq<Step>
    requires blockSize > 0
  {
    Concat(SegmentParts(region, blockSize, md5, segments))
  }

  lemma SegmentsStepsEmpty(region: Region, blockSize: u32, md5: Option<seq<byte> -> seq<byte>>)
    requires blockSize > 0
    ensures SegmentsSteps(region, blockSize, md5, []) == []
  {
    assert SegmentParts(region, blockSize, md5, []) == [];
  }

  lemma SegmentsStepsCons(region: Region, blockSize: u32, md5: Option<seq<byte> -> seq<byte>>, segments: seq<Segment>)
    requires blockSize > 0 && segments != []
    ensures SegmentsSteps(region, blockSize, md5, segments) ==
      SegmentSteps(region, blockSize, md5, segments[0]) + SegmentsSteps(region, blockSize, md5, segments[1..])
  {
    var parts := SegmentParts(region, blockSize, md5, segments);
    assert parts[1..] == SegmentParts(region, blockSize, md5, segments[1..]);
  }

  lemma AddressableTail(a: seq<Segment>)
    requires a != [] && Addressable(a)
    ensures Addressable(a[1..])
  {
    forall k | 0 <= k < |a| - 1
      ensures |a[1..][k].data| < U32
    {
      assert a[1..][k] == a[k + 1];
    }
  }

  lemma SegmentsStepsAppend(region: Region, blockSize: u32, md5: Option<seq<byte> -> seq<byte>>,
                             a: seq<Segment>, b: seq<Segment>)
    requires blockSize > 0
    ensures SegmentsSteps(region, blockSize, md5, a + b) ==
      SegmentsSteps(region, blockSize, md5, a) + SegmentsSteps(region, blockSize, md5, b)
  {
    var pa := SegmentParts(region, blockSize, md5, a);
    var pb := SegmentParts(region, blockSize, md5, b);
    assert SegmentParts(region, blockSize, md5, a + b) == pa + pb;
    ConcatAppend(pa, pb);
  }

  /** The steps of the segments before `k` and those of the rest make up the steps of all of them. */
  lemma SegmentsSplit(region: Region, blockSize: u32, md5: Option<seq<byte> -> seq<byte>>, segments: seq<Segment>, k: nat)
    requires blockSize > 0 && k <= |segments|
    ensures SegmentsSteps(region, blockSize, md5, segments) ==
      SegmentsSteps(region, blockSize, md5, segments[..k]) + SegmentsSteps(region, blockSize, md5, segments[k..])
  {
    assert segments[..k] + segments[k..] == segments;
    SegmentsStepsAppend(region, blockSize, md5, segments[..k], segments[k..]);
  }

  /** One more segment adds its own steps. */
  lemma SegmentsSnoc(region: Region, blockSize: u32, md5: Option<seq<byte> -> seq<byte>>, segments: seq<Segment>, k: nat)
    requires blockSize > 0 && k < |segments|
    ensures SegmentsSteps(region, blockSize, md5, segments[..k + 1]) ==
      SegmentsSteps(region, blockSize, md5, segments[..k]) + SegmentSteps(region, blockSize, md5, segments[k])
  {
    var one := [segments[k]];
    assert segments[..k + 1] == segments[..k] + one;
    assert SegmentsSteps(region, blockSize, md5, one) == SegmentSteps(region, blockSize, md5, segments[k]) + [] by {
      SegmentsStepsCons(region, blockSize, md5, one);
      assert one[1..] == [];
      SegmentsStepsEmpty(region, blockSize, md5);
    }
    SegmentsStepsAppend(region, blockSize, md5, segments[..k], one);
  }

  /** The whole upload: every segment, then the end call carrying the entry point. */
  function ImageSteps(region: Region, blockSize: u32, md5: Option<seq<byte> -> seq<byte>>,
                      image: FirmwareImage, execute: bool): seq<Step>
    requires blockSize > 0
  {
    SegmentsSteps(region, blockSize, md5, image.segments) +
      [Step(End(region, EndFlag(execute), image.entryPoint), None)]
  }

  function RamSteps(image: FirmwareImage, execute: bool): seq<Step>
  {
    ImageSteps(Mem, ESP_RAM_BLOCK, None, image, execute)
  }

  function FlashSteps(image: FirmwareImage, execute: bool, md5: seq<byte> -> seq<byte>): seq<Step>
  {
    ImageSteps(Flash, FLASH_WRITE_SIZE, Some(md5), image, execute)
  }

  /** The number of begin calls among `calls`. */
  function Begins(calls: seq<Call>): nat
  {
    if calls == [] then 0 else (if calls[0].Begin? then 1 else 0) + Begins(calls[1..])
  }

  lemma {:induction false} BeginsAppend(a: seq<Call>, b: seq<Call>)
    ensures Begins(a + b) == Begins(a) + Begins(b)
  {
    if a == [] {
      assert a + b == b;
    } else {
      assert (a + b)[1..] == a[1..] + b;
      BeginsAppend(a[1..], b);
    }
  }

  lemma {:induction false} DataBeginsNone(calls: seq<Call>)
    requires forall k :: 0 <= k < |calls| ==> calls[k].Data?
    ensures Begins(calls) == 0
  {
    if calls != [] {
      DataBeginsNone(calls[1..]);
    }
  }

  /** The digest request after a flashed segment, expecting `md5` of its data. */
  function DigestStep(md5: seq<byte> -> seq<byte>, segment: Segment): Step
  {
    Step(FlashMd5(segment.offset, SizeOf(segment)), Some(md5(segment.data)))
  }

  /** `s` is the digest request of one of the segments. */
  predicate DigestCheck(md5: Option<seq<byte> -> seq<byte>>, segments: seq<Segment>, s: Step)
  {
    md5.Some? && exists k :: 0 <= k < |segments| && s == DigestStep(md5.value, segments[k])
  }

  /** One segment's calls: a single begin, then data calls carrying exactly the segment's data. */
  lemma SegmentCallsShape(region: Region, blockSize: u32, segment: Segment)
    requires blockSize > 0 && |segment.data| < U32
    ensures var calls := SegmentCalls(region, blockSize, segment);
      Begins(calls) == 1 && Payload(calls) == segment.data &&
      (forall k :: 0 <= k < |calls| ==> !calls[k].End?)
  {
    var size := SizeOf(segment);
    var blocks := BlockCalls(region, segment.data, blockSize);
    var begin := Begin(region, size, RemainderBlocks(size, blockSize), blockSize, segment.offset);
    assert [begin][1..] == [];
    assert Begins([begin] + blocks) == 1 by {
      BeginsAppend([begin], blocks);
      DataBeginsNone(blocks);
    }
    assert Payload([begin] + blocks) == segment.data by {
      BlockCallsCover(region, segment.data, blockSize);
      PayloadAppend([begin], blocks);
    }
  }

  lemma CallsOfAppend(a: seq<Step>, b: seq<Step>)
    ensures CallsOf(a + b) == CallsOf(a) + CallsOf(b)
  {
  }

  lemma CallsOfPlain(calls: seq<Call>)
    ensures CallsOf(Plain(calls)) == calls
  {
  }

  /**
   * One segment's steps: a single begin, no end call, data calls carrying
   * exactly the segment's data, and on flash the segment's digest request.
   */
  lemma SegmentStepsShape(region: Region, blockSize: u32, md5: Option<seq<byte> -> seq<byte>>, segment: Segment)
    requires blockSize > 0 && |segment.data| < U32
    ensures var calls := CallsOf(SegmentSteps(region, blockSize, md5, segment));
      Begins(calls) == 1 && Payload(calls) == segment.data &&
      (forall k :: 0 <= k < |calls| ==> !calls[k].End?)
    ensures forall s :: s in SegmentSteps(region, blockSize, md5, segment) && s.digest.Some? ==>
      md5.Some? && s == DigestStep(md5.value, segment)
  {
    var plain := SegmentCalls(region, blockSize, segment);
    var extra := if md5.Some? then [DigestStep(md5.value, segment)] else [];
    SegmentCallsShape(region, blockSize, segment);
    CallsOfPlain(plain);
    CallsOfAppend(Plain(plain), extra);
    assert Payload(CallsOf(extra)) == [] && Begins(CallsOf(extra)) == 0 by {
      if md5.Some? {
        assert CallsOf(extra)[1..] == [];
      }
    }
    BeginsAppend(plain, CallsOf(extra));
    PayloadAppend(plain, CallsOf(extra));
  }

  lemma {:induction false} SegmentsBegins(region: Region, blockSize: u32, md5: Option<seq<byte> -> seq<byte>>,
                                          segments: seq<Segment>)
    requires blockSize > 0 && Addressable(segments)
    ensures Begins(CallsOf(SegmentsSteps(region, blockSize, md5, segments))) == |segments|
  {
    if segments != [] {
      SegmentsStepsCons(region, blockSize, md5, segments);
      var head := SegmentSteps(region, blockSize, md5, segments[0]);
      var tail := SegmentsSteps(region, blockSize, md5, segments[1..]);
      AddressableTail(segments);
      SegmentStepsShape(region, blockSize, md5, segments[0]);
      SegmentsBegins(region, blockSize, md5, segments[1..]);
      CallsOfAppend(head, tail);
      BeginsAppend(CallsOf(head), CallsOf(tail));
    }
  }

  lemma {:induction false} SegmentsPayload(region: Region, blockSize: u32, md5: Option<seq<byte> -> seq<byte>>,
                                           segments: seq<Segment>)
    requires blockSize > 0 && Addressable(segments)
    ensures Payload(CallsOf(SegmentsSteps(region, blockSize, md5, segments))) == FirmwareUpload.AllData(segments)
  {
    if segments != [] {
      SegmentsStepsCons(region, blockSize, md5, segments);
      var head := SegmentSteps(region, blockSize, md5, segments[0]);
      var tail := SegmentsSteps(region, blockSize, md5, segments[1..]);
      AddressableTail(segments);
      SegmentStepsShape(region, blockSize, md5, segments[0]);
      SegmentsPayload(region, blockSize, md5, segments[1..]);
      CallsOfAppend(head, tail);
      PayloadAppend(CallsOf(head), CallsOf(tail));
    }
  }

  lemma {:induction false} SegmentsNoEnd(region: Region, blockSize: u32, md5: Option<seq<byte> -> seq<byte>>,
                                         segments: seq<Segment>)
    requires blockSize > 0 && Addressable(segments)
    ensures forall s :: s in SegmentsSteps(region, blockSize, md5, segments) ==> !s.call.End?
  {
    if segments != [] {
      SegmentsStepsCons(region, blockSize, md5, segments);
      var head := SegmentSteps(region, blockSize, md5, segments[0]);
      var tail := SegmentsSteps(region, blockSize, md5, segments[1..]);
      AddressableTail(segments);
      SegmentStepsShape(region, blockSize, md5, segments[0]);
      SegmentsNoEnd(region, blockSize, md5, segments[1..]);
      forall s | s in head
        ensures !s.call.End?
      {
        var k :| 0 <= k < |head| && head[k] == s;
        assert CallsOf(head)[k] == s.call;
      }
    }
  }

  lemma {:induction false} SegmentsDigests(region: Region, blockSize: u32, md5: Option<seq<byte> -> seq<byte>>,
                                           segments: seq<Segment>)
    requires blockSize > 0 && Addressable(segments)
    ensures forall s :: s in SegmentsSteps(region, blockSize, md5, segments) && s.digest.Some? ==>
      DigestCheck(md5, segments, s)
  {
    if segments != [] {
      SegmentsStepsCons(region, blockSize, md5, segments);
      var head := SegmentSteps(region, blockSize, md5, segments[0]);
      var tail := SegmentsSteps(region, blockSize, md5, segments[1..]);
      AddressableTail(segments);
      SegmentStepsShape(region, blockSize, md5, segments[0]);
      SegmentsDigests(region, blockSize, md5, segments[1..]);
      forall s: Step | s in head + tail && s.digest.Some?
        ensures DigestCheck(md5, segments, s)
      {
        if s in tail {
          assert DigestCheck(md5, segments[1..], s);
          var k :| 0 <= k < |segments[1..]| && s == DigestStep(md5.value, segments[1..][k]);
          assert segments[1..][k] == segments[k + 1];
        }
      }
    }
  }

  /**
   * The steps of the segments: one begin per segment, no end call, the
   * data calls carrying all the segments' data in order, and on flash one
   * digest request per segment expecting the digest of that segment's data.
   */
  lemma SegmentsStepsShape(region: Region, blockSize: u32, md5: Option<seq<byte> -> seq<byte>>,
                           segments: seq<Segment>)
    requires blockSize > 0 && Addressable(segments)
    ensures var calls := CallsOf(SegmentsSteps(region, blockSize, md5, segments));
      Begins(calls) == |segments| && Payload(calls) == FirmwareUpload.AllData(segments) &&
      (forall k :: 0 <= k < |calls| ==> !calls[k].End?)
    ensures forall s :: s in SegmentsSteps(region, blockSize, md5, segments) && s.digest.Some? ==>
      DigestCheck(md5, segments, s)
  {
    var steps := SegmentsSteps(region, blockSize, md5, segments);
    SegmentsBegins(region, blockSize, md5, segments);
    SegmentsPayload(region, blockSize, md5, segments);
    SegmentsNoEnd(region, blockSize, md5, segments);
    SegmentsDigests(region, blockSize, md5, segments);
    forall k | 0 <= k < |steps|
      ensures !CallsOf(steps)[k].End?
    {
      assert steps[k] in steps;
    }
  }

  /**
   * A RAM or flash upload's calls: one begin per segment, the data of every
   * segment in order, and as the last call, and the only end call, the end
   * carrying the flag (0 to run the image) and the entry point.
   */
  lemma ImageStepsShape(region: Region, blockSize: u32, md5: Option<seq<byte> -> seq<byte>>,
                        image: FirmwareImage, execute: bool)
    requires blockSize > 0 && Addressable(image.segments)
    ensures var calls := CallsOf(ImageSteps(region, blockSize, md5, image, execute));
      |calls| > 0 && calls[|calls| - 1] == End(region, EndFlag(execute), image.entryPoint) &&
      (forall k :: 0 <= k < |calls| - 1 ==> !calls[k].End?) &&
      Begins(calls) == |image.segments| && Payload(calls) == FirmwareUpload.AllData(image.segments)
  {
    var segs := SegmentsSteps(region, blockSize, md5, image.segments);
    var end := End(region, EndFlag(execute), image.entryPoint);
    SegmentsStepsShape(region, blockSize, md5, image.segments);
    assert CallsOf(ImageSteps(region, blockSize, md5, image, execute)) == CallsOf(segs) + [end];
    BeginsAppend(CallsOf(segs), [end]);
    PayloadAppend(CallsOf(segs), [end]);
    assert Payload([end]) == [] by {
      assert [end][1..] == [];
    }
    assert Begins([end]) == 0 by {
      assert [end][1..] == [];
    }
  }

  class Esp32 {
    /** The device state this ESP32 device was made from, holding its loader. */
    const dev: Device

    /** Takes over the link of `d` and wraps its loader in the ESP32 ROM loader. */
    constructor(d: Device)
      ensures fresh(dev) && dev.port == d.port && dev.com == d.com && dev.loader == Esp32RomLoader
    {
      var copy := new Device.Copy(d);
      copy.loader := Esp32RomLoader;
      dev := copy;
    }

    /** One call, checked as `Check` checks it. */
    method RunStep(step: Step, ghost last: Result) returns (r: Outcome<Result>)
      requires last.success
      modifies dev.port
      ensures Checked([step], old(dev.port.script), old(dev.port.calls), last, r, dev.port.calls, dev.port.script)
    {
      ghost var script0 := dev.port.script;
      var reply := dev.port.Invoke(step.call);
      r := StepResult(step, reply);
      assert Drop(script0, 1) == Tail(script0) by {
        TailIsDrop(script0, 0);
        assert Drop(Tail(script0), 0) == Tail(script0);
      }
    }

    /** Begins a segment and sends its blocks while the answers succeed. */
    method WriteSegment(region: Region, blockSize: u32, segment: Segment, ghost last: Result) returns (r: Outcome<Result>)
      requires blockSize > 0 && last.success
      modifies dev.port
      ensures Checked(Plain(SegmentCalls(region, blockSize, segment)), old(dev.port.script), old(dev.port.calls), last,
                      r, dev.port.calls, dev.port.script)
    {
      ghost var script0, calls0 := dev.port.script, dev.port.calls;
      ghost var steps := Plain(SegmentCalls(region, blockSize, segment));
      var size := SizeOf(segment);
      var blocks := RemainderBlocks(size, blockSize);
      forall j: nat | j < blocks
        ensures BlockAt(steps, region, blockSize, segment, j)
      {
        SegmentBlock(region, blockSize, segment, j);
      }
      r := RunStep(Step(Begin(region, size, blocks, blockSize, segment.offset), None), last);
      CheckedPrefix(steps, 0, script0, calls0, last, Ok(last), calls0, script0, r, dev.port.calls, dev.port.script);
      r := WriteBlocks(region, blockSize, segment, blocks, steps, script0, calls0, last, r);
    }

    /** The block loop, from block 0 while the result stays a success. */
    method WriteBlocks(region: Region, blockSize: u32, segment: Segment, blocks: u32, ghost steps: seq<Step>,
                       ghost script0: seq<Reply>, ghost calls0: seq<Call>, ghost last: Result, r0: Outcome<Result>)
      returns (r: Outcome<Result>)
      requires blockSize > 0 && |steps| == 1 + blocks
      requires forall j: nat :: j < blocks ==> BlockAt(steps, region, blockSize, segment, j)
      requires Checked(steps[..1], script0, calls0, last, r0, dev.port.calls, dev.port.script)
      modifies dev.port
      ensures Checked(steps, script0, calls0, last, r, dev.port.calls, dev.port.script)
    {
      r := r0;
      var i: u32 := 0;
      while i < blocks && Succeeded(r)
        invariant i <= blocks
        invariant Checked(steps[..1 + i], script0, calls0, last, r, dev.port.calls, dev.port.script)
      {
        r := WriteBlock(region, blockSize, segment, i, steps, script0, calls0, last, r);
        i := i + 1;
      }
      CheckedWhole(steps, 1 + i, script0, calls0, last, r, dev.port.calls, dev.port.script);
    }

    /** Block `i` of the segment: its bytes cut out of the data by index and sent as data call `i`. */
    method WriteBlock(region: Region, blockSize: u32, segment: Segment, i: u32, ghost steps: seq<Step>,
                      ghost script0: seq<Reply>, ghost calls0: seq<Call>, ghost last: Result, r: Outcome<Result>)
      returns (next: Outcome<Result>)
      requires blockSize > 0 && BlockAt(steps, region, blockSize, segment, i as nat)
      requires Checked(steps[..1 + i], script0, calls0, last, r, dev.port.calls, dev.port.script) && Succeeded(r)
      modifies dev.port
      ensures Checked(steps[..1 + i + 1], script0, calls0, last, next, dev.port.calls, dev.port.script)
    {
      var size := SizeOf(segment);
      var start: u32 := i * blockSize;
      var len: u32 := size - start;
      if len > blockSize {
        len := blockSize;
      }
      var buffer := segment.data[start .. start + len];
      var step := Step(Data(region, buffer, i), None);
      assert step == steps[1 + i];
      ghost var script1, calls1 := dev.port.script, dev.port.calls;
      next := RunStep(step, r.value);
      CheckedPrefix(steps, 1 + i, script0, calls0, last, r, calls1, script1, next, dev.port.calls, dev.port.script);
    }

    /** Writes the segments in order while the result stays a success. */
    method UploadSegments(region: Region, blockSize: u32, md5: Option<seq<byte> -> seq<byte>>,
                          segments: seq<Segment>) returns (r: Outcome<Result>)
      requires blockSize > 0
      modifies dev.port
      ensures Checked(SegmentsSteps(region, blockSize, md5, segments), old(dev.port.script), old(dev.port.calls), OK,
                      r, dev.port.calls, dev.port.script)
    {
      ghost var script0, calls0 := dev.port.script, dev.port.calls;
      r := Ok(OK);
      assert Drop(script0, 0) == script0;
      SegmentsSplit(region, blockSize, md5, segments, 0);
      var k := 0;
      while k < |segments| && r.Ok?
        invariant k <= |segments|
        invariant Checked(SegmentsSteps(region, blockSize, md5, segments[..k]), script0, calls0, OK, r,
                          dev.port.calls, dev.port.script)
      {
        r := NextSegment(region, blockSize, md5, segments, k, script0, calls0, r);
        k := k + 1;
      }
      if r.Fail? {
        SegmentsSplit(region, blockSize, md5, segments, k);
        CheckedThen(SegmentsSteps(region, blockSize, md5, segments[..k]), SegmentsSteps(region, blockSize, md5, segments[k..]),
                    script0, calls0, OK, r, dev.port.calls, dev.port.script, r, dev.port.calls, dev.port.script);
      } else {
        assert segments[..k] == segments;
      }
    }

    /** Segment `k`, written only when the result so far is a success. */
    method NextSegment(region: Region, blockSize: u32, md5: Option<seq<byte> -> seq<byte>>, segments: seq<Segment>, k: nat,
                       ghost script0: seq<Reply>, ghost calls0: seq<Call>, r: Outcome<Result>) returns (next: Outcome<Result>)
      requires blockSize > 0 && k < |segments| && r.Ok?
      requires Checked(SegmentsSteps(region, blockSize, md5, segments[..k]), script0, calls0, OK, r,
                       dev.port.calls, dev.port.script)
      modifies dev.port
      ensures Checked(SegmentsSteps(region, blockSize, md5, segments[..k + 1]), script0, calls0, OK, next,
                      dev.port.calls, dev.port.script)
    {
      var segment := segments[k];
      ghost var script1, calls1 := dev.port.script, dev.port.calls;
      next := r;
      if r.value.success {
        next := SegmentWithDigest(region, blockSize, md5, segment, r.value);
      } else {
        assert Drop(script1, 0) == script1;
      }
      SegmentsSnoc(region, blockSize, md5, segments, k);
      CheckedThen(SegmentsSteps(region, blockSize, md5, segments[..k]), SegmentSteps(region, blockSize, md5, segment),
                  script0, calls0, OK, r, calls1, script1, next, dev.port.calls, dev.port.script);
    }

    /** Writes the segments, then sends the end call if the result is still a success. */
    method UploadImage(region: Region, blockSize: u32, md5: Option<seq<byte> -> seq<byte>>,
                       image: FirmwareImage, execute: bool) returns (r: Outcome<Result>)
      requires blockSize > 0
      modifies dev.port
      ensures Checked(ImageSteps(region, blockSize, md5, image, execute), old(dev.port.script), old(dev.port.calls), OK,
                      r, dev.port.calls, dev.port.script)
    {
      ghost var script0, calls0 := dev.port.script, dev.port.calls;
      ghost var done := SegmentsSteps(region, blockSize, md5, image.segments);
      r := UploadSegments(region, blockSize, md5, image.segments);
      var end := Step(End(region, EndFlag(execute), image.entryPoint), None);
      ghost var script1, calls1 := dev.port.script, dev.port.calls;
      var next := r;
      if r.Ok? && r.value.success {
        next := RunStep(end, r.value);
      } else if r.Ok? {
        assert Drop(script1, 0) == script1;
      }
      CheckedThen(done, [end], script0, calls0, OK, r, calls1, script1, next, dev.port.calls, dev.port.script);
      r := next;
    }

    /** A segment's blocks and, for a flash upload, the digest comparison after them. */
    method SegmentWithDigest(region: Region, blockSize: u32, md5: Option<seq<byte> -> seq<byte>>,
                             segment: Segment, ghost last: Result) returns (r: Outcome<Result>)
      requires blockSize > 0 && last.success
      modifies dev.port
      ensures Checked(SegmentSteps(region, blockSize, md5, segment), old(dev.port.script), old(dev.port.calls), last,
                      r, dev.port.calls, dev.port.script)
    {
      ghost var script0, calls0 := dev.port.script, dev.port.calls;
      ghost var writes := Plain(SegmentCalls(region, blockSize, segment));
      r := WriteSegment(region, blockSize, segment, last);
      ghost var script1, calls1 := dev.port.script, dev.port.calls;
      var next := r;
      ghost var verify: seq<Step> := [];
      if md5.Some? && r.Ok? && r.value.success {
        var size := SizeOf(segment);
        var sourceHash := md5.value(segment.data);
        var md5Step := Step(FlashMd5(segment.offset, size), Some(sourceHash));
        verify := [md5Step];
        assert verify == [DigestStep(md5.value, segment)];
        next := RunStep(md5Step, r.value);
      } else {
        verify := if md5.Some? then [DigestStep(md5.value, segment)] else [];
        assert r.Ok? ==> Drop(script1, 0) == script1;
        assert r.Ok? ==> Check(verify, script1, r.value) == (Ok(r.value), 0);
      }
      CheckedThen(writes, verify, script0, calls0, last, r, calls1, script1, next, dev.port.calls, dev.port.script);
      r := next;
    }

    /** Uploads an image to RAM in blocks of 0x1800 bytes. */
    method UploadToRam(image: FirmwareImage, execute: bool) returns (r: Outcome<Result>)
      modifies dev.port
      ensures Checked(RamSteps(image, execute), old(dev.port.script), old(dev.port.calls), OK,
                      r, dev.port.calls, dev.port.script)
    {
      r := UploadImage(Mem, ESP_RAM_BLOCK, None, image, execute);
    }

    /** Uploads an image to flash in blocks of 0x400 bytes, comparing each segment's digest with `md5` of its data. */
    method UploadToFlash(image: FirmwareImage, execute: bool, md5: seq<byte> -> seq<byte>) returns (r: Outcome<Result>)
      modifies dev.port
      ensures Checked(FlashSteps(image, execute, md5), old(dev.port.script), old(dev.port.calls), OK,
                      r, dev.port.calls, dev.port.script)
    {
      r := UploadImage(Flash, FLASH_WRITE_SIZE, Some(md5), image, execute);
    }

    /**
     * Uploads the stub to RAM and runs it; once that succeeds, waits for
     * the stub's OHAI greeting and then switches to the stub loader.
     */
    method StartStubloader(stub: FirmwareImage) returns (r: Outcome<Result>)
      modifies dev, dev.port, dev.com
      ensures var up := Check(RamSteps(stub, true), old(dev.port.script), OK);
        Checked(RamSteps(stub, true), old(dev.port.script), old(dev.port.calls), OK, up.0, dev.port.calls, dev.port.script) &&
        if up.0.Ok? && up.0.value.success then
          var wait := Ohai.Await(old(dev.com.Pending()));
          r == (if wait.0.Ok? then Ok(OK) else Fail(wait.0.fault)) && dev.com.Pending() == wait.1
        else
          r == up.0 && dev.com.Pending() == old(dev.com.Pending())
      ensures dev.loader == if r.Ok? && r.value.success then StubLoader else old(dev.loader)
    {
      r := UploadToRam(stub, true);
      if r.Ok? && r.value.success {
        var wait := Ohai.WaitForOhai(dev.com);
        r := if wait.Ok? then Ok(OK) else Fail(wait.fault);
      }
      if r.Ok? && r.value.success {
        dev.loader := StubLoader;
      }
    }

    method EraseFlash() returns (r: Outcome<Result>)
      modifies dev.port
      ensures dev.port.calls == old(dev.port.calls) + [LoaderCommands.EraseFlash]
      ensures r == ResultOf(Head(old(dev.port.script))) && dev.port.script == Tail(old(dev.port.script))
    {
      var reply := dev.port.Invoke(LoaderCommands.EraseFlash);
      r := ResultOf(reply);
    }
  }
}
