/**
 * The block loop shared by every upload engine: a segment of `size` bytes is
 * sent as `blocks` data calls of at most `blockSize` bytes each, numbered from
 * 0, read one after another from a stream. A short read ends the loop without
 * an error.
 *
 * The source computes the block count in two ways, both in 32-bit unsigned
 * arithmetic: `(size + blockSize - 1) / blockSize`, and `size / blockSize`
 * plus one when there is a remainder. Both are the ceiling of the quotient,
 * except that the first sum wraps for block sizes near 2^32.
 */
module Chunking {
  import opened Common
  import opened LoaderCommands
  import opened Port

  /** The intended block count: the ceiling of `size / blockSize`. */
  function CeilDiv(size: nat, blockSize: nat): nat
    requires blockSize > 0
  {
    (size + blockSize - 1) / blockSize
  }

  lemma MulMono(a: nat, b: nat, c: nat)
    requires a <= b
    ensures a * c <= b * c
  {
    assert b * c == a * c + (b - a) * c;
  }

  /** The ceiling covers `size` and one block fewer would not. */
  lemma CeilDivBounds(size: nat, blockSize: nat)
    requires blockSize > 0
    ensures CeilDiv(size, blockSize) * blockSize >= size
    ensures CeilDiv(size, blockSize) > 0 ==> (CeilDiv(size, blockSize) - 1) * blockSize < size
    ensures CeilDiv(size, blockSize) == 0 <==> size == 0
  {
    var n := CeilDiv(size, blockSize);
    var m := size + blockSize - 1;
    assert m == n * blockSize + m % blockSize;
    if n > 0 {
      assert (n - 1) * blockSize == n * blockSize - blockSize;
    }
    if size == 0 {
      DivModUnique(m, blockSize, 0, blockSize - 1);
    }
  }

  /** Block `i` of `blocks` starts inside the segment; the block after it starts at or beyond its end exactly when it is the last. */
  lemma BlockStart(size: nat, blockSize: nat, blocks: nat, i: nat)
    requires blockSize > 0 && blocks == CeilDiv(size, blockSize) && i <= blocks
    ensures i < blocks ==> i * blockSize < size
    ensures i == blocks ==> i * blockSize >= size
    ensures (i + 1) * blockSize == i * blockSize + blockSize
  {
    CeilDivBounds(size, blockSize);
    if i < blocks {
      MulMono(i, blocks - 1, blockSize);
    }
  }

  /** `(size + blockSize - 1) / blockSize` in `uint`: the sum is taken modulo 2^32. */
  function UintCeilBlocks(size: u32, blockSize: u32): u32
    requires blockSize > 0
  {
    Wrap32(size + blockSize - 1) / blockSize
  }

  /** Without wrap-around the `uint` formula is the ceiling. */
  lemma UintCeilBlocksIsCeil(size: u32, blockSize: u32)
    requires blockSize > 0 && size + blockSize - 1 < U32
    ensures UintCeilBlocks(size, blockSize) == CeilDiv(size, blockSize)
  {
  }

  /** With a block size near 2^32 the sum wraps: two bytes would be sent as no blocks at all. */
  lemma UintCeilBlocksWraps()
    ensures UintCeilBlocks(2, 0xFFFF_FFFF) == 0 && CeilDiv(2, 0xFFFF_FFFF) == 1
  {
    assert Wrap32(2 + 0xFFFF_FFFF - 1) == 0;
  }

  /** `size / blockSize`, incremented when `size % blockSize != 0`. */
  function RemainderBlocks(size: u32, blockSize: u32): (r: u32)
    requires blockSize > 0
    ensures r == CeilDiv(size, blockSize)
  {
    var q := size / blockSize;
    var rem := size % blockSize;
    assert size == q * blockSize + rem;
    if rem != 0 then
      assert size + blockSize - 1 == (q + 1) * blockSize + (rem - 1);
      DivModUnique(size + blockSize - 1, blockSize, q + 1, rem - 1);
      q + 1
    else
      DivModUnique(size + blockSize - 1, blockSize, q, blockSize - 1);
      q
  }

  /** Block `i`'s length: `size - i * blockSize` in `uint`, capped at `blockSize`. */
  function BlockLen(size: u32, blockSize: u32, i: nat): nat
  {
    Min(blockSize, Wrap32(size - Wrap32(i * blockSize)))
  }

  /** The bytes still to be sent before block `i`. */
  function Remaining(size: nat, blockSize: nat, i: nat): nat
  {
    if i * blockSize <= size then size - i * blockSize else 0
  }

  /**
   * The data calls the block loop makes from block `i` on, reading each block
   * from `stream` (a read returns what is available, at most what was asked
   * for); the loop stops after `blocks` blocks or at the first short read.
   */
  function DataCalls(region: Region, stream: seq<byte>, size: u32, blockSize: u32, blocks: u32, i: nat): seq<Call>
    decreases blocks - i
  {
    if i >= blocks then []
    else
      var len := BlockLen(size, blockSize, i);
      if |stream| < len then []
      else [Data(region, stream[..len], i)] + DataCalls(region, stream[len..], size, blockSize, blocks, i + 1)
  }

  /** The data the given calls carry, in order. */
  function Payload(calls: seq<Call>): seq<byte>
  {
    if calls == [] then []
    else (if calls[0].Data? then calls[0].block else []) + Payload(calls[1..])
  }

  lemma {:induction false} PayloadAppend(a: seq<Call>, b: seq<Call>)
    ensures Payload(a + b) == Payload(a) + Payload(b)
  {
    if a == [] {
      assert a + b == b;
    } else {
      assert (a + b)[1..] == a[1..] + b;
      PayloadAppend(a[1..], b);
    }
  }

  /** Whatever the stream holds, the loop makes at most the remaining block calls, numbered on from `i`. */
  lemma {:induction false} DataCallsNumbered(region: Region, stream: seq<byte>, size: u32, blockSize: u32, blocks: u32, i: nat)
    ensures var calls := DataCalls(region, stream, size, blockSize, blocks, i);
      (calls == [] || i + |calls| <= blocks) &&
      forall k :: 0 <= k < |calls| ==> calls[k].Data? && calls[k].region == region && calls[k].sequence == i + k
    decreases blocks - i
  {
    if i < blocks {
      var len := BlockLen(size, blockSize, i);
      if |stream| >= len {
        DataCallsNumbered(region, stream[len..], size, blockSize, blocks, i + 1);
        var tail := DataCalls(region, stream[len..], size, blockSize, blocks, i + 1);
        var calls := DataCalls(region, stream, size, blockSize, blocks, i);
        assert calls == [Data(region, stream[..len], i)] + tail;
        forall k | 0 <= k < |calls|
          ensures calls[k].Data? && calls[k].region == region && calls[k].sequence == i + k
        {
          if k > 0 {
            assert calls[k] == tail[k - 1];
          }
        }
      }
    }
  }

  /** Block `i` of the intended count is non-empty, at most a block long, and consumes its bytes of what remains. */
  lemma BlockStep(size: u32, blockSize: u32, blocks: u32, i: nat)
    requires blockSize > 0 && blocks == CeilDiv(size, blockSize) && i < blocks
    ensures 0 < BlockLen(size, blockSize, i) <= blockSize
    ensures BlockLen(size, blockSize, i) <= Remaining(size, blockSize, i)
    ensures Remaining(size, blockSize, i + 1) == Remaining(size, blockSize, i) - BlockLen(size, blockSize, i)
  {
    BlockStart(size, blockSize, blocks, i);
    var offset := i * blockSize;
    var next := (i + 1) * blockSize;
    assert next == offset + blockSize;
    assert Wrap32(offset) == offset;
    assert Wrap32(size - offset) == size - offset;
    assert BlockLen(size, blockSize, i) == Min(blockSize, size - offset);
    assert Remaining(size, blockSize, i) == size - offset;
    if next <= size {
      assert Remaining(size, blockSize, i + 1) == size - next;
    } else {
      assert Remaining(size, blockSize, i + 1) == 0;
    }
  }

  /** After the last block nothing remains. */
  lemma BlockEnd(size: u32, blockSize: u32, blocks: u32)
    requires blockSize > 0 && blocks == CeilDiv(size, blockSize)
    ensures Remaining(size, blockSize, blocks) == 0
  {
    BlockStart(size, blockSize, blocks, blocks);
  }

  /** The first `len` elements followed by the next `rem - len` are the first `rem`. */
  lemma PrefixJoin<T>(s: seq<T>, len: nat, rem: nat)
    requires len <= rem <= |s|
    ensures s[..len] + s[len..][..rem - len] == s[..rem]
  {
  }

  /**
   * With enough data in the stream the loop sends exactly the remaining
   * blocks, and together they carry exactly the remaining bytes.
   */
  lemma {:induction false} DataCallsCover(region: Region, stream: seq<byte>, size: u32, blockSize: u32, blocks: u32, i: nat)
    requires blockSize > 0 && blocks == CeilDiv(size, blockSize) && i <= blocks
    requires |stream| >= Remaining(size, blockSize, i)
    ensures var calls := DataCalls(region, stream, size, blockSize, blocks, i);
      |calls| == blocks - i && Payload(calls) == stream[..Remaining(size, blockSize, i)]
    decreases blocks - i
  {
    if i == blocks {
      BlockEnd(size, blockSize, blocks);
    } else {
      BlockStep(size, blockSize, blocks, i);
      var len := BlockLen(size, blockSize, i);
      var rem := Remaining(size, blockSize, i);
      DataCallsCover(region, stream[len..], size, blockSize, blocks, i + 1);
      var head := Data(region, stream[..len], i);
      var tail := DataCalls(region, stream[len..], size, blockSize, blocks, i + 1);
      assert Payload(tail) == stream[len..][..rem - len];
      assert DataCalls(region, stream, size, blockSize, blocks, i) == [head] + tail;
      assert Payload([head] + tail) == stream[..rem] by {
        PayloadAppend([head], tail);
        assert [head][1..] == [];
        PrefixJoin(stream, len, rem);
      }
    }
  }

  /** With too little data in the stream the loop stops early, having sent a prefix of the stream. */
  lemma {:induction false} DataCallsShortStream(region: Region, stream: seq<byte>, size: u32, blockSize: u32, blocks: u32, i: nat)
    requires blockSize > 0 && blocks == CeilDiv(size, blockSize) && i <= blocks
    requires |stream| < Remaining(size, blockSize, i)
    ensures var calls := DataCalls(region, stream, size, blockSize, blocks, i);
      |calls| < blocks - i && Payload(calls) <= stream
    decreases blocks - i
  {
    if i == blocks {
      BlockEnd(size, blockSize, blocks);
    } else {
      BlockStep(size, blockSize, blocks, i);
      var len := BlockLen(size, blockSize, i);
      if |stream| >= len {
        DataCallsShortStream(region, stream[len..], size, blockSize, blocks, i + 1);
        var tail := DataCalls(region, stream[len..], size, blockSize, blocks, i + 1);
        ShortStreamStep(region, stream, len, i, tail);
      }
    }
  }

  /** One block taken off the front keeps the payload a prefix of the stream. */
  lemma ShortStreamStep(region: Region, stream: seq<byte>, len: nat, i: u32, tail: seq<Call>)
    requires len <= |stream| && Payload(tail) <= stream[len..]
    ensures Payload([Data(region, stream[..len], i)] + tail) <= stream
  {
    var head := Data(region, stream[..len], i);
    PayloadAppend([head], tail);
    assert [head][1..] == [];
    assert Payload([head]) == stream[..len];
    assert stream == stream[..len] + stream[len..];
  }

  /**
   * What an upload step does when every call returns: the calls it makes, in
   * order, and the exception it raises itself after them, if any (a division
   * by a zero block size, an unknown upload method).
   */
  datatype Plan = Plan(calls: seq<Call>, stop: Option<Fault>)

  const Nothing := Plan([], None)

  /** Carrying out a plan against the loader's replies: the outcome and the number of calls made. */
  function Perform(plan: Plan, script: seq<Reply>): (r: (Outcome<()>, nat))
    ensures r.1 <= |plan.calls|
    ensures r.0.Ok? ==> r.1 == |plan.calls| && plan.stop.None?
  {
    var run := Run(plan.calls, script);
    if run.0.Ok? && plan.stop.Some? then (Fail(plan.stop.value), run.1) else run
  }

  /** `a`, then `b` only if `a` completed without an exception. */
  function Then(a: Plan, b: Plan): Plan
  {
    if a.stop.Some? then a else Plan(a.calls + b.calls, b.stop)
  }

  lemma ThenAssoc(a: Plan, b: Plan, c: Plan)
    ensures Then(Then(a, b), c) == Then(a, Then(b, c))
  {
    if a.stop.None? && b.stop.None? {
      assert (a.calls + b.calls) + c.calls == a.calls + (b.calls + c.calls);
    }
  }

  /** Sequencing is fail-fast: `b` runs against the replies `a` left, and only when `a` succeeded. */
  lemma PerformThen(a: Plan, b: Plan, script: seq<Reply>)
    ensures Perform(Then(a, b), script) ==
      if Perform(a, script).0.Fail? then Perform(a, script)
      else (Perform(b, Drop(script, |a.calls|)).0, |a.calls| + Perform(b, Drop(script, |a.calls|)).1)
  {
    if a.stop.None? {
      RunAppend(a.calls, b.calls, script);
    }
  }

  /** The port's state after carrying out `plan` from `calls0` and `script0` with outcome `r`. */
  predicate Performed(plan: Plan, script0: seq<Reply>, calls0: seq<Call>, r: Outcome<()>, calls: seq<Call>, script: seq<Reply>)
  {
    var p := Perform(plan, script0);
    r == p.0 && calls == calls0 + plan.calls[..p.1] && script == Drop(script0, p.1)
  }

  /** Composing two performed steps: a failed first step is the whole result. */
  lemma PerformedThen(a: Plan, b: Plan, script0: seq<Reply>, calls0: seq<Call>, r1: Outcome<()>,
                      calls1: seq<Call>, script1: seq<Reply>, r2: Outcome<()>, calls2: seq<Call>, script2: seq<Reply>)
    requires Performed(a, script0, calls0, r1, calls1, script1)
    requires r1.Ok? ==> Performed(b, script1, calls1, r2, calls2, script2)
    ensures r1.Fail? ==> Performed(Then(a, b), script0, calls0, r1, calls1, script1)
    ensures r1.Ok? ==> Performed(Then(a, b), script0, calls0, r2, calls2, script2)
  {
    if r1.Ok? {
      PerformedThenOk(a, b, script0, calls0, r1, calls1, script1, r2, calls2, script2);
    } else {
      PerformedThenFail(a, b, script0, calls0, r1, calls1, script1);
    }
  }

  lemma PerformedThenOk(a: Plan, b: Plan, script0: seq<Reply>, calls0: seq<Call>, r1: Outcome<()>,
                        calls1: seq<Call>, script1: seq<Reply>, r2: Outcome<()>, calls2: seq<Call>, script2: seq<Reply>)
    requires Performed(a, script0, calls0, r1, calls1, script1) && r1.Ok?
    requires Performed(b, script1, calls1, r2, calls2, script2)
    ensures Performed(Then(a, b), script0, calls0, r2, calls2, script2)
  {
    PerformThen(a, b, script0);
    var n := Perform(b, script1).1;
    assert Perform(a, script0).1 == |a.calls| && script1 == Drop(script0, |a.calls|);
    assert Perform(Then(a, b), script0) == (r2, |a.calls| + n);
    DropDrop(script0, |a.calls|, n);
    assert Then(a, b).calls[..|a.calls| + n] == a.calls + b.calls[..n] by {
      assert (a.calls + b.calls)[..|a.calls| + n] == a.calls + b.calls[..n];
    }
  }

  lemma PerformedThenFail(a: Plan, b: Plan, script0: seq<Reply>, calls0: seq<Call>, r1: Outcome<()>,
                          calls1: seq<Call>, script1: seq<Reply>)
    requires Performed(a, script0, calls0, r1, calls1, script1) && r1.Fail?
    ensures Performed(Then(a, b), script0, calls0, r1, calls1, script1)
  {
    PerformThen(a, b, script0);
    if a.stop.None? {
      var n := Perform(a, script0).1;
      assert (a.calls + b.calls)[..n] == a.calls[..n];
    }
  }

  /** A plan that raises at once, before any call. */
  lemma PerformedRaise(f: Fault, script: seq<Reply>, calls: seq<Call>)
    ensures Performed(Plan([], Some(f)), script, calls, Fail(f), calls, script)
  {
    assert calls + [] == calls;
  }

  lemma PerformedNothing(script: seq<Reply>, calls: seq<Call>)
    ensures Performed(Nothing, script, calls, Ok(()), calls, script)
  {
    assert calls + [] == calls;
  }

  /** One segment: a begin call of the region, then the block loop. */
  function SegmentPlan(region: Region, beginSize: u32, offset: u32, stream: seq<byte>,
                       size: u32, blockSize: u32, blocks: u32): Plan
  {
    Plan([Begin(region, beginSize, blocks, blockSize, offset)] + DataCalls(region, stream, size, blockSize, blocks, 0), None)
  }

  /**
   * A segment with the intended block count and enough data: a begin that
   * announces the block count, then the data calls numbered from 0 that carry
   * exactly the segment's `size` bytes.
   */
  lemma SegmentPlanShape(region: Region, beginSize: u32, offset: u32, stream: seq<byte>, size: u32, blockSize: u32)
    requires blockSize > 0 && |stream| >= size
    ensures var blocks := CeilDiv(size, blockSize);
      var plan := SegmentPlan(region, beginSize, offset, stream, size, blockSize, blocks);
      plan.stop.None? && |plan.calls| == 1 + blocks &&
      plan.calls[0] == Begin(region, beginSize, blocks, blockSize, offset) &&
      (forall k :: 1 <= k < |plan.calls| ==>
        plan.calls[k].Data? && plan.calls[k].region == region && plan.calls[k].sequence == k - 1) &&
      Payload(plan.calls) == stream[..size]
  {
    var blocks := CeilDiv(size, blockSize);
    CeilDivBounds(size, blockSize);
    if blocks > 0 {
      MulAtLeast(blocks, blockSize);
    }
    DataCallsCover(region, stream, size, blockSize, blocks, 0);
    DataCallsNumbered(region, stream, size, blockSize, blocks, 0);
    var begin := Begin(region, beginSize, blocks, blockSize, offset);
    var data := DataCalls(region, stream, size, blockSize, blocks, 0);
    PayloadAppend([begin], data);
    assert [begin][1..] == [];
    assert Remaining(size, blockSize, 0) == size;
    var calls := [begin] + data;
    forall k | 1 <= k < |calls|
      ensures calls[k].Data? && calls[k].region == region && calls[k].sequence == k - 1
    {
      assert calls[k] == data[k - 1];
    }
  }

  /**
   * The block loop's state: the calls sent so far all returned, and what is
   * left of the plan is the data calls from block `i` over the rest of the stream.
   */
  ghost predicate Sending(plan: seq<Call>, sent: seq<Call>, region: Region, rest: seq<byte>, size: u32,
                          blockSize: u32, blocks: u32, i: nat, script0: seq<Reply>)
  {
    plan == sent + DataCalls(region, rest, size, blockSize, blocks, i) && Run(sent, script0) == (Ok(()), |sent|)
  }

  /** One block sent: the loop goes on if its call returned, and the plan's run ends with it if it threw. */
  lemma SendingStep(plan: seq<Call>, sent: seq<Call>, region: Region, rest: seq<byte>, size: u32,
                    blockSize: u32, blocks: u32, i: nat, script0: seq<Reply>, len: nat, reply: Reply)
    requires Sending(plan, sent, region, rest, size, blockSize, blocks, i, script0)
    requires i < blocks && len == BlockLen(size, blockSize, i) && len <= |rest|
    requires reply == Head(Drop(script0, |sent|))
    ensures var call := Data(region, rest[..len], i);
      Tail(Drop(script0, |sent|)) == Drop(script0, |sent| + 1) &&
      (reply.Answer? ==> Sending(plan, sent + [call], region, rest[len..], size, blockSize, blocks, i + 1, script0)) &&
      (reply.Raised? ==>
        Perform(Plan(plan, None), script0) == (Fail(reply.fault), |sent| + 1) && plan[..|sent| + 1] == sent + [call])
  {
    var call := Data(region, rest[..len], i);
    var tail := DataCalls(region, rest[len..], size, blockSize, blocks, i + 1);
    assert plan == (sent + [call]) + tail;
    DropStep(script0, |sent|);
    RunOne(call, Drop(script0, |sent|));
    RunAppend(sent, [call], script0);
    if reply.Raised? {
      RunAppend(sent + [call], tail, script0);
      assert plan[..|sent| + 1] == sent + [call];
    }
  }

  /** The loop's exit: no block left, or a short read, leaves nothing of the plan unsent. */
  lemma SendingDone(plan: seq<Call>, sent: seq<Call>, region: Region, rest: seq<byte>, size: u32,
                    blockSize: u32, blocks: u32, i: nat, script0: seq<Reply>)
    requires Sending(plan, sent, region, rest, size, blockSize, blocks, i, script0)
    requires i >= blocks || |rest| < BlockLen(size, blockSize, i)
    ensures Perform(Plan(plan, None), script0) == (Ok(()), |plan|) && plan[..|plan|] == sent
  {
    assert DataCalls(region, rest, size, blockSize, blocks, i) == [];
    assert plan == sent;
    assert Run(plan, script0) == (Ok(()), |plan|);
  }

  /** The block loop: read each block, stop at a short read, send it as a data call. */
  method SendBlocks(port: LoaderPort, region: Region, stream: seq<byte>, size: u32, blockSize: u32, blocks: u32)
    returns (r: Outcome<()>)
    modifies port
    ensures Performed(Plan(DataCalls(region, stream, size, blockSize, blocks, 0), None),
                      old(port.script), old(port.calls), r, port.calls, port.script)
  {
    ghost var script0 := port.script;
    ghost var plan := DataCalls(region, stream, size, blockSize, blocks, 0);
    ghost var sent: seq<Call> := [];
    assert plan == sent + plan;
    var i: nat := 0;
    var rest := stream;
    while i < blocks
      invariant Sending(plan, sent, region, rest, size, blockSize, blocks, i, script0)
      invariant port.calls == old(port.calls) + sent && port.script == Drop(script0, |sent|)
      decreases blocks - i
    {
      var len := BlockLen(size, blockSize, i);
      if |rest| < len {
        break;
      }
      var call := Data(region, rest[..len], i);
      var reply := port.Invoke(call);
      SendingStep(plan, sent, region, rest, size, blockSize, blocks, i, script0, len, reply);
      sent := sent + [call];
      if reply.Raised? {
        return Fail(reply.fault);
      }
      rest := rest[len..];
      i := i + 1;
    }
    SendingDone(plan, sent, region, rest, size, blockSize, blocks, i, script0);
    return Ok(());
  }

  /** A begin call, then the block loop unless the begin call threw. */
  method SendSegment(port: LoaderPort, region: Region, beginSize: u32, offset: u32, stream: seq<byte>,
                     size: u32, blockSize: u32, blocks: u32) returns (r: Outcome<()>)
    modifies port
    ensures Performed(SegmentPlan(region, beginSize, offset, stream, size, blockSize, blocks),
                      old(port.script), old(port.calls), r, port.calls, port.script)
  {
    ghost var script0, calls0 := port.script, port.calls;
    var begin := Begin(region, beginSize, blocks, blockSize, offset);
    DropStep(script0, 0);
    var reply := port.Invoke(begin);
    RunOne(begin, script0);
    var first := Plan([begin], None);
    assert Performed(first, script0, calls0, if reply.Raised? then Fail(reply.fault) else Ok(()), port.calls, port.script);
    ghost var calls1, script1 := port.calls, port.script;
    r := Ok(());
    if reply.Raised? {
      r := Fail(reply.fault);
    } else {
      r := SendBlocks(port, region, stream, size, blockSize, blocks);
    }
    PerformedThen(first, Plan(DataCalls(region, stream, size, blockSize, blocks, 0), None), script0, calls0,
                  if reply.Raised? then Fail(reply.fault) else Ok(()), calls1, script1, r, port.calls, port.script);
  }
}
