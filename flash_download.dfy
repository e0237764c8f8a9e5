/**
 * The flash download stream: a read-only stream over a range of flash. Each
 * read asks the stub loader for at most the bytes left in the range, copies
 * the data frames into the caller's buffer, acknowledges each with the bytes
 * received so far, advances the position and then checks the device's MD5
 * digest of the bytes, as `ReadFlashTool` does.
 *
 * The data phase (`FlashRead.DataPhase`) is the same one, here with a buffer
 * that bounds the bytes taken in and with `IOFailure` for a read that yields
 * no frame.
 */
module FlashDownload {
  import opened Common
  import opened LoaderCommands
  import opened Link
  import opened Port
  import opened FlashRead

  /** .NET arrays are indexed by `int`. */
  const MAX_ARRAY: int := 0x8000_0000

  /**
   * The bytes one read asks for: `count`, cut down to what is left before the
   * end of the range. The test is made in 64-bit arithmetic, so it cannot wrap.
   */
  function ReadSize(position: u32, totalSize: u32, count: int): (r: u32)
    requires position < totalSize && 0 <= count < MAX_ARRAY
    ensures r as int <= count && r <= totalSize - position
    ensures r as int == count || r == totalSize - position
  {
    if position as int + count >= totalSize as int then totalSize - position else count as u32
  }

  /** `s` with `data` written over it from index `at` on. */
  function Splice(s: seq<byte>, at: nat, data: seq<byte>): (r: seq<byte>)
    requires at + |data| <= |s|
    ensures |r| == |s| && r[at..at + |data|] == data
    ensures forall j :: 0 <= j < |s| && !(at <= j < at + |data|) ==> r[j] == s[j]
  {
    s[..at] + data + s[at + |data|..]
  }

  /** Writing two pieces one after the other is writing them joined. */
  lemma SpliceSnoc(s: seq<byte>, at: nat, a: seq<byte>, b: seq<byte>)
    requires at + |a| + |b| <= |s|
    ensures Splice(Splice(s, at, a), at + |a|, b) == Splice(s, at, a + b)
  {
    var left := Splice(Splice(s, at, a), at + |a|, b);
    var right := Splice(s, at, a + b);
    forall j | 0 <= j < |s|
      ensures left[j] == right[j]
    {
      if at <= j < at + |a| {
        assert right[at..at + |a| + |b|][j - at] == (a + b)[j - at];
        assert Splice(s, at, a)[at..at + |a|][j - at] == a[j - at];
      } else if at + |a| <= j < at + |a| + |b| {
        assert right[at..at + |a| + |b|][j - at] == (a + b)[j - at];
        assert left[at + |a|..at + |a| + |b|][j - at - |a|] == b[j - at - |a|];
      }
    }
  }

  /** `Array.Copy` of a whole frame into `buffer` at index `at`. */
  method CopyInto(buffer: array<byte>, at: int, data: seq<byte>)
    requires 0 <= at && at + |data| <= buffer.Length
    modifies buffer
    ensures buffer[..] == Splice(old(buffer[..]), at, data)
  {
    ghost var before := buffer[..];
    for i := 0 to |data|
      invariant forall j :: 0 <= j < buffer.Length ==> buffer[j] == (if at <= j < at + i then data[j - at] else before[j])
    {
      buffer[at + i] := data[i];
    }
    var after := Splice(before, at, data);
    forall j | 0 <= j < buffer.Length
      ensures buffer[j] == after[j]
    {
      if at <= j < at + |data| {
        assert after[at..at + |data|][j - at] == data[j - at];
      }
    }
    assert buffer[..] == after;
  }

  /** `uint` addition that stays below 2^32 does not wrap. */
  lemma Add32Exact(x: nat, n: nat)
    requires x + n < U32
    ensures Add32(x, n) == x + n
  {
  }

  /** The effect of one read that got past the end-of-range test. */
  datatype Download = Download(outcome: Outcome<int>, calls: seq<Call>, frames: seq<seq<byte>>, acked: nat,
                               pending: seq<ReadResult>, script: seq<Reply>)

  /**
   * After the read-begin call returned: the data phase into a buffer with
   * `room` bytes left, then the digest frame; the read returns `size`.
   */
  function Fetched(size: u32, room: nat, pending: seq<ReadResult>, script: seq<Reply>,
                   md5: seq<byte> -> seq<byte>): (r: Download)
    ensures r.acked <= |r.frames| && |Flatten(r.frames)| <= room
    ensures r.outcome.Ok? ==> r.outcome.value == size as int && r.acked == |r.frames|
  {
    var p := DataPhase(pending, script, size, 0, IOFailure, Some(room));
    DataPhaseFits(pending, script, size, 0, IOFailure, room);
    if p.outcome.Fail? then Download(Fail(p.outcome.fault), p.acks, p.frames, p.acked, p.pending, p.script)
    else
      var check := DigestCheck(md5(Flatten(p.frames)), Next(p.pending));
      var outcome := if check.Ok? then Ok(size as int) else Fail(check.fault);
      Download(outcome, p.acks, p.frames, p.acked, Rest(p.pending), p.script)
  }

  /** The read-begin call for `size` bytes at `position`, then the data and the digest. */
  function Started(position: u32, size: u32, room: nat, blockSize: u32, maxInFlight: u32,
                   pending: seq<ReadResult>, script: seq<Reply>, md5: seq<byte> -> seq<byte>): (r: Download)
    ensures |r.calls| >= 1 && r.calls[0] == FlashReadBegin(position, size, blockSize, maxInFlight)
    ensures r.acked <= |r.frames| && |Flatten(r.frames)| <= room
    ensures r.outcome.Ok? ==> r.outcome.value == size as int && r.acked == |r.frames|
  {
    var begin := FlashReadBegin(position, size, blockSize, maxInFlight);
    if Head(script).Raised? then Download(Fail(Head(script).fault), [begin], [], 0, pending, Tail(script))
    else
      var rest := Fetched(size, room, pending, Tail(script), md5);
      Download(rest.outcome, [begin] + rest.calls, rest.frames, rest.acked, rest.pending, rest.script)
  }

  /**
   * One `ReadAsync` of `count` bytes into a buffer with `room` bytes from the
   * offset on: nothing at all once the position has reached the end of the
   * range, otherwise the read of `ReadSize` bytes.
   */
  function DownloadRun(position: u32, totalSize: u32, count: int, room: nat, blockSize: u32, maxInFlight: u32,
                       pending: seq<ReadResult>, script: seq<Reply>, md5: seq<byte> -> seq<byte>): (r: Download)
    requires 0 <= count < MAX_ARRAY
    ensures r.acked <= |r.frames| && |Flatten(r.frames)| <= room
  {
    if position >= totalSize then Download(Ok(0), [], [], 0, pending, script)
    else Started(position, ReadSize(position, totalSize, count), room, blockSize, maxInFlight, pending, script, md5)
  }

  /**
   * At the end of the range a read returns 0 without a call or a frame;
   * otherwise the first call is the read-begin for the bytes left, cut to
   * `count`, and every later call acknowledges the running byte count.
   */
  lemma DownloadCalls(position: u32, totalSize: u32, count: int, room: nat, blockSize: u32, maxInFlight: u32,
                      pending: seq<ReadResult>, script: seq<Reply>, md5: seq<byte> -> seq<byte>)
    requires 0 <= count < MAX_ARRAY
    ensures var run := DownloadRun(position, totalSize, count, room, blockSize, maxInFlight, pending, script, md5);
      position >= totalSize ==> run == Download(Ok(0), [], [], 0, pending, script)
    ensures var run := DownloadRun(position, totalSize, count, room, blockSize, maxInFlight, pending, script, md5);
      position < totalSize ==>
        |run.calls| >= 1 &&
        run.calls[0] == FlashReadBegin(position, ReadSize(position, totalSize, count), blockSize, maxInFlight) &&
        AckCounts(run.frames, run.calls[1..], 0)
  {
    if position < totalSize {
      var size := ReadSize(position, totalSize, count);
      var run := DownloadRun(position, totalSize, count, room, blockSize, maxInFlight, pending, script, md5);
      if Head(script).Raised? {
        assert run.calls[1..] == [] && run.frames == [];
      } else {
        var p := DataPhase(pending, Tail(script), size, 0, IOFailure, Some(room));
        DataPhaseAcks(pending, Tail(script), size, 0, IOFailure, Some(room));
        assert run.calls[1..] == p.acks && run.frames == p.frames;
      }
    }
  }

  /**
   * A read that succeeds returns the bytes asked for, cut to the range; it
   * took in at least that many bytes and no more than the buffer holds, and
   * the device's digest agreed with the MD5 of exactly those bytes.
   */
  lemma DownloadSucceeds(position: u32, totalSize: u32, count: int, room: nat, blockSize: u32, maxInFlight: u32,
                         pending: seq<ReadResult>, script: seq<Reply>, md5: seq<byte> -> seq<byte>)
    requires 0 <= count < MAX_ARRAY && room < MAX_ARRAY && position < totalSize
    requires DownloadRun(position, totalSize, count, room, blockSize, maxInFlight, pending, script, md5).outcome.Ok?
    ensures var run := DownloadRun(position, totalSize, count, room, blockSize, maxInFlight, pending, script, md5);
      var size := ReadSize(position, totalSize, count);
      run.outcome.value == size as int && size as int <= |Flatten(run.frames)| <= room &&
      run.acked == |run.frames| && ReadAt(pending, |run.frames|).Got? &&
      var expected := ReadAt(pending, |run.frames|).frame;
      |md5(Flatten(run.frames))| >= 16 && |expected| >= 16 && md5(Flatten(run.frames))[..16] == expected[..16]
  {
    var size := ReadSize(position, totalSize, count);
    var p := DataPhase(pending, Tail(script), size, 0, IOFailure, Some(room));
    var rest := Fetched(size, room, pending, Tail(script), md5);
    assert Head(script).Answer? && rest.outcome.Ok?;
    assert p.outcome.Ok? && rest.frames == p.frames;
    DataPhaseStops(pending, Tail(script), size, 0, IOFailure, Some(room));
    DataPhaseFits(pending, Tail(script), size, 0, IOFailure, room);
    assert p.outcome.value == Add32(0, |Flatten(p.frames)|);
    Add32Exact(0, |Flatten(p.frames)|);
    PhaseLeavesReads(pending, Tail(script), size, 0, IOFailure, Some(room));
    var expected := Next(p.pending).frame;
    assert DigestsFrom(md5(Flatten(p.frames)), expected, 0).Ok?;
    DigestsMatchIff(md5(Flatten(p.frames)), expected);
  }

  /**
   * A range whose end passes 2^32 wraps its end (`size + address` in `uint`)
   * below its start, and reads from it return 0 at once.
   */
  lemma WrappedRangeIsEmpty(pending: seq<ReadResult>, script: seq<Reply>, md5: seq<byte> -> seq<byte>)
    ensures var totalSize := Add32(0xFFFF_F000, 0x2000);
      totalSize == 0x1000 &&
      DownloadRun(0xFFFF_F000, totalSize, 0x100, 0x100, 4096, 1, pending, script, md5).outcome == Ok(0)
  {
  }

  /**
   * What the frames taken in so far have done: the acknowledgements follow
   * `calls0`, the digest input is their bytes, the buffer holds them from
   * `offset` on, and the position has moved past them.
   */
  ghost predicate Accounts(frames: seq<seq<byte>>, acks: seq<Call>, calls: seq<Call>, calls0: seq<Call>,
                           hashed: seq<byte>, buf: seq<byte>, buf0: seq<byte>, offset: nat,
                           position: u32, position0: u32)
  {
    calls == calls0 + acks && hashed == Flatten(frames) && offset + |Flatten(frames)| <= |buf0| &&
    buf == Splice(buf0, offset, Flatten(frames)) && position == Add32(position0, |Flatten(frames)|)
  }

  /** One more frame, acknowledged. */
  lemma AccountsSnoc(frames: seq<seq<byte>>, acks: seq<Call>, data: seq<byte>, ack: Call, calls: seq<Call>,
                     calls0: seq<Call>, hashed: seq<byte>, buf: seq<byte>, buf0: seq<byte>, offset: nat,
                     position: u32, position0: u32)
    requires Accounts(frames, acks, calls, calls0, hashed, buf, buf0, offset, position, position0)
    requires offset + |Flatten(frames)| + |data| <= |buf0|
    ensures Accounts(frames + [data], acks + [ack], calls + [ack], calls0, hashed + data,
                     Splice(buf, offset + |Flatten(frames)|, data), buf0, offset, Add32(position, |data|), position0)
  {
    FlattenSnoc(frames, data);
    assert calls + [ack] == calls0 + (acks + [ack]);
    SpliceSnoc(buf0, offset, Flatten(frames), data);
    WrapAdd(position0, |Flatten(frames)|, |data|);
  }

  /** The phase ends in a pass that stops it: the pass's effects complete the whole phase's. */
  lemma AccountsConclude(whole: Phase, frames: seq<seq<byte>>, acks: seq<Call>, rest: Phase, r: Outcome<u32>,
                         calls': seq<Call>, script': seq<Reply>, pending': seq<ReadResult>, hashed': seq<byte>,
                         buf': seq<byte>, position': u32, calls: seq<Call>, calls0: seq<Call>, hashed: seq<byte>,
                         buf: seq<byte>, buf0: seq<byte>, offset: nat, position: u32, position0: u32)
    requires whole == After(frames, acks, rest) && |rest.frames| <= 1 && rest.acked == 0
    requires Accounts(frames, acks, calls, calls0, hashed, buf, buf0, offset, position, position0)
    requires Took(rest, r, calls', script', pending', hashed', buf', position', calls, hashed, buf,
                  offset + |Flatten(frames)|, position)
    requires |buf| == |buf0|
    ensures Took(whole, r, calls', script', pending', hashed', buf', position', calls0, [], buf0, offset, position0)
  {
    Conclude(whole, frames, acks, rest);
    var taken, last := Flatten(frames), Flatten(rest.frames);
    assert calls' == calls0 + whole.acks by {
      assert calls' == calls0 + acks + rest.acks;
    }
    assert buf' == Splice(buf0, offset, Flatten(whole.frames)) by {
      SpliceSnoc(buf0, offset, taken, last);
    }
    assert position' == Add32(position0, |Flatten(whole.frames[..whole.acked])|) by {
      assert whole.frames[..whole.acked] == frames;
      assert rest.frames[..0] == [];
      assert Flatten<byte>([]) == [];
      WrapAdd(position0, |taken|, 0);
    }
    assert hashed' == [] + Flatten(whole.frames);
  }

  /**
   * One pass of the download loop on values: the frame taken in and its
   * acknowledgement returned, or the way the phase stops.
   */
  function OneFrame(pending: seq<ReadResult>, script: seq<Reply>, size: u32, total: u32, room: nat): Phase
  {
    if Continues(pending, script, size, total, Some(room)) then
      var data := Next(pending).frame;
      var count := Add32(total, |data|);
      Phase(Ok(count), [data], [FlashReadAck(count)], 1, Rest(pending), Tail(script))
    else Stopped(pending, script, size, total, IOFailure, Some(room))
  }

  /**
   * The state after (part of) a data phase matches `p`: its result, the
   * acknowledgements sent after `calls0`, the replies and reads left, the
   * digest input and the buffer from `at` extended by every frame taken in,
   * and the position advanced past every frame whose acknowledgement returned.
   */
  ghost predicate Took(p: Phase, r: Outcome<u32>, calls: seq<Call>, script: seq<Reply>, pending: seq<ReadResult>,
                       hashed: seq<byte>, buf: seq<byte>, position: u32, calls0: seq<Call>, hashed0: seq<byte>,
                       buf0: seq<byte>, at: nat, position0: u32)
  {
    r == p.outcome && calls == calls0 + p.acks && script == p.script && pending == p.pending &&
    hashed == hashed0 + Flatten(p.frames) && at + |Flatten(p.frames)| <= |buf0| && p.acked <= |p.frames| &&
    buf == Splice(buf0, at, Flatten(p.frames)) && position == Add32(position0, |Flatten(p.frames[..p.acked])|)
  }

  /** A pass that takes in no frame leaves the digest input, the buffer and the position as they were. */
  lemma TookNothing(p: Phase, calls: seq<Call>, hashed: seq<byte>, buf: seq<byte>, position: u32, at: nat)
    requires p.frames == [] && p.acks == [] && p.acked == 0 && at <= |buf|
    ensures Took(p, p.outcome, calls, p.script, p.pending, hashed, buf, position, calls, hashed, buf, at, position)
  {
    assert Flatten<byte>([]) == [];
    assert buf == Splice(buf, at, []);
    assert calls + [] == calls && hashed + [] == hashed;
    Add32Exact(position, 0);
  }

  /** A pass that takes in one frame, acknowledged (`acked == 1`) or not. */
  lemma TookFrame(p: Phase, data: seq<byte>, calls0: seq<Call>, hashed0: seq<byte>, buf0: seq<byte>, at: nat,
                  position0: u32)
    requires p.frames == [data] && p.acked <= 1 && at + |data| <= |buf0|
    ensures Took(p, p.outcome, calls0 + p.acks, p.script, p.pending, hashed0 + data, Splice(buf0, at, data),
                 if p.acked == 1 then Add32(position0, |data|) else position0, calls0, hashed0, buf0, at, position0)
  {
    assert Flatten([data]) == data + Flatten<byte>([]);
    assert [data][..1] == [data] && [data][..0] == [];
    Add32Exact(position0, 0);
  }

  /** What a pass that took in one acknowledged frame did. */
  lemma TookOne(data: seq<byte>, count: u32, pending: seq<ReadResult>, script: seq<Reply>, r: Outcome<u32>,
                calls': seq<Call>, script': seq<Reply>, pending': seq<ReadResult>, hashed': seq<byte>,
                buf': seq<byte>, position': u32, calls: seq<Call>, hashed: seq<byte>, buf: seq<byte>, at: nat,
                position: u32)
    requires Took(Phase(Ok(count), [data], [FlashReadAck(count)], 1, Rest(pending), Tail(script)), r, calls',
                  script', pending', hashed', buf', position', calls, hashed, buf, at, position)
    ensures r == Ok(count) && calls' == calls + [FlashReadAck(count)] && script' == Tail(script) &&
      pending' == Rest(pending) && hashed' == hashed + data && at + |data| <= |buf| &&
      buf' == Splice(buf, at, data) && position' == Add32(position, |data|)
  {
    assert Flatten([data]) == data + Flatten<byte>([]);
    assert [data][..1] == [data];
  }

  /**
   * The download loop's invariant on values: `whole` is what was done so far
   * followed by the phase from the current count, the count is the bytes
   * taken in, and the calls, the digest input, the buffer and the position
   * reflect them.
   */
  ghost predicate Fills(whole: Phase, size: u32, total: u32, frames: seq<seq<byte>>, acks: seq<Call>,
                        pending: seq<ReadResult>, script: seq<Reply>, calls: seq<Call>, calls0: seq<Call>,
                        hashed: seq<byte>, buf: seq<byte>, buf0: seq<byte>, offset: nat,
                        position: u32, position0: u32)
  {
    offset + total as int <= |buf0| && |buf| == |buf0| && total as int == |Flatten(frames)| &&
    whole == After(frames, acks, DataPhase(pending, script, size, total, IOFailure, Some(|buf0| - offset - total as int))) &&
    Accounts(frames, acks, calls, calls0, hashed, buf, buf0, offset, position, position0)
  }

  /** The loop's entry: nothing done yet. */
  lemma FillStart(whole: Phase, size: u32, pending: seq<ReadResult>, script: seq<Reply>, calls0: seq<Call>,
                  buf0: seq<byte>, offset: nat, position0: u32)
    requires offset <= |buf0| && whole == DataPhase(pending, script, size, 0, IOFailure, Some(|buf0| - offset))
    ensures Fills(whole, size, 0, [], [], pending, script, calls0, calls0, [], buf0, buf0, offset, position0, position0)
  {
    AfterNothing(whole);
    assert Flatten<byte>([]) == [];
    assert buf0 == Splice(buf0, offset, []);
    assert calls0 + [] == calls0;
    Add32Exact(position0, 0);
  }

  /** The loop's exit: the count has reached `size`, and the phase ends with what was done. */
  lemma FillDone(whole: Phase, size: u32, total: u32, frames: seq<seq<byte>>, acks: seq<Call>,
                 pending: seq<ReadResult>, script: seq<Reply>, calls: seq<Call>, calls0: seq<Call>,
                 hashed: seq<byte>, buf: seq<byte>, buf0: seq<byte>, offset: nat, position: u32, position0: u32)
    requires Fills(whole, size, total, frames, acks, pending, script, calls, calls0, hashed, buf, buf0, offset,
                   position, position0)
    requires total >= size
    ensures Took(whole, Ok(total), calls, script, pending, hashed, buf, position, calls0, [], buf0, offset, position0)
  {
    Finish(whole, frames, acks, pending, script, size, total, IOFailure, Some(|buf0| - offset - total as int));
    assert whole.frames[..whole.acked] == frames;
    assert [] + hashed == hashed;
  }

  /** One pass of the loop, on values: the invariant goes on, or the phase ends as the pass does. */
  lemma FillStep(whole: Phase, size: u32, total: u32, frames: seq<seq<byte>>, acks: seq<Call>,
                 pending: seq<ReadResult>, script: seq<Reply>, calls: seq<Call>, calls0: seq<Call>,
                 hashed: seq<byte>, buf: seq<byte>, buf0: seq<byte>, offset: nat, position: u32, position0: u32,
                 r: Outcome<u32>, calls': seq<Call>, script': seq<Reply>, pending': seq<ReadResult>,
                 hashed': seq<byte>, buf': seq<byte>, position': u32)
    requires Fills(whole, size, total, frames, acks, pending, script, calls, calls0, hashed, buf, buf0, offset,
                   position, position0)
    requires total < size && |buf0| < MAX_ARRAY
    requires Took(OneFrame(pending, script, size, total, |buf0| - offset - total as int), r, calls', script',
                  pending', hashed', buf', position', calls, hashed, buf, offset + total as int, position)
    ensures r.Ok? ==>
      Continues(pending, script, size, total, Some(|buf0| - offset - total as int)) && |pending'| < |pending| &&
      Fills(whole, size, r.value, frames + [Next(pending).frame], acks + [FlashReadAck(r.value)], pending',
            script', calls', calls0, hashed', buf', buf0, offset, position', position0)
    ensures r.Fail? ==>
      Took(whole, r, calls', script', pending', hashed', buf', position', calls0, [], buf0, offset, position0)
  {
    var room := |buf0| - offset - total as int;
    if Continues(pending, script, size, total, Some(room)) {
      var data := Next(pending).frame;
      var count := Add32(total, |data|);
      assert OneFrame(pending, script, size, total, room) ==
        Phase(Ok(count), [data], [FlashReadAck(count)], 1, Rest(pending), Tail(script));
      TookOne(data, count, pending, script, r, calls', script', pending', hashed', buf', position', calls, hashed,
              buf, offset + total as int, position);
      FillOk(whole, size, total, frames, acks, pending, script, calls, calls0, hashed, buf, buf0, offset, position,
             position0);
    } else {
      var rest := Stopped(pending, script, size, total, IOFailure, Some(room));
      DataPhaseStopped(pending, script, size, total, IOFailure, Some(room));
      AccountsConclude(whole, frames, acks, rest, r, calls', script', pending', hashed', buf', position', calls,
                       calls0, hashed, buf, buf0, offset, position, position0);
    }
  }

  /** A pass that goes on: the invariant holds from the new count. */
  lemma FillOk(whole: Phase, size: u32, total: u32, frames: seq<seq<byte>>, acks: seq<Call>,
               pending: seq<ReadResult>, script: seq<Reply>, calls: seq<Call>, calls0: seq<Call>,
               hashed: seq<byte>, buf: seq<byte>, buf0: seq<byte>, offset: nat, position: u32, position0: u32)
    requires Fills(whole, size, total, frames, acks, pending, script, calls, calls0, hashed, buf, buf0, offset,
                   position, position0)
    requires |buf0| < MAX_ARRAY && Continues(pending, script, size, total, Some(|buf0| - offset - total as int))
    ensures var data := Next(pending).frame; var count := Add32(total, |data|);
      |Rest(pending)| < |pending| && offset + total as int + |data| <= |buf| &&
      Fills(whole, size, count, frames + [data], acks + [FlashReadAck(count)], Rest(pending), Tail(script),
            calls + [FlashReadAck(count)], calls0, hashed + data, Splice(buf, offset + total as int, data), buf0,
            offset, Add32(position, |data|), position0)
  {
    var room := |buf0| - offset - total as int;
    var data := Next(pending).frame;
    var count := Add32(total, |data|);
    Add32Exact(total, |data|);
    assert count as int == total as int + |data|;
    assert Shrink(Some(room), |data|) == Some(|buf0| - offset - count as int);
    Advance(whole, frames, acks, pending, script, size, total, IOFailure, Some(room));
    AccountsSnoc(frames, acks, data, FlashReadAck(count), calls, calls0, hashed, buf, buf0, offset, position,
                 position0);
    assert count as int == |Flatten(frames + [data])|;
  }

  /**
   * The state after a read matches `run`: its result, the calls made after
   * `calls0`, the replies and reads left, the buffer written from `offset`
   * with every frame taken in, and the position advanced past every frame
   * whose acknowledgement returned.
   */
  ghost predicate Ended(run: Download, r: Outcome<int>, calls: seq<Call>, script: seq<Reply>,
                        pending: seq<ReadResult>, buf: seq<byte>, position: u32, calls0: seq<Call>,
                        buf0: seq<byte>, offset: nat, position0: u32)
  {
    r == run.outcome && calls == calls0 + run.calls && script == run.script && pending == run.pending &&
    offset + |Flatten(run.frames)| <= |buf0| && run.acked <= |run.frames| &&
    buf == Splice(buf0, offset, Flatten(run.frames)) && position == Add32(position0, |Flatten(run.frames[..run.acked])|)
  }

  /** A run that ends before its first frame leaves the buffer and the position as they were. */
  lemma EndedEarly(run: Download, buf: seq<byte>, offset: nat, position: u32, calls0: seq<Call>)
    requires run.frames == [] && run.acked == 0 && offset <= |buf|
    ensures Ended(run, run.outcome, calls0 + run.calls, run.script, run.pending, buf, position, calls0, buf, offset,
                  position)
  {
    assert Flatten<byte>([]) == [];
    assert buf == Splice(buf, offset, []);
    assert run.frames[..0] == [];
  }

  /** A run after the read-begin call: the call comes first, the rest is unchanged. */
  lemma EndedAfterBegin(begin: Call, rest: Download, r: Outcome<int>, calls: seq<Call>, script: seq<Reply>,
                        pending: seq<ReadResult>, buf: seq<byte>, position: u32, calls0: seq<Call>,
                        buf0: seq<byte>, offset: nat, position0: u32)
    requires Ended(rest, r, calls, script, pending, buf, position, calls0 + [begin], buf0, offset, position0)
    ensures Ended(Download(rest.outcome, [begin] + rest.calls, rest.frames, rest.acked, rest.pending, rest.script),
                  r, calls, script, pending, buf, position, calls0, buf0, offset, position0)
  {
    assert calls0 + [begin] + rest.calls == calls0 + ([begin] + rest.calls);
  }

  /** The tool: the loader and the channel it reads through, and the read parameters. */
  class FlashDownloadTool {
    const loader: LoaderPort
    const com: Communicator
    var blockSize: u32
    var maxInFlight: u32

    constructor(loader: LoaderPort, com: Communicator)
      ensures this.loader == loader && this.com == com && blockSize == 4096 && maxInFlight == 1
    {
      this.loader := loader;
      this.com := com;
      blockSize := 4096;
      maxInFlight := 1;
    }

    /** `OpenFlashReadStream`: a stream positioned at `address`, ending `size` bytes on. */
    method OpenFlashReadStream(address: u32, size: u32) returns (s: FlashReadStream)
      ensures fresh(s) && s.tool == this && s.position == address && s.totalSize == Add32(size, address)
    {
      s := new FlashReadStream(this, address, size);
    }
  }

  /** `FlashReadStream`: a forward-only stream over `[address, size + address)`. */
  class FlashReadStream {
    const tool: FlashDownloadTool
    const totalSize: u32
    var position: u32

    constructor(tool: FlashDownloadTool, address: u32, size: u32)
      ensures this.tool == tool && position == address && totalSize == Add32(size, address)
    {
      this.tool := tool;
      position := address;
      totalSize := Add32(size, address);
    }

    /** `Length`: the end of the range, counted from address 0. */
    function Length(): (r: int)
      ensures r == totalSize as int && 0 <= r < U32
    {
      totalSize as int
    }

    /** `Position`'s getter. */
    function Position(): (r: int)
      reads this
      ensures r == position as int && 0 <= r < U32
    {
      position as int
    }

    /** The stream can be read, but not written or sought. */
    function CanRead(): bool { true }
    function CanSeek(): bool { false }
    function CanWrite(): bool { false }

    /** `Position`'s setter, `Flush`, `Seek`, `SetLength` and `Write` all throw `NotSupportedException`. */
    method SetPosition(value: int) returns (r: Outcome<()>)
      ensures r == Fail(NotSupported)
    {
      r := Fail(NotSupported);
    }

    method Flush() returns (r: Outcome<()>)
      ensures r == Fail(NotSupported)
    {
      r := Fail(NotSupported);
    }

    method Seek(offset: int, origin: int) returns (r: Outcome<int>)
      ensures r == Fail(NotSupported)
    {
      r := Fail(NotSupported);
    }

    method SetLength(value: int) returns (r: Outcome<()>)
      ensures r == Fail(NotSupported)
    {
      r := Fail(NotSupported);
    }

    method Write(buffer: array<byte>, offset: int, count: int) returns (r: Outcome<()>)
      ensures r == Fail(NotSupported)
    {
      r := Fail(NotSupported);
    }

    /**
     * `ReadAsync` (and `Read`, which waits for it): at most `count` bytes of
     * the range into `buffer` from `offset` on. The buffer receives every frame
     * taken in; the position advances by each frame whose acknowledgement
     * returned.
     */
    method Read(buffer: array<byte>, offset: int, count: int, md5: seq<byte> -> seq<byte>) returns (r: Outcome<int>)
      requires 0 <= offset <= buffer.Length < MAX_ARRAY && 0 <= count < MAX_ARRAY
      modifies this, tool.loader, tool.com, buffer
      ensures Ended(DownloadRun(old(position), totalSize, count, buffer.Length - offset, tool.blockSize,
                                tool.maxInFlight, old(tool.com.Pending()), old(tool.loader.script), md5),
                    r, tool.loader.calls, tool.loader.script, tool.com.Pending(), buffer[..], position,
                    old(tool.loader.calls), old(buffer[..]), offset, old(position))
    {
      if position >= totalSize {
        EndedEarly(Download(Ok(0), [], [], 0, tool.com.Pending(), tool.loader.script), buffer[..], offset, position,
                   tool.loader.calls);
        assert tool.loader.calls + [] == tool.loader.calls;
        return Ok(0);
      }
      var size: u32 := count as u32;
      if position as int + count >= totalSize as int {
        size := totalSize - position;
      }
      r := Start(size, buffer, offset, md5);
    }

    /** The read-begin call, then the data and the digest. */
    method Start(size: u32, buffer: array<byte>, offset: int, md5: seq<byte> -> seq<byte>) returns (r: Outcome<int>)
      requires 0 <= offset <= buffer.Length < MAX_ARRAY
      modifies this, tool.loader, tool.com, buffer
      ensures Ended(Started(old(position), size, buffer.Length - offset, tool.blockSize, tool.maxInFlight,
                            old(tool.com.Pending()), old(tool.loader.script), md5),
                    r, tool.loader.calls, tool.loader.script, tool.com.Pending(), buffer[..], position,
                    old(tool.loader.calls), old(buffer[..]), offset, old(position))
    {
      var begin := FlashReadBegin(position, size, tool.blockSize, tool.maxInFlight);
      ghost var run := Started(position, size, buffer.Length - offset, tool.blockSize, tool.maxInFlight,
                               tool.com.Pending(), tool.loader.script, md5);
      ghost var calls0 := tool.loader.calls;
      var reply := tool.loader.Invoke(begin);
      if reply.Raised? {
        EndedEarly(run, buffer[..], offset, position, calls0);
        return Fail(reply.fault);
      }
      ghost var rest := Fetched(size, buffer.Length - offset, tool.com.Pending(), tool.loader.script, md5);
      assert run == Download(rest.outcome, [begin] + rest.calls, rest.frames, rest.acked, rest.pending, rest.script);
      ghost var buf0, position0 := buffer[..], position;
      r := Fetch(size, buffer, offset, md5);
      EndedAfterBegin(begin, rest, r, tool.loader.calls, tool.loader.script, tool.com.Pending(), buffer[..], position,
                      calls0, buf0, offset, position0);
    }

    /** The data loop, then the digest check; on success the read returns `size`. */
    method Fetch(size: u32, buffer: array<byte>, offset: int, md5: seq<byte> -> seq<byte>) returns (r: Outcome<int>)
      requires 0 <= offset <= buffer.Length < MAX_ARRAY
      modifies this, tool.loader, tool.com, buffer
      ensures Ended(Fetched(size, buffer.Length - offset, old(tool.com.Pending()), old(tool.loader.script), md5),
                    r, tool.loader.calls, tool.loader.script, tool.com.Pending(), buffer[..], position,
                    old(tool.loader.calls), old(buffer[..]), offset, old(position))
    {
      ghost var p := DataPhase(tool.com.Pending(), tool.loader.script, size, 0, IOFailure, Some(buffer.Length - offset));
      var received, hashed := ReceiveData(size, buffer, offset);
      assert hashed == [] + Flatten(p.frames) == Flatten(p.frames);
      if received.Fail? {
        return Fail(received.fault);
      }
      var check := VerifyMd5(hashed, md5);
      if check.Fail? {
        return Fail(check.fault);
      }
      r := Ok(size as int);
    }

    /** The data loop of `ReadAsync`. */
    method ReceiveData(size: u32, buffer: array<byte>, offset: int) returns (r: Outcome<u32>, hashed: seq<byte>)
      requires 0 <= offset <= buffer.Length < MAX_ARRAY
      modifies this, tool.loader, tool.com, buffer
      ensures Took(DataPhase(old(tool.com.Pending()), old(tool.loader.script), size, 0, IOFailure,
                             Some(buffer.Length - offset)),
                   r, tool.loader.calls, tool.loader.script, tool.com.Pending(), hashed, buffer[..], position,
                   old(tool.loader.calls), [], old(buffer[..]), offset, old(position))
    {
      ghost var whole := DataPhase(tool.com.Pending(), tool.loader.script, size, 0, IOFailure,
                                   Some(buffer.Length - offset));
      ghost var calls0, buf0, position0 := tool.loader.calls, buffer[..], position;
      ghost var frames: seq<seq<byte>>, acks: seq<Call> := [], [];
      FillStart(whole, size, tool.com.Pending(), tool.loader.script, calls0, buf0, offset, position0);
      hashed := [];
      var bytesRead: u32 := 0;
      while bytesRead < size
        invariant Progress(buffer, offset, size, bytesRead, hashed, whole, frames, acks, calls0, buf0, position0)
        decreases |tool.com.Pending()|
      {
        var step;
        step, hashed, frames, acks := Pass(buffer, offset, size, bytesRead, hashed, whole, frames, acks, calls0,
                                           buf0, position0);
        if step.Fail? {
          return step, hashed;
        }
        bytesRead := step.value;
      }
      FillDone(whole, size, bytesRead, frames, acks, tool.com.Pending(), tool.loader.script, tool.loader.calls,
               calls0, hashed, buffer[..], buf0, offset, position, position0);
      r := Ok(bytesRead);
    }

    /** The download loop's invariant, `Fills` on the current state. */
    ghost predicate Progress(buffer: array<byte>, offset: int, size: u32, total: u32, hashed: seq<byte>, whole: Phase,
                             frames: seq<seq<byte>>, acks: seq<Call>, calls0: seq<Call>, buf0: seq<byte>,
                             position0: u32)
      reads this, tool, tool.loader, tool.com, buffer
    {
      0 <= offset && |buf0| == buffer.Length &&
      Fills(whole, size, total, frames, acks, tool.com.Pending(), tool.loader.script, tool.loader.calls, calls0,
            hashed, buffer[..], buf0, offset, position, position0)
    }

    /** One pass of the download loop, with what it does to the loop's invariant. */
    method Pass(buffer: array<byte>, offset: int, size: u32, total: u32, hashed: seq<byte>, ghost whole: Phase,
                ghost frames: seq<seq<byte>>, ghost acks: seq<Call>, ghost calls0: seq<Call>, ghost buf0: seq<byte>,
                ghost position0: u32)
      returns (r: Outcome<u32>, hashed': seq<byte>, ghost frames': seq<seq<byte>>, ghost acks': seq<Call>)
      requires buffer.Length < MAX_ARRAY && total < size
      requires Progress(buffer, offset, size, total, hashed, whole, frames, acks, calls0, buf0, position0)
      modifies this, tool.loader, tool.com, buffer
      ensures r.Ok? ==> |tool.com.Pending()| < old(|tool.com.Pending()|)
      ensures r.Ok? ==> Progress(buffer, offset, size, r.value, hashed', whole, frames', acks', calls0, buf0, position0)
      ensures r.Fail? ==>
        Took(whole, r, tool.loader.calls, tool.loader.script, tool.com.Pending(), hashed', buffer[..], position,
             calls0, [], buf0, offset, position0)
    {
      ghost var pending, script, calls, buf := tool.com.Pending(), tool.loader.script, tool.loader.calls, buffer[..];
      r, hashed' := ReceiveFrame(buffer, offset, size, total, hashed);
      FillStep(whole, size, total, frames, acks, pending, script, calls, calls0, hashed, buf, buf0, offset,
               old(position), position0, r, tool.loader.calls, tool.loader.script, tool.com.Pending(), hashed',
               buffer[..], position);
      frames', acks' := frames, acks;
      if r.Ok? {
        frames', acks' := frames + [Next(pending).frame], acks + [FlashReadAck(r.value)];
      }
    }

    /**
     * One pass of the download loop: read a frame, then copy, hash and
     * acknowledge it. On failure, the effects are those of the phase that
     * ends there.
     */
    method ReceiveFrame(buffer: array<byte>, offset: int, size: u32, total: u32, hashed: seq<byte>)
      returns (r: Outcome<u32>, hashed': seq<byte>)
      requires 0 <= offset && offset + total as int <= buffer.Length < MAX_ARRAY && total < size
      modifies this, tool.loader, tool.com, buffer
      ensures Took(OneFrame(old(tool.com.Pending()), old(tool.loader.script), size, total,
                            buffer.Length - offset - total as int),
                   r, tool.loader.calls, tool.loader.script, tool.com.Pending(), hashed', buffer[..], position,
                   old(tool.loader.calls), hashed, old(buffer[..]), offset + total as int, old(position))
    {
      ghost var pending, script := tool.com.Pending(), tool.loader.script;
      var frame := tool.com.ReadFrame();
      var at := offset + total as int;
      ghost var room := buffer.Length - at;
      if !frame.Got? {
        ghost var p := Phase(Fail(FrameOf(frame, IOFailure).fault), [], [], 0, Rest(pending), script);
        assert OneFrame(pending, script, size, total, room) == p;
        TookNothing(p, tool.loader.calls, hashed, buffer[..], position, at);
        return Fail(FrameOf(frame, IOFailure).fault), hashed;
      }
      var data := frame.frame;
      if |data| > buffer.Length - at {
        ghost var p := Phase(Fail(BadArgument), [], [], 0, Rest(pending), script);
        assert OneFrame(pending, script, size, total, room) == p;
        TookNothing(p, tool.loader.calls, hashed, buffer[..], position, at);
        return Fail(BadArgument), hashed;
      }
      ghost var calls0, buf0, position0 := tool.loader.calls, buffer[..], position;
      ghost var count := Add32(total, |data|);
      ghost var p := if Head(script).Answer? then Phase(Ok(count), [data], [FlashReadAck(count)], 1, Rest(pending), Tail(script))
                     else Phase(Fail(Head(script).fault), [data], [FlashReadAck(count)], 0, Rest(pending), Tail(script));
      assert OneFrame(pending, script, size, total, room) == p;
      r, hashed' := TakeIn(buffer, at, data, total, hashed);
      TookFrame(p, data, calls0, hashed, buf0, at, position0);
    }

    /**
     * Copy a frame into the buffer, hash it, acknowledge the new count and,
     * once the acknowledgement returns, advance the position.
     */
    method TakeIn(buffer: array<byte>, at: int, data: seq<byte>, total: u32, hashed: seq<byte>)
      returns (r: Outcome<u32>, hashed': seq<byte>)
      requires 0 <= at && at + |data| <= buffer.Length
      modifies this, tool.loader, buffer
      ensures buffer[..] == Splice(old(buffer[..]), at, data) && hashed' == hashed + data
      ensures tool.loader.calls == old(tool.loader.calls) + [FlashReadAck(Add32(total, |data|))]
      ensures tool.loader.script == Tail(old(tool.loader.script))
      ensures Head(old(tool.loader.script)).Raised? ==>
        r == Fail(Head(old(tool.loader.script)).fault) && position == old(position)
      ensures Head(old(tool.loader.script)).Answer? ==>
        r == Ok(Add32(total, |data|)) && position == Add32(old(position), |data|)
    {
      CopyInto(buffer, at, data);
      hashed' := hashed + data;
      var count := Add32(total, |data|);
      var reply := tool.loader.Invoke(FlashReadAck(count));
      if reply.Raised? {
        return Fail(reply.fault), hashed';
      }
      position := Add32(position, |data|);
      r := Ok(count);
    }

    /** `VerifyMd5Async`: one more frame, compared with the digest of the bytes read. */
    method VerifyMd5(hashed: seq<byte>, md5: seq<byte> -> seq<byte>) returns (r: Outcome<()>)
      modifies tool.com
      ensures r == DigestCheck(md5(hashed), old(Next(tool.com.Pending())))
      ensures tool.com.Pending() == Rest(old(tool.com.Pending()))
    {
      var hashFrame := tool.com.ReadFrame();
      var computedHash := md5(hashed);
      if !hashFrame.Got? {
        return Fail(FrameOf(hashFrame, Failure).fault);
      }
      r := CompareDigests(computedHash, hashFrame.frame);
    }
  }
}
