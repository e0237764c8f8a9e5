/**
 * Reading flash through the stub loader. After one read-begin call the device
 * streams data frames; the host acknowledges each with the running byte count
 * and stops once that count reaches the size asked for. One more frame then
 * carries the device's MD5 digest of the data, whose first 16 bytes must
 * equal the host's own.
 *
 * The data phase and the digest check are shared by `ReadFlashTool` (below)
 * and by the download stream (module FlashDownload). MD5 is a library call
 * and appears as a function parameter.
 */
module FlashRead {
  import opened Common
  import opened LoaderCommands
  import opened Link
  import opened Port

  /**
   * A frame read as the flash-read loops see it: the frame's data or the
   * exception. A read that yields no frame raises `missing`, which differs
   * between the two tools.
   */
  function FrameOf(r: ReadResult, missing: Fault): Outcome<seq<byte>>
  {
    match r
    case Got(frame) => Ok(frame)
    case Missing => Fail(missing)
    case Cancelled => Fail(Canceled)
    case Faulted => Fail(IOFailure)
  }

  /**
   * The data phase's effect: the final count or the exception, the frames
   * taken in, the acknowledgements sent, how many of those returned, and the
   * reads and replies left over.
   */
  datatype Phase = Phase(outcome: Outcome<u32>, frames: seq<seq<byte>>, acks: seq<Call>, acked: nat,
                         pending: seq<ReadResult>, script: seq<Reply>)

  /** Frames and acknowledgements already done, followed by the rest of a phase. */
  function After(frames: seq<seq<byte>>, acks: seq<Call>, rest: Phase): Phase
  {
    Phase(rest.outcome, frames + rest.frames, acks + rest.acks, |frames| + rest.acked, rest.pending, rest.script)
  }

  lemma AfterNothing(rest: Phase)
    ensures After([], [], rest) == rest
  {
    assert [] + rest.frames == rest.frames && [] + rest.acks == rest.acks;
  }

  lemma AfterAfter(frames: seq<seq<byte>>, acks: seq<Call>, frame: seq<byte>, ack: Call, rest: Phase)
    ensures After(frames, acks, After([frame], [ack], rest)) == After(frames + [frame], acks + [ack], rest)
  {
    assert frames + ([frame] + rest.frames) == (frames + [frame]) + rest.frames;
    assert acks + ([ack] + rest.acks) == (acks + [ack]) + rest.acks;
  }

  /** `total + n` in `uint` arithmetic, which wraps around at 2^32. */
  function Add32(total: int, n: int): u32
  {
    (total + n) % U32
  }

  /** Whether `n` more bytes fit in the room left (always, without a buffer). */
  predicate Fits(room: Option<nat>, n: nat)
  {
    room.None? || n <= room.value
  }

  /** The room left after `n` more bytes. */
  function Shrink(room: Option<nat>, n: nat): Option<nat>
    requires Fits(room, n)
  {
    if room.Some? then Some(room.value - n) else None
  }

  /**
   * Whether the phase takes in the next frame and goes on: the count is below
   * `size`, the read yields a frame, the frame fits and its acknowledgement
   * returns.
   */
  predicate Continues(pending: seq<ReadResult>, script: seq<Reply>, size: u32, total: u32, room: Option<nat>)
  {
    total < size && Next(pending).Got? && Fits(room, |Next(pending).frame|) && Head(script).Answer?
  }

  /**
   * How the phase ends when it does not go on: at once with the count when it
   * has reached `size`; with the read's exception; with `BadArgument` for a
   * frame that does not fit; or, the frame taken in, with the exception its
   * acknowledgement raised.
   */
  function Stopped(pending: seq<ReadResult>, script: seq<Reply>, size: u32, total: u32, missing: Fault,
                   room: Option<nat>): (r: Phase)
    requires !Continues(pending, script, size, total, room)
    ensures |r.frames| <= 1 && |r.acks| == |r.frames| && r.acked == 0 && (r.outcome.Ok? <==> total >= size)
  {
    if total >= size then Phase(Ok(total), [], [], 0, pending, script)
    else if !Next(pending).Got? then Phase(Fail(FrameOf(Next(pending), missing).fault), [], [], 0, Rest(pending), script)
    else if !Fits(room, |Next(pending).frame|) then Phase(Fail(BadArgument), [], [], 0, Rest(pending), script)
    else
      var data := Next(pending).frame;
      Phase(Fail(Head(script).fault), [data], [FlashReadAck(Add32(total, |data|))], 0, Rest(pending), Tail(script))
  }

  /**
   * The data loop from a running count `total`: while the count is below
   * `size`, read a frame, take it in (into a buffer with `room` bytes left,
   * when there is one), count it with `uint` wrap-around and acknowledge the
   * new count.
   */
  function DataPhase(pending: seq<ReadResult>, script: seq<Reply>, size: u32, total: u32, missing: Fault,
                     room: Option<nat>): (r: Phase)
    ensures |r.acks| == |r.frames| && r.acked <= |r.frames|
    ensures r.outcome.Ok? ==> r.acked == |r.frames|
    decreases |pending|
  {
    if Continues(pending, script, size, total, room) then
      var data := Next(pending).frame;
      var count := Add32(total, |data|);
      After([data], [FlashReadAck(count)], DataPhase(Rest(pending), Tail(script), size, count, missing, Shrink(room, |data|)))
    else Stopped(pending, script, size, total, missing, room)
  }

  /** One step of a phase that goes on. */
  lemma DataPhaseStep(pending: seq<ReadResult>, script: seq<Reply>, size: u32, total: u32, missing: Fault,
                      room: Option<nat>)
    requires Continues(pending, script, size, total, room)
    ensures var data := Next(pending).frame; var count := Add32(total, |data|);
      DataPhase(pending, script, size, total, missing, room) ==
        After([data], [FlashReadAck(count)], DataPhase(Rest(pending), Tail(script), size, count, missing, Shrink(room, |data|)))
  {
  }

  /** A phase that does not go on is the way it stops. */
  lemma DataPhaseStopped(pending: seq<ReadResult>, script: seq<Reply>, size: u32, total: u32, missing: Fault,
                         room: Option<nat>)
    requires !Continues(pending, script, size, total, room)
    ensures DataPhase(pending, script, size, total, missing, room) == Stopped(pending, script, size, total, missing, room)
  {
  }

  /** A loop pass that goes on: one more frame and acknowledgement done, the phase continues from the new count. */
  lemma Advance(whole: Phase, frames: seq<seq<byte>>, acks: seq<Call>, pending: seq<ReadResult>, script: seq<Reply>,
                size: u32, total: u32, missing: Fault, room: Option<nat>)
    requires whole == After(frames, acks, DataPhase(pending, script, size, total, missing, room))
    requires Continues(pending, script, size, total, room)
    ensures var data := Next(pending).frame; var count := Add32(total, |data|);
      whole == After(frames + [data], acks + [FlashReadAck(count)],
                     DataPhase(Rest(pending), Tail(script), size, count, missing, Shrink(room, |data|))) &&
      Flatten(frames + [data]) == Flatten(frames) + data
  {
    var data := Next(pending).frame;
    var count := Add32(total, |data|);
    DataPhaseStep(pending, script, size, total, missing, room);
    AfterAfter(frames, acks, data, FlashReadAck(count), DataPhase(Rest(pending), Tail(script), size, count, missing, Shrink(room, |data|)));
    FlattenSnoc(frames, data);
  }

  /** A loop pass that stops the phase early: the whole phase ends as the rest does. */
  lemma Conclude(whole: Phase, frames: seq<seq<byte>>, acks: seq<Call>, rest: Phase)
    requires whole == After(frames, acks, rest) && |rest.frames| <= 1
    ensures whole.outcome == rest.outcome && whole.acks == acks + rest.acks && whole.pending == rest.pending &&
      whole.script == rest.script && Flatten(whole.frames) == Flatten(frames) + Flatten(rest.frames)
  {
    if rest.frames == [] {
      assert frames + rest.frames == frames;
      assert Flatten(rest.frames) == [];
    } else {
      FlattenSnoc(frames, rest.frames[0]);
      assert rest.frames == [rest.frames[0]];
      assert Flatten(rest.frames) == rest.frames[0] + Flatten<byte>([]);
    }
  }

  /** The loop's exit: the count has reached `size`, so the phase is what was done so far. */
  lemma Finish(whole: Phase, frames: seq<seq<byte>>, acks: seq<Call>, pending: seq<ReadResult>, script: seq<Reply>,
               size: u32, total: u32, missing: Fault, room: Option<nat>)
    requires whole == After(frames, acks, DataPhase(pending, script, size, total, missing, room)) && total >= size
    ensures whole == Phase(Ok(total), frames, acks, |frames|, pending, script)
  {
    DataPhaseStopped(pending, script, size, total, missing, room);
    assert frames + [] == frames && acks + [] == acks;
  }

  /** The frames taken in are exactly the frames read, in order. */
  lemma {:induction false} DataPhaseFrames(pending: seq<ReadResult>, script: seq<Reply>, size: u32, total: u32,
                                           missing: Fault, room: Option<nat>)
    ensures var p := DataPhase(pending, script, size, total, missing, room);
      forall k :: 0 <= k < |p.frames| ==> ReadAt(pending, k) == Got(p.frames[k])
    decreases |pending|
  {
    var p := DataPhase(pending, script, size, total, missing, room);
    if Continues(pending, script, size, total, room) {
      var data := Next(pending).frame;
      var count := Add32(total, |data|);
      DataPhaseStep(pending, script, size, total, missing, room);
      DataPhaseFrames(Rest(pending), Tail(script), size, count, missing, Shrink(room, |data|));
      var rest := DataPhase(Rest(pending), Tail(script), size, count, missing, Shrink(room, |data|));
      assert p.frames == [data] + rest.frames;
      forall k | 0 <= k < |p.frames|
        ensures ReadAt(pending, k) == Got(p.frames[k])
      {
        if k > 0 {
          assert ReadAt(pending, k) == ReadAt(Rest(pending), k - 1);
        }
      }
    } else {
      DataPhaseStopped(pending, script, size, total, missing, room);
    }
  }

  /**
   * Acknowledgement `k` carries the running count after frame `k`: the
   * starting count plus the lengths of the frames up to and including it,
   * modulo 2^32.
   */
  predicate AckCounts(frames: seq<seq<byte>>, acks: seq<Call>, total: int)
  {
    |acks| == |frames| &&
    forall k :: 0 <= k < |acks| ==> acks[k] == FlashReadAck(Add32(total, |Flatten(frames[..k + 1])|))
  }

  lemma AckCountsCons(data: seq<byte>, frames: seq<seq<byte>>, acks: seq<Call>, total: nat)
    requires AckCounts(frames, acks, Add32(total, |data|))
    ensures AckCounts([data] + frames, [FlashReadAck(Add32(total, |data|))] + acks, total)
  {
    var frames', acks' := [data] + frames, [FlashReadAck(Add32(total, |data|))] + acks;
    forall k | 0 <= k < |acks'|
      ensures acks'[k] == FlashReadAck(Add32(total, |Flatten(frames'[..k + 1])|))
    {
      assert frames'[..k + 1] == [data] + frames[..k];
      assert Flatten(frames'[..k + 1]) == data + Flatten(frames[..k]);
      WrapAdd(total, |data|, |Flatten(frames[..k])|);
      if k > 0 {
        assert acks'[k] == acks[k - 1];
      } else {
        assert Flatten(frames[..0]) == [];
      }
    }
  }

  lemma {:induction false} DataPhaseAcks(pending: seq<ReadResult>, script: seq<Reply>, size: u32, total: u32,
                                         missing: Fault, room: Option<nat>)
    ensures var p := DataPhase(pending, script, size, total, missing, room); AckCounts(p.frames, p.acks, total)
    decreases |pending|
  {
    if Continues(pending, script, size, total, room) {
      var data := Next(pending).frame;
      var count := Add32(total, |data|);
      DataPhaseStep(pending, script, size, total, missing, room);
      DataPhaseAcks(Rest(pending), Tail(script), size, count, missing, Shrink(room, |data|));
      var rest := DataPhase(Rest(pending), Tail(script), size, count, missing, Shrink(room, |data|));
      AckCountsCons(data, rest.frames, rest.acks, total);
    } else {
      DataPhaseStopped(pending, script, size, total, missing, room);
      var p := Stopped(pending, script, size, total, missing, room);
      if |p.frames| == 1 {
        assert p.frames[..1] == [p.frames[0]];
        assert Flatten(p.frames[..1]) == p.frames[0] + Flatten<byte>([]);
      }
    }
  }

  /** Wrapping after each addition is wrapping once at the end. */
  lemma WrapAdd(x: nat, y: nat, z: nat)
    ensures Add32(Add32(x, y), z) == Add32(x, y + z)
  {
    var q := (x + y) / U32;
    assert x + y == q * U32 + Add32(x, y);
    assert x + y + z == q * U32 + (Add32(x, y) + z);
    ShiftMod(q, Add32(x, y) + z);
  }

  lemma {:induction false} ShiftMod(q: nat, v: nat)
    ensures (q * U32 + v) % U32 == v % U32
  {
    if q > 0 {
      ShiftMod(q - 1, v + U32);
      assert q * U32 + v == (q - 1) * U32 + (v + U32);
    }
  }

  /** The running count before each frame was below `size`. */
  predicate CountsBelow(frames: seq<seq<byte>>, total: int, size: int)
  {
    forall k :: 0 <= k < |frames| ==> Add32(total, |Flatten(frames[..k])|) < size
  }

  lemma CountsBelowCons(data: seq<byte>, frames: seq<seq<byte>>, total: nat, size: int)
    requires total < size && CountsBelow(frames, Add32(total, |data|), size)
    ensures CountsBelow([data] + frames, total, size)
  {
    var frames' := [data] + frames;
    forall k | 0 <= k < |frames'|
      ensures Add32(total, |Flatten(frames'[..k])|) < size
    {
      if k > 0 {
        assert frames'[..k] == [data] + frames[..k - 1];
        assert Flatten(frames'[..k]) == data + Flatten(frames[..k - 1]);
        WrapAdd(total, |data|, |Flatten(frames[..k - 1])|);
      } else {
        assert Flatten(frames'[..0]) == [];
      }
    }
  }

  /**
   * The phase ends as soon as the running count reaches `size`: on success the
   * final count is the starting count plus every frame's length (modulo
   * 2^32), it is at least `size`, and the count before every frame was below
   * `size`. Surplus bytes in the last frame are kept.
   */
  lemma {:induction false} DataPhaseStops(pending: seq<ReadResult>, script: seq<Reply>, size: u32, total: u32,
                                          missing: Fault, room: Option<nat>)
    ensures var p := DataPhase(pending, script, size, total, missing, room);
      p.outcome.Ok? ==>
        p.outcome.value == Add32(total, |Flatten(p.frames)|) && p.outcome.value >= size &&
        CountsBelow(p.frames, total, size)
    decreases |pending|
  {
    if Continues(pending, script, size, total, room) {
      var data := Next(pending).frame;
      var count := Add32(total, |data|);
      DataPhaseStep(pending, script, size, total, missing, room);
      DataPhaseStops(Rest(pending), Tail(script), size, count, missing, Shrink(room, |data|));
      var rest := DataPhase(Rest(pending), Tail(script), size, count, missing, Shrink(room, |data|));
      if rest.outcome.Ok? {
        StopsCons(data, rest.frames, total, size, rest.outcome.value);
      }
    } else {
      DataPhaseStopped(pending, script, size, total, missing, room);
      if total >= size {
        assert Stopped(pending, script, size, total, missing, room) == Phase(Ok(total), [], [], 0, pending, script);
        assert Flatten<byte>([]) == [];
      }
    }
  }

  /** The running count after one more frame in front. */
  lemma StopsCons(data: seq<byte>, frames: seq<seq<byte>>, total: u32, size: u32, final: u32)
    requires total < size && CountsBelow(frames, Add32(total, |data|), size)
    requires final == Add32(Add32(total, |data|), |Flatten(frames)|)
    ensures final == Add32(total, |Flatten([data] + frames)|) && CountsBelow([data] + frames, total, size)
  {
    CountsBelowCons(data, frames, total, size);
    assert Flatten([data] + frames) == data + Flatten(frames);
    WrapAdd(total, |data|, |Flatten(frames)|);
  }

  /** With a buffer, the frames taken in fit in the room it had. */
  lemma {:induction false} DataPhaseFits(pending: seq<ReadResult>, script: seq<Reply>, size: u32, total: u32,
                                         missing: Fault, room: nat)
    ensures |Flatten(DataPhase(pending, script, size, total, missing, Some(room)).frames)| <= room
    decreases |pending|
  {
    var p := DataPhase(pending, script, size, total, missing, Some(room));
    if Continues(pending, script, size, total, Some(room)) {
      var data := Next(pending).frame;
      var count := Add32(total, |data|);
      DataPhaseStep(pending, script, size, total, missing, Some(room));
      DataPhaseFits(Rest(pending), Tail(script), size, count, missing, room - |data|);
      var rest := DataPhase(Rest(pending), Tail(script), size, count, missing, Some(room - |data|));
      assert p.frames == [data] + rest.frames;
      assert Flatten(p.frames) == data + Flatten(rest.frames);
    } else {
      DataPhaseStopped(pending, script, size, total, missing, Some(room));
      if |p.frames| == 1 {
        assert p.frames == [p.frames[0]];
        assert Flatten(p.frames) == p.frames[0] + Flatten<byte>([]);
      }
    }
  }

  lemma {:induction false} FlattenPrefixLength(parts: seq<seq<byte>>, j: nat, k: nat)
    requires j <= k <= |parts|
    ensures |Flatten(parts[..j])| <= |Flatten(parts[..k])|
    ensures k == j + 1 ==> |Flatten(parts[..k])| == |Flatten(parts[..j])| + |parts[j]|
    decreases k - j
  {
    if j < k {
      assert parts[..j + 1] == parts[..j] + [parts[j]];
      FlattenSnoc(parts[..j], parts[j]);
      FlattenPrefixLength(parts, j + 1, k);
    }
  }

  /**
   * While the running count does not pass 2^32, the acknowledged counts never
   * decrease, and each one acknowledging a non-empty frame is larger than the
   * one before.
   */
  lemma AckCountsIncrease(frames: seq<seq<byte>>, acks: seq<Call>, total: nat)
    requires AckCounts(frames, acks, total) && total + |Flatten(frames)| < U32
    ensures forall j, k :: 0 <= j < k < |acks| ==>
      acks[j].FlashReadAck? && acks[k].FlashReadAck? && acks[j].received <= acks[k].received
    ensures forall k :: 0 < k < |acks| && frames[k] != [] ==>
      acks[k - 1].FlashReadAck? && acks[k].FlashReadAck? && acks[k - 1].received < acks[k].received
  {
    forall j, k | 0 <= j < k < |acks|
      ensures acks[j].FlashReadAck? && acks[k].FlashReadAck? && acks[j].received <= acks[k].received
    {
      AckValue(frames, acks, total, j);
      AckValue(frames, acks, total, k);
      FlattenPrefixLength(frames, j + 1, k + 1);
    }
    forall k | 0 < k < |acks| && frames[k] != []
      ensures acks[k - 1].FlashReadAck? && acks[k].FlashReadAck? && acks[k - 1].received < acks[k].received
    {
      AckValue(frames, acks, total, k - 1);
      AckValue(frames, acks, total, k);
      FlattenPrefixLength(frames, k, k + 1);
    }
  }

  /** Without wrap-around, acknowledgement `k` is the plain running count. */
  lemma AckValue(frames: seq<seq<byte>>, acks: seq<Call>, total: nat, k: nat)
    requires AckCounts(frames, acks, total) && total + |Flatten(frames)| < U32 && k < |acks|
    ensures acks[k].FlashReadAck? && acks[k].received == total + |Flatten(frames[..k + 1])|
  {
    FlattenPrefixLength(frames, k + 1, |frames|);
    assert frames[..|frames|] == frames;
  }

  /** A frame longer than what was asked for is accepted whole: one frame of two bytes completes a one-byte read. */
  lemma SurplusAccepted(reply: Reply)
    requires reply.Answer?
    ensures var p := DataPhase([Got([7, 8])], [reply], 1, 0, InvalidOperation, None);
      p.outcome == Ok(2) && p.frames == [[7, 8]] && p.acks == [FlashReadAck(2)]
  {
    var p := DataPhase([Got([7, 8])], [reply], 1, 0, InvalidOperation, None);
    assert Rest([Got([7, 8])]) == [];
    assert DataPhase([], Tail([reply]), 1, 2, InvalidOperation, None) == Phase(Ok(2), [], [], 0, [], Tail([reply]));
  }

  /**
   * The digest comparison: the first 16 bytes of the host's digest against
   * the device's, stopping at the first difference (`InvalidOperation`) or at
   * a digest too short to index (`IndexOutOfRange`).
   */
  function DigestsFrom(computed: seq<byte>, expected: seq<byte>, i: nat): Outcome<()>
    requires i <= 16
    decreases 16 - i
  {
    if i == 16 then Ok(())
    else if i >= |computed| || i >= |expected| then Fail(IndexOutOfRange)
    else if computed[i] != expected[i] then Fail(InvalidOperation)
    else DigestsFrom(computed, expected, i + 1)
  }

  /** Both digests have byte `j`, and it is the same. */
  predicate Agree(computed: seq<byte>, expected: seq<byte>, j: nat)
  {
    j < |computed| && j < |expected| && computed[j] == expected[j]
  }

  lemma {:induction false} DigestsFromIff(computed: seq<byte>, expected: seq<byte>, i: nat)
    requires i <= 16
    ensures DigestsFrom(computed, expected, i).Ok? <==> forall j :: i <= j < 16 ==> Agree(computed, expected, j)
    ensures |computed| >= 16 && |expected| >= 16 ==> DigestsFrom(computed, expected, i) != Fail(IndexOutOfRange)
    decreases 16 - i
  {
    if i < 16 {
      if Agree(computed, expected, i) {
        DigestsFromIff(computed, expected, i + 1);
      } else {
        assert DigestsFrom(computed, expected, i).Fail?;
      }
    }
  }

  /**
   * The check passes exactly when both digests have 16 bytes and those agree;
   * with two full digests that differ, it fails with `InvalidOperation`.
   */
  lemma DigestsMatchIff(computed: seq<byte>, expected: seq<byte>)
    ensures DigestsFrom(computed, expected, 0).Ok? <==>
      |computed| >= 16 && |expected| >= 16 && computed[..16] == expected[..16]
    ensures |computed| >= 16 && |expected| >= 16 && computed[..16] != expected[..16] ==>
      DigestsFrom(computed, expected, 0) == Fail(InvalidOperation)
  {
    DigestsFromIff(computed, expected, 0);
    if |computed| >= 16 && |expected| >= 16 {
      AgreeUpTo16(computed, expected);
    } else if |computed| < 16 {
      assert !Agree(computed, expected, |computed|);
    } else {
      assert !Agree(computed, expected, |expected|);
    }
  }

  /** For two full digests, agreeing on each of the first 16 bytes is equal prefixes. */
  lemma AgreeUpTo16(computed: seq<byte>, expected: seq<byte>)
    requires |computed| >= 16 && |expected| >= 16
    ensures (forall j :: 0 <= j < 16 ==> Agree(computed, expected, j)) <==> computed[..16] == expected[..16]
  {
    if forall j :: 0 <= j < 16 ==> Agree(computed, expected, j) {
      forall j | 0 <= j < 16
        ensures computed[..16][j] == expected[..16][j]
      {
        assert Agree(computed, expected, j);
      }
    }
    if computed[..16] == expected[..16] {
      forall j | 0 <= j < 16
        ensures Agree(computed, expected, j)
      {
        assert computed[..16][j] == expected[..16][j];
      }
    }
  }

  /** `VerifyMd5Async`'s last step: the device's digest frame against the host's digest. */
  function DigestCheck(computed: seq<byte>, hashFrame: ReadResult): Outcome<()>
  {
    match FrameOf(hashFrame, Failure)
    case Fail(f) => Fail(f)
    case Ok(expected) => DigestsFrom(computed, expected, 0)
  }

  /** The comparison loop over the first 16 bytes. */
  method CompareDigests(computed: seq<byte>, expected: seq<byte>) returns (r: Outcome<()>)
    ensures r == DigestsFrom(computed, expected, 0)
  {
    var i := 0;
    while i < 16
      invariant i <= 16 && DigestsFrom(computed, expected, 0) == DigestsFrom(computed, expected, i)
    {
      if i >= |computed| || i >= |expected| {
        return Fail(IndexOutOfRange);
      }
      if computed[i] != expected[i] {
        return Fail(InvalidOperation);
      }
      i := i + 1;
    }
    r := Ok(());
  }

  /** A writable (or not) output stream that keeps what is written to it. */
  class Sink {
    const canWrite: bool
    var written: seq<byte>

    constructor(canWrite: bool)
      ensures this.canWrite == canWrite && written == []
    {
      this.canWrite := canWrite;
      written := [];
    }

    method Write(data: seq<byte>)
      modifies this
      ensures written == old(written) + data
    {
      written := written + data;
    }
  }

  /** `MD5Stream`: passes every write on to the sink and feeds the same bytes to the digest. */
  class HashingSink {
    const base: Sink
    var hashed: seq<byte>

    constructor(base: Sink)
      ensures this.base == base && hashed == []
    {
      this.base := base;
      hashed := [];
    }

    /** `Write`: the digest sees exactly what the sink receives. */
    method Write(data: seq<byte>)
      modifies this, base
      ensures hashed == old(hashed) + data && base.written == old(base.written) + data
    {
      hashed := hashed + data;
      base.Write(data);
    }

    /** `FinalizeAndGetHash`: the digest of everything written. */
    function Digest(md5: seq<byte> -> seq<byte>): seq<byte>
      reads this
    {
      md5(hashed)
    }
  }

  /** The whole of `ReadFlashAsync` once the output stream is accepted. */
  datatype Run = Run(outcome: Outcome<()>, calls: seq<Call>, frames: seq<seq<byte>>,
                     pending: seq<ReadResult>, script: seq<Reply>)

  /** After a read-begin call that returned: the data phase from a count of 0, then the digest frame. */
  function AfterBegin(size: u32, pending: seq<ReadResult>, script: seq<Reply>, md5: seq<byte> -> seq<byte>): Run
  {
    var p := DataPhase(pending, script, size, 0, InvalidOperation, None);
    if p.outcome.Fail? then Run(Fail(p.outcome.fault), p.acks, p.frames, p.pending, p.script)
    else Run(DigestCheck(md5(Flatten(p.frames)), Next(p.pending)), p.acks, p.frames, Rest(p.pending), p.script)
  }

  /**
   * One read-begin call, the data phase from a count of 0, and then the
   * digest frame checked against the MD5 of the frames taken in.
   */
  function ReadFlashRun(address: u32, size: u32, blockSize: u32, maxInFlight: u32, pending: seq<ReadResult>,
                        script: seq<Reply>, md5: seq<byte> -> seq<byte>): Run
  {
    var begin := FlashReadBegin(address, size, blockSize, maxInFlight);
    if Head(script).Raised? then Run(Fail(Head(script).fault), [begin], [], pending, Tail(script))
    else
      var rest := AfterBegin(size, pending, Tail(script), md5);
      Run(rest.outcome, [begin] + rest.calls, rest.frames, rest.pending, rest.script)
  }

  /**
   * Exactly one read-begin call is made, with the tool's block size and
   * in-flight limit, and it comes first; every later call is an
   * acknowledgement.
   */
  lemma ReadFlashCalls(address: u32, size: u32, blockSize: u32, maxInFlight: u32, pending: seq<ReadResult>,
                       script: seq<Reply>, md5: seq<byte> -> seq<byte>)
    ensures var run := ReadFlashRun(address, size, blockSize, maxInFlight, pending, script, md5);
      |run.calls| >= 1 && run.calls[0] == FlashReadBegin(address, size, blockSize, maxInFlight) &&
      forall k :: 1 <= k < |run.calls| ==> run.calls[k].FlashReadAck?
  {
    if Head(script).Answer? {
      var p := DataPhase(pending, Tail(script), size, 0, InvalidOperation, None);
      DataPhaseAcks(pending, Tail(script), size, 0, InvalidOperation, None);
      var run := ReadFlashRun(address, size, blockSize, maxInFlight, pending, script, md5);
      assert run.calls == [FlashReadBegin(address, size, blockSize, maxInFlight)] + p.acks;
      forall k | 1 <= k < |run.calls|
        ensures run.calls[k].FlashReadAck?
      {
        assert run.calls[k] == p.acks[k - 1];
      }
    }
  }

  /**
   * A read that succeeds took in at least `size` bytes (when the count does
   * not wrap), and the device's digest agreed with the MD5 of exactly those
   * bytes.
   */
  lemma ReadFlashSucceeds(address: u32, size: u32, blockSize: u32, maxInFlight: u32, pending: seq<ReadResult>,
                          script: seq<Reply>, md5: seq<byte> -> seq<byte>)
    requires ReadFlashRun(address, size, blockSize, maxInFlight, pending, script, md5).outcome.Ok?
    ensures var run := ReadFlashRun(address, size, blockSize, maxInFlight, pending, script, md5);
      (|Flatten(run.frames)| < U32 ==> |Flatten(run.frames)| >= size) &&
      ReadAt(pending, |run.frames|).Got? &&
      var expected := ReadAt(pending, |run.frames|).frame;
      |md5(Flatten(run.frames))| >= 16 && |expected| >= 16 && md5(Flatten(run.frames))[..16] == expected[..16]
  {
    var run := ReadFlashRun(address, size, blockSize, maxInFlight, pending, script, md5);
    var p := DataPhase(pending, Tail(script), size, 0, InvalidOperation, None);
    var rest := AfterBegin(size, pending, Tail(script), md5);
    assert Head(script).Answer? && run.frames == rest.frames && run.outcome == rest.outcome;
    assert p.outcome.Ok? && rest.frames == p.frames;
    assert rest.outcome == DigestCheck(md5(Flatten(p.frames)), Next(p.pending));
    DataPhaseStops(pending, Tail(script), size, 0, InvalidOperation, None);
    PhaseLeavesReads(pending, Tail(script), size, 0, InvalidOperation, None);
    assert Next(p.pending).Got?;
    var expected := Next(p.pending).frame;
    assert DigestsFrom(md5(Flatten(p.frames)), expected, 0).Ok?;
    DigestsMatchIff(md5(Flatten(p.frames)), expected);
    assert ReadAt(pending, |run.frames|) == Got(expected);
  }

  /** A phase that succeeds consumed exactly one read per frame. */
  lemma {:induction false} PhaseLeavesReads(pending: seq<ReadResult>, script: seq<Reply>, size: u32, total: u32,
                                            missing: Fault, room: Option<nat>)
    ensures var p := DataPhase(pending, script, size, total, missing, room);
      p.outcome.Ok? ==> Next(p.pending) == ReadAt(pending, |p.frames|)
    decreases |pending|
  {
    if Continues(pending, script, size, total, room) {
      var data := Next(pending).frame;
      var count := Add32(total, |data|);
      DataPhaseStep(pending, script, size, total, missing, room);
      PhaseLeavesReads(Rest(pending), Tail(script), size, count, missing, Shrink(room, |data|));
      var rest := DataPhase(Rest(pending), Tail(script), size, count, missing, Shrink(room, |data|));
      assert ReadAt(pending, 1 + |rest.frames|) == ReadAt(Rest(pending), |rest.frames|);
    } else {
      DataPhaseStopped(pending, script, size, total, missing, room);
    }
  }

  /**
   * The data loop's invariant on values: `whole` is what was done so far
   * followed by the phase from the current count, and the calls, the digest
   * input and the sink reflect what was done so far.
   */
  ghost predicate Tracks(whole: Phase, size: u32, total: u32, frames: seq<seq<byte>>, acks: seq<Call>,
                         pending: seq<ReadResult>, script: seq<Reply>, calls: seq<Call>, calls0: seq<Call>,
                         hashed: seq<byte>, written: seq<byte>, written0: seq<byte>)
  {
    whole == After(frames, acks, DataPhase(pending, script, size, total, InvalidOperation, None)) &&
    calls == calls0 + acks && hashed == Flatten(frames) && written == written0 + Flatten(frames)
  }

  lemma StepOk(whole: Phase, size: u32, total: u32, frames: seq<seq<byte>>, acks: seq<Call>,
               pending: seq<ReadResult>, script: seq<Reply>, calls: seq<Call>, calls0: seq<Call>,
               hashed: seq<byte>, written: seq<byte>, written0: seq<byte>)
    requires Tracks(whole, size, total, frames, acks, pending, script, calls, calls0, hashed, written, written0)
    requires Continues(pending, script, size, total, None)
    ensures var data := Next(pending).frame; var count := Add32(total, |data|);
      Tracks(whole, size, count, frames + [data], acks + [FlashReadAck(count)], Rest(pending), Tail(script),
             calls + [FlashReadAck(count)], calls0, hashed + data, written + data, written0)
  {
    var data := Next(pending).frame;
    var count := Add32(total, |data|);
    assert Shrink(None, |data|) == None;
    Advance(whole, frames, acks, pending, script, size, total, InvalidOperation, None);
    assert calls + [FlashReadAck(count)] == calls0 + (acks + [FlashReadAck(count)]);
    assert written + data == written0 + (Flatten(frames) + data);
  }

  lemma StepFail(whole: Phase, frames: seq<seq<byte>>, acks: seq<Call>, rest: Phase, calls: seq<Call>,
                 calls0: seq<Call>, hashed: seq<byte>, written: seq<byte>, written0: seq<byte>)
    requires whole == After(frames, acks, rest) && |rest.frames| <= 1
    requires calls == calls0 + acks && hashed == Flatten(frames) && written == written0 + Flatten(frames)
    ensures whole.outcome == rest.outcome && calls + rest.acks == calls0 + whole.acks && whole.script == rest.script &&
      whole.pending == rest.pending && hashed + Flatten(rest.frames) == Flatten(whole.frames) &&
      written + Flatten(rest.frames) == written0 + Flatten(whole.frames)
  {
    Conclude(whole, frames, acks, rest);
    assert calls + rest.acks == calls0 + (acks + rest.acks);
    assert written + Flatten(rest.frames) == written0 + (Flatten(frames) + Flatten(rest.frames));
  }

  class ReadFlashTool {
    const port: LoaderPort
    const com: Communicator
    var sectorSize: u32
    var blockSize: u32
    var maxInFlight: u32

    constructor(port: LoaderPort, com: Communicator)
      ensures this.port == port && this.com == com
      ensures sectorSize == 4096 && blockSize == 4096 && maxInFlight == 1
    {
      this.port := port;
      this.com := com;
      sectorSize := 4096;
      blockSize := 4096;
      maxInFlight := 1;
    }

    /**
     * `ReadFlashAsync`: a missing or read-only output stream is rejected before
     * anything is sent; otherwise the output receives every data frame in
     * order, whatever happens afterwards.
     */
    method ReadFlash(address: u32, size: u32, output: Sink?, md5: seq<byte> -> seq<byte>) returns (r: Outcome<()>)
      modifies port, com, output
      ensures output == null ==>
        r == Fail(ArgumentNull) && port.calls == old(port.calls) && port.script == old(port.script) &&
        com.Pending() == old(com.Pending())
      ensures output != null && !output.canWrite ==>
        r == Fail(BadArgument) && port.calls == old(port.calls) && port.script == old(port.script) &&
        com.Pending() == old(com.Pending()) && output.written == old(output.written)
      ensures output != null && output.canWrite ==>
        var run := ReadFlashRun(address, size, blockSize, maxInFlight, old(com.Pending()), old(port.script), md5);
        r == run.outcome && port.calls == old(port.calls) + run.calls && port.script == run.script &&
        com.Pending() == run.pending && output.written == old(output.written) + Flatten(run.frames)
    {
      if output == null {
        return Fail(ArgumentNull);
      }
      if !output.canWrite {
        return Fail(BadArgument);
      }
      r := Transfer(address, size, output, md5);
    }

    /** `ReadFlashAsync` past its argument checks: begin, data loop, digest check. */
    method Transfer(address: u32, size: u32, output: Sink, md5: seq<byte> -> seq<byte>) returns (r: Outcome<()>)
      modifies port, com, output
      ensures var run := ReadFlashRun(address, size, blockSize, maxInFlight, old(com.Pending()), old(port.script), md5);
        r == run.outcome && port.calls == old(port.calls) + run.calls && port.script == run.script &&
        com.Pending() == run.pending && output.written == old(output.written) + Flatten(run.frames)
    {
      var begin := FlashReadBegin(address, size, blockSize, maxInFlight);
      ghost var run := ReadFlashRun(address, size, blockSize, maxInFlight, com.Pending(), port.script, md5);
      ghost var calls0 := port.calls;
      var reply := port.Invoke(begin);
      if reply.Raised? {
        assert Flatten<byte>([]) == [];
        return Fail(reply.fault);
      }
      ghost var rest := AfterBegin(size, com.Pending(), port.script, md5);
      assert run == Run(rest.outcome, [begin] + rest.calls, rest.frames, rest.pending, rest.script);
      r := ReadAfterBegin(size, output, md5);
      assert port.calls == calls0 + [begin] + rest.calls;
    }

    /** The data loop and the digest check, through an `MD5Stream` over the output. */
    method ReadAfterBegin(size: u32, output: Sink, md5: seq<byte> -> seq<byte>) returns (r: Outcome<()>)
      modifies port, com, output
      ensures var run := AfterBegin(size, old(com.Pending()), old(port.script), md5);
        r == run.outcome && port.calls == old(port.calls) + run.calls && port.script == run.script &&
        com.Pending() == run.pending && output.written == old(output.written) + Flatten(run.frames)
    {
      var md5Stream := new HashingSink(output);
      var received := ReceiveData(md5Stream, size);
      if received.Fail? {
        return Fail(received.fault);
      }
      r := VerifyMd5(md5Stream, md5);
    }

    /** The data loop of `ReadFlashAsync` (its `ReadFlashBlockAsync` calls included). */
    method ReceiveData(md5Stream: HashingSink, size: u32) returns (r: Outcome<u32>)
      requires md5Stream.hashed == []
      modifies port, com, md5Stream, md5Stream.base
      ensures var p := DataPhase(old(com.Pending()), old(port.script), size, 0, InvalidOperation, None);
        r == p.outcome && port.calls == old(port.calls) + p.acks && port.script == p.script &&
        com.Pending() == p.pending && md5Stream.hashed == Flatten(p.frames) &&
        md5Stream.base.written == old(md5Stream.base.written) + Flatten(p.frames)
    {
      ghost var whole := DataPhase(com.Pending(), port.script, size, 0, InvalidOperation, None);
      ghost var calls0, written0 := port.calls, md5Stream.base.written;
      ghost var frames: seq<seq<byte>>, acks: seq<Call> := [], [];
      AfterNothing(whole);
      var totalReceived: u32 := 0;
      while totalReceived < size
        invariant Progress(md5Stream, size, totalReceived, whole, frames, acks, calls0, written0)
        decreases |com.Pending()|
      {
        var step;
        step, frames, acks := Pass(md5Stream, size, totalReceived, whole, frames, acks, calls0, written0);
        if step.Fail? {
          return step;
        }
        totalReceived := step.value;
      }
      Finish(whole, frames, acks, com.Pending(), port.script, size, totalReceived, InvalidOperation, None);
      r := Ok(totalReceived);
    }

    /** The data loop's invariant, `Tracks` on the current state. */
    ghost predicate Progress(md5Stream: HashingSink, size: u32, total: u32, whole: Phase, frames: seq<seq<byte>>,
                             acks: seq<Call>, calls0: seq<Call>, written0: seq<byte>)
      reads this, port, com, md5Stream, md5Stream.base
    {
      Tracks(whole, size, total, frames, acks, com.Pending(), port.script, port.calls, calls0,
             md5Stream.hashed, md5Stream.base.written, written0)
    }

    /** One pass of the data loop, with what it does to the loop's invariant. */
    method Pass(md5Stream: HashingSink, size: u32, total: u32, ghost whole: Phase, ghost frames: seq<seq<byte>>,
                ghost acks: seq<Call>, ghost calls0: seq<Call>, ghost written0: seq<byte>)
      returns (r: Outcome<u32>, ghost frames': seq<seq<byte>>, ghost acks': seq<Call>)
      requires total < size && Progress(md5Stream, size, total, whole, frames, acks, calls0, written0)
      modifies port, com, md5Stream, md5Stream.base
      ensures r.Ok? ==> |com.Pending()| < old(|com.Pending()|)
      ensures r.Ok? ==> Progress(md5Stream, size, r.value, whole, frames', acks', calls0, written0)
      ensures r.Fail? ==>
        r == whole.outcome && port.calls == calls0 + whole.acks && port.script == whole.script &&
        com.Pending() == whole.pending && md5Stream.hashed == Flatten(whole.frames) &&
        md5Stream.base.written == written0 + Flatten(whole.frames)
    {
      ghost var pending, script, calls, hashed, written :=
        com.Pending(), port.script, port.calls, md5Stream.hashed, md5Stream.base.written;
      r := ReceiveFrame(md5Stream, size, total);
      if r.Fail? {
        DataPhaseStopped(pending, script, size, total, InvalidOperation, None);
        StepFail(whole, frames, acks, Stopped(pending, script, size, total, InvalidOperation, None), calls, calls0,
                 hashed, written, written0);
        return r, frames, acks;
      }
      StepOk(whole, size, total, frames, acks, pending, script, calls, calls0, hashed, written, written0);
      frames', acks' := frames + [Next(pending).frame], acks + [FlashReadAck(r.value)];
    }

    /**
     * One pass of the data loop: read a frame, hash and write it, acknowledge
     * the new count. On failure, the effects are those of the phase that ends
     * there.
     */
    method ReceiveFrame(md5Stream: HashingSink, size: u32, total: u32) returns (r: Outcome<u32>)
      requires total < size
      modifies port, com, md5Stream, md5Stream.base
      ensures r.Ok? ==> Continues(old(com.Pending()), old(port.script), size, total, None)
      ensures r.Ok? ==> var data := Next(old(com.Pending())).frame;
        r.value == Add32(total, |data|) && port.calls == old(port.calls) + [FlashReadAck(r.value)] &&
        com.Pending() == Rest(old(com.Pending())) && port.script == Tail(old(port.script)) &&
        md5Stream.hashed == old(md5Stream.hashed) + data &&
        md5Stream.base.written == old(md5Stream.base.written) + data
      ensures r.Fail? ==> !Continues(old(com.Pending()), old(port.script), size, total, None)
      ensures r.Fail? ==> var p := Stopped(old(com.Pending()), old(port.script), size, total, InvalidOperation, None);
        r == p.outcome && port.calls == old(port.calls) + p.acks && com.Pending() == p.pending &&
        port.script == p.script && md5Stream.hashed == old(md5Stream.hashed) + Flatten(p.frames) &&
        md5Stream.base.written == old(md5Stream.base.written) + Flatten(p.frames)
    {
      ghost var pending0, script0 := com.Pending(), port.script;
      var frame := com.ReadFrame();
      if !frame.Got? {
        assert Flatten<byte>([]) == [];
        return Fail(FrameOf(frame, InvalidOperation).fault);
      }
      var data := frame.frame;
      md5Stream.Write(data);
      var count := Add32(total, |data|);
      var reply := port.Invoke(FlashReadAck(count));
      if reply.Raised? {
        assert Flatten([data]) == data + Flatten<byte>([]);
        return Fail(reply.fault);
      }
      r := Ok(count);
    }

    /** `VerifyMd5Async`: one more frame, compared with the digest of everything written. */
    method VerifyMd5(stream: HashingSink, md5: seq<byte> -> seq<byte>) returns (r: Outcome<()>)
      modifies com
      ensures r == DigestCheck(stream.Digest(md5), old(Next(com.Pending()))) && com.Pending() == Rest(old(com.Pending()))
    {
      var hashFrame := com.ReadFrame();
      var computedHash := stream.Digest(md5);
      if !hashFrame.Got? {
        return Fail(FrameOf(hashFrame, Failure).fault);
      }
      r := CompareDigests(computedHash, hashFrame.frame);
    }
  }
}
