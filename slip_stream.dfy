/**
 * The streaming SLIP codec of the older communication layer: a decoder that
 * is fed one received byte at a time and raises a frame event whenever a
 * delimiter closes a non-empty frame, and an encoder that stuffs a frame and
 * brackets it with delimiters.
 */
module SlipStream {
  import opened Common
  import opened Slip

  /** The decoder's three fields, as a value. */
  datatype Decoder = Decoder(startFound: bool, esc: bool, buffer: seq<byte>)

  /** A freshly constructed decoder: waiting for the first delimiter. */
  const Fresh := Decoder(false, false, [])

  /** Outside a frame nothing is buffered and no escape is pending. */
  predicate Idle(d: Decoder)
  {
    !d.startFound ==> !d.esc && d.buffer == []
  }

  /** One received byte: the new decoder state and the frame raised, if any. */
  function Step(d: Decoder, b: byte): (r: (Decoder, Option<seq<byte>>))
    ensures r.1.Some? ==> r.1.value == d.buffer && r.1.value != [] && r.0 == Fresh
    ensures !d.startFound ==> r.1.None?
  {
    if d.startFound then
      if d.esc then
        var buf := if b == ESC_END then d.buffer + [END]
                   else if b == ESC_ESC then d.buffer + [ESC]
                   else d.buffer;
        (Decoder(true, false, buf), None)
      else if b == END then
        if |d.buffer| > 0 then (Decoder(false, d.esc, []), Some(d.buffer))
        else (d, None)
      else if b == ESC then (Decoder(true, true, d.buffer), None)
      else (Decoder(true, false, d.buffer + [b]), None)
    else if b == END then (Decoder(true, d.esc, d.buffer), None)
    else (d, None)
  }

  /** Every frame raised while feeding `bytes`, in order, and the final state. */
  function Feed(d: Decoder, bytes: seq<byte>): (Decoder, seq<seq<byte>>)
    decreases |bytes|
  {
    if bytes == [] then (d, [])
    else
      (Feed(Step(d, bytes[0]).0, bytes[1..]).0,
       Raised(Step(d, bytes[0]).1) + Feed(Step(d, bytes[0]).0, bytes[1..]).1)
  }

  function Raised(out: Option<seq<byte>>): seq<seq<byte>>
  {
    if out.Some? then [out.value] else []
  }

  /** The decoder never leaves a stale buffer or escape behind outside a frame. */
  lemma StepKeepsIdle(d: Decoder, b: byte)
    requires Idle(d)
    ensures Idle(Step(d, b).0)
  {
  }

  /** Before the first delimiter every byte is discarded and nothing is raised. */
  lemma {:induction false} DiscardsBeforeStart(bytes: seq<byte>)
    requires END !in bytes
    ensures Feed(Fresh, bytes) == (Fresh, [])
  {
    if bytes != [] {
      assert bytes[0] != END;
      assert Step(Fresh, bytes[0]) == (Fresh, None);
      DiscardsBeforeStart(bytes[1..]);
      assert Feed(Fresh, bytes).1 == Raised(None) + [];
    }
  }

  /** A delimiter on an empty buffer keeps the decoder in-frame and raises nothing. */
  lemma EmptyDelimiterIgnored(d: Decoder)
    requires d.startFound && !d.esc && d.buffer == []
    ensures Step(d, END) == (d, None)
  {
  }

  /** However the bytes arrive, no empty frame is ever raised. */
  lemma {:induction false} NoEmptyFrames(d: Decoder, bytes: seq<byte>)
    ensures forall f <- Feed(d, bytes).1 :: f != []
    decreases |bytes|
  {
    if bytes != [] {
      NoEmptyFrames(Step(d, bytes[0]).0, bytes[1..]);
    }
  }

  /** Feeding two chunks one after the other is feeding their concatenation. */
  lemma {:induction false} FeedAppend(d: Decoder, a: seq<byte>, b: seq<byte>)
    ensures Feed(d, a + b).0 == Feed(Feed(d, a).0, b).0
    ensures Feed(d, a + b).1 == Feed(d, a).1 + Feed(Feed(d, a).0, b).1
    decreases |a|
  {
    if a == [] {
      assert a + b == b;
      assert Feed(d, a).1 == [];
    } else {
      var first := Step(d, a[0]);
      assert (a + b)[0] == a[0];
      assert (a + b)[1..] == a[1..] + b;
      FeedAppend(first.0, a[1..], b);
      assert Feed(d, a + b).1 == Raised(first.1) + Feed(first.0, a[1..] + b).1;
      assert Feed(d, a).1 == Raised(first.1) + Feed(first.0, a[1..]).1;
      assert Feed(d, a).0 == Feed(first.0, a[1..]).0;
    }
  }

  /** Inside a frame, the stuffed form of one byte appends that byte to the buffer. */
  lemma FeedEscapeByte(buf: seq<byte>, x: byte)
    ensures Feed(Decoder(true, false, buf), EscapeByte(x)).0 == Decoder(true, false, buf + [x])
    ensures Feed(Decoder(true, false, buf), EscapeByte(x)).1 == []
  {
    var d := Decoder(true, false, buf);
    var d1 := Decoder(true, false, buf + [x]);
    if x == END || x == ESC {
      var y := if x == END then ESC_END else ESC_ESC;
      var escaping := Decoder(true, true, buf);
      assert [ESC, y][1..] == [y];
      assert [y][1..] == [];
      assert Step(escaping, y) == (d1, None);
      assert Feed(escaping, [y]).0 == d1 && Feed(escaping, [y]).1 == [];
      assert Step(d, ESC) == (escaping, None);
    } else {
      assert [x][1..] == [];
    }
  }

  /** Inside a frame, the stuffed form of `data` appends exactly `data` to the buffer. */
  lemma {:induction false} FeedEscaped(buf: seq<byte>, data: seq<byte>)
    ensures Feed(Decoder(true, false, buf), Escaped(data)).0 == Decoder(true, false, buf + data)
    ensures Feed(Decoder(true, false, buf), Escaped(data)).1 == []
    decreases |data|, 2
  {
    if data == [] {
      assert buf + data == buf;
    } else {
      FeedEscapedCons(buf, data);
    }
  }

  lemma {:induction false} FeedEscapedCons(buf: seq<byte>, data: seq<byte>)
    requires data != []
    ensures Feed(Decoder(true, false, buf), Escaped(data)).0 == Decoder(true, false, buf + data)
    ensures Feed(Decoder(true, false, buf), Escaped(data)).1 == []
    decreases |data|, 1
  {
    var x, tail := data[0], data[1..];
    assert data == [x] + tail;
    FeedEscapeByte(buf, x);
    FeedEscapedRest(buf, x, tail);
    FeedAppend(Decoder(true, false, buf), EscapeByte(x), Escaped(tail));
  }

  lemma {:induction false} FeedEscapedRest(buf: seq<byte>, x: byte, tail: seq<byte>)
    ensures Feed(Decoder(true, false, buf + [x]), Escaped(tail)) == (Decoder(true, false, buf + ([x] + tail)), [])
    decreases |tail| + 1, 0
  {
    FeedEscaped(buf + [x], tail);
    assert buf + [x] + tail == buf + ([x] + tail);
  }

  /** Decoding what the encoder wrote raises exactly the original frame. */
  lemma RoundTrip(frame: seq<byte>)
    requires frame != []
    ensures Feed(Fresh, [END] + Escaped(frame) + [END]).0 == Fresh
    ensures Feed(Fresh, [END] + Escaped(frame) + [END]).1 == [frame]
  {
    var inFrame := Decoder(true, false, []);
    var full := Decoder(true, false, frame);
    FeedAppend(Fresh, [END], Escaped(frame));
    FeedAppend(Fresh, [END] + Escaped(frame), [END]);
    assert [END][1..] == [];
    assert Feed(Fresh, [END]).0 == inFrame && Feed(Fresh, [END]).1 == [];
    FeedEscaped([], frame);
    assert [] + frame == frame;
    assert Step(full, END) == (Fresh, Some(frame));
    assert Feed(full, [END]).0 == Fresh && Feed(full, [END]).1 == [frame];
  }

  lemma EscapedSnoc(frame: seq<byte>, i: nat)
    requires i < |frame|
    ensures Escaped(frame[..i + 1]) == Escaped(frame[..i]) + EscapeByte(frame[i])
  {
    var b := frame[i];
    assert frame[..i + 1] == frame[..i] + [b];
    EscapedAppend(frame[..i], [b]);
    assert Escaped([b]) == EscapeByte(b) + Escaped([]);
  }

  /** A framed packet: delimiters at both ends, none in between, one extra byte per stuffed byte. */
  lemma FramedShape(frame: seq<byte>)
    ensures var raw := [END] + Escaped(frame) + [END];
      raw[0] == END && raw[|raw| - 1] == END && END !in raw[1..|raw| - 1] &&
      |raw| == |frame| + 2 + Count(frame, END) + Count(frame, ESC)
  {
    var raw := [END] + Escaped(frame) + [END];
    assert raw[1..|raw| - 1] == Escaped(frame);
    EscapedHasNoEnd(frame);
    EscapedLength(frame);
  }

  /** The decoder object of Com/SlipFraming.cs. */
  class SlipFraming {
    var frameBuffer: seq<byte>
    var startFound: bool
    var esc: bool

    function State(): Decoder
      reads this
    {
      Decoder(startFound, esc, frameBuffer)
    }

    constructor()
      ensures State() == Fresh
    {
      frameBuffer := [];
      startFound := false;
      esc := false;
    }

    /** Consumes one received byte; `frame` is the frame event raised, if any. */
    method Decode(data: byte) returns (frame: Option<seq<byte>>)
      modifies this
      ensures (State(), frame) == Step(old(State()), data)
    {
      frame := None;
      if startFound {
        if esc {
          if data == ESC_END {
            frameBuffer := frameBuffer + [END];
          } else if data == ESC_ESC {
            frameBuffer := frameBuffer + [ESC];
          }
          esc := false;
        } else if data == END {
          if |frameBuffer| > 0 {
            startFound := false;
            frame := Some(frameBuffer);
            frameBuffer := [];
          }
        } else if data == ESC {
          esc := true;
        } else {
          frameBuffer := frameBuffer + [data];
        }
      } else if data == END {
        startFound := true;
      }
    }

    /** The wire bytes for one frame: delimiter, stuffed bytes, delimiter. */
    method Encode(frame: seq<byte>) returns (raw: seq<byte>)
      ensures raw == [END] + Escaped(frame) + [END]
      ensures raw[0] == END && raw[|raw| - 1] == END && END !in raw[1..|raw| - 1]
      ensures |raw| == |frame| + 2 + Count(frame, END) + Count(frame, ESC)
    {
      raw := [END];
      var i := 0;
      while i < |frame|
        invariant 0 <= i <= |frame|
        invariant raw == [END] + Escaped(frame[..i])
      {
        var b := frame[i];
        if b == END {
          raw := raw + [ESC, ESC_END];
        } else if b == ESC {
          raw := raw + [ESC, ESC_ESC];
        } else {
          raw := raw + [b];
        }
        EscapedSnoc(frame, i);
        i := i + 1;
      }
      assert frame[..i] == frame;
      raw := raw + [END];
      FramedShape(frame);
    }
  }
}
