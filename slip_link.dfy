/**
 * The newer SLIP layer: frames are written to and read from a serial line.
 * Reading collects every byte between two delimiters and unstuffs the
 * collected bytes in one pass afterwards.
 */
module SlipLink {
  import opened Common
  import opened Slip

  /**
   * The serial line seen from the host. `rx` holds the bytes the device will
   * deliver, in order; `tx` everything the host has written so far. When `rx`
   * is used up, a read waits until its cancellation token fires.
   */
  class SerialLine {
    var rx: seq<byte>
    var tx: seq<byte>

    constructor(incoming: seq<byte>)
      ensures rx == incoming && tx == []
    {
      rx := incoming;
      tx := [];
    }
  }

  /** Result of a frame read: a frame, or the wait was cancelled. */
  datatype ReadOutcome = Frame(data: seq<byte>) | Cancelled

  /** Reference unstuffing: DB DC is C0, DB DD is DB, DB with anything else (or nothing) drops out. */
  function Unescaped(data: seq<byte>): seq<byte>
    decreases |data|
  {
    if data == [] then []
    else if data[0] == ESC then
      if |data| == 1 then []
      else (if data[1] == ESC_END then [END] else if data[1] == ESC_ESC then [ESC] else [])
           + Unescaped(data[2..])
    else [data[0]] + Unescaped(data[1..])
  }

  /** What unstuffing from position `i` produces first, and where it goes on. */
  lemma UnescapedAt(data: seq<byte>, i: nat)
    requires i < |data|
    ensures data[i] != ESC ==> Unescaped(data[i..]) == [data[i]] + Unescaped(data[i + 1..])
    ensures data[i] == ESC && i + 1 == |data| ==> Unescaped(data[i..]) == []
    ensures data[i] == ESC && i + 1 < |data| ==>
      Unescaped(data[i..]) ==
        (if data[i + 1] == ESC_END then [END] else if data[i + 1] == ESC_ESC then [ESC] else []) +
        Unescaped(data[i + 2..])
  {
    var rest := data[i..];
    assert rest[0] == data[i];
    if data[i] != ESC {
      assert rest[1..] == data[i + 1..];
    } else if i + 1 < |data| {
      assert rest[1] == data[i + 1];
      assert rest[2..] == data[i + 2..];
    }
  }

  lemma JoinAt(buffer: seq<byte>, piece: seq<byte>, rest: seq<byte>, total: seq<byte>)
    requires buffer + (piece + rest) == total
    ensures (buffer + piece) + rest == total
  {
  }

  /** Unstuffing undoes stuffing, for every byte sequence. */
  lemma {:induction false} UnescapeEscape(data: seq<byte>)
    ensures Unescaped(Escaped(data)) == data
    decreases |data|
  {
    if data != [] {
      var x, tail := data[0], data[1..];
      var head := EscapeByte(x);
      assert Escaped(data) == head + Escaped(tail);
      UnescapeEscape(tail);
      if x == END || x == ESC {
        assert (head + Escaped(tail))[2..] == Escaped(tail);
      } else {
        assert (head + Escaped(tail))[1..] == Escaped(tail);
      }
      assert data == [x] + tail;
    }
  }

  /** Unstuffing never produces more bytes than it consumes. */
  lemma {:induction false} UnescapedNoLonger(data: seq<byte>)
    ensures |Unescaped(data)| <= |data|
    decreases |data|
  {
    if |data| >= 2 && data[0] == ESC {
      UnescapedNoLonger(data[2..]);
    } else if data != [] && data[0] != ESC {
      UnescapedNoLonger(data[1..]);
    }
  }

  /**
   * Reference frame collection: skip delimiters while nothing is collected,
   * gather every other byte, and at the first delimiter after a non-empty
   * collection return the unstuffed collection and the unread rest.
   */
  function Collect(rx: seq<byte>, collected: seq<byte>): (ReadOutcome, seq<byte>)
    decreases |rx|
  {
    if rx == [] then (Cancelled, [])
    else if rx[0] == END then
      if collected == [] then Collect(rx[1..], [])
      else (Frame(Unescaped(collected)), rx[1..])
    else Collect(rx[1..], collected + [rx[0]])
  }

  /** Delimiters in front of a frame are skipped. */
  lemma {:induction false} SkipsLeadingDelimiters(k: nat, rx: seq<byte>)
    ensures Collect(seq(k, _ => END) + rx, []) == Collect(rx, [])
    decreases k
  {
    if k > 0 {
      var ends := seq(k, _ => END);
      assert (ends + rx)[0] == END;
      assert (ends + rx)[1..] == seq(k - 1, _ => END) + rx;
      SkipsLeadingDelimiters(k - 1, rx);
    } else {
      assert seq(k, _ => END) + rx == rx;
    }
  }

  /** Bytes free of delimiters are collected verbatim up to the closing delimiter. */
  lemma {:induction false} CollectsUpToDelimiter(body: seq<byte>, collected: seq<byte>, rest: seq<byte>)
    requires END !in body && collected + body != []
    ensures Collect(body + [END] + rest, collected) == (Frame(Unescaped(collected + body)), rest)
    decreases |body|
  {
    var rx := body + [END] + rest;
    if body == [] {
      assert rx == [END] + rest;
      assert rx[1..] == rest;
      assert collected + body == collected;
    } else {
      assert rx[0] == body[0];
      assert rx[1..] == body[1..] + [END] + rest;
      assert collected + [body[0]] + body[1..] == collected + body;
      CollectsUpToDelimiter(body[1..], collected + [body[0]], rest);
    }
  }

  /** What the writer puts on the wire for a non-empty frame the reader hands back unchanged. */
  lemma ReadsWrittenFrame(data: seq<byte>, rest: seq<byte>)
    requires data != []
    ensures Collect([END] + Escaped(data) + [END] + rest, []) == (Frame(data), rest)
  {
    var rx := [END] + Escaped(data) + [END] + rest;
    EscapedHasNoEnd(data);
    EscapedNonEmpty(data);
    assert rx[1..] == Escaped(data) + [END] + rest;
    CollectsUpToDelimiter(Escaped(data), [], rest);
    assert [] + Escaped(data) == Escaped(data);
    UnescapeEscape(data);
  }

  /** The framing object of Communication/SlipFraming.cs, bound to one serial line. */
  class SlipFraming {
    const serialPort: SerialLine

    constructor(port: SerialLine)
      ensures serialPort == port
    {
      serialPort := port;
    }

    /** Writes delimiter, the stuffed frame, delimiter. */
    method WriteFrame(data: seq<byte>)
      modifies serialPort
      ensures serialPort.tx == old(serialPort.tx) + [END] + Escaped(data) + [END]
      ensures serialPort.rx == old(serialPort.rx)
    {
      var escapedFrame := EscapeFrame(data);
      serialPort.tx := serialPort.tx + [END];
      serialPort.tx := serialPort.tx + escapedFrame;
      serialPort.tx := serialPort.tx + [END];
    }

    /** Collects bytes up to the first delimiter that closes a non-empty collection. */
    method ReadFrame() returns (r: ReadOutcome)
      modifies serialPort
      ensures (r, serialPort.rx) == Collect(old(serialPort.rx), [])
      ensures serialPort.tx == old(serialPort.tx)
    {
      var escapedFrameBuffer: seq<byte> := [];
      while true
        invariant Collect(serialPort.rx, escapedFrameBuffer) == Collect(old(serialPort.rx), [])
        invariant serialPort.tx == old(serialPort.tx)
        decreases |serialPort.rx|
      {
        if serialPort.rx == [] {
          // ReadByte waits for data until the token fires.
          serialPort.rx := [];
          return Cancelled;
        }
        var currentByte := serialPort.rx[0];
        serialPort.rx := serialPort.rx[1..];
        if currentByte == END {
          if |escapedFrameBuffer| > 0 {
            r := Unescape(escapedFrameBuffer);
            return;
          }
        } else {
          escapedFrameBuffer := escapedFrameBuffer + [currentByte];
        }
      }
    }

    /** Stuffs a frame: END and ESC become two-byte escapes, every other byte is copied. */
    method EscapeFrame(data: seq<byte>) returns (buffer: seq<byte>)
      ensures buffer == Escaped(data)
      ensures END !in buffer
      ensures |buffer| == |data| + Count(data, END) + Count(data, ESC)
    {
      buffer := [];
      var i := 0;
      while i < |data|
        invariant 0 <= i <= |data|
        invariant buffer == Escaped(data[..i])
      {
        var b := data[i];
        if b == END {
          buffer := buffer + [ESC, ESC_END];
        } else if b == ESC {
          buffer := buffer + [ESC, ESC_ESC];
        } else {
          buffer := buffer + [b];
        }
        EscapedAppend(data[..i], [b]);
        assert data[..i + 1] == data[..i] + [b];
        i := i + 1;
      }
      assert data[..i] == data;
      EscapedHasNoEnd(data);
      EscapedLength(data);
    }

    /** Unstuffs a collected frame body in one pass. */
    method Unescape(data: seq<byte>) returns (r: ReadOutcome)
      ensures r == Frame(Unescaped(data))
      ensures |r.data| <= |data|
    {
      var buffer: seq<byte> := [];
      var i := 0;
      while i < |data|
        invariant 0 <= i <= |data|
        invariant buffer + Unescaped(data[i..]) == Unescaped(data)
      {
        UnescapedAt(data, i);
        if data[i] == ESC {
          i := i + 1;
          if i >= |data| {
            assert buffer == Unescaped(data);
            break;
          }
          ghost var piece: seq<byte> := if data[i] == ESC_END then [END] else if data[i] == ESC_ESC then [ESC] else [];
          JoinAt(buffer, piece, Unescaped(data[i + 1..]), Unescaped(data));
          if data[i] == ESC_END {
            buffer := buffer + [END];
          } else if data[i] == ESC_ESC {
            buffer := buffer + [ESC];
          } else {
            assert buffer == buffer + piece;
          }
        } else {
          JoinAt(buffer, [data[i]], Unescaped(data[i + 1..]), Unescaped(data));
          buffer := buffer + [data[i]];
        }
        i := i + 1;
      }
      assert data[i..] == [];
      UnescapedNoLonger(data);
      r := Frame(buffer);
    }
  }
}
