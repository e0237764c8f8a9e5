/**
 * SLIP byte stuffing as set out in the "PROTOCOL" part of RFC 1055.
 *
 * Both framing revisions of the host escape a frame the same way; this module
 * states that escaping once, as a reference definition, together with the
 * facts about it that the decoders rely on.
 */
module Slip {
  import opened Common

  const END: byte := 0xC0
  const ESC: byte := 0xDB
  const ESC_END: byte := 0xDC
  const ESC_ESC: byte := 0xDD

  /** The bytes that stand for one data byte on the wire. */
  function EscapeByte(b: byte): seq<byte>
  {
    if b == END then [ESC, ESC_END]
    else if b == ESC then [ESC, ESC_ESC]
    else [b]
  }

  /** The stuffed form of a whole frame, byte by byte in order. */
  function Escaped(data: seq<byte>): seq<byte>
  {
    if data == [] then [] else EscapeByte(data[0]) + Escaped(data[1..])
  }

  lemma {:induction false} EscapedAppend(a: seq<byte>, b: seq<byte>)
    ensures Escaped(a + b) == Escaped(a) + Escaped(b)
  {
    if a == [] {
      assert a + b == b;
    } else {
      assert (a + b)[0] == a[0];
      assert (a + b)[1..] == a[1..] + b;
      EscapedAppend(a[1..], b);
    }
  }

  /** Stuffing never lets a frame delimiter through. */
  lemma {:induction false} EscapedHasNoEnd(data: seq<byte>)
    ensures END !in Escaped(data)
  {
    if data != [] {
      EscapedHasNoEnd(data[1..]);
    }
  }

  /** Each END and each ESC costs one extra byte; every other byte is copied. */
  lemma {:induction false} EscapedLength(data: seq<byte>)
    ensures |Escaped(data)| == |data| + Count(data, END) + Count(data, ESC)
  {
    if data != [] {
      EscapedLength(data[1..]);
    }
  }

  /** A non-empty frame has a non-empty stuffed form. */
  lemma EscapedNonEmpty(data: seq<byte>)
    requires data != []
    ensures Escaped(data) != []
  {
  }
}
