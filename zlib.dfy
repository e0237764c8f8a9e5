/**
 * The zlib wrapper around deflate (section 2.2 of RFC 1950): a two-byte
 * header, the deflate body, and the Adler-32 checksum of the uncompressed
 * data, most significant byte first. Deflate itself is a library call and
 * appears as a function parameter.
 */
module Zlib {
  import opened Common

  const MOD_ADLER: nat := 65521

  /** The header for deflate with a 32 KiB window at the default level. */
  const ZLIB_HEADER: seq<byte> := [0x78, 0x9C]

  /** The sum of the bytes. */
  function SumBytes(s: seq<byte>): nat
  {
    if s == [] then 0 else SumBytes(s[..|s| - 1]) + s[|s| - 1]
  }

  /**
   * The sum of the running values of `A` after each byte, where `A` after the
   * first `k` bytes is one plus their sum.
   */
  function SumA(s: seq<byte>): nat
  {
    if s == [] then 0 else SumA(s[..|s| - 1]) + 1 + SumBytes(s)
  }

  /** Adler-32 as section 2.2 of RFC 1950 defines it: `B * 65536 + A`, both sums taken modulo 65521. */
  function Adler32(s: seq<byte>): nat
  {
    (SumA(s) % MOD_ADLER) * 0x1_0000 + (1 + SumBytes(s)) % MOD_ADLER
  }

  /** Four bytes read most significant first. */
  function ReadBE32(t: seq<byte>, i: nat): nat
    requires i + 4 <= |t|
  {
    t[i] as int * 0x100_0000 + t[i + 1] as int * 0x1_0000 + t[i + 2] as int * 0x100 + t[i + 3] as int
  }

  /**
   * The checksum's four bytes, most significant first, from its two halves:
   * the high half's bytes and then the low half's.
   */
  function TrailerOf(a: nat, b: nat): seq<byte>
    requires a < MOD_ADLER && b < MOD_ADLER
  {
    var checksum := b * 0x1_0000 + a;   // b << 16 | a: the two halves do not overlap
    [(checksum / 0x100_0000) % 256, (checksum / 0x1_0000) % 256, (checksum / 0x100) % 256, checksum % 256]
  }

  /** The trailer holds the high half's two bytes and then the low half's, and reads back as `B * 65536 + A`. */
  lemma TrailerOfBytes(a: nat, b: nat)
    requires a < MOD_ADLER && b < MOD_ADLER
    ensures TrailerOf(a, b) == [b / 256, b % 256, a / 256, a % 256]
    ensures ReadBE32(TrailerOf(a, b), 0) == b * 0x1_0000 + a
  {
    ShiftBytes(a, b);
  }

  lemma ShiftBytes(a: nat, b: nat)
    requires a < 0x1_0000 && b < 0x1_0000
    ensures var c := b * 0x1_0000 + a;
      (c / 0x100_0000) % 256 == b / 256 && (c / 0x1_0000) % 256 == b % 256 &&
      (c / 0x100) % 256 == a / 256 && c % 256 == a % 256
  {
    var c := b * 0x1_0000 + a;
    var b1, b0, a1, a0 := b / 256, b % 256, a / 256, a % 256;
    DivModUnique(c, 0x100_0000, b1, b0 * 0x1_0000 + a);
    DivModUnique(c, 0x1_0000, b, a);
    DivModUnique(b, 256, b1, b0);
    DivModUnique(c, 0x100, b * 256 + a1, a0);
    DivModUnique(b * 256 + a1, 256, b, a1);
    DivModUnique(c, 256, b * 256 + a1, a0);
  }

  /** The trailer for some data. */
  function Trailer(s: seq<byte>): (r: seq<byte>)
    ensures |r| == 4
  {
    TrailerOf((1 + SumBytes(s)) % MOD_ADLER, SumA(s) % MOD_ADLER)
  }

  /** Reading the trailer back most significant byte first gives the Adler-32 of the data. */
  lemma TrailerIsAdler32(s: seq<byte>)
    ensures ReadBE32(Trailer(s), 0) == Adler32(s)
  {
    TrailerOfBytes((1 + SumBytes(s)) % MOD_ADLER, SumA(s) % MOD_ADLER);
  }

  /** No data at all has the checksum 1: the trailer `00 00 00 01`. */
  lemma EmptyTrailer()
    ensures Trailer([]) == [0, 0, 0, 1]
  {
    TrailerOfBytes(1, 0);
  }

  /** One step of the running sums: a byte `x` after the data `s`. */
  lemma AdlerStep(s: seq<byte>, x: byte, a: nat, b: nat)
    requires a == (1 + SumBytes(s)) % MOD_ADLER && b == SumA(s) % MOD_ADLER
    ensures (a + x) % MOD_ADLER == (1 + SumBytes(s + [x])) % MOD_ADLER
    ensures (b + (a + x) % MOD_ADLER) % MOD_ADLER == SumA(s + [x]) % MOD_ADLER
  {
    var t := s + [x];
    assert t[..|t| - 1] == s;
    ModAdd(1 + SumBytes(s), x);
    ModAdd2(SumA(s), 1 + SumBytes(t));
  }

  lemma ModAdd(u: nat, v: nat)
    ensures (u % MOD_ADLER + v) % MOD_ADLER == (u + v) % MOD_ADLER
  {
    var q := u / MOD_ADLER;
    assert u == q * MOD_ADLER + u % MOD_ADLER;
    ModMultiple(q, u % MOD_ADLER + v);
  }

  lemma ModAdd2(u: nat, v: nat)
    ensures (u % MOD_ADLER + v % MOD_ADLER) % MOD_ADLER == (u + v) % MOD_ADLER
  {
    ModAdd(u, v % MOD_ADLER);
    ModAdd(v, u);
  }

  lemma {:induction false} ModMultiple(q: nat, z: nat)
    ensures (q * MOD_ADLER + z) % MOD_ADLER == z % MOD_ADLER
  {
    if q > 0 {
      ModMultiple(q - 1, z + MOD_ADLER);
      assert q * MOD_ADLER + z == (q - 1) * MOD_ADLER + (z + MOD_ADLER);
    }
  }

  /** A zlib stream (section 2.2 of RFC 1950) of `body`: header, deflate of the body, Adler-32 of the body. */
  function ZlibOf(deflate: seq<byte> -> seq<byte>, body: seq<byte>): seq<byte>
  {
    ZLIB_HEADER + deflate(body) + Trailer(body)
  }

  /**
   * The header announces deflate (method 8) with a 32 KiB window and no
   * preset dictionary and passes the header check (a multiple of 31); the
   * stream ends with the Adler-32 of the very bytes that were deflated.
   */
  lemma ZlibOfLayout(deflate: seq<byte> -> seq<byte>, body: seq<byte>)
    ensures var z := ZlibOf(deflate, body);
      |z| == 6 + |deflate(body)| && z[..2] == ZLIB_HEADER &&
      z[0] % 16 == 8 && z[0] / 16 == 7 && (z[0] as int * 256 + z[1] as int) % 31 == 0 && (z[1] / 32) % 2 == 0 &&
      z[2..|z| - 4] == deflate(body) &&
      ReadBE32(z, |z| - 4) == Adler32(body)
  {
    var z := ZlibOf(deflate, body);
    assert z[|z| - 4..] == Trailer(body);
    TrailerIsAdler32(body);
  }

  /** The bytes a stream still holds from `position` on (none when it is past the end). */
  function Remaining(data: seq<byte>, position: nat): seq<byte>
  {
    if position <= |data| then data[position..] else []
  }

  /**
   * `CompressToZlibStream` as written: deflate reads the input from its
   * current position, but the checksum is computed over the whole input.
   */
  function ZlibAsWritten(deflate: seq<byte> -> seq<byte>, data: seq<byte>, position: nat): seq<byte>
  {
    ZLIB_HEADER + deflate(Remaining(data, position)) + Trailer(data)
  }

  /** From position 0 the two coincide: the output is a zlib stream of the input. */
  lemma ZlibAsWrittenFromStart(deflate: seq<byte> -> seq<byte>, data: seq<byte>)
    ensures ZlibAsWritten(deflate, data, 0) == ZlibOf(deflate, data)
  {
    assert data[0..] == data;
  }

  /**
   * From any later position the trailer is not the checksum of what was
   * compressed: the one byte `[1]` read from position 1 deflates nothing yet
   * carries the checksum of `[1]`.
   */
  lemma ZlibAsWrittenMismatch(deflate: seq<byte> -> seq<byte>)
    ensures ZlibAsWritten(deflate, [1], 1) != ZlibOf(deflate, Remaining([1], 1))
  {
    var w, z := ZlibAsWritten(deflate, [1], 1), ZlibOf(deflate, Remaining([1], 1));
    assert [1][..0] == [];
    TrailerOfBytes(2, 2);
    assert Trailer([1]) == [0, 2, 0, 2];
    EmptyTrailer();
    assert w[|w| - 1] == 2 && z[|z| - 1] == 1;
  }

  /** The running sums after the first `n` bytes of `data`, each below 65521. */
  ghost predicate Sums(data: seq<byte>, n: nat, a: nat, b: nat)
    requires n <= |data|
  {
    a == (1 + SumBytes(data[..n])) % MOD_ADLER && b == SumA(data[..n]) % MOD_ADLER
  }

  lemma SumsStep(data: seq<byte>, n: nat, a: nat, b: nat)
    requires n < |data| && Sums(data, n, a, b)
    ensures var a' := (a + data[n]) % MOD_ADLER; Sums(data, n + 1, a', (b + a') % MOD_ADLER)
    ensures a < MOD_ADLER && b < MOD_ADLER
  {
    AdlerStep(data[..n], data[n], a, b);
    assert data[..n] + [data[n]] == data[..n + 1];
  }

  lemma SumsDone(data: seq<byte>, a: nat, b: nat)
    requires Sums(data, |data|, a, b)
    ensures a < MOD_ADLER && b < MOD_ADLER && TrailerOf(a, b) == Trailer(data)
  {
    assert data[..|data|] == data;
  }

  /** A readable, seekable input stream over fixed data. */
  class InputStream {
    const data: seq<byte>
    var position: nat

    constructor(data: seq<byte>, position: nat)
      ensures this.data == data && this.position == position
    {
      this.data := data;
      this.position := position;
    }

    /** `ReadByte`: the next byte, or -1 at the end. */
    method ReadByte() returns (r: int)
      modifies this
      ensures old(position) < |data| ==> r == data[old(position)] && position == old(position) + 1
      ensures old(position) >= |data| ==> r == -1 && position == old(position)
    {
      if position < |data| {
        r := data[position];
        position := position + 1;
      } else {
        r := -1;
      }
    }

    /** Copying the rest of the stream out: what it still holds, leaving the position at the end. */
    method ReadToEnd() returns (rest: seq<byte>)
      modifies this
      ensures rest == Remaining(data, old(position))
      ensures position == if old(position) <= |data| then |data| else old(position)
    {
      rest := Remaining(data, position);
      if position <= |data| {
        position := |data|;
      }
    }
  }

  /** An output stream that keeps everything written to it. */
  class OutputStream {
    var written: seq<byte>

    constructor()
      ensures written == []
    {
      written := [];
    }

    method Write(bytes: seq<byte>)
      modifies this
      ensures written == old(written) + bytes
    {
      written := written + bytes;
    }
  }

  /**
   * `CalculateAdler32Checksum`: rewinds the stream, runs the two sums over
   * every byte, puts the position back where it was and returns the checksum
   * most significant byte first. The sums stay below 65521 throughout.
   */
  method CalculateAdler32Checksum(stream: InputStream) returns (r: seq<byte>)
    modifies stream
    ensures stream.position == old(stream.position)
    ensures r == Trailer(stream.data)
  {
    var position := stream.position;
    stream.position := 0;
    var a: nat, b: nat := 1, 0;
    var currentByte := stream.ReadByte();
    ghost var n: nat := 0;
    while currentByte != -1
      invariant n <= |stream.data| && Sums(stream.data, n, a, b)
      invariant currentByte == -1 ==> n == |stream.data|
      invariant currentByte != -1 ==> n < |stream.data| && stream.position == n + 1 && currentByte == stream.data[n]
      decreases |stream.data| - n
    {
      SumsStep(stream.data, n, a, b);
      a := (a + currentByte) % MOD_ADLER;
      b := (b + a) % MOD_ADLER;
      n := n + 1;
      currentByte := stream.ReadByte();
    }
    SumsDone(stream.data, a, b);
    stream.position := position;
    r := TrailerOf(a, b);
  }

  /**
   * `CompressToZlibStream`, as written: header, the deflate of what the input
   * holds from its current position, then the checksum of the whole input.
   * The input is left at its end.
   */
  method CompressToZlibStream(input: InputStream, output: OutputStream, deflate: seq<byte> -> seq<byte>)
    modifies input, output
    ensures output.written == old(output.written) + ZlibAsWritten(deflate, input.data, old(input.position))
    ensures input.position == if old(input.position) <= |input.data| then |input.data| else old(input.position)
  {
    ghost var written0 := output.written;
    output.Write([0x78]);
    output.Write([0x9C]);
    var body := input.ReadToEnd();
    output.Write(deflate(body));
    var adler32Checksum := CalculateAdler32Checksum(input);
    output.Write(adler32Checksum);
    assert [0x78] + [0x9C] == ZLIB_HEADER;
    assert output.written == written0 + (ZLIB_HEADER + deflate(body) + adler32Checksum);
  }

  /**
   * The corrected wrapper: the checksum covers exactly the bytes handed to
   * deflate. The input is left at its end, as in the original.
   */
  method CompressToZlibStreamFixed(input: InputStream, output: OutputStream, deflate: seq<byte> -> seq<byte>)
    modifies input, output
    ensures output.written == old(output.written) + ZlibOf(deflate, Remaining(input.data, old(input.position)))
    ensures input.position == if old(input.position) <= |input.data| then |input.data| else old(input.position)
  {
    ghost var written0 := output.written;
    output.Write(ZLIB_HEADER);
    var body := input.ReadToEnd();
    output.Write(deflate(body));
    var remaining := new InputStream(body, 0);
    var adler32Checksum := CalculateAdler32Checksum(remaining);
    output.Write(adler32Checksum);
    assert output.written == written0 + ZlibOf(deflate, body);
  }
}
