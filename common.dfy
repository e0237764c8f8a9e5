/**
 * Machine integers and byte helpers shared by the whole model.
 *
 * The host is written in C#, whose `byte`, `ushort` and `uint` wrap around.
 * Dafny integers are unbounded, so every truncating cast in the source is
 * written out below as an explicit `%` and little-endian layouts are spelled
 * out byte by byte.
 */
module Common {

  type byte = b: int | 0 <= b < 0x100
  type u16 = x: int | 0 <= x < 0x1_0000
  type u32 = x: int | 0 <= x < 0x1_0000_0000

  const U16: int := 0x1_0000
  const U32: int := 0x1_0000_0000

  datatype Option<T> = None | Some(value: T)

  /** The exception kinds the host raises, by .NET exception type. */
  datatype Fault =
    | Canceled            // OperationCanceledException (TaskCanceledException included)
    | InvalidOperation    // InvalidOperationException
    | Failure             // a plain Exception
    | NotSupported        // NotSupportedException
    | ArgumentNull        // ArgumentNullException
    | BadArgument         // ArgumentException
    | IOFailure           // IOException
    | IndexOutOfRange     // IndexOutOfRangeException
    | DivideByZero        // DivideByZeroException

  /** A value, or the exception that ended the operation. */
  datatype Outcome<T> = Ok(value: T) | Fail(fault: Fault)

  /** A C# cast `(ushort)v`: keep the low 16 bits of an integer. */
  function Wrap16(v: int): (r: u16)
    ensures 0 <= v < U16 ==> r == v
    ensures (r - v) % U16 == 0
  {
    v % U16
  }

  /** A C# cast `(uint)v` (and the bit pattern of an `int`): keep the low 32 bits. */
  function Wrap32(v: int): (r: u32)
    ensures 0 <= v < U32 ==> r == v
    ensures 0 <= v ==> r <= v
    ensures (r - v) % U32 == 0
  {
    v % U32
  }

  /** `BitConverter.ToUInt16(s, i)`: two bytes, least significant first. */
  function ReadLE16(s: seq<byte>, i: nat): u16
    requires i + 2 <= |s|
  {
    s[i] as int + 256 * s[i + 1] as int
  }

  /** `BitConverter.ToUInt32(s, i)`: four bytes, least significant first. */
  function ReadLE32(s: seq<byte>, i: nat): u32
    requires i + 4 <= |s|
  {
    s[i] as int + 256 * s[i + 1] as int + 65536 * s[i + 2] as int + 16777216 * s[i + 3] as int
  }

  /** `BitConverter.GetBytes((ushort)v)`: the decoder above reads the value back. */
  function LE16(v: u16): (r: seq<byte>)
    ensures |r| == 2 && ReadLE16(r, 0) == v
  {
    [v % 256, v / 256]
  }

  /** `BitConverter.GetBytes((uint)v)`: the decoder above reads the value back. */
  function LE32(v: u32): (r: seq<byte>)
    ensures |r| == 4 && ReadLE32(r, 0) == v
  {
    LE32Digits(v);
    [v % 256, (v / 256) % 256, (v / 65536) % 256, v / 16777216]
  }

  /** Quotient and remainder are the only pair that rebuilds `x`. */
  lemma DivModUnique(x: int, d: int, q: int, r: int)
    requires 0 < d && 0 <= r < d && x == q * d + r
    ensures x / d == q && x % d == r
  {
    var q0 := x / d;
    if q0 < q {
      assert (q - q0) * d == q * d - q0 * d;
      MulAtLeast(q - q0, d);
    } else if q < q0 {
      assert (q0 - q) * d == q0 * d - q * d;
      MulAtLeast(q0 - q, d);
    }
  }

  lemma {:induction false} MulAtLeast(k: int, d: int)
    requires 1 <= k && 0 < d
    ensures k * d >= d
  {
    if k > 1 {
      MulAtLeast(k - 1, d);
      assert k * d == (k - 1) * d + d;
    }
  }

  /** The four little-endian digits of a `uint` rebuild it. */
  lemma LE32Digits(v: u32)
    ensures v / 16777216 < 256
    ensures v == v % 256 + 256 * ((v / 256) % 256) + 65536 * ((v / 65536) % 256) + 16777216 * (v / 16777216)
  {
    var q1, r1 := v / 256, v % 256;
    var q2, r2 := q1 / 256, q1 % 256;
    var q3, r3 := q2 / 256, q2 % 256;
    DivModUnique(v, 65536, q2, 256 * r2 + r1);
    DivModUnique(v, 16777216, q3, 65536 * r3 + 256 * r2 + r1);
  }

  /** Bitwise exclusive or of two naturals (the C# `^`), bit by bit from the least significant. */
  function Xor(a: nat, b: nat): nat
  {
    if a == 0 then b
    else if b == 0 then a
    else 2 * Xor(a / 2, b / 2) + (if a % 2 == b % 2 then 0 else 1)
  }

  function Pow2(k: nat): nat
  {
    if k == 0 then 1 else 2 * Pow2(k - 1)
  }

  /** Exclusive or never sets a bit above the operands' width. */
  lemma {:induction false} XorBelow(a: nat, b: nat, k: nat)
    requires a < Pow2(k) && b < Pow2(k)
    ensures Xor(a, b) < Pow2(k)
  {
    if a != 0 && b != 0 {
      XorBelow(a / 2, b / 2, k - 1);
    }
  }

  /** Exclusive or of two values that fit in a byte fits in a byte. */
  lemma XorOfBytes(a: nat, b: nat)
    requires a < 256 && b < 256
    ensures Xor(a, b) < 256
  {
    assert Pow2(8) == 256 by {
      assert Pow2(4) == 16;
    }
    XorBelow(a, b, 8);
  }

  /** Number of occurrences of `x` in `s`. */
  function Count<T(==)>(s: seq<T>, x: T): nat
  {
    if s == [] then 0 else (if s[0] == x then 1 else 0) + Count(s[1..], x)
  }

  /** Concatenation of a sequence of sequences, in order. */
  function Flatten<T>(parts: seq<seq<T>>): seq<T>
  {
    if parts == [] then [] else parts[0] + Flatten(parts[1..])
  }

  lemma {:induction false} FlattenSnoc<T>(parts: seq<seq<T>>, p: seq<T>)
    ensures Flatten(parts + [p]) == Flatten(parts) + p
  {
    if parts == [] {
      assert [p][1..] == [];
    } else {
      assert (parts + [p])[1..] == parts[1..] + [p];
      FlattenSnoc(parts[1..], p);
    }
  }

  function Min(a: int, b: int): int { if a <= b then a else b }
}
