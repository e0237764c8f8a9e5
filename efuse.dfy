/**
 * Reading an eFuse field: the field's mapping gives a start address and a
 * size in bytes; the tool reads as many 32-bit registers as the size needs,
 * from consecutive word addresses, lays their values out least significant
 * byte first and keeps the first `size` bytes.
 */
module EFuse {
  import opened Common
  import opened LoaderCommands
  import opened Port

  /** Where an eFuse field lives: its first register's address and its size in bytes (a C# `int`). */
  datatype EFuseMapping = EFuseMapping(address: u32, size: int)

  const I32: int := 0x8000_0000

  /** A C# `int` addition result: the low 32 bits, read as two's complement. */
  function WrapInt(v: int): (r: int)
    ensures -I32 <= r < I32
    ensures -I32 <= v < I32 ==> r == v
  {
    (v + I32) % U32 - I32
  }

  /**
   * `(Size + 3) / 4` as the loop bound: the sum is an `int` and wraps, and a
   * numerator that is not positive gives no iteration whichever way the
   * division rounds.
   */
  function RegistersNeeded(size: int): nat
  {
    var n := WrapInt(size + 3);
    if n <= 0 then 0 else n / 4
  }

  /** For any size an `int` holds, up to three below its maximum, the count is the ceiling of `size / 4`. */
  lemma RegistersNeededIsCeil(size: int)
    requires -I32 <= size <= I32 - 4
    ensures size <= 0 ==> RegistersNeeded(size) == 0
    ensures size > 0 ==> 4 * RegistersNeeded(size) >= size && 4 * (RegistersNeeded(size) - 1) < size
  {
  }

  /** Register `i` of a field: `Address + (uint)(i * 4)`, wrapping like a `uint`. */
  function RegisterAddresses(m: EFuseMapping): (r: seq<u32>)
    ensures |r| == RegistersNeeded(m.size)
    ensures forall i :: 0 <= i < |r| ==> r[i] == Wrap32(m.address + 4 * i)
  {
    seq(RegistersNeeded(m.size), i => Wrap32(m.address + 4 * i))
  }

  /** The calls made, one register read per address, in order. */
  function ReadCalls(addresses: seq<u32>): (r: seq<Call>)
    ensures |r| == |addresses| && forall i :: 0 <= i < |r| ==> r[i] == ReadRegister(addresses[i])
  {
    seq(|addresses|, i requires 0 <= i < |addresses| => ReadRegister(addresses[i]))
  }

  /**
   * Reading the registers at `addresses` in order, each answered by the next
   * reply: every value, or the first exception, with the number of calls made.
   */
  function ReadAll(addresses: seq<u32>, script: seq<Reply>): (r: (Outcome<seq<u32>>, nat))
    ensures r.1 <= |addresses|
    ensures r.0.Ok? ==> r.1 == |addresses| && |r.0.value| == |addresses|
    decreases |addresses|
  {
    if addresses == [] then (Ok([]), 0)
    else if Head(script).Raised? then (Fail(Head(script).fault), 1)
    else After([Head(script).value], ReadAll(addresses[1..], Tail(script)))
  }

  /** Values already read, followed by the rest of a read. */
  function After(values: seq<u32>, rest: (Outcome<seq<u32>>, nat)): (Outcome<seq<u32>>, nat)
  {
    (match rest.0 case Ok(vs) => Ok(values + vs) case Fail(f) => Fail(f), |values| + rest.1)
  }

  lemma AfterNothing(rest: (Outcome<seq<u32>>, nat))
    ensures After([], rest) == rest
  {
    if rest.0.Ok? {
      assert [] + rest.0.value == rest.0.value;
    }
  }

  lemma AfterAfter(values: seq<u32>, v: u32, rest: (Outcome<seq<u32>>, nat))
    ensures After(values, After([v], rest)) == After(values + [v], rest)
  {
    if rest.0.Ok? {
      assert values + ([v] + rest.0.value) == (values + [v]) + rest.0.value;
    }
  }

  /** Each read answered in turn gives its reply's value, in register order. */
  lemma {:induction false} ReadAllValues(addresses: seq<u32>, script: seq<Reply>)
    requires ReadAll(addresses, script).0.Ok?
    ensures forall i :: 0 <= i < |addresses| ==>
      ReplyAt(script, i).Answer? && ReadAll(addresses, script).0.value[i] == ReplyAt(script, i).value
    decreases |addresses|
  {
    if addresses != [] {
      ReadAllValues(addresses[1..], Tail(script));
      forall i | 1 <= i < |addresses|
        ensures ReplyAt(script, i) == ReplyAt(Tail(script), i - 1)
      {
      }
    }
  }

  /** The register values laid out one after the other, each least significant byte first. */
  function Words(values: seq<u32>): (r: seq<byte>)
    ensures |r| == 4 * |values|
  {
    if values == [] then [] else Words(values[..|values| - 1]) + LE32(values[|values| - 1])
  }

  /** Byte `j` of register `i` is at position `4 * i + j`. */
  lemma {:induction false} WordsAt(values: seq<u32>, i: nat, j: nat)
    requires i < |values| && j < 4
    ensures Words(values)[4 * i + j] == LE32(values[i])[j]
  {
    var init := values[..|values| - 1];
    if i < |values| - 1 {
      WordsAt(init, i, j);
      assert init[i] == values[i];
    }
  }

  /** `Take(size)`: the first `size` bytes, all of them when there are fewer, none for a negative size. */
  function Take(s: seq<byte>, size: int): (r: seq<byte>)
    ensures |r| == if size <= 0 then 0 else Min(size, |s|)
    ensures r == s[..|r|]
  {
    if size <= 0 then [] else if size >= |s| then s else s[..size]
  }

  /** The field's bytes from the register values read. */
  function Assemble(values: seq<u32>, size: int): seq<byte>
  {
    Take(Words(values), size)
  }

  /**
   * With enough registers read, the field is exactly `size` bytes long, and
   * its byte at `4 * i + j` is byte `j` of register `i`, least significant
   * first.
   */
  lemma AssembleLayout(values: seq<u32>, size: int)
    requires size >= 0 && 4 * |values| >= size
    ensures |Assemble(values, size)| == size
    ensures forall i, j :: 0 <= i < |values| && 0 <= j < 4 && 4 * i + j < size ==>
      Assemble(values, size)[4 * i + j] == LE32(values[i])[j]
  {
    forall i, j | 0 <= i < |values| && 0 <= j < 4 && 4 * i + j < size
      ensures Assemble(values, size)[4 * i + j] == LE32(values[i])[j]
    {
      WordsAt(values, i, j);
    }
  }

  /** What `ReadAsync` returns for a mapping, against the loader's replies, with the number of calls made. */
  function EFuseRead(m: EFuseMapping, script: seq<Reply>): (Outcome<seq<byte>>, nat)
  {
    var run := ReadAll(RegisterAddresses(m), script);
    match run.0
    case Ok(values) => (Ok(Assemble(values, m.size)), run.1)
    case Fail(f) => (Fail(f), run.1)
  }

  /**
   * For a size an `int` holds with room for the `+ 3`, a read that succeeds
   * returns exactly `size` bytes (none for a size that is not positive), built
   * from the replies to its register reads in order.
   */
  lemma EFuseReadLayout(m: EFuseMapping, script: seq<Reply>)
    requires -I32 <= m.size <= I32 - 4
    requires EFuseRead(m, script).0.Ok?
    ensures var field := EFuseRead(m, script).0.value;
      |field| == (if m.size <= 0 then 0 else m.size) &&
      forall i, j :: 0 <= i < RegistersNeeded(m.size) && 0 <= j < 4 && 4 * i + j < m.size ==>
        ReplyAt(script, i).Answer? && field[4 * i + j] == LE32(ReplyAt(script, i).value)[j]
  {
    RegistersNeededIsCeil(m.size);
    var addresses := RegisterAddresses(m);
    ReadAllValues(addresses, script);
    var values := ReadAll(addresses, script).0.value;
    if m.size > 0 {
      AssembleLayout(values, m.size);
    }
  }

  /**
   * The read loop's invariant: `i` registers read, their values and bytes
   * kept, their calls made and their replies used, and the whole read is
   * those values followed by the read of the rest.
   */
  ghost predicate Reading(addresses: seq<u32>, script0: seq<Reply>, calls0: seq<Call>, i: nat, values: seq<u32>,
                          bytes: seq<byte>, calls: seq<Call>, script: seq<Reply>)
  {
    i <= |addresses| && |values| == i && calls == calls0 + ReadCalls(addresses)[..i] && script == Drop(script0, i) &&
    bytes == Words(values) && ReadAll(addresses, script0) == After(values, ReadAll(addresses[i..], script))
  }

  lemma ReadingStart(addresses: seq<u32>, script0: seq<Reply>, calls0: seq<Call>)
    ensures Reading(addresses, script0, calls0, 0, [], [], calls0, script0)
  {
    assert addresses[0..] == addresses;
    assert calls0 + ReadCalls(addresses)[..0] == calls0;
    AfterNothing(ReadAll(addresses, script0));
  }

  /** One more register read: the loop goes on with its value, or the read ends with its exception. */
  lemma ReadingStep(addresses: seq<u32>, script0: seq<Reply>, calls0: seq<Call>, i: nat, values: seq<u32>,
                    bytes: seq<byte>, calls: seq<Call>, script: seq<Reply>)
    requires Reading(addresses, script0, calls0, i, values, bytes, calls, script) && i < |addresses|
    ensures calls + [ReadRegister(addresses[i])] == calls0 + ReadCalls(addresses)[..i + 1]
    ensures Tail(script) == Drop(script0, i + 1)
    ensures Head(script).Raised? ==> ReadAll(addresses, script0) == (Fail(Head(script).fault), i + 1)
    ensures Head(script).Answer? ==>
      Reading(addresses, script0, calls0, i + 1, values + [Head(script).value], bytes + LE32(Head(script).value),
              calls + [ReadRegister(addresses[i])], Tail(script))
  {
    DropStep(script0, i);
    assert ReadCalls(addresses)[..i + 1] == ReadCalls(addresses)[..i] + [ReadRegister(addresses[i])];
    assert addresses[i..][1..] == addresses[i + 1..];
    if Head(script).Answer? {
      var v := Head(script).value;
      AfterAfter(values, v, ReadAll(addresses[i + 1..], Tail(script)));
      assert (values + [v])[..|values|] == values;
    }
  }

  /** All registers read: the read returns every value. */
  lemma ReadingDone(addresses: seq<u32>, script0: seq<Reply>, calls0: seq<Call>, values: seq<u32>, bytes: seq<byte>,
                    calls: seq<Call>, script: seq<Reply>)
    requires Reading(addresses, script0, calls0, |addresses|, values, bytes, calls, script)
    ensures ReadAll(addresses, script0) == (Ok(values), |addresses|) && bytes == Words(values)
  {
    assert addresses[|addresses|..] == [];
    assert values + [] == values;
  }

  class EFuseTool<K(==)> {
    const port: LoaderPort
    const eFlags: map<K, EFuseMapping>

    constructor(port: LoaderPort, eFlags: map<K, EFuseMapping>)
      ensures this.port == port && this.eFlags == eFlags
    {
      this.port := port;
      this.eFlags := eFlags;
    }

    /**
     * `ReadAsync`: a key without a mapping throws before any register is read;
     * otherwise the registers are read in order, stopping at the first read
     * that throws.
     */
    method Read(key: K) returns (r: Outcome<seq<byte>>)
      modifies port
      ensures key !in eFlags ==>
        r == Fail(Failure) && port.calls == old(port.calls) && port.script == old(port.script)
      ensures key in eFlags ==>
        var run := EFuseRead(eFlags[key], old(port.script));
        r == run.0 && port.calls == old(port.calls) + ReadCalls(RegisterAddresses(eFlags[key]))[..run.1] &&
        port.script == Drop(old(port.script), run.1)
    {
      if key !in eFlags {
        return Fail(Failure);
      }
      var mapping := eFlags[key];
      ghost var addresses := RegisterAddresses(mapping);
      ghost var calls0, script0 := port.calls, port.script;
      var registersNeeded := RegistersNeeded(mapping.size);
      var resultBytes: seq<byte> := [];
      ghost var values: seq<u32> := [];
      var i := 0;
      ReadingStart(addresses, script0, calls0);
      while i < registersNeeded
        invariant Reading(addresses, script0, calls0, i, values, resultBytes, port.calls, port.script)
      {
        var address := mapping.address + 4 * i;
        address := Wrap32(address);
        ReadingStep(addresses, script0, calls0, i, values, resultBytes, port.calls, port.script);
        var reply := port.Invoke(ReadRegister(address));
        if reply.Raised? {
          assert EFuseRead(mapping, script0) == (Fail(reply.fault), i + 1);
          return Fail(reply.fault);
        }
        values := values + [reply.value];
        resultBytes := resultBytes + LE32(reply.value);
        i := i + 1;
      }
      ReadingDone(addresses, script0, calls0, values, resultBytes, port.calls, port.script);
      r := Ok(Take(resultBytes, mapping.size));
      assert EFuseRead(mapping, script0) == (r, |addresses|);
      assert ReadCalls(addresses)[..|addresses|] == ReadCalls(addresses);
    }
  }
}
