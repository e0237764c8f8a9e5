/**
 * Reading the device's MAC addresses: two eFuse words are read, printed as
 * upper-case hexadecimal without leading zeros, joined, and split into
 * two-character groups separated by colons. The access point, Bluetooth and
 * Ethernet addresses add 1, 2 and 3 to the lower word first, wrapping like a
 * `uint`.
 */
module MacAddress {
  import opened Common
  import opened LoaderCommands
  import opened Port

  /** The eFuse word holding the upper part of the base MAC address. */
  const EMAC_BASE_ADDR: u32 := 0x6000_7048
  /** The eFuse word holding the lower part. */
  const MAC_EFUSE_REG: u32 := 0x6000_7044

  const HEX_DIGITS: string := "0123456789ABCDEF"

  function HexDigit(d: nat): char
    requires d < 16
  {
    HEX_DIGITS[d]
  }

  /** `ToString("X")`: upper-case hexadecimal, most significant digit first, no leading zeros. */
  function Hex(v: nat): (r: string)
    ensures 1 <= |r| && forall k :: 0 <= k < |r| ==> r[k] in HEX_DIGITS
    decreases v
  {
    if v < 16 then [HexDigit(v)] else Hex(v / 16) + [HexDigit(v % 16)]
  }

  /** The value of a hexadecimal digit. */
  function DigitValue(c: char): nat
  {
    if '0' <= c <= '9' then c as nat - '0' as nat
    else if 'A' <= c <= 'F' then c as nat - 'A' as nat + 10
    else 0
  }

  /** Reading a string of hexadecimal digits back as a number. */
  function HexValue(s: string): nat
  {
    if s == [] then 0 else 16 * HexValue(s[..|s| - 1]) + DigitValue(s[|s| - 1])
  }

  /** Printing in hexadecimal loses nothing, and only zero itself starts with the digit zero. */
  lemma {:induction false} HexRoundTrip(v: nat)
    ensures HexValue(Hex(v)) == v
    ensures Hex(v)[0] == '0' <==> v == 0
    decreases v
  {
    var r := Hex(v);
    if v >= 16 {
      HexRoundTrip(v / 16);
      DigitValueOf(v % 16);
      assert r[..|r| - 1] == Hex(v / 16);
      assert r[0] == Hex(v / 16)[0];
      assert v == 16 * (v / 16) + v % 16;
    } else {
      DigitValueOf(v);
    }
  }

  lemma DigitValueOf(d: nat)
    requires d < 16
    ensures DigitValue(HexDigit(d)) == d && (HexDigit(d) == '0' <==> d == 0)
  {
  }

  /** The formatted string: two-character groups separated by colons, a last group of one for odd lengths. */
  function Formatted(s: string): string
  {
    if |s| <= 2 then s else s[..2] + ":" + Formatted(s[2..])
  }

  /**
   * Where everything lands: for a non-empty input of length `n` the output
   * has `n + ceil(n / 2) - 1` characters, every third one (positions 2, 5,
   * 8, ...) is a colon, and the others are the input's characters in order.
   * So the colons are never leading or trailing, and every group has two
   * characters except a last group of one.
   */
  lemma {:induction false} FormattedLayout(s: string)
    ensures |Formatted(s)| == if s == [] then 0 else |s| + (|s| + 1) / 2 - 1
    ensures forall p :: 0 <= p < |Formatted(s)| ==>
      (p % 3 == 2 ==> Formatted(s)[p] == ':') && (p % 3 != 2 ==> Formatted(s)[p] == s[p - p / 3])
    decreases |s|
  {
    if |s| > 2 {
      var rest := Formatted(s[2..]);
      FormattedLayout(s[2..]);
      var f := Formatted(s);
      assert f == s[..2] + ":" + rest;
      forall p | 3 <= p < |f|
        ensures (p % 3 == 2 ==> f[p] == ':') && (p % 3 != 2 ==> f[p] == s[p - p / 3])
      {
        assert f[p] == rest[p - 3];
        assert (p - 3) % 3 == p % 3 && (p - 3) / 3 == p / 3 - 1;
      }
    }
  }

  /** The characters of a string other than colons. */
  function Strip(s: string): string
  {
    if s == [] then [] else (if s[0] == ':' then [] else [s[0]]) + Strip(s[1..])
  }

  lemma {:induction false} StripAppend(a: string, b: string)
    ensures Strip(a + b) == Strip(a) + Strip(b)
    decreases |a|
  {
    if a == [] {
      assert a + b == b;
    } else {
      assert (a + b)[1..] == a[1..] + b;
      StripAppend(a[1..], b);
    }
  }

  lemma {:induction false} StripColonFree(s: string)
    requires ':' !in s
    ensures Strip(s) == s
    decreases |s|
  {
    if s != [] {
      StripColonFree(s[1..]);
    }
  }

  /** Removing the colons from the formatted string gives back an input that had none. */
  lemma {:induction false} FormattedStrips(s: string)
    requires ':' !in s
    ensures Strip(Formatted(s)) == s
    decreases |s|
  {
    if |s| <= 2 {
      StripColonFree(s);
    } else {
      FormattedStrips(s[2..]);
      StripAppend(s[..2] + ":", Formatted(s[2..]));
      StripAppend(s[..2], ":");
      StripColonFree(s[..2]);
      assert s[..2] + s[2..] == s;
    }
  }

  lemma {:induction false} CountAppend(a: string, b: string, c: char)
    ensures Count(a + b, c) == Count(a, c) + Count(b, c)
    decreases |a|
  {
    if a == [] {
      assert a + b == b;
    } else {
      assert (a + b)[1..] == a[1..] + b;
      CountAppend(a[1..], b, c);
    }
  }

  lemma {:induction false} CountAbsent(s: string, c: char)
    requires c !in s
    ensures Count(s, c) == 0
    decreases |s|
  {
    if s != [] {
      CountAbsent(s[1..], c);
    }
  }

  /** A non-empty input of length `n` without colons gets exactly `ceil(n / 2) - 1` of them. */
  lemma {:induction false} FormattedColons(s: string)
    requires ':' !in s && s != []
    ensures Count(Formatted(s), ':') == (|s| + 1) / 2 - 1
    decreases |s|
  {
    if |s| <= 2 {
      CountAbsent(s, ':');
    } else {
      FormattedColons(s[2..]);
      CountAppend(s[..2] + ":", Formatted(s[2..]), ':');
      CountAppend(s[..2], ":", ':');
      CountAbsent(s[..2], ':');
    }
  }

  /**
   * `SplitAndFormat`: a null or empty input gives the empty string; otherwise
   * the input is walked two characters at a time.
   */
  method SplitAndFormat(input: Option<string>) returns (r: string)
    ensures input.None? ==> r == ""
    ensures input.Some? ==> r == Formatted(input.value)
  {
    if input.None? || input.value == "" {
      return "";
    }
    var s := input.value;
    var result := "";
    var i := 0;
    assert s[i..] == s;
    while i < |s|
      invariant i % 2 == 0 && i <= |s| + 1
      invariant i < |s| ==> result + Formatted(s[i..]) == Formatted(s)
      invariant i >= |s| ==> result == Formatted(s)
    {
      if i + 1 < |s| {
        assert s[i..][..2] == s[i..i + 2] && s[i..][2..] == s[i + 2..];
        result := result + s[i..i + 2];
        if i + 2 < |s| {
          result := result + ":";
        }
      } else {
        result := result + s[i..];
      }
      i := i + 2;
    }
    r := result;
  }

  /** The address string for the two words read and the increment applied to the lower one. */
  function MacString(base: u32, low: u32, increment: nat): string
  {
    Formatted(Hex(base) + Hex(Wrap32(low + increment)))
  }

  /**
   * Without its colons the address is the two words' hexadecimal forms, the
   * lower one after its increment, side by side.
   */
  lemma MacStringDigits(base: u32, low: u32, increment: nat)
    ensures Strip(MacString(base, low, increment)) == Hex(base) + Hex(Wrap32(low + increment))
  {
    var s := Hex(base) + Hex(Wrap32(low + increment));
    assert forall k :: 0 <= k < |s| ==> s[k] in HEX_DIGITS;
    FormattedStrips(s);
  }

  /** The increment wraps: the lower word `0xFFFFFFFF` plus one prints as `0`. */
  lemma MacIncrementWraps(base: u32)
    ensures MacString(base, 0xFFFF_FFFF, 1) == Formatted(Hex(base) + "0")
  {
  }

  /**
   * Leading zeros are dropped and nothing marks where one word ends, so
   * different pairs of words give the same address string.
   */
  lemma MacPairsCollide()
    ensures MacString(0x12, 0x345, 0) == MacString(0x123, 0x45, 0) == "12:34:5"
  {
    HexExamples();
    assert "12" + "345" == "123" + "45" == "12345";
    FormattedExample();
  }

  lemma HexExamples()
    ensures Hex(0x12) == "12" && Hex(0x45) == "45" && Hex(0x123) == "123" && Hex(0x345) == "345"
  {
    assert Hex(0x1) == "1" && Hex(0x3) == "3" && Hex(0x4) == "4";
    assert Hex(0x12) == "12" && Hex(0x34) == "34" && Hex(0x45) == "45";
  }

  lemma FormattedExample()
    ensures Formatted("12345") == "12:34:5"
  {
    assert Formatted("5") == "5";
    assert Formatted("345") == "34:5";
  }

  class GetAddressesTool {
    const port: LoaderPort

    constructor(port: LoaderPort)
      ensures this.port == port
    {
      this.port := port;
    }

    /** `GetBaseMacAsync`: one read of the upper eFuse word. */
    method GetBaseMac() returns (r: Outcome<u32>)
      modifies port
      ensures port.calls == old(port.calls) + [ReadRegister(EMAC_BASE_ADDR)] && port.script == Tail(old(port.script))
      ensures r == ValueOf(Head(old(port.script)))
    {
      var reply := port.Invoke(ReadRegister(EMAC_BASE_ADDR));
      r := ValueOf(reply);
    }

    /** `GetLastSixOctetsAsync`: one read of the lower eFuse word. */
    method GetLowerMac() returns (r: Outcome<u32>)
      modifies port
      ensures port.calls == old(port.calls) + [ReadRegister(MAC_EFUSE_REG)] && port.script == Tail(old(port.script))
      ensures r == ValueOf(Head(old(port.script)))
    {
      var reply := port.Invoke(ReadRegister(MAC_EFUSE_REG));
      r := ValueOf(reply);
    }

    /**
     * The upper word is read first and then the lower one; a read that throws
     * ends the call.
     */
    method Address(increment: nat) returns (r: Outcome<string>)
      modifies port
      ensures AddressRead(old(port.script), old(port.calls), increment, r, port.script, port.calls)
    {
      var base := GetBaseMac();
      if base.Fail? {
        return Fail(base.fault);
      }
      var low := GetLowerMac();
      if low.Fail? {
        return Fail(low.fault);
      }
      var lower := low.value + increment;
      lower := Wrap32(lower);
      var formatted := SplitAndFormat(Some(Hex(base.value) + Hex(lower)));
      r := Ok(formatted);
    }

    /** `GetBaseMacAddressAsync`: the lower word as read. */
    method GetBaseMacAddress() returns (r: Outcome<string>)
      modifies port
      ensures AddressRead(old(port.script), old(port.calls), 0, r, port.script, port.calls)
    {
      r := Address(0);
    }

    /** `GetWiFiAPMacAddressAsync`: the lower word plus one. */
    method GetWiFiAPMacAddress() returns (r: Outcome<string>)
      modifies port
      ensures AddressRead(old(port.script), old(port.calls), 1, r, port.script, port.calls)
    {
      r := Address(1);
    }

    /** `GetBlueToothMacAddressAsync`: the lower word plus two. */
    method GetBlueToothMacAddress() returns (r: Outcome<string>)
      modifies port
      ensures AddressRead(old(port.script), old(port.calls), 2, r, port.script, port.calls)
    {
      r := Address(2);
    }

    /** `GetEthernetAddressAsync`: the lower word plus three. */
    method GetEthernetAddress() returns (r: Outcome<string>)
      modifies port
      ensures AddressRead(old(port.script), old(port.calls), 3, r, port.script, port.calls)
    {
      r := Address(3);
    }
  }

  /** A register read's value, or the exception it threw. */
  function ValueOf(reply: Reply): Outcome<u32>
  {
    match reply
    case Answer(_, _, value, _) => Ok(value)
    case Raised(f) => Fail(f)
  }

  /** The port's state and the result after reading an address with `increment` added to the lower word. */
  predicate AddressRead(script0: seq<Reply>, calls0: seq<Call>, increment: nat, r: Outcome<string>,
                        script: seq<Reply>, calls: seq<Call>)
  {
    var first, second := Head(script0), Head(Tail(script0));
    if first.Raised? then
      r == Fail(first.fault) && calls == calls0 + [ReadRegister(EMAC_BASE_ADDR)] && script == Tail(script0)
    else
      calls == calls0 + [ReadRegister(EMAC_BASE_ADDR), ReadRegister(MAC_EFUSE_REG)] &&
      script == Tail(Tail(script0)) &&
      r == (if second.Raised? then Fail(second.fault) else Ok(MacString(first.value, second.value, increment)))
  }
}
