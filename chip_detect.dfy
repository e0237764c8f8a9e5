/**
 * Chip detection by the tools: one read of the magic register, then the
 * first configured device whose magic value equals what was read.
 */
module ChipDetect {
  import opened Common
  import opened LoaderCommands
  import opened Port

  /** The chip models the host knows, in declaration order. */
  datatype ChipType =
    | Unknown | ESP32c6 | ESP32c3 | ESP32c2 | ESP32 | ESP8266 | ESP32s3beta2 | ESP32s3
    | ESP32s2 | ESP32p4 | ESP32h2beta2 | ESP32h2beta1 | ESP32h2 | ESP32c6beta

  /** A device configuration: the chip it describes, its block sizes and its magic register value. */
  datatype DeviceConfig = DeviceConfig(chipType: ChipType, ramBlockSize: int, flashBlockSize: int, magicRegisterValue: u32)

  /** This ROM address holds a different value on each chip model. */
  const CHIP_DETECT_MAGIC_REG_ADDR: u32 := 0x4000_1000

  /**
   * `FirstOrDefault` over the configured devices: the first whose magic value
   * is `id`, if any.
   */
  function FirstMatch(devices: seq<DeviceConfig>, id: u32): (r: Option<nat>)
    ensures r.Some? ==> r.value < |devices| && devices[r.value].magicRegisterValue == id
    ensures r.Some? ==> forall j :: 0 <= j < r.value ==> devices[j].magicRegisterValue != id
    ensures r.None? <==> forall j :: 0 <= j < |devices| ==> devices[j].magicRegisterValue != id
  {
    if devices == [] then None
    else if devices[0].magicRegisterValue == id then Some(0)
    else match FirstMatch(devices[1..], id)
      case None => None
      case Some(k) => Some(k + 1)
  }

  /** The detected chip: the first match's chip type, or `Unknown` when no device matches. */
  function ChipOf(devices: seq<DeviceConfig>, id: u32): ChipType
  {
    match FirstMatch(devices, id)
    case None => Unknown
    case Some(k) => devices[k].chipType
  }

  /** A device whose magic value matches and that no earlier device shadows is the one detected. */
  lemma ChipOfFirstMatch(devices: seq<DeviceConfig>, id: u32, i: nat)
    requires i < |devices| && devices[i].magicRegisterValue == id
    requires forall j :: 0 <= j < i ==> devices[j].magicRegisterValue != id
    ensures ChipOf(devices, id) == devices[i].chipType
  {
  }

  /** When no device has the value read, the chip is reported as `Unknown`. */
  lemma ChipOfNoMatch(devices: seq<DeviceConfig>, id: u32)
    requires forall j :: 0 <= j < |devices| ==> devices[j].magicRegisterValue != id
    ensures ChipOf(devices, id) == Unknown
  {
  }

  /**
   * Only the devices up to the first match matter: devices added after it do
   * not change the answer, and when nothing matches, the answer is the one for
   * the devices added.
   */
  lemma {:induction false} ChipOfAppend(a: seq<DeviceConfig>, b: seq<DeviceConfig>, id: u32)
    ensures FirstMatch(a, id).Some? ==> ChipOf(a + b, id) == ChipOf(a, id)
    ensures FirstMatch(a, id).None? ==> ChipOf(a + b, id) == ChipOf(b, id)
  {
    if a != [] {
      assert (a + b)[0] == a[0];
      ChipOfAppend(a[1..], b, id);
      if a[0].magicRegisterValue != id {
        FirstMatchShift(a, b, id);
      }
    } else {
      assert a + b == b;
    }
  }

  lemma FirstMatchShift(a: seq<DeviceConfig>, b: seq<DeviceConfig>, id: u32)
    requires a != [] && a[0].magicRegisterValue != id
    ensures ChipOf(a + b, id) == ChipOf(a[1..] + b, id)
    ensures ChipOf(a, id) == ChipOf(a[1..], id)
  {
    assert (a + b)[0] == a[0];
    assert (a + b)[1..] == a[1..] + b;
    var m := FirstMatch(a[1..] + b, id);
    if m.Some? {
      assert (a + b)[m.value + 1] == (a[1..] + b)[m.value];
    }
    var n := FirstMatch(a[1..], id);
    if n.Some? {
      assert a[n.value + 1] == a[1..][n.value];
    }
  }

  /**
   * `DetectChipTypeAsync`: reads the magic register once through the loader and
   * looks the value up; an exception from the read propagates.
   */
  method DetectChipType(port: LoaderPort, devices: seq<DeviceConfig>) returns (r: Outcome<ChipType>)
    modifies port
    ensures port.calls == old(port.calls) + [ReadRegister(CHIP_DETECT_MAGIC_REG_ADDR)]
    ensures port.script == Tail(old(port.script))
    ensures match Head(old(port.script))
      case Raised(f) => r == Fail(f)
      case Answer(_, _, value, _) => r == Ok(ChipOf(devices, value))
  {
    var reply := port.Invoke(ReadRegister(CHIP_DETECT_MAGIC_REG_ADDR));
    if reply.Raised? {
      return Fail(reply.fault);
    }
    r := Ok(ChipOf(devices, reply.value));
  }
}
