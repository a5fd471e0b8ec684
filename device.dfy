/** Device records, their text form, and lookup by device number. */
module Device {
  import opened Wrappers
  import Decimal

  /** uint32_t */
  type uint32 = x: int | 0 <= x < 0x1_0000_0000

  /** A storage device as the enumeration reports it: its number and its display name. */
  datatype DeviceGuy = DeviceGuy(deviceNum: uint32, name: string)

  /** Devices in enumeration order. */
  type DeviceGuyList = seq<DeviceGuy>

  const NotFoundMessage: string := "device not found"

  /** operator==: field-by-field comparison. */
  predicate Equal(a: DeviceGuy, b: DeviceGuy) {
    a.deviceNum == b.deviceNum && a.name == b.name
  }

  /** Two records are equal exactly when they are the same value. */
  lemma EqualIffSameRecord(a: DeviceGuy, b: DeviceGuy)
    ensures Equal(a, b) <==> a == b
  {
  }

  /** operator== is an equivalence relation. */
  lemma EqualIsEquivalence(a: DeviceGuy, b: DeviceGuy, c: DeviceGuy)
    ensures Equal(a, a)
    ensures Equal(a, b) ==> Equal(b, a)
    ensures Equal(a, b) && Equal(b, c) ==> Equal(a, c)
  {
  }

  const Prefix: string := "Device(id="
  const Middle: string := ", name=\""
  const Suffix: string := "\")"

  /** toString: Device(id=<decimal number>, name="<name>") */
  function ToString(d: DeviceGuy): string {
    Prefix + Decimal.Render(d.deviceNum) + Middle + d.name + Suffix
  }

  /** The number of digits at the front of s. */
  function LeadingDigits(s: string): (n: nat)
    ensures n <= |s|
    ensures Decimal.AllDigits(s[..n])
    ensures n < |s| ==> !Decimal.IsDigit(s[n])
  {
    if s == [] || !Decimal.IsDigit(s[0]) then 0 else 1 + LeadingDigits(s[1..])
  }

  /** Reads a device back from the text form; the name is everything between the
      opening quote and the closing `")`, so it may itself hold quotes. */
  function Parse(s: string): Option<DeviceGuy> {
    if |s| < |Prefix| || s[..|Prefix|] != Prefix then None
    else
      var rest := s[|Prefix|..];
      var k := LeadingDigits(rest);
      var tail := rest[k..];
      if k == 0 || |tail| < |Middle| + |Suffix| then None
      else if tail[..|Middle|] != Middle || tail[|tail| - |Suffix|..] != Suffix then None
      else
        var v := Decimal.Value(rest[..k]);
        if v < 0x1_0000_0000 then Some(DeviceGuy(v, tail[|Middle|..|tail| - |Suffix|])) else None
  }

  /** The id field of the text form is the decimal rendering of deviceNum and ends where
      the digits end, so reading it back gives deviceNum. */
  lemma ToStringIdText(d: DeviceGuy)
    ensures var s := ToString(d);
      var k := LeadingDigits(s[|Prefix|..]);
      Decimal.Value(s[|Prefix|..][..k]) == d.deviceNum
  {
    var s := ToString(d);
    var digits := Decimal.Render(d.deviceNum);
    var rest := s[|Prefix|..];
    assert rest == digits + (Middle + d.name + Suffix);
    LeadingDigitsOfRender(digits, Middle + d.name + Suffix);
    assert rest[..|digits|] == digits;
    Decimal.ValueOfRender(d.deviceNum);
  }

  lemma {:induction false} LeadingDigitsOfRender(digits: string, t: string)
    requires Decimal.AllDigits(digits)
    requires t != [] && !Decimal.IsDigit(t[0])
    ensures LeadingDigits(digits + t) == |digits|
    decreases |digits|
  {
    if digits != [] {
      assert (digits + t)[1..] == digits[1..] + t;
      LeadingDigitsOfRender(digits[1..], t);
    }
  }

  /** The text form loses nothing: parsing it gives back the device. */
  lemma ParseToString(d: DeviceGuy)
    ensures Parse(ToString(d)) == Some(d)
  {
    var s := ToString(d);
    var digits := Decimal.Render(d.deviceNum);
    var rest := s[|Prefix|..];
    assert s[..|Prefix|] == Prefix;
    assert rest == digits + (Middle + d.name + Suffix);
    LeadingDigitsOfRender(digits, Middle + d.name + Suffix);
    var tail := rest[|digits|..];
    assert tail == Middle + d.name + Suffix;
    assert rest[..|digits|] == digits;
    Decimal.ValueOfRender(d.deviceNum);
    assert tail[|Middle|..|tail| - |Suffix|] == d.name;
  }

  /** std::find_if with the predicate "device_num equals deviceNum": the position of the
      first match, or |devices| (the end iterator) when there is none. */
  function FindIf(devices: DeviceGuyList, deviceNum: uint32): (i: nat)
    ensures i <= |devices|
    ensures forall j :: 0 <= j < i ==> devices[j].deviceNum != deviceNum
    ensures i < |devices| ==> devices[i].deviceNum == deviceNum
  {
    if devices == [] then 0
    else if devices[0].deviceNum == deviceNum then 0
    else 1 + FindIf(devices[1..], deviceNum)
  }

  /** findDevice: the first device with the given number, or the "device not found" error. */
  function FindDevice(devices: DeviceGuyList, deviceNum: uint32): (r: Result<DeviceGuy, string>)
    ensures r.Failure? <==> forall j :: 0 <= j < |devices| ==> devices[j].deviceNum != deviceNum
    ensures r.Failure? ==> r.error == NotFoundMessage
    ensures r.Success? ==> r.value in devices && r.value.deviceNum == deviceNum
    ensures r.Success? ==>
      (exists i :: 0 <= i < |devices| && devices[i] == r.value &&
        forall j :: 0 <= j < i ==> devices[j].deviceNum != deviceNum)
  {
    var i := FindIf(devices, deviceNum);
    if i == |devices| then Failure(NotFoundMessage) else Success(devices[i])
  }

  /** The device found is determined by position: whenever every device before position i
      has another number and devices[i] has this one, devices[i] is the result. */
  lemma FindDeviceFirstMatch(devices: DeviceGuyList, deviceNum: uint32, i: nat)
    requires i < |devices| && devices[i].deviceNum == deviceNum
    requires forall j :: 0 <= j < i ==> devices[j].deviceNum != deviceNum
    ensures FindDevice(devices, deviceNum) == Success(devices[i])
  {
  }

  /** Lookup reads only device numbers: renaming devices never changes whether the lookup
      succeeds, nor the position of the device it returns. */
  lemma FindDeviceIgnoresNames(devices: DeviceGuyList, renamed: DeviceGuyList, deviceNum: uint32)
    requires |renamed| == |devices|
    requires forall j :: 0 <= j < |devices| ==> renamed[j].deviceNum == devices[j].deviceNum
    ensures FindDevice(renamed, deviceNum).Success? == FindDevice(devices, deviceNum).Success?
    ensures FindIf(renamed, deviceNum) == FindIf(devices, deviceNum)
  {
  }
}
