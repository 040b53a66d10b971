/** CPU temperature (`SystemMonitor.get_cpu_temp`): the hardware-monitor
    devices are visited in listing order; a device counts only when its name
    is one of the known CPU sensor drivers, and the first plausible
    `temp*_input` reading of such a device, in millidegrees, gives the
    result in whole degrees. The device directory arrives as a listing
    (None when it does not exist); every file read is an `Option`. */
module Thermal {
  import opened Wrappers
  import opened PyStrings

  /** The sensor driver names accepted as CPU temperature sources. */
  const CpuSensorNames: seq<string> :=
    ["coretemp", "k10temp", "zenpower", "cpu_thermal", "x86_pkg_temp", "amd_energy"]

  /** One entry of a device directory: its file name and, when it can be
      read, its contents. */
  datatype HwmonItem = HwmonItem(fileName: string, contents: Option<string>)

  /** One hardware-monitor device: its `name` file contents and its
      directory listing, each None when it cannot be read. */
  datatype HwmonDevice = HwmonDevice(name: Option<string>, listing: Option<seq<HwmonItem>>)

  /** The outcome of scanning one device's items: a plausible reading, no
      plausible reading, or a read or parse failure that abandons the device. */
  datatype ItemScan = Found(degrees: int) | Exhausted | Failed

  /** `temp*_input`: a temperature input channel. */
  predicate IsTempInput(fileName: string) {
    EndsWith(fileName, "_input") && StartsWith(fileName, "temp")
  }

  /** Strictly between 10 and 120 degrees, in millidegrees. */
  predicate Plausible(milli: int) {
    10000 < milli < 120000
  }

  /** The value of a temperature input: `int(contents.strip())`, or None
      where that raises. */
  function Reading(item: HwmonItem): Option<int> {
    match item.contents
    case None => None
    case Some(text) => ParseInt(text)
  }

  /** `item` is a temperature input with a plausible reading of `degrees`
      whole degrees. */
  predicate InputReading(item: HwmonItem, degrees: int) {
    IsTempInput(item.fileName) && Reading(item).Some? && Plausible(Reading(item).value)
    && degrees == Reading(item).value / 1000
  }

  /** An item the scan moves past: not a temperature input, or one whose
      reading is implausible. */
  predicate Passed(item: HwmonItem) {
    !IsTempInput(item.fileName) || (Reading(item).Some? && !Plausible(Reading(item).value))
  }

  /** Item `i` is the first one the scan stops at. */
  predicate FirstStop(items: seq<HwmonItem>, i: int) {
    && 0 <= i < |items| && !Passed(items[i])
    && forall j :: 0 <= j < i ==> Passed(items[j])
  }

  /** The scan of one CPU sensor's items, in listing order: the first
      temperature input that is unreadable or plausible decides. */
  function ScanItems(items: seq<HwmonItem>): (r: ItemScan)
    ensures r.Found? ==> 10 <= r.degrees <= 119
    ensures r.Found? ==> exists i :: 0 <= i < |items| && InputReading(items[i], r.degrees)
    ensures r.Found? ==> exists i :: FirstStop(items, i) && InputReading(items[i], r.degrees)
    ensures r.Failed? ==> exists i :: FirstStop(items, i) && Reading(items[i]).None?
    ensures r.Exhausted? <==> forall i :: 0 <= i < |items| ==> Passed(items[i])
    decreases |items|, 1
  {
    if |items| == 0 then Exhausted
    else if !IsTempInput(items[0].fileName) then ScanRest(items)
    else
      match Reading(items[0])
      case None =>
        assert FirstStop(items, 0);
        Failed
      case Some(milli) =>
        if Plausible(milli) then
          assert FirstStop(items, 0) && InputReading(items[0], milli / 1000);
          Found(milli / 1000)
        else ScanRest(items)
  }

  /** Continues the scan after an item it moves past. */
  function ScanRest(items: seq<HwmonItem>): (r: ItemScan)
    requires |items| > 0 && Passed(items[0])
    ensures r == ScanItems(items[1..])
    ensures r.Found? ==> 10 <= r.degrees <= 119
    ensures r.Found? ==> exists i :: 0 <= i < |items| && InputReading(items[i], r.degrees)
    ensures r.Found? ==> exists i :: FirstStop(items, i) && InputReading(items[i], r.degrees)
    ensures r.Failed? ==> exists i :: FirstStop(items, i) && Reading(items[i]).None?
    ensures r.Exhausted? <==> forall i :: 0 <= i < |items| ==> Passed(items[i])
    decreases |items|, 0
  {
    var rest := items[1..];
    var r := ScanItems(rest);
    PassedCons(items);
    if r.Found? || r.Failed? then
      var i :| FirstStop(rest, i) && (if r.Found? then InputReading(rest[i], r.degrees) else Reading(rest[i]).None?);
      FirstStopCons(items, i);
      r
    else r
  }

  lemma FirstStopCons(items: seq<HwmonItem>, i: int)
    requires |items| > 0 && Passed(items[0]) && FirstStop(items[1..], i)
    ensures FirstStop(items, i + 1) && items[i + 1] == items[1..][i]
  {
    forall j | 0 <= j < i + 1 ensures Passed(items[j]) {
      if j > 0 { assert items[j] == items[1..][j - 1]; }
    }
  }

  lemma PassedCons(items: seq<HwmonItem>)
    requires |items| > 0 && Passed(items[0])
    ensures (forall i :: 0 <= i < |items| ==> Passed(items[i]))
        <==> (forall i :: 0 <= i < |items[1..]| ==> Passed(items[1..][i]))
  {
    assert forall i :: 0 < i < |items| ==> items[i] == items[1..][i - 1];
  }

  /** The device's reading, if it is a CPU sensor with a plausible input. */
  function DeviceTemp(device: HwmonDevice): Option<int> {
    match (device.name, device.listing)
    case (Some(name), Some(items)) =>
      if Strip(name) in CpuSensorNames then
        match ScanItems(items)
        case Found(degrees) => Some(degrees)
        case _ => None
      else None
    case _ => None
  }

  /** `get_cpu_temp`: the first device with a plausible reading decides;
      -1 when there is none or the device directory is missing. */
  function CpuTemp(hwmon: Option<seq<HwmonDevice>>): (t: int)
    ensures t == -1 || 10 <= t <= 119
    ensures hwmon.None? ==> t == -1
  {
    match hwmon
    case None => -1
    case Some(devices) => FirstTemp(devices)
  }

  function FirstTemp(devices: seq<HwmonDevice>): (t: int)
    ensures t == -1 || 10 <= t <= 119
  {
    if |devices| == 0 then -1
    else
      match DeviceTemp(devices[0])
      case Some(degrees) => degrees
      case None => FirstTemp(devices[1..])
  }

  // ---------------------------------------------------------------------------
  // Properties of the scan

  /** A reported temperature comes from a plausible input of a CPU sensor. */
  lemma {:induction false} FirstTempSound(devices: seq<HwmonDevice>)
    requires FirstTemp(devices) != -1
    ensures exists k, i :: 0 <= k < |devices| && SensorReading(devices[k], i, FirstTemp(devices))
  {
    if DeviceTemp(devices[0]).Some? {
      var items := devices[0].listing.value;
      var i :| 0 <= i < |items| && InputReading(items[i], ScanItems(items).degrees);
      assert SensorReading(devices[0], i, FirstTemp(devices));
    } else {
      FirstTempSound(devices[1..]);
      var k, i :| 0 <= k < |devices[1..]| && SensorReading(devices[1..][k], i, FirstTemp(devices[1..]));
      assert devices[k + 1] == devices[1..][k];
    }
  }

  /** Device `k` has a reading of `degrees` and no device before it has one. */
  predicate DecidedAt(devices: seq<HwmonDevice>, k: int, degrees: int) {
    && 0 <= k < |devices| && DeviceTemp(devices[k]) == Some(degrees)
    && forall j :: 0 <= j < k ==> DeviceTemp(devices[j]).None?
  }

  /** No device has a reading. */
  predicate NoneReads(devices: seq<HwmonDevice>) {
    forall k :: 0 <= k < |devices| ==> DeviceTemp(devices[k]).None?
  }

  lemma NoneReadsCons(devices: seq<HwmonDevice>)
    requires |devices| > 0
    ensures NoneReads(devices) <==> DeviceTemp(devices[0]).None? && NoneReads(devices[1..])
  {
    assert forall k :: 0 < k < |devices| ==> devices[k] == devices[1..][k - 1];
  }

  /** -1 means that no device has a reading. */
  lemma {:induction false} NoDeviceReads(devices: seq<HwmonDevice>)
    ensures FirstTemp(devices) == -1 <==> NoneReads(devices)
  {
    if |devices| > 0 {
      NoDeviceReads(devices[1..]);
      NoneReadsCons(devices);
    }
  }

  /** Otherwise the first device with a reading decides. */
  lemma {:induction false} FirstDeviceDecides(devices: seq<HwmonDevice>)
    requires FirstTemp(devices) != -1
    ensures exists k :: DecidedAt(devices, k, FirstTemp(devices))
  {
    if DeviceTemp(devices[0]).Some? {
      assert DecidedAt(devices, 0, FirstTemp(devices));
    } else {
      var rest := devices[1..];
      FirstDeviceDecides(rest);
      var k :| DecidedAt(rest, k, FirstTemp(rest));
      DecidedAtCons(devices, k, FirstTemp(rest));
    }
  }

  lemma DecidedAtCons(devices: seq<HwmonDevice>, k: int, degrees: int)
    requires |devices| > 0 && DeviceTemp(devices[0]).None?
    requires DecidedAt(devices[1..], k, degrees)
    ensures DecidedAt(devices, k + 1, degrees)
  {
    FirstDefinedCons(devices, DeviceTemp, k, degrees);
  }

  /** Index shifting for "the first defined value is at `k`", for any `f`. */
  lemma FirstDefinedCons<T>(xs: seq<T>, f: T -> Option<int>, k: int, d: int)
    requires |xs| > 0 && f(xs[0]).None?
    requires 0 <= k < |xs| - 1 && f(xs[1..][k]) == Some(d)
    requires forall j :: 0 <= j < k ==> f(xs[1..][j]).None?
    ensures f(xs[k + 1]) == Some(d)
    ensures forall j :: 0 <= j < k + 1 ==> f(xs[j]).None?
  {
    forall j | 0 <= j < k + 1 ensures f(xs[j]).None? {
      if j > 0 { assert xs[j] == xs[1..][j - 1]; }
    }
    assert xs[k + 1] == xs[1..][k];
  }

  /** Device `device` is a CPU sensor whose `i`-th item is a plausible
      temperature input reading `degrees` whole degrees. */
  predicate SensorReading(device: HwmonDevice, i: int, degrees: int) {
    && device.name.Some? && Strip(device.name.value) in CpuSensorNames
    && device.listing.Some? && 0 <= i < |device.listing.value|
    && InputReading(device.listing.value[i], degrees)
  }

  /** A device whose name is not on the list is passed over, whatever it holds. */
  lemma IgnoresOtherDrivers(device: HwmonDevice, devices: seq<HwmonDevice>)
    requires device.name.Some? && Strip(device.name.value) !in CpuSensorNames
    ensures FirstTemp([device] + devices) == FirstTemp(devices)
  {
    assert ([device] + devices)[1..] == devices;
  }

  /** A device whose name or listing cannot be read is passed over. */
  lemma IgnoresUnreadableDevice(device: HwmonDevice, devices: seq<HwmonDevice>)
    requires device.name.None? || device.listing.None?
    ensures FirstTemp([device] + devices) == FirstTemp(devices)
  {
    assert ([device] + devices)[1..] == devices;
  }

  /** An implausible reading does not end the scan of a device: its later
      inputs are still tried. */
  lemma ImplausibleSkipped(item: HwmonItem, items: seq<HwmonItem>)
    requires Reading(item).Some? && !Plausible(Reading(item).value)
    ensures ScanItems([item] + items) == ScanItems(items)
  {
    assert ([item] + items)[1..] == items;
  }

  /** A plausible first temperature input decides, whatever follows it. */
  lemma FirstPlausibleWins(item: HwmonItem, items: seq<HwmonItem>)
    requires IsTempInput(item.fileName) && Reading(item).Some? && Plausible(Reading(item).value)
    ensures ScanItems([item] + items) == Found(Reading(item).value / 1000)
  {
  }

  /** An input that cannot be read or parsed abandons the whole device, even
      when a later input would have been plausible. */
  lemma FailureAbandonsDevice(item: HwmonItem, items: seq<HwmonItem>)
    requires IsTempInput(item.fileName) && Reading(item).None?
    ensures ScanItems([item] + items) == Failed
  {
  }

  /** A device that fails is passed over, and the next device is tried. */
  lemma FailedDeviceSkipped(device: HwmonDevice, devices: seq<HwmonDevice>)
    requires device.listing.Some? && ScanItems(device.listing.value) == Failed
    ensures FirstTemp([device] + devices) == FirstTemp(devices)
  {
    assert ([device] + devices)[1..] == devices;
  }

  lemma CoretempName()
    ensures Strip("coretemp\n") == "coretemp" && "coretemp" in CpuSensorNames
  {
    StripPadded("", "coretemp", "\n");
    assert "" + "coretemp" + "\n" == "coretemp\n";
  }

  lemma Temp1Input()
    ensures IsTempInput("temp1_input")
  {
    assert "temp1_input"[5..] == "_input";
  }

  lemma Reading45000()
    ensures ParseInt("45000\n") == Some(45000)
  {
    assert ShowNat(45000) == "45000";
    ParseIntPadded("", 45000, "\n");
    assert "" + "45000" + "\n" == "45000\n";
  }

  lemma ScanOfTemp1()
    ensures ScanItems([HwmonItem("temp1_input", Some("45000\n"))]) == Found(45)
  {
    var item := HwmonItem("temp1_input", Some("45000\n"));
    Temp1Input();
    Reading45000();
    assert Reading(item) == Some(45000);
    assert Plausible(45000) && 45000 / 1000 == 45;
    assert [item][0] == item;
  }

  lemma CoretempDevice()
    ensures DeviceTemp(HwmonDevice(Some("coretemp\n"), Some([HwmonItem("temp1_input", Some("45000\n"))]))) == Some(45)
  {
    CoretempName();
    ScanOfTemp1();
  }

  /** A CPU sensor whose first temperature input reads 45000 reports 45 degrees. */
  lemma CoretempExample(rest: seq<HwmonDevice>)
    ensures FirstTemp([HwmonDevice(Some("coretemp\n"), Some([HwmonItem("temp1_input", Some("45000\n"))]))] + rest) == 45
  {
    CoretempDevice();
  }
}
