/** Disk type detection (`SystemMonitor._detect_disk_types`): for each
    monitored mount point, the block device mounted there is looked up in the
    kernel's mount table, reduced to its base device name, and classified by
    the base device's `rotational` flag. The mount table arrives as its lines
    (None when it cannot be read); the `rotational` flag files are an oracle
    from base device name to file contents (None when the file is missing or
    unreadable). */
module DiskTypes {
  import opened Wrappers
  import opened PyStrings
  import opened Seqs

  datatype DiskType = Hdd | Ssd | Unknown

  // ---------------------------------------------------------------------------
  // Base device names: `re.sub(r"p?[0-9]*$", "", name)`

  /** The pattern `p?[0-9]*$` matches the text from index `i` to its end. */
  predicate StripsFrom(s: string, i: nat) {
    i <= |s| && (AllDigits(s[i..]) || (i < |s| && s[i] == 'p' && AllDigits(s[i + 1..])))
  }

  /** All matches of the pattern run to the end of the text, so the
      substitution deletes the text from the leftmost match onward. */
  function BaseDevice(s: string): (r: string)
    ensures |r| <= |s| && r == s[..|r|]
    ensures StripsFrom(s, |r|)
    ensures forall j: nat :: j < |r| ==> !StripsFrom(s, j)
  {
    var p := (j: nat) => StripsFrom(s, j);
    assert forall j: nat :: p(j) == StripsFrom(s, j);
    match FirstIndex(p, 0, |s|)
    case None => s
    case Some(k) => s[..k]
  }

  /** Start of the run of digits that ends the text. */
  function DigitRunStart(s: string): (d: nat)
    ensures d <= |s| && AllDigits(s[d..])
    ensures d == 0 || !IsDigit(s[d - 1])
    decreases |s|
  {
    if |s| > 0 && IsDigit(s[|s| - 1]) then
      var d := DigitRunStart(s[..|s| - 1]);
      assert s[d..] == s[..|s| - 1][d..] + [s[|s| - 1]];
      d
    else |s|
  }

  /** The base name as one would describe it: the trailing digits go, and so
      does one `p` right in front of them. */
  function BaseByDigits(s: string): string {
    var d := DigitRunStart(s);
    if d > 0 && s[d - 1] == 'p' then s[..d - 1] else s[..d]
  }

  lemma NoStripBefore(s: string, j: nat)
    requires j + 1 < DigitRunStart(s)
    ensures !StripsFrom(s, j)
  {
    var d := DigitRunStart(s);
    assert s[j..][d - 1 - j] == s[d - 1];
    assert s[j + 1..][d - 2 - j] == s[d - 1];
  }

  /** The pattern's leftmost match is exactly where the description says. */
  lemma BaseDeviceByDigits(s: string)
    ensures BaseDevice(s) == BaseByDigits(s)
  {
    var d := DigitRunStart(s);
    var k := |BaseByDigits(s)|;
    forall j: nat | j < k
      ensures !StripsFrom(s, j)
    {
      if j + 1 < d {
        NoStripBefore(s, j);
      } else {
        assert j + 1 == d && s[j] != 'p';
        assert s[j..][0] == s[j];
      }
    }
    if d > 0 && s[d - 1] == 'p' {
      assert s[d - 1 + 1..] == s[d..];
    }
    assert StripsFrom(s, k);
  }

  lemma BaseOfSda1()
    ensures BaseDevice("sda1") == "sda"
  {
    BaseDeviceByDigits("sda1");
    assert DigitRunStart("sda") == 3;
  }

  lemma BaseOfNvmePartition()
    ensures BaseDevice("nvme0n1p2") == "nvme0n1"
  {
    BaseDeviceByDigits("nvme0n1p2");
    assert DigitRunStart("nvme0n1p") == 8;
  }

  /** A whole NVMe namespace loses its namespace number as well. */
  lemma BaseOfNvmeNamespace()
    ensures BaseDevice("nvme0n1") == "nvme0n"
  {
    BaseDeviceByDigits("nvme0n1");
    assert DigitRunStart("nvme0n") == 6;
  }

  /** A loop device loses the `p` of its name. */
  lemma BaseOfLoop()
    ensures BaseDevice("loop0") == "loo"
  {
    BaseDeviceByDigits("loop0");
    assert DigitRunStart("loop") == 4;
  }

  // ---------------------------------------------------------------------------
  // The mount table scan

  /** Outcome of scanning the mount table for a mount point: the index of the
      first line whose second field is the mount point, no such line, or the
      index of a line with fewer than two fields, which raises and ends the
      scan. */
  datatype MountMatch = Matched(index: nat) | NoMatch | Malformed(index: nat)

  /** The whitespace-separated fields of each mount-table line. */
  function Table(lines: seq<string>): (table: seq<seq<string>>)
    ensures |table| == |lines|
  {
    Map(lines, Words)
  }

  /** The line's fields number at least two and the second is not `mount`. */
  predicate PassesOver(fields: seq<string>, mount: string) {
    |fields| >= 2 && fields[1] != mount
  }

  /** The scan of the split table from line `from` on. */
  function FindMount(table: seq<seq<string>>, mount: string, from: nat): (r: MountMatch)
    requires from <= |table|
    ensures r.Matched? ==> from <= r.index < |table| && |table[r.index]| >= 2 && table[r.index][1] == mount
    ensures r.Malformed? ==> from <= r.index < |table| && |table[r.index]| < 2
    ensures !r.NoMatch? ==> forall j :: from <= j < r.index ==> PassesOver(table[j], mount)
    ensures r.NoMatch? ==> forall j :: from <= j < |table| ==> PassesOver(table[j], mount)
    decreases |table| - from
  {
    if from == |table| then NoMatch
    else if |table[from]| < 2 then Malformed(from)
    else if table[from][1] == mount then Matched(from)
    else FindMount(table, mount, from + 1)
  }

  /** The type of one block device path, as recorded in the mount table. */
  function DeviceType(dev: string, rotational: string -> Option<string>): DiskType {
    if !StartsWith(dev, "/dev/") then Unknown
    else
      match rotational(BaseDevice(RemoveAll(dev, "/dev/")))
      case None => Unknown
      case Some(flag) => if Strip(flag) == "1" then Hdd else Ssd
  }

  /** The device of the first line naming the mount point, if the scan gets
      that far. */
  function MountDevice(lines: seq<string>, mount: string): Option<string> {
    DeviceOf(Table(lines), mount)
  }

  /** The first field of the matched line of a split table. */
  function DeviceOf(table: seq<seq<string>>, mount: string): Option<string> {
    match FindMount(table, mount, 0)
    case Matched(i) => Some(table[i][0])
    case _ => None
  }

  /** The type recorded for one mount point. */
  function MountType(mounts: Option<seq<string>>, rotational: string -> Option<string>, mount: string): DiskType {
    match mounts
    case None => Unknown
    case Some(lines) =>
      match MountDevice(lines, mount)
      case Some(dev) => DeviceType(dev, rotational)
      case None => Unknown
  }

  /** `_detect_disk_types`: one entry per requested mount point. */
  function DetectDiskTypes(disks: seq<string>, mounts: Option<seq<string>>, rotational: string -> Option<string>)
    : (types: map<string, DiskType>)
    ensures types.Keys == set m | m in disks
    ensures mounts.None? ==> forall m <- disks :: types[m] == Unknown
    ensures forall m <- disks :: types[m] == MountType(mounts, rotational, m)
  {
    map m | m in disks :: MountType(mounts, rotational, m)
  }

  // ---------------------------------------------------------------------------
  // Properties of the scan

  lemma TableAppend(lines: seq<string>, more: seq<string>)
    ensures Table(lines + more) == Table(lines) + Table(more)
  {
    MapAppend(lines, more, Words);
  }

  lemma {:induction false} FindMountAppend(table: seq<seq<string>>, more: seq<seq<string>>, mount: string, from: nat)
    requires from <= |table|
    requires !FindMount(table, mount, from).NoMatch?
    ensures FindMount(table + more, mount, from) == FindMount(table, mount, from)
    decreases |table| - from
  {
    assert (table + more)[from] == table[from];
    if PassesOver(table[from], mount) {
      FindMountAppend(table, more, mount, from + 1);
    }
  }

  /** Only the first line for the mount point counts: lines after it are never read. */
  lemma MountTypeFirstMatch(lines: seq<string>, more: seq<string>, rotational: string -> Option<string>, mount: string)
    requires FindMount(Table(lines), mount, 0).Matched?
    ensures MountType(Some(lines + more), rotational, mount) == MountType(Some(lines), rotational, mount)
  {
    MountDeviceFirstMatch(lines, more, mount);
  }

  lemma MountDeviceFirstMatch(lines: seq<string>, more: seq<string>, mount: string)
    requires FindMount(Table(lines), mount, 0).Matched?
    ensures MountDevice(lines + more, mount) == MountDevice(lines, mount)
  {
    TableAppend(lines, more);
    DeviceOfAppend(Table(lines), Table(more), mount);
  }

  lemma DeviceOfAppend(table: seq<seq<string>>, more: seq<seq<string>>, mount: string)
    requires FindMount(table, mount, 0).Matched?
    ensures DeviceOf(table + more, mount) == DeviceOf(table, mount)
  {
    FindMountAppend(table, more, mount, 0);
    var i := FindMount(table, mount, 0).index;
    assert (table + more)[i] == table[i];
  }

  lemma {:induction false} FindMountShift(fields: seq<string>, table: seq<seq<string>>, mount: string, from: nat)
    requires from <= |table|
    ensures FindMount([fields] + table, mount, from + 1) == ShiftMatch(FindMount(table, mount, from))
    decreases |table| - from
  {
    if from < |table| {
      assert ([fields] + table)[from + 1] == table[from];
      if PassesOver(table[from], mount) {
        FindMountShift(fields, table, mount, from + 1);
      }
    }
  }

  function ShiftMatch(m: MountMatch): MountMatch {
    match m
    case Matched(i) => Matched(i + 1)
    case NoMatch => NoMatch
    case Malformed(i) => Malformed(i + 1)
  }

  /** A well-formed line for another mount point is skipped. */
  lemma MountTypeSkips(line: string, lines: seq<string>, rotational: string -> Option<string>, mount: string)
    requires PassesOver(Words(line), mount)
    ensures MountType(Some([line] + lines), rotational, mount) == MountType(Some(lines), rotational, mount)
  {
    MountDeviceSkips(line, lines, mount);
  }

  lemma MountDeviceSkips(line: string, lines: seq<string>, mount: string)
    requires PassesOver(Words(line), mount)
    ensures MountDevice([line] + lines, mount) == MountDevice(lines, mount)
  {
    TableAppend([line], lines);
    assert Table([line]) == [Words(line)];
    DeviceOfSkips(Words(line), Table(lines), mount);
  }

  lemma DeviceOfSkips(fields: seq<string>, table: seq<seq<string>>, mount: string)
    requires PassesOver(fields, mount)
    ensures DeviceOf([fields] + table, mount) == DeviceOf(table, mount)
  {
    FindMountShift(fields, table, mount, 0);
    assert FindMount([fields] + table, mount, 0) == FindMount([fields] + table, mount, 1);
    match FindMount(table, mount, 0)
    case Matched(i) => assert ([fields] + table)[i + 1] == table[i];
    case _ =>
  }

  /** A line with fewer than two fields ends the scan with "unknown", even
      when a later line names the mount point. */
  lemma MountTypeMalformed(line: string, lines: seq<string>, rotational: string -> Option<string>, mount: string)
    requires |Words(line)| < 2
    ensures MountType(Some([line] + lines), rotational, mount) == Unknown
  {
    assert Table([line] + lines)[0] == Words(line);
  }

  /** A mount line `dev mount ...` gives the type of `dev`. */
  lemma MountTypeOfLine(dev: string, mount: string, rest: seq<string>, rotational: string -> Option<string>)
    requires IsWord(dev) && IsWord(mount) && forall w <- rest :: IsWord(w)
    ensures MountType(Some([Join([dev, mount] + rest)]), rotational, mount) == DeviceType(dev, rotational)
  {
    var line := Join([dev, mount] + rest);
    MountLineFields(dev, mount, rest);
    assert Table([line]) == [[dev, mount] + rest];
    DeviceOfLine([dev, mount] + rest, mount);
  }

  lemma MountLineFields(dev: string, mount: string, rest: seq<string>)
    requires IsWord(dev) && IsWord(mount) && forall w <- rest :: IsWord(w)
    ensures Words(Join([dev, mount] + rest)) == [dev, mount] + rest
  {
    var ws := [dev, mount] + rest;
    forall w <- ws ensures IsWord(w) {
      if w != dev && w != mount {
        assert w in rest;
      }
    }
    WordsOfJoin(ws);
  }

  lemma DeviceOfLine(fields: seq<string>, mount: string)
    requires |fields| >= 2 && fields[1] == mount
    ensures DeviceOf([fields], mount) == Some(fields[0])
  {
  }

  /** Removing `/dev/` from a device path with no further `/`. */
  lemma RemoveDevPrefix(name: string)
    requires '/' !in name
    ensures RemoveAll("/dev/" + name, "/dev/") == name
  {
    FindPrefix("/dev/", name);
    assert ("/dev/" + name)[5..] == name;
    FindAbsent(name, "/dev/", '/');
  }

  /** Only a flag reading "1" (around whitespace) means a rotating disk; any
      other readable value means a solid-state disk. */
  lemma DeviceTypeFlag(name: string, rotational: string -> Option<string>)
    requires '/' !in name
    ensures DeviceType("/dev/" + name, rotational) ==
      match rotational(BaseDevice(name))
      case None => Unknown
      case Some(flag) => if Strip(flag) == "1" then Hdd else Ssd
  {
    RemoveDevPrefix(name);
    assert StartsWith("/dev/" + name, "/dev/");
  }

  /** Devices outside `/dev/` (tmpfs, network shares, overlays) stay "unknown". */
  lemma DeviceTypeNotDev(dev: string, rotational: string -> Option<string>)
    requires !StartsWith(dev, "/dev/")
    ensures DeviceType(dev, rotational) == Unknown
  {
  }

  /** `/dev/sda1` is classified by the flag of `sda`. */
  lemma DeviceTypeSda1(rotational: string -> Option<string>)
    ensures DeviceType("/dev/sda1", rotational) ==
      match rotational("sda")
      case None => Unknown
      case Some(flag) => if Strip(flag) == "1" then Hdd else Ssd
  {
    assert "/dev/sda1" == "/dev/" + "sda1";
    DeviceTypeFlag("sda1", rotational);
    BaseOfSda1();
  }
}
