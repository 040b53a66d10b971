# System monitor and configuration validator, modelled in Dafny

The project models two parts of a desktop status-bar shell.

- **The system monitor** (`scripts/system_monitor.py`, class `SystemMonitor`). It detects the CPU model, the GPUs and the type of each monitored disk once. It then samples CPU usage, CPU temperature, memory, disk usage and per-GPU usage and temperature on every tick. The model keeps the decisions each method makes: what it reads, what it accepts, what it falls back to, and what it returns. Every file read, directory listing, `os.path.exists` test, `statvfs` call and `nvidia-smi` run becomes an input:
  - a sequence of lines or directory entries;
  - an `Option`, where None stands for "missing" or "raised";
  - or an oracle function.
- **The configuration validator** (`config/ConfigValidator.js`, `validate`). It repairs a user configuration tree against a defaults tree. JSON values are a datatype in which objects are maps. `clone` is the identity on that datatype.

One Dafny module per concern:

| module | file | models |
|---|---|---|
| `Wrappers` | wrappers.dfy | `Option` |
| `Seqs` | seqs.dfy | map and filter-map over sequences |
| `PyStrings` | pystrings.dfy | the Python string built-ins the monitor uses: `strip`, `split()`, `split(sep)`, `" ".join`, `startswith`, `find`, `replace`, `lower`, `int()`, `float()` |
| `CpuModel` | cpumodel.dfy | `_detect_cpu_model` |
| `GpuInventory` | gpuinventory.dfy | `_detect_gpus` |
| `DiskTypes` | disktypes.dfy | `_detect_disk_types` |
| `CpuSampler` | cpusampler.dfy | `get_cpu` and the counters it keeps |
| `Thermal` | thermal.dfy | `get_cpu_temp` |
| `Memory` | memory.dfy | `get_mem` |
| `DiskUsage` | diskusage.dfy | `get_disk_usage` |
| `GpuStats` | gpustats.dfy | `get_gpu_stats` |
| `ConfigValidator` | configvalidator.dfy | `validate`, `clone` |

## Behaviour as written

The model follows the code. Where the code does something other than what a reader might expect, the model keeps the code's behaviour:

- The first `get_cpu` call does not report 0. The counters start at zero (lines 12-13), so the first call reports the average usage since boot (`CpuSampler.FirstSampleSinceBoot`, `CpuSampler.FirstSampleExample`).
- A failed `get_cpu` call leaves the stored counters untouched (`CpuSampler.FailureTransparent`). Only a successful read stores new counters, including one with no elapsed ticks.
- The class-suffix substitution runs once, and before the clock annotation is cut:
  - "AMD Ryzen 9 5900X 12-Core Processor" normalises to "AMD Ryzen 9 5900X 12-Core";
  - "Intel(R) Core(TM) i7-9700K CPU @ 3.60GHz" normalises to "Intel(R) Core(TM) i7-9700K CPU".
- The plausible temperature band is strictly between 10000 and 120000 millidegrees, so reported CPU temperatures lie in [10, 119].
- In `get_cpu_temp`, an input file that cannot be read or parsed abandons the whole device, even when a later input would have been plausible. An implausible value only skips that input.
- The disk base-name substitution `p?[0-9]*$` also cuts a whole-namespace NVMe name ("nvme0n1" becomes "nvme0n") and the `p` of a loop device ("loop0" becomes "loo"). Such mounts report "unknown" when the cut name has no `rotational` file.
- Under the `gradientType` key, a primitive of the default's type that is not one of "linear", "radial" or "halftone" is replaced by the default. A number can never be valid there.
- A `null` default counts as an object default (`typeof null` is `"object"`):
  - an object value is turned into `{}`;
  - anything else is turned into `null`.

## Model

| member | source | states |
|---|---|---|
| CpuModel.DetectCpuModel | scripts/system_monitor.py:19-37 | "Unknown CPU" when the table cannot be read, has no `model name` line, or its first such line has no colon; otherwise the normalised text after the first colon of the first such line; the result never has leading, trailing or doubled whitespace |
| CpuModel.FirstModelNameLine | scripts/system_monitor.py:22-23 | the index of the first line containing `model name`: no earlier line contains it, and None exactly when no line does |
| CpuModel.AfterColon | scripts/system_monitor.py:24 | `split(":", 1)[1]` raises exactly when the line has no colon; otherwise the value is the text after the first colon |
| CpuModel.StripClassSuffix | scripts/system_monitor.py:25-30 | the result is a prefix of the text; either no position holds a space followed by a class word (case-insensitive, running to the end) and the text is unchanged, or the text is cut at the leftmost such position |
| CpuModel.TruncateAt | scripts/system_monitor.py:31-33 | the text is cut at the first occurrence of the pattern, and is unchanged exactly when the pattern does not occur |
| CpuModel.Normalise | scripts/system_monitor.py:24-34 | the result is whitespace-collapsed and has the same words as the stripped, suffix-cut, Radeon-cut and clock-cut text |
| CpuModel.NormaliseRyzen | scripts/system_monitor.py:25-34 | "AMD Ryzen 9 5900X 12-Core Processor" becomes "AMD Ryzen 9 5900X 12-Core": only one class word is removed |
| CpuModel.NormaliseCoreI7 | scripts/system_monitor.py:25-34 | "Intel(R) Core(TM) i7-9700K CPU @ 3.60GHz" becomes "Intel(R) Core(TM) i7-9700K CPU": "CPU" is not at the end when the suffix step runs |
| GpuInventory.DetectGpus | scripts/system_monitor.py:39-96 | NVIDIA GPUs come first and no NVIDIA GPU follows an AMD or Intel one |
| GpuInventory.LastModelLine | scripts/system_monitor.py:54-56 | the index of the last `Model:` line: no later line is one, and None exactly when no line is |
| GpuInventory.NameScanLast | scripts/system_monitor.py:48-56 | the name of an NVIDIA GPU is the stripped value of the last `Model:` line of its information file, or "NVIDIA GPU" when there is none |
| GpuInventory.NvidiaListed | scripts/system_monitor.py:42-64 | the inventory opens with the GPUs of the NVIDIA entries, in directory order, whatever the DRM listing holds |
| GpuInventory.NvidiaMember | scripts/system_monitor.py:43-62 | an NVIDIA GPU is listed exactly when some NVIDIA entry produces it; an entry without an information file produces none |
| GpuInventory.NvidiaAllListed | scripts/system_monitor.py:43-62 | when every NVIDIA entry has an information file, each yields a GPU, in directory order, at the front of the inventory |
| GpuInventory.ListingOrderKept | scripts/system_monitor.py:64-95 | DRM cards are listed in directory order, after any NVIDIA GPUs: a longer DRM listing appends GPUs and changes none of the earlier ones |
| GpuInventory.InventorySplits | scripts/system_monitor.py:39-96 | the inventory is the NVIDIA part followed by the DRM part, each as it would be detected alone |
| GpuInventory.DrmGpuOfCases | scripts/system_monitor.py:67-93 | an entry yields an AMD (Intel) GPU exactly when it is a `cardN` name without `-`, its vendor file is readable, its stripped lower-cased id is 0x1002 (0x8086), and the name ends in the card's last character |
| GpuInventory.AmdListed | scripts/system_monitor.py:64-95 | an AMD GPU is in the inventory exactly when some DRM entry is an AMD card of that name |
| GpuInventory.IntelListed | scripts/system_monitor.py:64-95 | an Intel GPU is in the inventory exactly when some DRM entry is an Intel card of that name |
| GpuInventory.OtherVendorSkipped | scripts/system_monitor.py:78-93 | a card of any other vendor, NVIDIA included, is not listed |
| GpuInventory.ConnectorSkipped | scripts/system_monitor.py:67-68 | a connector entry such as `card0-DP-1` is not listed, whatever its vendor file says |
| GpuInventory.AmdCardExample | scripts/system_monitor.py:75-85 | `card0` with vendor file "0x1002\n" is listed as "AMD GPU 0" |
| DiskTypes.BaseDevice | scripts/system_monitor.py:109-111 | the base name is a prefix of the device name; the removed tail is an optional `p` followed by digits only, and it starts at the leftmost position where such a tail can start |
| DiskTypes.BaseDeviceByDigits | scripts/system_monitor.py:109-111 | the base name equals an independent definition: cut the trailing digit run, then one `p` in front of it |
| DiskTypes.BaseOfNvmePartition | scripts/system_monitor.py:109-111 | "nvme0n1p2" has base "nvme0n1" |
| DiskTypes.BaseOfNvmeNamespace | scripts/system_monitor.py:109-111 | "nvme0n1" has base "nvme0n" |
| DiskTypes.BaseOfLoop | scripts/system_monitor.py:109-111 | "loop0" has base "loo" |
| DiskTypes.FindMount | scripts/system_monitor.py:104-118 | the scan stops at the first line whose second field is the mount, or at the first line with fewer than two fields; every line before it has two fields and another mount point |
| DiskTypes.DetectDiskTypes | scripts/system_monitor.py:98-121 | exactly the requested mounts are keys; each maps to its own mount's type; all are "unknown" when the mount table cannot be read |
| DiskTypes.MountTypeFirstMatch | scripts/system_monitor.py:106-118 | lines after the first matching line have no effect |
| DiskTypes.MountTypeSkips | scripts/system_monitor.py:104-106 | a line naming another mount point is passed over |
| DiskTypes.MountTypeMalformed | scripts/system_monitor.py:105-106 | a line with fewer than two fields ends the scan with "unknown" |
| DiskTypes.MountTypeOfLine | scripts/system_monitor.py:104-118 | for a line written as device, mount and further fields, the mount's type is the device's type |
| DiskTypes.DeviceTypeFlag | scripts/system_monitor.py:108-117 | a `/dev/` device with no further slash is typed by the rotational flag of its base name: "hdd" when it reads "1" around whitespace, "ssd" for any other readable value, "unknown" when the flag is missing or unreadable |
| DiskTypes.DeviceTypeNotDev | scripts/system_monitor.py:108 | a device outside `/dev/` is "unknown" |
| DiskTypes.DeviceTypeSda1 | scripts/system_monitor.py:108-117 | `/dev/sda1` is typed by the flag of `sda` |
| CpuSampler.ParseStatLine | scripts/system_monitor.py:126-131 | a line yields counters exactly when it starts with `cpu `, every field after the label is an integer and there are at least five; the counters are those integers in order |
| CpuSampler.ParseAll | scripts/system_monitor.py:129 | all tokens parse, giving one integer each in order, or some token does not parse |
| CpuSampler.Clamp | scripts/system_monitor.py:138-140 | the result is in [0, 100], equals the input inside that range, and is the nearer bound outside it |
| CpuSampler.TakeSample | scripts/system_monitor.py:123-142 | usage is in [0, 100]; an unreadable or malformed line reports 0 and keeps the counters; a good line stores all ticks and idle plus iowait ticks, and reports the clamped non-idle share of the ticks elapsed since the stored counters |
| CpuSampler.TakeSampleParsed | scripts/system_monitor.py:125-142 | a line parsing to counters `vs` stores their sum and idle plus iowait, and reports the usage between the stored and the new counters |
| CpuSampler.UsageExact | scripts/system_monitor.py:132-140 | with ticks elapsed and no more idle ticks than ticks, the usage is the exact non-idle percentage and clamping does not change it |
| CpuSampler.RepeatedReading | scripts/system_monitor.py:132-137 | reading the same line twice reports 0 the second time and stores the same counters |
| CpuSampler.FailureTransparent | scripts/system_monitor.py:127-142 | after a failed call, the next call returns what it would have returned without it |
| CpuSampler.ParseStatLineRoundTrip | scripts/system_monitor.py:126-131 | a `cpu` line in the kernel's layout (label, two spaces, counters, line terminator) printed from at least five counters parses back to those counters |
| CpuSampler.FirstSampleSinceBoot | scripts/system_monitor.py:132-140 | starting from the zero counters, the first sample is the non-idle share of all ticks since boot |
| CpuSampler.FirstSampleExample | scripts/system_monitor.py:123-142 | the first sample of `cpu 100 0 100 700 100` is 20 percent |
| Thermal.CpuTemp | scripts/system_monitor.py:144-169 | the result is -1 or in [10, 119], and -1 when the device directory is missing |
| Thermal.ScanItems | scripts/system_monitor.py:161-166 | a reported temperature is in [10, 119] and comes from the first item the scan stops at, which is a plausible `temp*_input`; a failure comes from the first stop, which is an unreadable input; the scan runs out exactly when every item is passed over |
| Thermal.FirstPlausibleWins | scripts/system_monitor.py:161-166 | a plausible first input decides the device, whatever follows |
| Thermal.FirstTempSound | scripts/system_monitor.py:148-166 | a reported temperature is a plausible input reading of a device whose stripped name is one of the six CPU sensor drivers |
| Thermal.NoDeviceReads | scripts/system_monitor.py:148-169 | the result is -1 exactly when no device is a CPU sensor with a plausible reading |
| Thermal.FirstDeviceDecides | scripts/system_monitor.py:148-166 | a reported temperature is the reading of the first device that has one: every device before it has none |
| Thermal.IgnoresOtherDrivers | scripts/system_monitor.py:153-160 | a device with any other driver name is passed over |
| Thermal.IgnoresUnreadableDevice | scripts/system_monitor.py:150-168 | a device whose name or listing cannot be read is passed over |
| Thermal.ImplausibleSkipped | scripts/system_monitor.py:163-166 | an implausible reading is skipped and the device's later inputs are tried |
| Thermal.FailureAbandonsDevice | scripts/system_monitor.py:162-168 | an input that cannot be read or parsed abandons the device |
| Thermal.FailedDeviceSkipped | scripts/system_monitor.py:167-168 | after an abandoned device the next device is tried |
| Thermal.CoretempExample | scripts/system_monitor.py:148-166 | a first `coretemp` device whose `temp1_input` reads 45000 gives 45 |
| Memory.FieldValue | scripts/system_monitor.py:178-180 | with a second field the value is that field as an integer (None when it is not one); without a second field there is no value |
| Memory.ScanMeminfo | scripts/system_monitor.py:176-182 | an early exit happens only with both figures positive; each figure the scan ends with is the initial one or was read from a `MemTotal:` (respectively `MemAvailable:`) line of the table |
| Memory.Report | scripts/system_monitor.py:183-186 | all zeros when the total is zero; otherwise total and available are passed through, used is their difference, and usage is used as a percentage of total |
| Memory.GetMem | scripts/system_monitor.py:171-188 | all zeros when the table cannot be opened; otherwise used is total minus available |
| Memory.ScanStopsEarly | scripts/system_monitor.py:181-182 | once both figures are positive, later lines are never read |
| Memory.OtherLineSkipped | scripts/system_monitor.py:176-180 | a line that is neither figure changes nothing |
| Memory.OtherLinesSkipped | scripts/system_monitor.py:176-182 | a run of lines that are neither figure is passed over while a figure is still missing |
| Memory.FigureLineFields | scripts/system_monitor.py:177-180 | a kernel-padded `Name:   value kB` line starts with its name and its second field reads back as its value |
| Memory.MalformedFigure | scripts/system_monitor.py:177-188 | a figure line without an integer second field makes the call report zeros |
| Memory.NoTotalGivesZeros | scripts/system_monitor.py:183-184 | a table without a `MemTotal:` line reports zeros |
| Memory.GetMemOfTable | scripts/system_monitor.py:171-186 | a table in the kernel's layout, with other lines such as `MemFree:` before and between the `MemTotal:` and `MemAvailable:` lines and anything after them, reports from those two figures |
| Memory.HalfUsed | scripts/system_monitor.py:171-186 | 8000000 kB available of 16000000 kB is 50 percent used, whatever other lines surround the figures |
| DiskUsage.GetDiskUsage | scripts/system_monitor.py:190-203 | exactly the requested mounts are keys, and each maps to its own file system's usage |
| DiskUsage.UsageInBlocks | scripts/system_monitor.py:195-198 | the fragment size cancels: usage is the share of blocks not available |
| DiskUsage.UsageExtremes | scripts/system_monitor.py:195-198 | no available blocks reads as 100 percent, all blocks available as 0 |
| DiskUsage.UsageGuarded | scripts/system_monitor.py:193-202 | a failed call or a zero capacity reads as 0 |
| DiskUsage.ThreeQuartersUsed | scripts/system_monitor.py:194-198 | 250 of 1000 blocks available is 75 percent used |
| GpuStats.GetGpuStats | scripts/system_monitor.py:205-264 | one usage and one temperature per GPU, in inventory order, each the reading of that GPU; `nvidia-smi` is run for exactly the active NVIDIA GPUs, in order |
| GpuStats.ParseSmi | scripts/system_monitor.py:232-236 | a query output gives a reading exactly when its stripped text has at least two comma-separated fields whose first is a float and second an integer |
| GpuStats.Queried | scripts/system_monitor.py:210-219 | a GPU is queried exactly when it is an NVIDIA GPU that is active, and by its PCI id |
| GpuStats.UnqueriedIgnoresSmi | scripts/system_monitor.py:208-261 | the reading of a GPU that is not queried is the same whatever `nvidia-smi` would answer |
| GpuStats.QueriedReadsOwnAnswer | scripts/system_monitor.py:219-236 | the reading of a queried GPU depends only on the answer for its own PCI id |
| GpuStats.QueriedExactly | scripts/system_monitor.py:208-222 | a PCI id is queried exactly when some GPU in the inventory is an active NVIDIA GPU with that id |
| GpuStats.SuspendedNotQueried | scripts/system_monitor.py:212-240 | an NVIDIA GPU whose power status is not `active` is not queried and reports 0.0 and -1 |
| GpuStats.ActiveReadsSmi | scripts/system_monitor.py:210-236 | an NVIDIA GPU with no power-status file, an unreadable one or a status stripping to `active` is queried by its PCI id and reports the tool's parsed answer |
| GpuStats.ToolFailsNoReading | scripts/system_monitor.py:209-240 | when `nvidia-smi` cannot be run or fails, an NVIDIA GPU reports 0.0 and -1 |
| GpuStats.AmdUsageValue | scripts/system_monitor.py:241-249 | an AMD GPU's usage is the number in its stripped busy file, and 0.0 when the file cannot be read or does not hold a number |
| GpuStats.AmdUsagePadded | scripts/system_monitor.py:243-247 | a busy file holding a natural number surrounded by whitespace reads as that many percent |
| GpuStats.UnreadablePowerIsActive | scripts/system_monitor.py:211-236 | an unreadable power status counts as active: the GPU is queried and a good answer is reported |
| GpuStats.SmiBothOrNeither | scripts/system_monitor.py:234-238 | when either field is missing or unparsable, neither value is taken |
| GpuStats.IntelNoReading | scripts/system_monitor.py:259-261 | an Intel GPU always reports 0.0 and -1 |
| GpuStats.AmdFieldsIndependent | scripts/system_monitor.py:241-258 | an AMD GPU's usage depends only on its busy file and its temperature only on the first hwmon entry's input; with no hwmon directory the temperature is -1 |
| GpuStats.AmdTempFloor | scripts/system_monitor.py:249-257 | the AMD temperature is the millidegree reading divided by 1000, rounded down, negative readings included |
| GpuStats.SmiRoundTrip | scripts/system_monitor.py:221-236 | the output line `u, t` that `nvidia-smi` prints is read back as usage u and temperature t |
| ConfigValidator.Validate | config/ConfigValidator.js:7-57 | a missing or null value gives the defaults; an array default gives an array; an object default gives an object with exactly the default's keys; a primitive default gives a value of its `typeof`; under `gradientType` that value is the default or an allowed type |
| ConfigValidator.DefaultsFixed | config/ConfigValidator.js:7-57 | the defaults validate to themselves |
| ConfigValidator.ValidateConforms | config/ConfigValidator.js:7-57 | whatever the input, the result has the shape the defaults demand, at every depth |
| ConfigValidator.ConformingKept | config/ConfigValidator.js:7-57 | a value of the demanded shape is returned unchanged |
| ConfigValidator.KeptConforms | config/ConfigValidator.js:7-57 | a value returned unchanged has the demanded shape |
| ConfigValidator.Idempotent | config/ConfigValidator.js:7-57 | validating a validated configuration changes nothing |
| ConfigValidator.ArrayRule | config/ConfigValidator.js:16-21 | against an array default, an array is kept whole and anything else is replaced |
| ConfigValidator.ObjectRule | config/ConfigValidator.js:24-37 | against an object default, an object keeps each default key with its value validated recursively and drops every other key; a primitive or an array is replaced |
| ConfigValidator.MissingKeyFilled | config/ConfigValidator.js:9-11 | a key missing from the user's object takes the default's value |
| ConfigValidator.NullDefaultRule | config/ConfigValidator.js:24-37 | a null default turns an object into `{}` and anything else into null |
| ConfigValidator.PrimitiveRule | config/ConfigValidator.js:42-56 | outside `gradientType`, a primitive of the default's `typeof` is kept and any other value is replaced; integers and fractions share a type |
| ConfigValidator.GradientRule | config/ConfigValidator.js:42-56 | under `gradientType`, a value is kept exactly when it is the default or an allowed string against a string default |
| ConfigValidator.UnknownGradientReplaced | config/ConfigValidator.js:49-54 | "conic" under `gradientType` is replaced by the default |
| PyStrings.TrimLeft | scripts/system_monitor.py:24 | the leading side of `strip`: only whitespace is removed, and the result does not start with whitespace |
| PyStrings.TrimRight | scripts/system_monitor.py:24 | the trailing side of `strip`: only whitespace is removed, and the result does not end with whitespace |
| PyStrings.WordsOfJoin | scripts/system_monitor.py:34 | `" ".join` of words, split on whitespace, gives the same words back |
| PyStrings.CollapseOfCollapsed | scripts/system_monitor.py:34 | collapsing whitespace leaves an already collapsed string unchanged |
| PyStrings.SplitOn | scripts/system_monitor.py:234 | `split(",")` gives at least one field, no field holds a comma, and joining the fields with commas gives the text back |
| PyStrings.SplitOnCount | scripts/system_monitor.py:234-235 | there are at least two fields exactly when the text holds the separator |
| PyStrings.SplitOnJoinWith | scripts/system_monitor.py:234 | splitting comma-joined fields without commas gives them back |
| PyStrings.ParseIntShowInt | scripts/system_monitor.py:129 | `int(str(n)) == n` for every integer |
| PyStrings.ParseIntPadded | scripts/system_monitor.py:164 | a number surrounded by whitespace, as read from a file, parses to itself |
| PyStrings.ParseFloatPadded | scripts/system_monitor.py:247 | `float()` of a natural number surrounded by whitespace gives that number |
| PyStrings.Find | scripts/system_monitor.py:31-33 | the result is the first position where the pattern occurs, or None when it occurs nowhere |
| PyStrings.Lower | scripts/system_monitor.py:76 | each character is lower-cased in place and the length is kept |

## Left out

- File, directory and subprocess access: every read is an input to the model. The `__main__` loop, its sleep and its JSON printing are not modelled.
- `os.listdir` on the NVIDIA driver directory (scripts/system_monitor.py:43), on `/sys/class/drm` (line 66) and on `/sys/class/hwmon` (line 148) raises out of the method, because none of these calls is inside a `try`. The model assumes that each listing succeeds once the directory exists.
- The mount table is reopened for every monitored mount. The model reads it once and assumes it does not change between mounts.
- Partial reads: a file that raises partway through (for example the NVIDIA information file) is modelled as wholly unreadable.
- Floating point: usages are exact reals. IEEE rounding of the divisions is not modelled.
- `float()` accepting `inf`, `nan` and `infinity` is not modelled, and neither are non-ASCII digits in `int()` and `float()`. Whitespace is the ASCII set `str.isspace` accepts. Case-insensitive matching and `lower()` cover ASCII letters only.
- Regular expressions are written as sequence functions for the fixed patterns used (class suffix, Radeon clauses, clock annotation, `p?[0-9]*$`). The regex engine itself is not modelled.
- A failure to decode the `nvidia-smi` output as UTF-8 is folded into the query returning None.
- The GPU dictionaries' `vendor`, `name`, `pci_id`, `power_path` and `card` keys are a datatype. The power-status path is reduced to whether it exists.
- JavaScript object key order and inherited (prototype) properties are not modelled. JSON objects are maps with string keys, and `undefined` is `None`.
