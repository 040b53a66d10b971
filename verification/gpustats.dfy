/** GPU statistics (`SystemMonitor.get_gpu_stats`): one usage and one
    temperature per detected GPU, in inventory order, dispatched on the
    vendor. Every file read, directory listing and `nvidia-smi` query is an
    oracle in `GpuEnv`; the queries actually issued are returned as a trace
    so that the power-state gate can be stated. */
module GpuStats {
  import opened Wrappers
  import opened PyStrings
  import opened Seqs
  import opened GpuInventory

  /** What the monitor observes about its GPUs. Each oracle yields None where
      the read, the listing or the subprocess raises. */
  datatype GpuEnv = GpuEnv(
    powerStatus: string -> Option<string>,          // NVIDIA PCI id to its runtime power status
    smi: string -> Option<string>,                  // NVIDIA PCI id to the decoded `nvidia-smi` output
    busyPercent: string -> Option<string>,          // DRM card to its `gpu_busy_percent` contents
    hwmonDirs: string -> Option<seq<string>>,       // DRM card to its `hwmon` listing, None when absent
    temp1Input: (string, string) -> Option<string>) // DRM card and hwmon entry to `temp1_input`

  /** One GPU's usage percentage and temperature in degrees. */
  datatype Reading = Reading(usage: real, temp: int)

  /** The values reported when nothing could be read. */
  const NoReading: Reading := Reading(0.0, -1)

  /** Everything `get_gpu_stats` produces: the two lists it returns and the
      PCI ids it queried, in order. */
  datatype GpuStats = GpuStats(usages: seq<real>, temps: seq<int>, queried: seq<string>)

  /** What handling one GPU produces: its reading, and the PCI id passed to
      `nvidia-smi` when the tool was run for it. */
  datatype Outcome = Outcome(reading: Reading, query: Option<string>)

  // ---------------------------------------------------------------------------
  // NVIDIA

  /** The power gate: a GPU without a power-status file, or whose file cannot
      be read, counts as active; otherwise the stripped status must be
      `active`. */
  predicate NvidiaActive(gpu: Gpu, env: GpuEnv)
    requires gpu.NvidiaGpu?
  {
    !gpu.hasPowerStatus || env.powerStatus(gpu.pciId).None?
    || Strip(env.powerStatus(gpu.pciId).value) == "active"
  }

  /** The comma-separated fields of a query's output, after stripping. */
  function SmiFields(out: string): (parts: seq<string>)
    ensures |parts| >= 1
  {
    SplitOn(Strip(out), ',')
  }

  /** The reading in a query's output: usage from the first field and
      temperature from the second, both or neither. */
  function ParseSmi(out: string): (r: Option<Reading>)
    ensures r.Some? <==>
      |SmiFields(out)| >= 2 && ParseFloat(SmiFields(out)[0]).Some? && ParseInt(SmiFields(out)[1]).Some?
    ensures r.Some? ==>
      r.value == Reading(ParseFloat(SmiFields(out)[0]).value, ParseInt(SmiFields(out)[1]).value)
  {
    var parts := SmiFields(out);
    if |parts| < 2 then None
    else
      match (ParseFloat(parts[0]), ParseInt(parts[1]))
      case (Some(u), Some(t)) => Some(Reading(u, t))
      case _ => None
  }

  /** An NVIDIA GPU's reading and the PCI id `nvidia-smi` is run for: the
      tool is run, and its id recorded, only in the branch where the GPU is
      active. */
  function NvidiaOutcome(gpu: Gpu, env: GpuEnv): Outcome
    requires gpu.NvidiaGpu?
  {
    if !NvidiaActive(gpu, env) then Outcome(NoReading, None)
    else
      var reading := match env.smi(gpu.pciId)
        case None => NoReading
        case Some(out) => ParseSmi(out).GetOr(NoReading);
      Outcome(reading, Some(gpu.pciId))
  }

  // ---------------------------------------------------------------------------
  // AMD

  /** `float(gpu_busy_percent.strip())`, 0.0 where that fails. */
  function AmdUsage(card: string, env: GpuEnv): real {
    match env.busyPercent(card)
    case None => 0.0
    case Some(text) => ParseFloat(Strip(text)).GetOr(0.0)
  }

  /** The first hwmon entry's `temp1_input` in whole degrees (floor division
      by 1000), -1 when the directory is absent or empty or the read fails. */
  function AmdTemp(card: string, env: GpuEnv): int {
    match env.hwmonDirs(card)
    case None => -1
    case Some(dirs) =>
      if |dirs| == 0 then -1
      else
        match env.temp1Input(card, dirs[0])
        case None => -1
        case Some(text) =>
          match ParseInt(Strip(text))
          case None => -1
          case Some(milli) => milli / 1000
  }

  // ---------------------------------------------------------------------------
  // Dispatch

  /** One iteration of the loop over the inventory: the reading reported
      for the GPU and the `nvidia-smi` query it issued, if any. */
  function GpuOutcome(gpu: Gpu, env: GpuEnv): Outcome {
    match gpu
    case NvidiaGpu(_, _, _) => NvidiaOutcome(gpu, env)
    case AmdGpu(_, card) => Outcome(Reading(AmdUsage(card, env), AmdTemp(card, env)), None)
    case IntelGpu(_, _) => Outcome(NoReading, None)
  }

  /** The reading reported for one GPU. */
  function GpuReading(gpu: Gpu, env: GpuEnv): Reading {
    GpuOutcome(gpu, env).reading
  }

  /** The PCI id `nvidia-smi` is asked about for this GPU, if any. */
  function Queried(gpu: Gpu, env: GpuEnv): (r: Option<string>)
    ensures r.Some? <==> gpu.NvidiaGpu? && NvidiaActive(gpu, env)
    ensures r.Some? ==> r.value == gpu.pciId
  {
    GpuOutcome(gpu, env).query
  }

  /** `Queried` as a function value, for the trace. */
  function QueryOf(env: GpuEnv): Gpu -> Option<string> {
    (g: Gpu) => Queried(g, env)
  }

  /** `get_gpu_stats`: one reading per GPU, in inventory order. */
  method GetGpuStats(gpus: seq<Gpu>, env: GpuEnv) returns (stats: GpuStats)
    ensures |stats.usages| == |gpus| && |stats.temps| == |gpus|
    ensures forall i :: 0 <= i < |gpus| ==>
      Reading(stats.usages[i], stats.temps[i]) == GpuReading(gpus[i], env)
    ensures stats.queried == FilterMap(gpus, QueryOf(env))
  {
    var readings := seq(|gpus|, i requires 0 <= i < |gpus| => GpuReading(gpus[i], env));
    var usages, temps := Unzip(readings);
    var queried := Trace(gpus, QueryOf(env));
    stats := GpuStats(usages, temps, queried);
  }

  /** The two result lists, appended to in step. */
  method Unzip(readings: seq<Reading>) returns (usages: seq<real>, temps: seq<int>)
    ensures |usages| == |readings| && |temps| == |readings|
    ensures forall i :: 0 <= i < |readings| ==> Reading(usages[i], temps[i]) == readings[i]
  {
    usages, temps := [], [];
    var n := 0;
    while n < |readings|
      invariant 0 <= n <= |readings|
      invariant |usages| == n && |temps| == n
      invariant forall i :: 0 <= i < n ==> Reading(usages[i], temps[i]) == readings[i]
    {
      usages := usages + [readings[n].usage];
      temps := temps + [readings[n].temp];
      n := n + 1;
    }
  }

  /** The queries issued, one GPU after the other. */
  method Trace(gpus: seq<Gpu>, query: Gpu -> Option<string>) returns (queried: seq<string>)
    ensures queried == FilterMap(gpus, query)
  {
    queried := [];
    var n := 0;
    while n < |gpus|
      invariant 0 <= n <= |gpus|
      invariant queried == FilterMap(gpus[..n], query)
    {
      FilterMapSnoc(gpus[..n], gpus[n], query);
      assert gpus[..n + 1] == gpus[..n] + [gpus[n]];
      queried := queried + Keep(gpus[n], query);
      n := n + 1;
    }
    assert gpus[..n] == gpus;
  }

  // ---------------------------------------------------------------------------
  // Properties of the dispatch

  /** A suspended NVIDIA GPU reports nothing and is not queried, so it is not
      woken up. */
  lemma SuspendedNotQueried(gpu: Gpu, env: GpuEnv, status: string)
    requires gpu.NvidiaGpu? && gpu.hasPowerStatus
    requires env.powerStatus(gpu.pciId) == Some(status) && Strip(status) != "active"
    ensures GpuReading(gpu, env) == NoReading
    ensures Queried(gpu, env) == None
  {
  }

  /** A GPU the tool is not run for does not depend on the tool's answers. */
  lemma UnqueriedIgnoresSmi(gpu: Gpu, env: GpuEnv, smi: string -> Option<string>)
    requires Queried(gpu, env).None?
    ensures GpuReading(gpu, env) == GpuReading(gpu, env.(smi := smi))
    ensures Queried(gpu, env.(smi := smi)).None?
  {
  }

  /** A GPU the tool is run for depends only on the answer for its own PCI id. */
  lemma QueriedReadsOwnAnswer(gpu: Gpu, env: GpuEnv, smi: string -> Option<string>)
    requires Queried(gpu, env).Some? && smi(gpu.pciId) == env.smi(gpu.pciId)
    ensures GpuReading(gpu, env) == GpuReading(gpu, env.(smi := smi))
  {
  }

  /** An unreadable power-status file counts as active: the GPU is queried. */
  /** An active NVIDIA GPU (no power-status file, an unreadable one, or a
      status that strips to `active`) is queried by its PCI id and reports
      the tool's answer when that answer parses. */
  lemma ActiveReadsSmi(gpu: Gpu, env: GpuEnv, out: string)
    requires gpu.NvidiaGpu?
    requires !gpu.hasPowerStatus || env.powerStatus(gpu.pciId).None?
             || Strip(env.powerStatus(gpu.pciId).value) == "active"
    requires env.smi(gpu.pciId) == Some(out) && ParseSmi(out).Some?
    ensures Queried(gpu, env) == Some(gpu.pciId)
    ensures GpuReading(gpu, env) == ParseSmi(out).value
  {
  }

  /** When the tool cannot be run or fails for its PCI id, an NVIDIA GPU
      reports 0.0 and -1, active or not. */
  lemma ToolFailsNoReading(gpu: Gpu, env: GpuEnv)
    requires gpu.NvidiaGpu? && env.smi(gpu.pciId).None?
    ensures GpuReading(gpu, env) == NoReading
  {
  }

  /** An AMD GPU's usage is the number in its busy file, whitespace around it
      allowed, and 0.0 when the file cannot be read or does not hold a number. */
  lemma AmdUsageValue(name: string, card: string, env: GpuEnv)
    ensures env.busyPercent(card).Some? && ParseFloat(Strip(env.busyPercent(card).value)).Some? ==>
      GpuReading(AmdGpu(name, card), env).usage == ParseFloat(Strip(env.busyPercent(card).value)).value
    ensures env.busyPercent(card).None? || ParseFloat(Strip(env.busyPercent(card).value)).None? ==>
      GpuReading(AmdGpu(name, card), env).usage == 0.0
  {
  }

  /** For instance, a busy file holding a padded natural number `n` reads as
      `n` percent. */
  lemma AmdUsagePadded(name: string, card: string, env: GpuEnv, lead: string, n: nat, pad: string)
    requires env.busyPercent(card) == Some(lead + ShowNat(n) + pad)
    requires AllSpace(lead) && AllSpace(pad)
    ensures GpuReading(AmdGpu(name, card), env).usage == n as real
  {
    var digits := ShowNat(n);
    StripPadded(lead, digits, pad);
    ParseFloatPadded([], n, []);
    assert [] + digits + [] == digits;
    AmdUsageValue(name, card, env);
  }

  lemma UnreadablePowerIsActive(gpu: Gpu, env: GpuEnv)
    requires gpu.NvidiaGpu? && gpu.hasPowerStatus && env.powerStatus(gpu.pciId).None?
    ensures Queried(gpu, env) == Some(gpu.pciId)
    ensures env.smi(gpu.pciId).Some? && ParseSmi(env.smi(gpu.pciId).value).Some? ==>
      GpuReading(gpu, env) == ParseSmi(env.smi(gpu.pciId).value).value
  {
  }

  /** Every PCI id in the trace belongs to an active NVIDIA GPU of the
      inventory, and every such GPU is queried. */
  lemma QueriedExactly(gpus: seq<Gpu>, env: GpuEnv, id: string)
    ensures id in FilterMap(gpus, QueryOf(env)) <==>
      exists i :: 0 <= i < |gpus| && gpus[i].NvidiaGpu? && gpus[i].pciId == id && NvidiaActive(gpus[i], env)
  {
    FilterMapMember(gpus, QueryOf(env), id);
  }

  /** Query output with fewer than two fields, or with a field that does
      not parse, reports nothing: usage and temperature are set together. */
  lemma SmiBothOrNeither(gpu: Gpu, env: GpuEnv, out: string)
    requires gpu.NvidiaGpu? && NvidiaActive(gpu, env) && env.smi(gpu.pciId) == Some(out)
    requires |SmiFields(out)| < 2 || ParseFloat(SmiFields(out)[0]).None? || ParseInt(SmiFields(out)[1]).None?
    ensures GpuReading(gpu, env) == NoReading
  {
  }

  /** Intel GPUs are listed but never read. */
  lemma IntelNoReading(name: string, card: string, env: GpuEnv)
    ensures GpuReading(IntelGpu(name, card), env) == NoReading
  {
  }

  /** An AMD GPU's usage and temperature fall back independently: each
      depends only on its own files. */
  lemma AmdFieldsIndependent(name: string, card: string, env: GpuEnv, other: GpuEnv)
    ensures env.busyPercent(card) == other.busyPercent(card) ==>
      GpuReading(AmdGpu(name, card), env).usage == GpuReading(AmdGpu(name, card), other).usage
    ensures (&& env.hwmonDirs(card) == other.hwmonDirs(card) && env.hwmonDirs(card).Some? && |env.hwmonDirs(card).value| > 0
             && env.temp1Input(card, env.hwmonDirs(card).value[0]) == other.temp1Input(card, env.hwmonDirs(card).value[0])) ==>
      GpuReading(AmdGpu(name, card), env).temp == GpuReading(AmdGpu(name, card), other).temp
    ensures env.hwmonDirs(card).None? ==> GpuReading(AmdGpu(name, card), env).temp == -1
  {
  }

  /** A readable AMD temperature is the millidegree value floored to whole degrees. */
  lemma AmdTempFloor(card: string, env: GpuEnv, milli: int)
    requires env.hwmonDirs(card).Some? && |env.hwmonDirs(card).value| > 0
    requires var text := env.temp1Input(card, env.hwmonDirs(card).value[0]);
      text.Some? && ParseInt(Strip(text.value)) == Some(milli)
    ensures AmdTemp(card, env) * 1000 <= milli < (AmdTemp(card, env) + 1) * 1000
  {
  }

  // ---------------------------------------------------------------------------
  // The query output as `nvidia-smi` prints it

  /** `usage, temperature` on one line, in the `csv,noheader,nounits` format. */
  function SmiLine(usage: nat, temp: nat): string {
    ShowNat(usage) + ", " + ShowNat(temp) + "\n"
  }

  lemma NoCommaInShowNat(n: nat)
    ensures ',' !in ShowNat(n) && ',' !in " " + ShowNat(n)
  {
    var x := ShowNat(n);
    forall i | 0 <= i < |x| ensures x[i] != ',' {
      assert IsDigit(x[i]);
    }
    assert forall i :: 0 <= i < |x| ==> (" " + x)[i + 1] == x[i];
  }

  lemma SmiLineStripped(usage: nat, temp: nat)
    ensures Strip(SmiLine(usage, temp)) == ShowNat(usage) + [','] + (" " + ShowNat(temp))
  {
    var x, t := ShowNat(usage), ShowNat(temp);
    var body := x + [','] + (" " + t);
    assert body[0] == x[0];
    assert body[|body| - 1] == t[|t| - 1];
    assert SmiLine(usage, temp) == "" + body + "\n";
    StripPadded("", body, "\n");
  }

  lemma SmiLineFields(usage: nat, temp: nat)
    ensures SmiFields(SmiLine(usage, temp)) == [ShowNat(usage), " " + ShowNat(temp)]
  {
    SmiLineStripped(usage, temp);
    NoCommaInShowNat(usage);
    NoCommaInShowNat(temp);
    SplitOnPrefix(ShowNat(usage), " " + ShowNat(temp), ',');
    SplitOnPlain(" " + ShowNat(temp), ',');
  }

  /** The query's own output parses back to the figures it printed. */
  lemma SmiRoundTrip(usage: nat, temp: nat)
    ensures ParseSmi(SmiLine(usage, temp)) == Some(Reading(usage as real, temp))
  {
    SmiLineFields(usage, temp);
    ParseFloatPadded("", usage, "");
    assert "" + ShowNat(usage) + "" == ShowNat(usage);
    ParseIntPadded(" ", temp, "");
    assert " " + ShowNat(temp) + "" == " " + ShowNat(temp);
  }
}
