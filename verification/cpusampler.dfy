/** CPU usage sampling (`SystemMonitor.get_cpu`): the first line of the
    kernel's `stat` table holds cumulative tick counters; usage is the share of
    non-idle ticks since the previous successful sample. The monitor's two
    counter fields are threaded through as a `Counters` value, and the line
    arrives as a parameter (None when the table cannot be opened). */
module CpuSampler {
  import opened Wrappers
  import opened PyStrings
  import opened Seqs

  /** The stored totals of the previous successful sample. */
  datatype Counters = Counters(total: int, idle: int)

  /** Both counters start at zero when the monitor is created. */
  const Initial: Counters := Counters(0, 0)

  /** What one call returns, and the counters it leaves behind. */
  datatype Sample = Sample(usage: real, next: Counters)

  /** `[int(x) for x in tokens]`, which raises at the first bad token. */
  function ParseAll(tokens: seq<string>): (r: Option<seq<int>>)
    ensures r.Some? ==> |r.value| == |tokens|
    ensures r.Some? ==> forall i :: 0 <= i < |tokens| ==> ParseInt(tokens[i]) == Some(r.value[i])
    ensures r.None? ==> exists i :: 0 <= i < |tokens| && ParseInt(tokens[i]).None?
  {
    AllSome(tokens, ParseInt)
  }

  function Sum(vs: seq<int>): int {
    if |vs| == 0 then 0 else vs[0] + Sum(vs[1..])
  }

  /** The counters of a `cpu ` line: every field after the label must parse
      as an integer, and there must be at least five (the idle figure is the
      fourth plus the fifth). */
  function ParseStatLine(line: string): (r: Option<seq<int>>)
    ensures r.Some? ==> StartsWith(line, "cpu ") && |r.value| >= 5
    ensures r.Some? ==> |Words(line)| >= 1 && ParseAll(Words(line)[1..]) == r
    ensures !StartsWith(line, "cpu ") ==> r.None?
    ensures (StartsWith(line, "cpu ") && |Words(line)| >= 1 && ParseAll(Words(line)[1..]).Some?
             && |ParseAll(Words(line)[1..]).value| >= 5) ==> r == ParseAll(Words(line)[1..])
  {
    if !StartsWith(line, "cpu ") then None
    else
      var fields := Words(line);
      if |fields| == 0 then None
      else
        match ParseAll(fields[1..])
        case None => None
        case Some(vs) => if |vs| < 5 then None else Some(vs)
  }

  /** `max(0.0, min(100.0, x))`. */
  function Clamp(x: real): (r: real)
    ensures 0.0 <= r <= 100.0
    ensures 0.0 <= x <= 100.0 ==> r == x
    ensures x < 0.0 ==> r == 0.0
    ensures x > 100.0 ==> r == 100.0
  {
    if x > 100.0 then 100.0 else if x < 0.0 then 0.0 else x
  }

  /** `(part * 100.0) / whole`, in exact arithmetic. */
  function Percent(part: int, whole: int): real
    requires whole != 0
  {
    (part as real * 100.0) / whole as real
  }

  /** The non-idle share of the ticks between two counter readings. */
  function Usage(prev: Counters, next: Counters): real {
    var diffTotal := next.total - prev.total;
    var diffIdle := next.idle - prev.idle;
    if diffTotal == 0 then 0.0
    else Clamp(Percent(diffTotal - diffIdle, diffTotal))
  }

  /** One `get_cpu` call. */
  function TakeSample(prev: Counters, stat: Option<string>): (s: Sample)
    ensures 0.0 <= s.usage <= 100.0
    ensures (stat.None? || ParseStatLine(stat.value).None?) ==> s == Sample(0.0, prev)
    ensures stat.Some? && ParseStatLine(stat.value).Some? ==>
      var vs := ParseStatLine(stat.value).value;
      s.next == Counters(Sum(vs), vs[3] + vs[4])
    ensures stat.Some? && ParseStatLine(stat.value).Some? ==> s.usage == Usage(prev, s.next)
  {
    match ReadCounters(stat)
    case None => Sample(0.0, prev)
    case Some(next) => Step(prev, next)
  }

  /** The totals of a readable, well-formed line: all ticks, and the idle
      plus iowait ticks. */
  function ReadCounters(stat: Option<string>): Option<Counters> {
    match stat
    case None => None
    case Some(line) => CountersOf(ParseStatLine(line))
  }

  function CountersOf(parsed: Option<seq<int>>): Option<Counters>
    requires parsed.Some? ==> |parsed.value| >= 5
  {
    match parsed
    case None => None
    case Some(vs) => Some(Counters(Sum(vs), vs[3] + vs[4]))
  }

  /** The successful path: the new counters are stored, whatever is reported. */
  function Step(prev: Counters, next: Counters): Sample {
    Sample(Usage(prev, next), next)
  }

  // ---------------------------------------------------------------------------
  // Properties of the sampler

  /** Between two readings with some ticks elapsed and no more idle ticks
      than ticks, the usage is the exact non-idle percentage, unclamped. */
  lemma UsageExact(prev: Counters, next: Counters)
    requires next.total - prev.total > 0
    requires 0 <= next.idle - prev.idle <= next.total - prev.total
    ensures Usage(prev, next) == Percent((next.total - prev.total) - (next.idle - prev.idle), next.total - prev.total)
  {
    var dt := (next.total - prev.total) as real;
    var di := (next.idle - prev.idle) as real;
    assert 0.0 <= di <= dt;
    assert (dt - di) * 100.0 / dt <= 100.0 by {
      assert (dt - di) * 100.0 <= dt * 100.0;
    }
  }

  /** Reading the same counters twice in a row reports zero and stores them again. */
  lemma RepeatedReading(prev: Counters, stat: Option<string>)
    ensures TakeSample(TakeSample(prev, stat).next, stat).usage == 0.0
    ensures TakeSample(TakeSample(prev, stat).next, stat).next == TakeSample(prev, stat).next
  {
  }

  /** A failed call leaves no trace: the next call behaves as if it had not happened. */
  lemma FailureTransparent(prev: Counters, bad: Option<string>, stat: Option<string>)
    requires bad.None? || ParseStatLine(bad.value).None?
    ensures TakeSample(TakeSample(prev, bad).next, stat) == TakeSample(prev, stat)
  {
  }

  // ---------------------------------------------------------------------------
  // The first sample

  function ShowNats(vs: seq<nat>): (ws: seq<string>)
    ensures |ws| == |vs|
    ensures forall i :: 0 <= i < |vs| ==> ws[i] == ShowNat(vs[i])
  {
    seq(|vs|, i requires 0 <= i < |vs| => ShowNat(vs[i]))
  }

  /** The aggregate line as the kernel writes it: the label, two spaces, the
      counters separated by single spaces, and the line terminator. */
  function StatLine(vs: seq<nat>): string {
    "cpu  " + Join(ShowNats(vs)) + "\n"
  }

  lemma ParseAllShowNats(vs: seq<nat>)
    ensures ParseAll(ShowNats(vs)) == Some(vs)
  {
    var ws := ShowNats(vs);
    var r := ParseAll(ws);
    forall i | 0 <= i < |vs|
      ensures ParseInt(ws[i]) == Some(vs[i] as int)
    {
      ParseIntShowInt(vs[i]);
    }
    assert r.Some?;
    assert r.value == vs;
  }

  /** The rendered line splits into its label and counters. */
  lemma StatLineWords(vs: seq<nat>)
    ensures Words(StatLine(vs)) == ["cpu"] + ShowNats(vs)
  {
    var counters := Join(ShowNats(vs)) + "\n";
    WordFromChars("cpu");
    assert StatLine(vs) == "cpu" + ("  " + counters);
    WordsOfWordThen("cpu", "  " + counters);
    WordsAfterSpaces("  ", counters);
    CountersWords(vs);
  }

  lemma CountersWords(vs: seq<nat>)
    ensures Words(Join(ShowNats(vs)) + "\n") == ShowNats(vs)
  {
    var ws := ShowNats(vs);
    forall w <- ws ensures IsWord(w) {
      var i :| 0 <= i < |ws| && ws[i] == w;
      ShowNatIsWord(vs[i]);
    }
    WordsOfJoinPadded(ws, "\n");
  }

  lemma StatLinePrefix(vs: seq<nat>)
    requires |vs| > 0
    ensures StartsWith(StatLine(vs), "cpu ")
  {
    assert StatLine(vs)[..4] == "cpu ";
  }

  /** The rendered line parses back to its counters. */
  lemma ParseStatLineRoundTrip(vs: seq<nat>)
    requires |vs| >= 5
    ensures ParseStatLine(StatLine(vs)) == Some(vs)
  {
    StatLinePrefix(vs);
    StatLineWords(vs);
    assert Words(StatLine(vs))[1..] == ShowNats(vs);
    ParseAllShowNats(vs);
  }

  lemma {:induction false} SumBound(vs: seq<nat>)
    requires |vs| >= 5
    ensures vs[3] + vs[4] <= Sum(vs)
  {
    var a := vs[1..];
    var b := a[1..];
    var c := b[1..];
    var d := c[1..];
    assert Sum(vs) == vs[0] + Sum(a);
    assert Sum(a) == a[0] + Sum(b);
    assert Sum(b) == b[0] + Sum(c);
    assert Sum(c) == c[0] + Sum(d);
    assert Sum(d) == d[0] + Sum(d[1..]);
    SumNonNegative(d[1..]);
  }

  lemma {:induction false} SumNonNegative(vs: seq<nat>)
    ensures Sum(vs) >= 0
    decreases |vs|
  {
    if |vs| > 0 {
      SumNonNegative(vs[1..]);
    }
  }

  lemma TakeSampleParsed(prev: Counters, line: string, vs: seq<int>)
    requires ParseStatLine(line) == Some(vs)
    ensures TakeSample(prev, Some(line)) == Step(prev, Counters(Sum(vs), vs[3] + vs[4]))
  {
    ReadCountersParsed(line, vs);
    TakeSampleRead(prev, Some(line), Counters(Sum(vs), vs[3] + vs[4]));
  }

  lemma ReadCountersParsed(line: string, vs: seq<int>)
    requires ParseStatLine(line) == Some(vs)
    ensures ReadCounters(Some(line)) == Some(Counters(Sum(vs), vs[3] + vs[4]))
  {
    ReadCountersOfLine(line);
    CountersOfParsed(vs);
  }

  lemma ReadCountersOfLine(line: string)
    ensures ReadCounters(Some(line)) == CountersOf(ParseStatLine(line))
  {
  }

  lemma CountersOfParsed(vs: seq<int>)
    requires |vs| >= 5
    ensures CountersOf(Some(vs)) == Some(Counters(Sum(vs), vs[3] + vs[4]))
  {
  }

  lemma TakeSampleRead(prev: Counters, stat: Option<string>, next: Counters)
    requires ReadCounters(stat) == Some(next)
    ensures TakeSample(prev, stat) == Step(prev, next)
  {
  }

  /** Measured from the initial counters, the usage is the non-idle share
      of all ticks counted. */
  lemma UsageSinceBoot(total: int, idle: int)
    requires total > 0 && 0 <= idle <= total
    ensures Usage(Initial, Counters(total, idle)) == Percent(total - idle, total)
  {
    UsageExact(Initial, Counters(total, idle));
  }

  /** The counters start at zero, so the first call reports the average
      since boot rather than zero. */
  lemma FirstSampleSinceBoot(line: string, vs: seq<nat>)
    requires ParseStatLine(line) == Some(vs) && Sum(vs) > 0
    ensures TakeSample(Initial, Some(line)).usage == Percent(Sum(vs) - (vs[3] + vs[4]), Sum(vs))
  {
    TakeSampleParsed(Initial, line, vs);
    FirstStep(vs);
  }

  lemma FirstStep(vs: seq<nat>)
    requires |vs| >= 5 && Sum(vs) > 0
    ensures Step(Initial, Counters(Sum(vs), vs[3] + vs[4])).usage == Percent(Sum(vs) - (vs[3] + vs[4]), Sum(vs))
  {
    SumBound(vs);
    UsageSinceBoot(Sum(vs), vs[3] + vs[4]);
  }

  /** For instance, 200 busy ticks out of 1000 since boot read as 20 percent. */
  lemma FirstSampleExample()
    ensures TakeSample(Initial, Some(StatLine([100, 0, 100, 700, 100]))).usage == 20.0
  {
    var vs: seq<nat> := [100, 0, 100, 700, 100];
    assert Sum(vs) == 1000;
    ParseStatLineRoundTrip(vs);
    FirstSampleSinceBoot(StatLine(vs), vs);
  }
}
