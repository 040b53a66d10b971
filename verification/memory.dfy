/** Memory usage (`SystemMonitor.get_mem`): the kernel's `meminfo` table is
    scanned for its `MemTotal:` and `MemAvailable:` lines (in kibibytes), and
    the used share is derived from them. The table arrives as its lines, or
    None when it cannot be opened. */
module Memory {
  import opened Wrappers
  import opened PyStrings

  /** `(usage, total, used, available)` as returned by `get_mem`. */
  datatype MemReport = MemReport(usage: real, total: int, used: int, available: int)

  /** What `get_mem` returns when nothing usable was read. */
  const NoMemReport: MemReport := MemReport(0.0, 0, 0, 0)

  /** How the scan of the table ended: at the early exit once both figures
      are positive, at the end of the table, or with an exception from a
      line with a missing or non-integer value. */
  datatype MemScan = Complete(total: int, available: int) | Ended(total: int, available: int) | Raised

  /** `int(line.split()[1])`, or None where that raises. */
  function FieldValue(line: string): (r: Option<int>)
    ensures r.Some? ==> |Words(line)| >= 2 && ParseInt(Words(line)[1]) == r
    ensures |Words(line)| >= 2 ==> r == ParseInt(Words(line)[1])
    ensures |Words(line)| < 2 ==> r.None?
  {
    var ws := Words(line);
    if |ws| < 2 then None else ParseInt(ws[1])
  }

  /** The figures after one line has been looked at, or None if it raised. */
  function ReadLine(line: string, total: int, available: int): Option<(int, int)> {
    if StartsWith(line, "MemTotal:") then
      match FieldValue(line)
      case None => None
      case Some(v) => Some((v, available))
    else if StartsWith(line, "MemAvailable:") then
      match FieldValue(line)
      case None => None
      case Some(v) => Some((total, v))
    else Some((total, available))
  }

  /** Some line of the table starts with `name` and carries the value `v`. */
  predicate ReadFrom(lines: seq<string>, name: string, v: int) {
    exists i :: 0 <= i < |lines| && StartsWith(lines[i], name) && FieldValue(lines[i]) == Some(v)
  }

  /** A figure the rest of the table leaves as `v`, where the first line left
      it as `x`, was read from the table unless it is still the initial `y`. */
  lemma ReadFromTail(lines: seq<string>, name: string, v: int, x: int, y: int)
    requires |lines| > 0
    requires v == x || ReadFrom(lines[1..], name, v)
    requires x == y || ReadFrom(lines, name, x)
    ensures v == y || ReadFrom(lines, name, v)
  {
    if v != x {
      var i :| 0 <= i < |lines[1..]| && StartsWith(lines[1..][i], name) && FieldValue(lines[1..][i]) == Some(v);
      assert lines[i + 1] == lines[1..][i];
    }
  }

  /** Each figure the scan ends with is either the one it started with or was
      read from a `MemTotal:` (respectively `MemAvailable:`) line of the table. */
  function ScanMeminfo(lines: seq<string>, total: int, available: int): (r: MemScan)
    ensures r.Complete? ==> r.total > 0 && r.available > 0
    ensures !r.Raised? ==> r.total == total || ReadFrom(lines, "MemTotal:", r.total)
    ensures !r.Raised? ==> r.available == available || ReadFrom(lines, "MemAvailable:", r.available)
    decreases |lines|
  {
    if |lines| == 0 then Ended(total, available)
    else
      match ReadLine(lines[0], total, available)
      case None => Raised
      case Some((t, a)) =>
        if t > 0 && a > 0 then
          assert t == total || ReadFrom(lines, "MemTotal:", t);
          assert a == available || ReadFrom(lines, "MemAvailable:", a);
          Complete(t, a)
        else
          var r := ScanMeminfo(lines[1..], t, a);
          if r.Raised? then r
          else
            assert t == total || ReadFrom(lines, "MemTotal:", t);
            assert a == available || ReadFrom(lines, "MemAvailable:", a);
            ReadFromTail(lines, "MemTotal:", r.total, t, total);
            ReadFromTail(lines, "MemAvailable:", r.available, a, available);
            r
  }

  /** The report for the two figures: all zeros when the total is zero. */
  function Report(total: int, available: int): (r: MemReport)
    ensures total == 0 ==> r == NoMemReport
    ensures total != 0 ==> r.total == total && r.available == available && r.used == total - available
    ensures total != 0 ==> r.usage * total as real == r.used as real * 100.0
  {
    if total == 0 then NoMemReport
    else
      var used := total - available;
      MemReport((used as real * 100.0) / total as real, total, used, available)
  }

  /** `get_mem`. */
  function GetMem(meminfo: Option<seq<string>>): (r: MemReport)
    ensures r.total == 0 ==> r == NoMemReport
    ensures r.total != 0 ==> r.used == r.total - r.available
    ensures meminfo.None? ==> r == NoMemReport
  {
    match meminfo
    case None => NoMemReport
    case Some(lines) =>
      match ScanMeminfo(lines, 0, 0)
      case Raised => NoMemReport
      case Complete(t, a) => Report(t, a)
      case Ended(t, a) => Report(t, a)
  }

  // ---------------------------------------------------------------------------
  // Properties of the scan

  /** Once both figures are positive the rest of the table is never read. */
  lemma {:induction false} ScanStopsEarly(lines: seq<string>, rest: seq<string>, total: int, available: int)
    requires ScanMeminfo(lines, total, available).Complete?
    ensures ScanMeminfo(lines + rest, total, available) == ScanMeminfo(lines, total, available)
    decreases |lines|
  {
    assert (lines + rest)[0] == lines[0];
    assert (lines + rest)[1..] == lines[1..] + rest;
    match ReadLine(lines[0], total, available)
    case Some((t, a)) =>
      if !(t > 0 && a > 0) {
        ScanStopsEarly(lines[1..], rest, t, a);
      }
  }

  /** Lines other than the two figures' are skipped. */
  lemma OtherLineSkipped(line: string, lines: seq<string>, total: int, available: int)
    requires !StartsWith(line, "MemTotal:") && !StartsWith(line, "MemAvailable:")
    requires !(total > 0 && available > 0)
    ensures ScanMeminfo([line] + lines, total, available) == ScanMeminfo(lines, total, available)
  {
    assert ([line] + lines)[1..] == lines;
  }

  /** A figure line without a readable value makes the whole call report zeros. */
  lemma MalformedFigure(line: string, lines: seq<string>)
    requires StartsWith(line, "MemTotal:") || StartsWith(line, "MemAvailable:")
    requires FieldValue(line).None?
    ensures GetMem(Some([line] + lines)) == NoMemReport
  {
  }

  /** A table without a total reports zeros, whatever else it holds. */
  lemma {:induction false} NoTotalLine(lines: seq<string>, available: int)
    requires forall i :: 0 <= i < |lines| ==> !StartsWith(lines[i], "MemTotal:")
    ensures ScanMeminfo(lines, 0, available) == Raised || ScanMeminfo(lines, 0, available).Ended?
    ensures ScanMeminfo(lines, 0, available).Ended? ==> ScanMeminfo(lines, 0, available).total == 0
    decreases |lines|
  {
    if |lines| > 0 {
      assert forall i :: 0 <= i < |lines[1..]| ==> lines[1..][i] == lines[i + 1];
      match ReadLine(lines[0], 0, available)
      case None =>
      case Some((t, a)) => NoTotalLine(lines[1..], a);
    }
  }

  lemma NoTotalGivesZeros(lines: seq<string>)
    requires forall i :: 0 <= i < |lines| ==> !StartsWith(lines[i], "MemTotal:")
    ensures GetMem(Some(lines)) == NoMemReport
  {
    NoTotalLine(lines, 0);
  }

  // ---------------------------------------------------------------------------
  // The table as the kernel writes it

  /** A `Name:   value kB` line as the kernel writes it: the name, at least
      one space of column padding, the value, the unit, the line terminator. */
  function FigureLine(name: string, pad: nat, value: nat): string {
    name + (" " + Spaces(pad)) + (Join([ShowNat(value), "kB"]) + "\n")
  }

  lemma ValueAndUnitWords(value: nat)
    ensures Words(Join([ShowNat(value), "kB"]) + "\n") == [ShowNat(value), "kB"]
  {
    ShowNatIsWord(value);
    WordFromChars("kB");
    WordsOfJoinPadded([ShowNat(value), "kB"], "\n");
  }

  lemma GapIsSpace(pad: nat)
    ensures AllSpace(" " + Spaces(pad))
  {
    var gap := " " + Spaces(pad);
    forall i | 0 <= i < |gap| ensures IsSpace(gap[i]) {
      if i > 0 {
        assert gap[i] == Spaces(pad)[i - 1];
      }
    }
  }

  lemma FigureLineSplit(name: string, pad: nat, value: nat)
    ensures FigureLine(name, pad, value) == name + ((" " + Spaces(pad)) + (Join([ShowNat(value), "kB"]) + "\n"))
  {
  }

  lemma PaddedValueWords(pad: nat, value: nat)
    ensures Words((" " + Spaces(pad)) + (Join([ShowNat(value), "kB"]) + "\n")) == [ShowNat(value), "kB"]
  {
    GapIsSpace(pad);
    ValueAndUnitWords(value);
    WordsAfterSpaces(" " + Spaces(pad), Join([ShowNat(value), "kB"]) + "\n");
  }

  lemma NameThenGapWords(name: string, gap: string, tail: string, value: nat)
    requires IsWord(name) && |gap| > 0 && gap[0] == ' '
    requires Words(gap + tail) == [ShowNat(value), "kB"]
    ensures Words(name + (gap + tail)) == [name, ShowNat(value), "kB"]
  {
    WordsOfWordThen(name, gap + tail);
  }

  lemma FigureLineWords(name: string, pad: nat, value: nat)
    requires IsWord(name)
    ensures Words(FigureLine(name, pad, value)) == [name, ShowNat(value), "kB"]
  {
    FigureLineSplit(name, pad, value);
    PaddedValueWords(pad, value);
    NameThenGapWords(name, " " + Spaces(pad), Join([ShowNat(value), "kB"]) + "\n", value);
  }

  lemma FigureLineFields(name: string, pad: nat, value: nat)
    requires IsWord(name)
    ensures StartsWith(FigureLine(name, pad, value), name)
    ensures FieldValue(FigureLine(name, pad, value)) == Some(value)
  {
    FigureLineWords(name, pad, value);
    assert FigureLine(name, pad, value)[..|name|] == name;
    ParseIntShowInt(value);
  }

  lemma TotalLineFields(pad: nat, value: nat)
    ensures StartsWith(FigureLine("MemTotal:", pad, value), "MemTotal:")
    ensures FieldValue(FigureLine("MemTotal:", pad, value)) == Some(value)
  {
    WordFromChars("MemTotal:");
    FigureLineFields("MemTotal:", pad, value);
  }

  lemma AvailableLineFields(pad: nat, value: nat)
    ensures !StartsWith(FigureLine("MemAvailable:", pad, value), "MemTotal:")
    ensures StartsWith(FigureLine("MemAvailable:", pad, value), "MemAvailable:")
    ensures FieldValue(FigureLine("MemAvailable:", pad, value)) == Some(value)
  {
    WordFromChars("MemAvailable:");
    FigureLineFields("MemAvailable:", pad, value);
    AvailableIsNotTotal(FigureLine("MemAvailable:", pad, value));
  }

  lemma AvailableIsNotTotal(line: string)
    requires StartsWith(line, "MemAvailable:")
    ensures !StartsWith(line, "MemTotal:")
  {
    assert line[3] == "MemAvailable:"[3] == 'A';
    assert "MemTotal:"[3] == 'T';
    assert |line| >= 9 && line[..9][3] == line[3];
  }

  /** A line carrying neither figure. */
  predicate OtherLine(line: string) {
    !StartsWith(line, "MemTotal:") && !StartsWith(line, "MemAvailable:")
  }

  /** A run of other lines is passed over while a figure is still missing. */
  lemma {:induction false} OtherLinesSkipped(lines: seq<string>, rest: seq<string>, total: int, available: int)
    requires forall i :: 0 <= i < |lines| ==> OtherLine(lines[i])
    requires !(total > 0 && available > 0)
    ensures ScanMeminfo(lines + rest, total, available) == ScanMeminfo(rest, total, available)
    decreases |lines|
  {
    if |lines| > 0 {
      assert OtherLine(lines[0]);
      assert lines + rest == [lines[0]] + (lines[1..] + rest);
      OtherLineSkipped(lines[0], lines[1..] + rest, total, available);
      assert forall i :: 0 <= i < |lines[1..]| ==> lines[1..][i] == lines[i + 1];
      OtherLinesSkipped(lines[1..], rest, total, available);
    } else {
      assert lines + rest == rest;
    }
  }

  lemma TotalLineRead(total: nat, pad: nat, lines: seq<string>)
    requires total > 0
    ensures ScanMeminfo([FigureLine("MemTotal:", pad, total)] + lines, 0, 0) == ScanMeminfo(lines, total, 0)
  {
    TotalLineFields(pad, total);
    assert ([FigureLine("MemTotal:", pad, total)] + lines)[1..] == lines;
  }

  lemma AvailableLineRead(total: nat, available: nat, pad: nat, lines: seq<string>)
    requires total > 0 && available > 0
    ensures ScanMeminfo([FigureLine("MemAvailable:", pad, available)] + lines, total, 0) == Complete(total, available)
  {
    AvailableLineFields(pad, available);
  }

  /** The table as the kernel lays it out: other lines (such as `MemFree:`)
      before and between the two figures, and anything after them. The report
      is derived from the two figures. */
  lemma GetMemOfTable(pre: seq<string>, total: nat, mid: seq<string>, available: nat, rest: seq<string>,
                      padTotal: nat, padAvailable: nat)
    requires total > 0 && available > 0
    requires forall i :: 0 <= i < |pre| ==> OtherLine(pre[i])
    requires forall i :: 0 <= i < |mid| ==> OtherLine(mid[i])
    ensures GetMem(Some(pre + [FigureLine("MemTotal:", padTotal, total)] + mid
                           + [FigureLine("MemAvailable:", padAvailable, available)] + rest))
         == Report(total, available)
  {
    var totalLine := FigureLine("MemTotal:", padTotal, total);
    var afterMid := [FigureLine("MemAvailable:", padAvailable, available)] + rest;
    var afterTotal := mid + afterMid;
    assert pre + [totalLine] + mid + [FigureLine("MemAvailable:", padAvailable, available)] + rest
        == pre + ([totalLine] + afterTotal);
    OtherLinesSkipped(pre, [totalLine] + afterTotal, 0, 0);
    TotalLineRead(total, padTotal, afterTotal);
    OtherLinesSkipped(mid, afterMid, total, 0);
    AvailableLineRead(total, available, padAvailable, rest);
  }

  /** 8000000 kB available out of 16000000 kB is 50 percent used. */
  lemma HalfUsed(pre: seq<string>, mid: seq<string>, rest: seq<string>)
    requires forall i :: 0 <= i < |pre| ==> OtherLine(pre[i])
    requires forall i :: 0 <= i < |mid| ==> OtherLine(mid[i])
    ensures GetMem(Some(pre + [FigureLine("MemTotal:", 6, 16000000)] + mid
                           + [FigureLine("MemAvailable:", 2, 8000000)] + rest))
         == MemReport(50.0, 16000000, 8000000, 8000000)
  {
    GetMemOfTable(pre, 16000000, mid, 8000000, rest, 6, 2);
  }
}
