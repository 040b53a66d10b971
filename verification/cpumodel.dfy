/** CPU model detection (`SystemMonitor._detect_cpu_model`): the value of the
    first `model name` line of the kernel's CPU info table, normalised by
    dropping one trailing class suffix, an integrated-GPU clause and a clock
    annotation, then collapsing whitespace. The table arrives as its lines,
    each without its line terminator, or as None when it cannot be read. */
module CpuModel {
  import opened Wrappers
  import opened PyStrings

  const UnknownCpu: string := "Unknown CPU"

  /** The literal alternatives of the suffix pattern, lower-cased. */
  const ClassWords: set<string> :=
    {"cpu", "fpu", "apu", "processor", "dual-core", "quad-core", "six-core", "eight-core", "ten-core"}

  /** `[0-9]+-Core`, compared case-insensitively. */
  predicate IsCoreCount(w: string) {
    && |w| > 5
    && Lower(w[|w| - 5..]) == "-core"
    && forall i :: 0 <= i < |w| - 5 ==> IsDigit(w[i])
  }

  /** One alternative of the suffix pattern, compared case-insensitively. */
  predicate IsClassWord(w: string) {
    Lower(w) in ClassWords || IsCoreCount(w)
  }

  /** The suffix pattern matches at index `i`: a space, then a class word
      running to the end of the text. */
  predicate SuffixAt(s: string, i: nat) {
    i < |s| && s[i] == ' ' && IsClassWord(s[i + 1..])
  }

  /** The suffix substitution: the leftmost match, if any, is deleted. */
  function StripClassSuffix(s: string): (r: string)
    ensures |r| <= |s| && r == s[..|r|]
    ensures r == s || SuffixAt(s, |r|)
    ensures forall j: nat :: j < |r| ==> !SuffixAt(s, j)
    ensures r == s ==> forall j: nat :: !SuffixAt(s, j)
  {
    var p := (j: nat) => SuffixAt(s, j);
    assert forall j: nat :: p(j) == SuffixAt(s, j);
    match FirstIndex(p, 0, |s|)
    case None => s
    case Some(i) => s[..i]
  }

  /** The substitution of `pat + ".*$"` by nothing: the text is cut at the
      first occurrence of `pat`. */
  function TruncateAt(s: string, pat: string): (r: string)
    ensures |r| <= |s| && r == s[..|r|]
    ensures r == s || OccursAt(s, pat, |r|)
    ensures forall j: nat :: j < |r| ==> !OccursAt(s, pat, j)
    ensures r == s ==> forall j: nat :: j < |s| ==> !OccursAt(s, pat, j)
  {
    match Find(s, pat)
    case None => s
    case Some(i) => s[..i]
  }

  /** The text after the class suffix, Radeon clauses and clock annotation are cut. */
  function Trimmed(text: string): string {
    TruncateAt(TruncateAt(TruncateAt(StripClassSuffix(Strip(text)), " w/ Radeon"), " with Radeon"), " @")
  }

  /** The normalisation applied to the value of the `model name` line. */
  function Normalise(text: string): (r: string)
    ensures Collapsed(r)
    ensures Words(r) == Words(Trimmed(text))
  {
    CollapseSpec(Trimmed(text));
    Collapse(Trimmed(text))
  }

  predicate HasModelName(line: string) {
    Contains(line, "model name")
  }

  /** Index of the first line that mentions `model name`. */
  function FirstModelNameLine(lines: seq<string>): (r: Option<nat>)
    ensures r.Some? ==> r.value < |lines| && HasModelName(lines[r.value])
    ensures r.Some? ==> forall j :: 0 <= j < r.value ==> !HasModelName(lines[j])
    ensures r.None? ==> forall j :: 0 <= j < |lines| ==> !HasModelName(lines[j])
  {
    var p := (j: nat) => j < |lines| && HasModelName(lines[j]);
    assert forall j: nat :: p(j) == (j < |lines| && HasModelName(lines[j]));
    FirstIndex(p, 0, |lines|)
  }

  /** `line.split(":", 1)[1]`, or None where that raises. */
  function AfterColon(line: string): (r: Option<string>)
    ensures r.None? <==> ':' !in line
    ensures r.Some? ==> |r.value| < |line|
    ensures r.Some? ==>
      var i := |line| - |r.value| - 1;
      line[i] == ':' && ':' !in line[..i] && r.value == line[i + 1..]
  {
    match Find(line, ":")
    case None =>
      assert forall i :: 0 <= i < |line| ==> line[i] != ':' by {
        forall i | 0 <= i < |line| ensures line[i] != ':' {
          assert !OccursAt(line, ":", i);
          assert line[i..i + 1] == [line[i]];
        }
      }
      None
    case Some(i) =>
      assert line[i..i + 1] == ":";
      assert line[i] == ':';
      assert |line[i + 1..]| == |line| - i - 1;
      assert ':' !in line[..i] by {
        forall j | 0 <= j < i ensures line[j] != ':' {
          assert !OccursAt(line, ":", j);
          assert line[j..j + 1] == [line[j]];
        }
      }
      Some(line[i + 1..])
  }

  /** The detected CPU model: "Unknown CPU" when the table is unreadable, has no
      `model name` line, or its first such line has no colon; otherwise the
      normalised text after the first colon of the first such line. */
  function DetectCpuModel(cpuinfo: Option<seq<string>>): (r: string)
    ensures Collapsed(r)
    ensures cpuinfo.None? ==> r == UnknownCpu
    ensures cpuinfo.Some? && FirstModelNameLine(cpuinfo.value).None? ==> r == UnknownCpu
    ensures cpuinfo.Some? && FirstModelNameLine(cpuinfo.value).Some? ==>
      var line := cpuinfo.value[FirstModelNameLine(cpuinfo.value).value];
      r == (if ':' in line then Normalise(AfterColon(line).value) else UnknownCpu)
  {
    UnknownCpuCollapsed();
    match cpuinfo
    case None => UnknownCpu
    case Some(lines) =>
      match FirstModelNameLine(lines)
      case None => UnknownCpu
      case Some(i) =>
        match AfterColon(lines[i])
        case None => UnknownCpu
        case Some(value) => Normalise(value)
  }

  // ---------------------------------------------------------------------------
  // Facts used to evaluate the normalisation on concrete model names

  lemma UnknownCpuCollapsed()
    ensures Collapsed(UnknownCpu)
  {
    var ws := ["Unknown", "CPU"];
    WordFromChars("Unknown");
    WordFromChars("CPU");
    assert Join(ws) == UnknownCpu by {
      assert Join(ws[1..]) == "CPU";
    }
    JoinCollapsed(ws);
  }

  /** No class word contains a space, so a match can only start at the last space. */
  lemma ClassWordHasNoSpace(w: string)
    ensures ' ' in w ==> !IsClassWord(w)
  {
    if ' ' in w {
      var i :| 0 <= i < |w| && w[i] == ' ';
      assert Lower(w)[i] == ' ';
      assert forall x <- ClassWords :: ' ' !in x;
      assert |w| > 5 && i >= |w| - 5 ==> Lower(w[|w| - 5..])[i - (|w| - 5)] == ' ';
    }
  }

  /** A class word after the space at `k` is the suffix that gets removed. */
  lemma StripClassSuffixAt(s: string, k: nat)
    requires SuffixAt(s, k)
    ensures StripClassSuffix(s) == s[..k]
  {
    forall j: nat | j < k
      ensures !SuffixAt(s, j)
    {
      assert s[j + 1..][k - j - 1] == ' ';
      ClassWordHasNoSpace(s[j + 1..]);
    }
  }

  /** When the word after the last space is not a class word, nothing is removed. */
  lemma StripClassSuffixNone(s: string, k: nat)
    requires k < |s| && s[k] == ' ' && ' ' !in s[k + 1..]
    requires !IsClassWord(s[k + 1..])
    ensures StripClassSuffix(s) == s
  {
    forall j: nat
      ensures !SuffixAt(s, j)
    {
      if j < k {
        assert s[j + 1..][k - j - 1] == ' ';
        ClassWordHasNoSpace(s[j + 1..]);
      } else if k < j < |s| {
        assert s[k + 1..][j - k - 1] == s[j];
      }
    }
  }

  /** A pattern holding a character the text lacks leaves the text whole. */
  lemma TruncateAbsent(s: string, pat: string, c: char)
    requires c in pat && c !in s
    ensures TruncateAt(s, pat) == s
  {
    FindAbsent(s, pat, c);
  }

  /** When the `m`-th character of `pat` does not occur before index `k + m`,
      and `pat` occurs at `k`, the text is cut at `k`. */
  lemma TruncateAtOnly(s: string, pat: string, k: nat, m: nat)
    requires OccursAt(s, pat, k) && m < |pat|
    requires pat[m] !in s[..k + m]
    ensures TruncateAt(s, pat) == s[..k]
  {
    forall j: nat | j < k
      ensures !OccursAt(s, pat, j)
    {
      if j + |pat| <= |s| {
        assert s[j..j + |pat|][m] == s[..k + m][j + m];
      }
    }
  }

  lemma JoinFour(a: string, b: string, c: string, d: string)
    ensures Join([a, b, c, d]) == a + " " + (b + " " + (c + " " + d))
  {
    var ws := [a, b, c, d];
    assert ws[1..][1..][1..] == [d];
    assert Join(ws[1..][1..]) == c + " " + d;
    assert Join(ws[1..]) == b + " " + (c + " " + d);
  }

  lemma JoinFive(a: string, b: string, c: string, d: string, e: string)
    ensures Join([a, b, c, d, e]) == a + " " + (b + " " + (c + " " + (d + " " + e)))
  {
    assert [a, b, c, d, e][1..] == [b, c, d, e];
    JoinFour(b, c, d, e);
  }

  /** Joining words with single spaces gives a text that normalisation leaves alone. */
  lemma CollapseOfJoin(ws: seq<string>)
    requires forall w <- ws :: IsWord(w)
    ensures Collapse(Join(ws)) == Join(ws)
  {
    WordsOfJoin(ws);
  }

  // ---------------------------------------------------------------------------
  // Concrete model names

  const RyzenRaw: string := "AMD Ryzen 9 5900X 12-Core Processor"
  const RyzenCut: string := "AMD Ryzen 9 5900X 12-Core"
  const CoreI7Raw: string := "Intel(R) Core(TM) i7-9700K CPU @ 3.60GHz"
  const CoreI7Cut: string := "Intel(R) Core(TM) i7-9700K CPU"

  lemma RyzenTail()
    ensures RyzenRaw[25] == ' ' && RyzenRaw[26..] == "Processor"
  {
  }

  lemma RyzenHead()
    ensures RyzenRaw[..25] == RyzenCut
  {
  }

  lemma ProcessorIsClassWord()
    ensures IsClassWord("Processor")
  {
    assert Lower("Processor") == "processor";
  }

  lemma RyzenStripped()
    ensures Strip(RyzenRaw) == RyzenRaw
  {
    StripUnchanged(RyzenRaw);
  }

  lemma RyzenHasSuffix()
    ensures SuffixAt(RyzenRaw, 25)
  {
    RyzenTail();
    ProcessorIsClassWord();
  }

  lemma RyzenSuffix()
    ensures StripClassSuffix(Strip(RyzenRaw)) == RyzenCut
  {
    RyzenStripped();
    RyzenHasSuffix();
    StripClassSuffixAt(RyzenRaw, 25);
    RyzenHead();
  }

  lemma RyzenNoSlash()
    ensures '/' !in RyzenCut
  {
  }

  lemma RyzenNoW()
    ensures 'w' !in RyzenCut
  {
  }

  lemma RyzenNoAt()
    ensures '@' !in RyzenCut
  {
  }

  lemma RyzenTrimmed()
    ensures Trimmed(RyzenRaw) == RyzenCut
  {
    RyzenSuffix();
    RyzenNoSlash();
    RyzenNoW();
    RyzenNoAt();
    TruncateAbsent(RyzenCut, " w/ Radeon", '/');
    TruncateAbsent(RyzenCut, " with Radeon", 'w');
    TruncateAbsent(RyzenCut, " @", '@');
  }

  lemma RyzenWords()
    ensures forall w <- ["AMD", "Ryzen", "9", "5900X", "12-Core"] :: IsWord(w)
  {
    WordFromChars("AMD");
    WordFromChars("Ryzen");
    WordFromChars("9");
    WordFromChars("5900X");
    WordFromChars("12-Core");
  }

  lemma RyzenJoined()
    ensures Join(["AMD", "Ryzen", "9", "5900X", "12-Core"]) == RyzenCut
  {
    JoinFive("AMD", "Ryzen", "9", "5900X", "12-Core");
  }

  /** The suffix step runs once and before the clock annotation is cut, so the
      core count of this name survives once "Processor" is gone. */
  lemma NormaliseRyzen()
    ensures Normalise("AMD Ryzen 9 5900X 12-Core Processor") == "AMD Ryzen 9 5900X 12-Core"
  {
    RyzenTrimmed();
    RyzenWords();
    RyzenJoined();
    CollapseOfJoin(["AMD", "Ryzen", "9", "5900X", "12-Core"]);
  }

  lemma CoreI7Tail()
    ensures CoreI7Raw[32] == ' ' && CoreI7Raw[33..] == "3.60GHz"
  {
  }

  lemma ClockNotClassWord()
    ensures ' ' !in "3.60GHz" && !IsClassWord("3.60GHz")
  {
    assert Lower("3.60GHz") == "3.60ghz";
    assert Lower("3.60GHz"[2..]) == "60ghz";
  }

  lemma CoreI7Suffix()
    ensures StripClassSuffix(Strip(CoreI7Raw)) == CoreI7Raw
  {
    StripUnchanged(CoreI7Raw);
    CoreI7Tail();
    ClockNotClassWord();
    StripClassSuffixNone(CoreI7Raw, 32);
  }

  lemma CoreI7NoSlash()
    ensures '/' !in CoreI7Raw
  {
  }

  lemma CoreI7NoW()
    ensures 'w' !in CoreI7Raw
  {
  }

  lemma CoreI7Clock()
    ensures TruncateAt(CoreI7Raw, " @") == CoreI7Cut
  {
    assert CoreI7Raw[30..32] == " @" && '@' !in CoreI7Raw[..31];
    TruncateAtOnly(CoreI7Raw, " @", 30, 1);
    assert CoreI7Raw[..30] == CoreI7Cut;
  }

  lemma CoreI7Trimmed()
    ensures Trimmed(CoreI7Raw) == CoreI7Cut
  {
    CoreI7Suffix();
    CoreI7NoSlash();
    CoreI7NoW();
    TruncateAbsent(CoreI7Raw, " w/ Radeon", '/');
    TruncateAbsent(CoreI7Raw, " with Radeon", 'w');
    CoreI7Clock();
  }

  lemma CoreI7Words()
    ensures forall w <- ["Intel(R)", "Core(TM)", "i7-9700K", "CPU"] :: IsWord(w)
  {
    WordFromChars("Intel(R)");
    WordFromChars("Core(TM)");
    WordFromChars("i7-9700K");
    WordFromChars("CPU");
  }

  lemma CoreI7Joined()
    ensures Join(["Intel(R)", "Core(TM)", "i7-9700K", "CPU"]) == CoreI7Cut
  {
    JoinFour("Intel(R)", "Core(TM)", "i7-9700K", "CPU");
  }

  /** The clock annotation is cut after the suffix step, so "CPU" stays. */
  lemma NormaliseCoreI7()
    ensures Normalise("Intel(R) Core(TM) i7-9700K CPU @ 3.60GHz") == "Intel(R) Core(TM) i7-9700K CPU"
  {
    CoreI7Trimmed();
    CoreI7Words();
    CoreI7Joined();
    CollapseOfJoin(["Intel(R)", "Core(TM)", "i7-9700K", "CPU"]);
  }
}
