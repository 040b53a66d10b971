/** The Python `str` operations the monitor relies on, over `seq<char>`.
    Whitespace is the ASCII part of what `str.isspace()` accepts; digits are
    the ASCII digits. */
module PyStrings {
  import opened Wrappers

  predicate IsSpace(c: char) {
    c == ' ' || '\t' <= c <= '\r' || '\U{001C}' <= c <= '\U{001F}'
  }

  predicate IsDigit(c: char) {
    '0' <= c <= '9'
  }

  predicate AllDigits(s: string) {
    forall i :: 0 <= i < |s| ==> IsDigit(s[i])
  }

  predicate StartsWith(s: string, prefix: string) {
    |prefix| <= |s| && s[..|prefix|] == prefix
  }

  predicate EndsWith(s: string, suffix: string) {
    |suffix| <= |s| && s[|s| - |suffix|..] == suffix
  }

  /** `pat` occurs in `s` starting at index `i`. */
  predicate OccursAt(s: string, pat: string, i: nat) {
    i + |pat| <= |s| && s[i..i + |pat|] == pat
  }

  /** A non-empty run of non-whitespace characters: one field of `str.split()`. */
  predicate IsWord(w: string) {
    |w| > 0 && forall i :: 0 <= i < |w| ==> !IsSpace(w[i])
  }

  /** No leading, trailing or doubled whitespace, and the only whitespace
      character is the plain space. */
  predicate Collapsed(s: string) {
    forall i :: 0 <= i < |s| && IsSpace(s[i]) ==>
      s[i] == ' ' && 0 < i < |s| - 1 && !IsSpace(s[i + 1])
  }

  // ---------------------------------------------------------------------------
  // Searching

  /** The least `j` with `i <= j < n` and `p(j)`. */
  function FirstIndex(p: nat -> bool, i: nat, n: nat): (r: Option<nat>)
    requires i <= n
    ensures r.Some? ==> i <= r.value < n && p(r.value)
    ensures r.Some? ==> forall j: nat :: i <= j < r.value ==> !p(j)
    ensures r.None? ==> forall j: nat :: i <= j < n ==> !p(j)
    decreases n - i
  {
    if i == n then None
    else if p(i) then Some(i)
    else FirstIndex(p, i + 1, n)
  }

  /** Index of the first occurrence of `pat` in `s` (`str.find`, with None for -1). */
  function Find(s: string, pat: string): (r: Option<nat>)
    ensures r.Some? ==> OccursAt(s, pat, r.value)
    ensures r.Some? ==> forall j: nat :: j < r.value ==> !OccursAt(s, pat, j)
    ensures r.None? ==> forall j: nat :: !OccursAt(s, pat, j)
  {
    var p := (j: nat) => OccursAt(s, pat, j);
    assert forall j: nat :: p(j) == OccursAt(s, pat, j);
    FirstIndex(p, 0, |s| + 1)
  }

  /** A pattern holding a character the text lacks is never found. */
  lemma FindAbsent(s: string, pat: string, c: char)
    requires c in pat && c !in s
    ensures Find(s, pat) == None
  {
    var m :| 0 <= m < |pat| && pat[m] == c;
    forall j: nat
      ensures !OccursAt(s, pat, j)
    {
      if j + |pat| <= |s| {
        assert s[j..j + |pat|][m] == s[j + m];
      }
    }
  }

  /** A pattern at the very start is found there. */
  lemma FindPrefix(pat: string, t: string)
    ensures Find(pat + t, pat) == Some(0)
  {
    assert (pat + t)[0..|pat|] == pat;
  }

  /** `pat in s`. */
  predicate Contains(s: string, pat: string) {
    Find(s, pat).Some?
  }

  /** `s.replace(pat, "")`: every non-overlapping occurrence, left to right, removed. */
  function RemoveAll(s: string, pat: string): string
    requires |pat| > 0
    decreases |s|
  {
    match Find(s, pat)
    case None => s
    case Some(i) => s[..i] + RemoveAll(s[i + |pat|..], pat)
  }

  // ---------------------------------------------------------------------------
  // Stripping, splitting and joining

  /** `s.lstrip()`. */
  function TrimLeft(s: string): (r: string)
    ensures |r| <= |s| && r == s[|s| - |r|..]
    ensures r == [] || !IsSpace(r[0])
    ensures forall i :: 0 <= i < |s| - |r| ==> IsSpace(s[i])
    decreases |s|
  {
    if |s| > 0 && IsSpace(s[0]) then TrimLeft(s[1..]) else s
  }

  /** `s.rstrip()`. */
  function TrimRight(s: string): (r: string)
    ensures |r| <= |s| && r == s[..|r|]
    ensures r == [] || !IsSpace(r[|r| - 1])
    ensures forall i :: |r| <= i < |s| ==> IsSpace(s[i])
    decreases |s|
  {
    if |s| > 0 && IsSpace(s[|s| - 1]) then TrimRight(s[..|s| - 1]) else s
  }

  /** `s.strip()`. */
  function Strip(s: string): (r: string)
    ensures |r| <= |s|
    ensures r == [] || (!IsSpace(r[0]) && !IsSpace(r[|r| - 1]))
  {
    TrimRight(TrimLeft(s))
  }

  /** A string with no whitespace at either end is its own strip. */
  lemma StripUnchanged(s: string)
    requires s == [] || (!IsSpace(s[0]) && !IsSpace(s[|s| - 1]))
    ensures Strip(s) == s
  {
  }

  /** Whitespace around a text with non-whitespace ends is what `strip` removes. */
  lemma StripPadded(lead: string, s: string, pad: string)
    requires s != [] && !IsSpace(s[0]) && !IsSpace(s[|s| - 1])
    requires forall i :: 0 <= i < |lead| ==> IsSpace(lead[i])
    requires forall i :: 0 <= i < |pad| ==> IsSpace(pad[i])
    ensures Strip(lead + s + pad) == s
  {
    assert lead + s + pad == lead + (s + pad);
    assert (s + pad)[0] == s[0];
    TrimLeftPadded(lead, s + pad);
    TrimRightPadded(s, pad);
  }

  lemma TrimLeftPadded(lead: string, u: string)
    requires u != [] && !IsSpace(u[0])
    requires forall i :: 0 <= i < |lead| ==> IsSpace(lead[i])
    ensures TrimLeft(lead + u) == u
  {
    var t := lead + u;
    var l := TrimLeft(t);
    assert t[|lead|] == u[0];
    assert forall i :: 0 <= i < |lead| ==> t[i] == lead[i];
    assert |t| - |l| == |lead|;
  }

  lemma TrimRightPadded(u: string, pad: string)
    requires u != [] && !IsSpace(u[|u| - 1])
    requires forall i :: 0 <= i < |pad| ==> IsSpace(pad[i])
    ensures TrimRight(u + pad) == u
  {
    var t := u + pad;
    var r := TrimRight(t);
    assert t[|u| - 1] == u[|u| - 1];
    assert forall i :: |u| <= i < |t| ==> t[i] == pad[i - |u|];
    assert |r| == |u|;
  }

  /** Length of the leading run of non-whitespace characters. */
  function WordLen(s: string): (n: nat)
    ensures n <= |s|
    ensures forall i :: 0 <= i < n ==> !IsSpace(s[i])
    ensures n == |s| || IsSpace(s[n])
    decreases |s|
  {
    if |s| == 0 || IsSpace(s[0]) then 0 else 1 + WordLen(s[1..])
  }

  /** `s.split()`: the maximal runs of non-whitespace characters, in order. */
  function Words(s: string): (ws: seq<string>)
    ensures forall w <- ws :: IsWord(w)
    decreases |s|
  {
    var t := TrimLeft(s);
    if t == [] then []
    else
      var n := WordLen(t);
      assert IsWord(t[..n]);
      [t[..n]] + Words(t[n..])
  }

  /** `" ".join(ws)`. */
  function Join(ws: seq<string>): string {
    if |ws| == 0 then ""
    else if |ws| == 1 then ws[0]
    else ws[0] + " " + Join(ws[1..])
  }

  lemma WordFromChars(w: string)
    requires |w| > 0 && forall c <- w :: !IsSpace(c)
    ensures IsWord(w)
  {
    forall i | 0 <= i < |w| ensures !IsSpace(w[i]) {
      assert w[i] in w;
    }
  }

  /** `" ".join(s.split())`: runs of whitespace become one space, ends trimmed. */
  function Collapse(s: string): string {
    Join(Words(s))
  }

  lemma TrimLeftOfWordStart(s: string)
    requires s == [] || !IsSpace(s[0])
    ensures TrimLeft(s) == s
  {
  }

  lemma {:induction false} WordsAfterSpace(c: char, s: string)
    requires IsSpace(c)
    ensures Words([c] + s) == Words(s)
  {
    assert ([c] + s)[1..] == s;
  }

  /** A word followed by whitespace (or nothing) is split off as the first field. */
  lemma {:induction false} WordsOfWordThen(w: string, rest: string)
    requires IsWord(w)
    requires rest == [] || IsSpace(rest[0])
    ensures Words(w + rest) == [w] + Words(rest)
  {
    var s := w + rest;
    TrimLeftOfWordStart(s);
    WordLenOfWordThen(w, rest);
    assert s[..|w|] == w;
    assert s[|w|..] == rest;
  }

  lemma {:induction false} WordLenOfWordThen(w: string, rest: string)
    requires forall i :: 0 <= i < |w| ==> !IsSpace(w[i])
    requires rest == [] || IsSpace(rest[0])
    ensures WordLen(w + rest) == |w|
    decreases |w|
  {
    if |w| > 0 {
      assert (w + rest)[1..] == w[1..] + rest;
      WordLenOfWordThen(w[1..], rest);
    } else {
      assert w + rest == rest;
    }
  }

  lemma WordsOfWord(w: string)
    requires IsWord(w)
    ensures Words(w) == [w]
  {
    TrimLeftOfWordStart(w);
    WordLenOfWordThen(w, "");
    assert w + "" == w;
    assert w[..|w|] == w && w[|w|..] == "";
    assert Words("") == [];
  }

  lemma WordsOfWordSpace(w: string, rest: string)
    requires IsWord(w)
    ensures Words(w + " " + rest) == [w] + Words(rest)
  {
    assert w + " " + rest == w + ([' '] + rest);
    WordsOfWordThen(w, [' '] + rest);
    WordsAfterSpace(' ', rest);
  }

  lemma JoinCons(w: string, ws: seq<string>)
    requires |ws| > 0
    ensures Join([w] + ws) == w + " " + Join(ws)
  {
    assert ([w] + ws)[1..] == ws;
  }

  lemma WordsOfJoinOne(ws: seq<string>)
    requires |ws| == 1 && IsWord(ws[0])
    ensures Words(Join(ws)) == ws
  {
    WordsOfWord(ws[0]);
  }

  lemma WordsOfJoinMore(ws: seq<string>)
    requires |ws| > 1 && IsWord(ws[0])
    ensures Words(Join(ws)) == [ws[0]] + Words(Join(ws[1..]))
  {
    WordsOfWordSpace(ws[0], Join(ws[1..]));
  }

  /** Splitting a joined list of words gives the words back. */
  lemma {:induction false} WordsOfJoin(ws: seq<string>)
    requires forall w <- ws :: IsWord(w)
    ensures Words(Join(ws)) == ws
    decreases |ws|
  {
    if |ws| == 1 {
      assert ws[0] in ws;
      WordsOfJoinOne(ws);
    } else if |ws| > 1 {
      assert ws[0] in ws;
      WordsOfJoin(ws[1..]);
      WordsOfJoinMore(ws);
      assert [ws[0]] + ws[1..] == ws;
    }
  }

  /** A run of whitespace characters, possibly empty. */
  predicate AllSpace(s: string) {
    forall i :: 0 <= i < |s| ==> IsSpace(s[i])
  }

  /** `n` spaces, as the kernel pads its columns. */
  function Spaces(n: nat): (s: string)
    ensures |s| == n && AllSpace(s)
  {
    seq(n, _ => ' ')
  }

  /** Leading whitespace does not change the fields. */
  lemma {:induction false} WordsAfterSpaces(lead: string, s: string)
    requires AllSpace(lead)
    ensures Words(lead + s) == Words(s)
    decreases |lead|
  {
    if |lead| > 0 {
      assert lead + s == [lead[0]] + (lead[1..] + s);
      WordsAfterSpace(lead[0], lead[1..] + s);
      WordsAfterSpaces(lead[1..], s);
    } else {
      assert lead + s == s;
    }
  }

  /** Whitespace alone has no fields. */
  lemma WordsOfSpaces(pad: string)
    requires AllSpace(pad)
    ensures Words(pad) == []
  {
    WordsAfterSpaces(pad, "");
    assert pad + "" == pad;
  }

  lemma WordsOfWordPadded(w: string, pad: string)
    requires IsWord(w) && AllSpace(pad)
    ensures Words(w + pad) == [w]
  {
    WordsOfSpaces(pad);
    WordsOfWordThen(w, pad);
  }

  lemma WordsOfJoinPaddedStep(ws: seq<string>, pad: string)
    requires |ws| > 1 && IsWord(ws[0])
    ensures Words(Join(ws) + pad) == [ws[0]] + Words(Join(ws[1..]) + pad)
  {
    var tail := Join(ws[1..]) + pad;
    assert Join(ws) + pad == ws[0] + ([' '] + tail);
    WordsOfWordThen(ws[0], [' '] + tail);
    WordsAfterSpace(' ', tail);
  }

  /** Words joined by spaces and followed by whitespace, such as a line
      terminator, split back into those words. */
  lemma {:induction false} WordsOfJoinPadded(ws: seq<string>, pad: string)
    requires forall w <- ws :: IsWord(w)
    requires AllSpace(pad)
    ensures Words(Join(ws) + pad) == ws
    decreases |ws|
  {
    if |ws| == 0 {
      WordsOfSpaces(pad);
    } else if |ws| == 1 {
      assert ws[0] in ws;
      WordsOfWordPadded(ws[0], pad);
    } else {
      assert ws[0] in ws;
      assert forall w <- ws[1..] :: IsWord(w);
      WordsOfJoinPadded(ws[1..], pad);
      WordsOfJoinPaddedStep(ws, pad);
      ConsOfTail(ws, Words(Join(ws) + pad), Words(Join(ws[1..]) + pad));
    }
  }

  lemma ConsOfTail<T>(xs: seq<T>, a: seq<T>, b: seq<T>)
    requires |xs| > 0 && a == [xs[0]] + b && b == xs[1..]
    ensures a == xs
  {
    assert [xs[0]] + xs[1..] == xs;
  }

  lemma {:induction false} JoinEnds(ws: seq<string>)
    requires |ws| > 0
    requires forall w <- ws :: IsWord(w)
    ensures |Join(ws)| > 0 && !IsSpace(Join(ws)[0]) && !IsSpace(Join(ws)[|Join(ws)| - 1])
    decreases |ws|
  {
    assert ws[0] in ws && ws[|ws| - 1] in ws;
    if |ws| > 1 {
      JoinEnds(ws[1..]);
    }
  }

  lemma CollapsedWordSpace(w: string, rest: string)
    requires IsWord(w) && Collapsed(rest)
    requires |rest| > 0 && !IsSpace(rest[0]) && !IsSpace(rest[|rest| - 1])
    ensures Collapsed(w + " " + rest)
  {
    var s := w + " " + rest;
    forall i | 0 <= i < |s| && IsSpace(s[i])
      ensures s[i] == ' ' && 0 < i < |s| - 1 && !IsSpace(s[i + 1])
    {
      if i < |w| {
        assert false;
      } else if i == |w| {
        assert s[i + 1] == rest[0];
      } else {
        assert s[i] == rest[i - |w| - 1];
        assert s[i + 1] == rest[i - |w|];
      }
    }
  }

  /** A joined list of words is collapsed. */
  lemma {:induction false} JoinCollapsed(ws: seq<string>)
    requires forall w <- ws :: IsWord(w)
    ensures Collapsed(Join(ws))
    decreases |ws|
  {
    if |ws| == 1 {
      assert ws[0] in ws;
    } else if |ws| > 1 {
      assert ws[0] in ws;
      JoinCollapsed(ws[1..]);
      JoinEnds(ws[1..]);
      CollapsedWordSpace(ws[0], Join(ws[1..]));
    }
  }

  /** `Collapse` keeps the words and leaves a collapsed string. */
  lemma CollapseSpec(s: string)
    ensures Collapsed(Collapse(s))
    ensures Words(Collapse(s)) == Words(s)
  {
    JoinCollapsed(Words(s));
    WordsOfJoin(Words(s));
  }

  lemma CollapsedAfter(s: string, k: nat)
    requires Collapsed(s) && k <= |s|
    requires k == |s| || !IsSpace(s[k])
    ensures Collapsed(s[k..])
  {
    var t := s[k..];
    forall i | 0 <= i < |t| && IsSpace(t[i])
      ensures t[i] == ' ' && 0 < i < |t| - 1 && !IsSpace(t[i + 1])
    {
      assert t[i] == s[k + i];
    }
  }

  /** A collapsed string is its own collapse. */
  lemma {:induction false} CollapseOfCollapsed(s: string)
    requires Collapsed(s)
    ensures Collapse(s) == s
    decreases |s|
  {
    if |s| > 0 {
      var n := WordLen(s);
      var w := s[..n];
      assert IsWord(w);
      if n == |s| {
        WordsOfWord(s);
      } else {
        var rest := s[n + 1..];
        assert s == w + " " + rest;
        CollapsedAfter(s, n + 1);
        WordsOfWordSpace(w, rest);
        CollapseOfCollapsed(rest);
        TrimLeftOfWordStart(rest);
        assert Words(rest) != [];
        JoinCons(w, Words(rest));
      }
    }
  }

  /** `s.split(sep)` with an explicit one-character separator: empty fields kept. */
  function SplitOn(s: string, sep: char): (parts: seq<string>)
    ensures |parts| >= 1
    ensures forall i :: 0 <= i < |parts| ==> sep !in parts[i]
    ensures JoinWith(parts, sep) == s
    decreases |s|
  {
    if |s| == 0 then [""]
    else
      var rest := SplitOn(s[1..], sep);
      if s[0] == sep then [""] + rest
      else [[s[0]] + rest[0]] + rest[1..]
  }

  /** `sep.join(parts)` for a one-character separator. */
  function JoinWith(parts: seq<string>, sep: char): string {
    if |parts| == 0 then ""
    else if |parts| == 1 then parts[0]
    else parts[0] + [sep] + JoinWith(parts[1..], sep)
  }

  /** Splitting on `sep` gives at least two fields exactly when `sep` occurs. */
  lemma SplitOnCount(s: string, sep: char)
    ensures |SplitOn(s, sep)| >= 2 <==> sep in s
  {
    var parts := SplitOn(s, sep);
    if |parts| >= 2 {
      assert s == parts[0] + [sep] + JoinWith(parts[1..], sep);
      assert s[|parts[0]|] == sep;
    } else {
      assert s == parts[0];
    }
  }

  lemma {:induction false} SplitOnPlain(x: string, sep: char)
    requires sep !in x
    ensures SplitOn(x, sep) == [x]
    decreases |x|
  {
    if |x| > 0 {
      SplitOnPlain(x[1..], sep);
      assert [x[0]] + x[1..] == x;
    }
  }

  lemma {:induction false} SplitOnPrefix(x: string, y: string, sep: char)
    requires sep !in x
    ensures SplitOn(x + [sep] + y, sep) == [x] + SplitOn(y, sep)
    decreases |x|
  {
    var s := x + [sep] + y;
    if |x| == 0 {
      assert s[1..] == y;
    } else {
      assert s[1..] == x[1..] + [sep] + y;
      SplitOnPrefix(x[1..], y, sep);
      assert [x[0]] + x[1..] == x;
    }
  }

  /** Splitting undoes joining, for fields free of the separator. */
  lemma {:induction false} SplitOnJoinWith(parts: seq<string>, sep: char)
    requires |parts| >= 1
    requires forall i :: 0 <= i < |parts| ==> sep !in parts[i]
    ensures SplitOn(JoinWith(parts, sep), sep) == parts
    decreases |parts|
  {
    if |parts| == 1 {
      SplitOnPlain(parts[0], sep);
    } else {
      assert forall i :: 0 <= i < |parts[1..]| ==> parts[1..][i] == parts[i + 1];
      SplitOnJoinWith(parts[1..], sep);
      SplitOnPrefix(parts[0], JoinWith(parts[1..], sep), sep);
      assert [parts[0]] + parts[1..] == parts;
    }
  }

  // ---------------------------------------------------------------------------
  // Case

  function LowerChar(c: char): char {
    if 'A' <= c <= 'Z' then (c as int + 32) as char else c
  }

  /** `s.lower()` on ASCII letters. */
  function Lower(s: string): (r: string)
    ensures |r| == |s|
    ensures forall i :: 0 <= i < |s| ==> r[i] == LowerChar(s[i])
  {
    seq(|s|, i requires 0 <= i < |s| => LowerChar(s[i]))
  }

  // ---------------------------------------------------------------------------
  // Numbers: Python's int() and float() on base-10 text

  /** ASCII digits, with single underscores allowed between two digits. */
  predicate IsDigitGroup(s: string) {
    && |s| > 0
    && IsDigit(s[0])
    && IsDigit(s[|s| - 1])
    && forall i :: 0 <= i < |s| ==>
         IsDigit(s[i]) || (s[i] == '_' && 0 < i < |s| - 1 && IsDigit(s[i - 1]) && IsDigit(s[i + 1]))
  }

  function DigitValue(c: char): nat
    requires IsDigit(c)
  {
    c as int - '0' as int
  }

  /** The number the digits of `s` spell, underscores skipped. */
  function DigitsValue(s: string): nat {
    if |s| == 0 then 0
    else if IsDigit(s[|s| - 1]) then 10 * DigitsValue(s[..|s| - 1]) + DigitValue(s[|s| - 1])
    else DigitsValue(s[..|s| - 1])
  }

  /** How many digits `s` holds. */
  function DigitCount(s: string): nat {
    if |s| == 0 then 0
    else if IsDigit(s[|s| - 1]) then 1 + DigitCount(s[..|s| - 1])
    else DigitCount(s[..|s| - 1])
  }

  function Pow10(n: nat): (p: nat)
    ensures p >= 1
  {
    if n == 0 then 1 else 10 * Pow10(n - 1)
  }

  /** Splits an optional leading sign off `t`: (negative, rest). */
  function SignOf(t: string): (bool, string) {
    if |t| > 0 && (t[0] == '+' || t[0] == '-') then (t[0] == '-', t[1..]) else (false, t)
  }

  /** An optional sign followed by a digit group, with nothing around them. */
  function ParseSignedGroup(t: string): Option<int> {
    var (neg, body) := SignOf(t);
    if IsDigitGroup(body) then Some(if neg then -(DigitsValue(body) as int) else DigitsValue(body))
    else None
  }

  /** `int(s)`: surrounding whitespace, an optional sign, then a digit group. */
  function ParseInt(s: string): Option<int> {
    ParseSignedGroup(Strip(s))
  }

  /** The fixed-point part of a float literal: `d`, `d.`, `.d` or `d.d`. */
  function ParseDecimal(b: string): Option<real> {
    match Find(b, ".")
    case None =>
      if IsDigitGroup(b) then Some(DigitsValue(b) as real) else None
    case Some(i) =>
      var whole, frac := b[..i], b[i + 1..];
      if (whole == [] && frac == []) || (whole != [] && !IsDigitGroup(whole)) || (frac != [] && !IsDigitGroup(frac))
      then None
      else Some(DigitsValue(whole) as real + DigitsValue(frac) as real / Pow10(DigitCount(frac)) as real)
  }

  /** `float(s)` for finite decimal text: surrounding whitespace, an optional
      sign, a fixed-point part and an optional `e`/`E` exponent. */
  function ParseFloat(s: string): Option<real> {
    ParseSignedFloat(Strip(s))
  }

  function ParseSignedFloat(t: string): Option<real> {
    var (neg, body) := SignOf(t);
    match ParseUnsignedFloat(body)
    case None => None
    case Some(v) => Some(if neg then -v else v)
  }

  function ParseUnsignedFloat(body: string): Option<real> {
    var (mantissa, exponent) :=
      match Find(Lower(body), "e")
      case None => (ParseDecimal(body), Some(0))
      case Some(i) => (ParseDecimal(body[..i]), ParseSignedGroup(body[i + 1..]));
    if mantissa.None? || exponent.None? then None
    else Some(Scale(mantissa.value, exponent.value))
  }

  /** `m * 10 ** e`. */
  function Scale(m: real, e: int): real {
    if e >= 0 then m * Pow10(e) as real else m / Pow10(-e) as real
  }

  // ---------------------------------------------------------------------------
  // Rendering, the inverse of the parsers

  function DigitChar(d: nat): (c: char)
    requires d < 10
    ensures IsDigit(c) && DigitValue(c) == d
  {
    ('0' as int + d) as char
  }

  /** `str(n)` for a natural number. */
  function ShowNat(n: nat): (s: string)
    ensures |s| > 0
    ensures forall i :: 0 <= i < |s| ==> IsDigit(s[i])
  {
    if n < 10 then [DigitChar(n)] else ShowNat(n / 10) + [DigitChar(n % 10)]
  }

  lemma ShowNatIsWord(n: nat)
    ensures IsWord(ShowNat(n))
  {
  }

  /** `str(n)` for an integer. */
  function ShowInt(n: int): string {
    if n < 0 then "-" + ShowNat(-n) else ShowNat(n)
  }

  lemma {:induction false} DigitsValueOfShowNat(n: nat)
    ensures DigitsValue(ShowNat(n)) == n
    ensures DigitCount(ShowNat(n)) == |ShowNat(n)|
    decreases n
  {
    var s := ShowNat(n);
    if n >= 10 {
      DigitsValueOfShowNat(n / 10);
      assert s[..|s| - 1] == ShowNat(n / 10);
    }
  }

  lemma ShowNatIsDigitGroup(n: nat)
    ensures IsDigitGroup(ShowNat(n))
  {
  }

  lemma ParseShowNat(n: nat)
    ensures ParseSignedGroup(ShowNat(n)) == Some(n)
  {
    DigitsValueOfShowNat(n);
  }

  /** `int(str(n)) == n`. */
  lemma ParseIntShowInt(n: int)
    ensures ParseInt(ShowInt(n)) == Some(n)
  {
    var s := ShowInt(n);
    StripUnchanged(s);
    if n < 0 {
      DigitsValueOfShowNat(-n);
      assert s[1..] == ShowNat(-n);
    } else {
      ParseShowNat(n);
    }
  }

  /** `int()` of a rendered number surrounded by whitespace, as read from a file. */
  lemma ParseIntPadded(lead: string, n: nat, pad: string)
    requires forall i :: 0 <= i < |lead| ==> IsSpace(lead[i])
    requires forall i :: 0 <= i < |pad| ==> IsSpace(pad[i])
    ensures ParseInt(lead + ShowNat(n) + pad) == Some(n)
  {
    StripPadded(lead, ShowNat(n), pad);
    ParseShowNat(n);
  }

  lemma ParseDecimalShowNat(n: nat)
    ensures ParseDecimal(ShowNat(n)) == Some(n as real)
  {
    var d := ShowNat(n);
    assert '.' !in d;
    FindAbsent(d, ".", '.');
    DigitsValueOfShowNat(n);
  }

  lemma NoExponentInShowNat(n: nat)
    ensures Find(Lower(ShowNat(n)), "e") == None
  {
    var d := ShowNat(n);
    assert forall i :: 0 <= i < |d| ==> Lower(d)[i] == d[i];
    assert 'e' !in Lower(d);
    FindAbsent(Lower(d), "e", 'e');
  }

  lemma ParseUnsignedShowNat(n: nat)
    ensures ParseUnsignedFloat(ShowNat(n)) == Some(n as real)
  {
    NoExponentInShowNat(n);
    ParseDecimalShowNat(n);
    assert Scale(n as real, 0) == n as real;
  }

  lemma UnsignedShowNat(n: nat)
    ensures SignOf(ShowNat(n)) == (false, ShowNat(n))
  {
    assert IsDigit(ShowNat(n)[0]);
  }

  lemma ParseFloatShowNat(n: nat)
    ensures ParseSignedFloat(ShowNat(n)) == Some(n as real)
  {
    UnsignedShowNat(n);
    ParseUnsignedShowNat(n);
  }

  /** `float()` of a rendered natural number surrounded by whitespace. */
  lemma ParseFloatPadded(lead: string, n: nat, pad: string)
    requires forall i :: 0 <= i < |lead| ==> IsSpace(lead[i])
    requires forall i :: 0 <= i < |pad| ==> IsSpace(pad[i])
    ensures ParseFloat(lead + ShowNat(n) + pad) == Some(n as real)
  {
    StripPadded(lead, ShowNat(n), pad);
    ParseFloatShowNat(n);
  }
}
