/** The progress parser of `download_youtube_audio`: a search for
    `\[download\]\s+(\d{1,3}\.\d)%` anywhere in one output line of the
    downloader. The captured number is returned in tenths of a percent, so
    `42.5` is 425. */
module ProgressLine {
  import opened Text

  const DownloadTag: string := "[download]"

  function Pow10(n: nat): (p: nat)
    ensures p >= 1
  {
    if n == 0 then 1 else 10 * Pow10(n - 1)
  }

  /** Value of a run of decimal digits. */
  function DecimalValue(ds: string): (v: nat)
    requires forall i :: 0 <= i < |ds| ==> IsDigit(ds[i])
    ensures v < Pow10(|ds|)
  {
    if ds == [] then 0 else DecimalValue(ds[..|ds| - 1]) * 10 + DigitValue(ds[|ds| - 1])
  }

  // ---------------------------------------------------------------------------
  // The matcher

  /** The pattern tried at position `i` only. After the tag the whitespace and
      the digits are each taken as one maximal run: `\s` and `\d` are disjoint,
      and the character after `\d{1,3}` must be a `.`, so backtracking into a
      shorter run never leads to a match. */
  function MatchAt(line: string, i: nat): (r: Option<nat>)
    requires i <= |line|
    ensures r.Some? ==> r.value <= 9999
  {
    assert Pow10(3) == 1000;
    if !(i + |DownloadTag| <= |line| && line[i..i + |DownloadTag|] == DownloadTag) then None
    else
      var j := i + |DownloadTag|;
      var w := SpanLen(line, j, IsSpace);
      var k := j + w;
      var d := SpanLen(line, k, IsDigit);
      if w == 0 || d < 1 || d > 3 || k + d + 3 > |line| then None
      else if line[k + d] == '.' && IsDigit(line[k + d + 1]) && line[k + d + 2] == '%' then
        Some(DecimalValue(line[k..k + d]) * 10 + DigitValue(line[k + d + 1]))
      else None
  }

  /** `re.search` from position `i`: the leftmost position where the pattern matches. */
  function SearchFrom(line: string, i: nat): (r: Option<nat>)
    requires i <= |line|
    ensures r.Some? ==> r.value <= 9999
    decreases |line| - i
  {
    match MatchAt(line, i)
    case Some(v) => Some(v)
    case None => if i == |line| then None else SearchFrom(line, i + 1)
  }

  /** The percentage a line reports, in tenths: at most 999.9, because the
      pattern allows three integer digits and nothing caps it at 100. */
  function ParseProgress(line: string): (r: Option<nat>)
    ensures r.Some? ==> r.value <= 9999
  {
    SearchFrom(line, 0)
  }

  // ---------------------------------------------------------------------------
  // The pattern, stated by positions: the tag at `i`, whitespace up to `k`,
  // `d` digits at `k`, then `.`, one digit and `%`.

  ghost predicate PatternWith(line: string, i: nat, k: nat, d: nat, v: nat)
  {
    && i + |DownloadTag| < k && k + d + 3 <= |line| && 1 <= d <= 3
    && line[i..i + |DownloadTag|] == DownloadTag
    && (forall m :: i + |DownloadTag| <= m < k ==> IsSpace(line[m]))
    && (forall m :: k <= m < k + d ==> IsDigit(line[m]))
    && line[k + d] == '.' && IsDigit(line[k + d + 1]) && line[k + d + 2] == '%'
    && v == DecimalValue(line[k..k + d]) * 10 + DigitValue(line[k + d + 1])
  }

  /** The pattern matches at position `i` and its number is `v` tenths. */
  ghost predicate ProgressAt(line: string, i: nat, v: nat)
  {
    exists k, d :: PatternWith(line, i, k, d, v)
  }

  lemma MatchAtSound(line: string, i: nat)
    requires i <= |line|
    requires MatchAt(line, i).Some?
    ensures ProgressAt(line, i, MatchAt(line, i).value)
  {
    var j := i + |DownloadTag|;
    var k := j + SpanLen(line, j, IsSpace);
    var d := SpanLen(line, k, IsDigit);
    assert PatternWith(line, i, k, d, MatchAt(line, i).value);
  }

  lemma MatchAtComplete(line: string, i: nat, k: nat, d: nat, v: nat)
    requires PatternWith(line, i, k, d, v)
    ensures MatchAt(line, i) == Some(v)
  {
    PatternRuns(line, i, k, d, v);
    var j := i + |DownloadTag|;
    assert line[i..j] == DownloadTag;
    assert j + SpanLen(line, j, IsSpace) == k;
    assert line[k + d] == '.' && IsDigit(line[k + d + 1]) && line[k + d + 2] == '%';
  }

  /** In a match, the whitespace and the digits are maximal runs. */
  lemma PatternRuns(line: string, i: nat, k: nat, d: nat, v: nat)
    requires PatternWith(line, i, k, d, v)
    ensures SpanLen(line, i + |DownloadTag|, IsSpace) == k - (i + |DownloadTag|)
    ensures SpanLen(line, k, IsDigit) == d
  {
    assert !IsSpace(line[k]) by {
      assert IsDigit(line[k]);
    }
    SpanLenExact(line, i + |DownloadTag|, k - (i + |DownloadTag|), IsSpace);
    SpanLenExact(line, k, d, IsDigit);
  }

  /** The matcher at one position agrees with the pattern, in both directions. */
  lemma MatchAtIff(line: string, i: nat, v: nat)
    requires i <= |line|
    ensures MatchAt(line, i) == Some(v) <==> ProgressAt(line, i, v)
  {
    if MatchAt(line, i) == Some(v) {
      MatchAtSound(line, i);
    }
    if ProgressAt(line, i, v) {
      var k, d :| PatternWith(line, i, k, d, v);
      MatchAtComplete(line, i, k, d, v);
    }
  }

  /** The pattern occurs at no position in `a..b`. */
  ghost predicate NoProgressIn(line: string, a: nat, b: nat)
  {
    forall j, v :: a <= j < b ==> !ProgressAt(line, j, v)
  }

  /** `j` is the leftmost position from `i` on where the pattern occurs, and
      its number there is `v`. */
  ghost predicate FirstProgressFrom(line: string, i: nat, j: nat, v: nat)
  {
    i <= j <= |line| && ProgressAt(line, j, v) && NoProgressIn(line, i, j)
  }

  lemma {:induction false} SearchFromSpec(line: string, i: nat)
    requires i <= |line|
    ensures SearchFrom(line, i).None? ==> NoProgressIn(line, i, |line| + 1)
    ensures SearchFrom(line, i).Some? ==> exists j: nat :: FirstProgressFrom(line, i, j, SearchFrom(line, i).value)
    decreases |line| - i
  {
    forall v: nat | true ensures MatchAt(line, i) == Some(v) <==> ProgressAt(line, i, v) {
      MatchAtIff(line, i, v);
    }
    match MatchAt(line, i)
    case Some(v) =>
      assert FirstProgressFrom(line, i, i, v);
    case None =>
      if i < |line| {
        SearchFromSpec(line, i + 1);
        match SearchFrom(line, i + 1)
        case Some(v) =>
          var j: nat :| FirstProgressFrom(line, i + 1, j, v);
          assert FirstProgressFrom(line, i, j, v);
        case None =>
          assert NoProgressIn(line, i, |line| + 1);
      } else {
        assert NoProgressIn(line, i, |line| + 1);
      }
  }

  /** A line yields no progress exactly when the pattern occurs nowhere in it;
      otherwise the value is the number at the leftmost occurrence. */
  lemma ParseProgressSpec(line: string)
    ensures ParseProgress(line).None? <==> forall j, v :: 0 <= j <= |line| ==> !ProgressAt(line, j, v)
    ensures ParseProgress(line).Some? ==>
              exists j :: 0 <= j <= |line| && ProgressAt(line, j, ParseProgress(line).value)
                && forall j', v :: 0 <= j' < j ==> !ProgressAt(line, j', v)
  {
    SearchFromSpec(line, 0);
    if ParseProgress(line).Some? {
      var j: nat :| FirstProgressFrom(line, 0, j, ParseProgress(line).value);
      assert NoProgressIn(line, 0, j);
    } else {
      assert NoProgressIn(line, 0, |line| + 1);
    }
  }

  /** The downloader's usual progress line reports 42.5 percent. */
  lemma ParsesTypicalLine()
    ensures ParseProgress("[download]  42.5% of 3.20MiB\n") == Some(425)
  {
    TypicalLinePattern();
    MatchAtComplete("[download]  42.5% of 3.20MiB\n", 0, 12, 2, 425);
  }

  lemma TypicalLinePattern()
    ensures PatternWith("[download]  42.5% of 3.20MiB\n", 0, 12, 2, 425)
  {
    var line := "[download]  42.5% of 3.20MiB\n";
    TypicalLineTag(line);
    TypicalLineNumber(line);
    TypicalLineSeparators(line);
  }

  lemma TypicalLineSeparators(line: string)
    requires line == "[download]  42.5% of 3.20MiB\n"
    ensures |line| == 29
    ensures forall m :: 10 <= m < 12 ==> IsSpace(line[m])
    ensures forall m :: 12 <= m < 14 ==> IsDigit(line[m])
    ensures line[14] == '.' && IsDigit(line[15]) && line[16] == '%'
    ensures DigitValue(line[15]) == 5
  {
  }

  lemma TypicalLineTag(line: string)
    requires line == "[download]  42.5% of 3.20MiB\n"
    ensures line[..10] == DownloadTag
  {
    forall m | 0 <= m < 10 ensures line[m] == DownloadTag[m] { }
  }

  lemma TypicalLineNumber(line: string)
    requires line == "[download]  42.5% of 3.20MiB\n"
    ensures line[12..14] == "42"
    ensures DecimalValue("42") == 42
  {
    forall m | 0 <= m < 2 ensures line[12 + m] == "42"[m] { }
    assert "42"[..1] == "4";
    assert "4"[..0] == [];
  }
}
