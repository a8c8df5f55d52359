/**
 * Extraction of one numeric score from one free-text judge completion
 * (`parse_output` in geval_scores.py).
 *
 * The source searches the completion with the regular expression
 * `^ ?([\d\.]+)`, converts the captured group with Python's `float`, and
 * falls back to 0 when there is no match or when the conversion raises.
 * Here the regular expression is modelled by `LeadingRun`, which is proved
 * to agree with a direct description of what the pattern matches
 * (`PatternMatches`, `GreedyMatch`), and the conversion by `ParseFloat`,
 * which is proved to accept exactly the runs with at least one digit and
 * at most one decimal point. Digits are the ASCII digits only; values are
 * exact decimals (`real`), not binary floating point.
 */
module ScoreParser {
  import opened Wrappers

  // ---------------------------------------------------------------------------
  // Characters of the pattern
  // ---------------------------------------------------------------------------

  /** `\d`, restricted to ASCII. */
  predicate IsDigit(c: char) {
    '0' <= c <= '9'
  }

  /** The character class `[\d\.]`. */
  predicate IsRunChar(c: char) {
    IsDigit(c) || c == '.'
  }

  predicate AllDigits(s: string) {
    forall i | 0 <= i < |s| :: IsDigit(s[i])
  }

  predicate AllRunChars(s: string) {
    forall i | 0 <= i < |s| :: IsRunChar(s[i])
  }

  /** The string begins with a character of the class `[\d\.]`. */
  predicate StartsWithRun(s: string) {
    |s| > 0 && IsRunChar(s[0])
  }

  // ---------------------------------------------------------------------------
  // The regular expression `^ ?([\d\.]+)`
  // ---------------------------------------------------------------------------

  /** Length of the longest run of class characters in `s` starting at `i`. */
  function RunLength(s: string, i: nat): (n: nat)
    requires i <= |s|
    ensures i + n <= |s|
    ensures forall k | i <= k < i + n :: IsRunChar(s[k])
    ensures i + n == |s| || !IsRunChar(s[i + n])
    decreases |s| - i
  {
    if i < |s| && IsRunChar(s[i]) then 1 + RunLength(s, i + 1) else 0
  }

  /**
   * How many characters ` ?` consumes in the match the engine reports.
   * The engine first tries to take a leading space; when no run follows it,
   * it backtracks to taking none, but then the run would have to start at
   * the space itself, which is not in the class, so that attempt fails too.
   */
  function SpaceSkipped(s: string): nat {
    if |s| > 0 && s[0] == ' ' then 1 else 0
  }

  /**
   * `re.search(r"^ ?([\d\.]+)", s)`: `None` when nothing matches, otherwise
   * the text of group 1.
   */
  function LeadingRun(s: string): (m: Option<string>)
    ensures m.Some? <==> StartsWithRun(s) || (|s| > 0 && s[0] == ' ' && StartsWithRun(s[1..]))
    ensures m.Some? ==> |m.value| > 0 && AllRunChars(m.value)
  {
    var skip := SpaceSkipped(s);
    var n := RunLength(s, skip);
    if n == 0 then None else Some(s[skip..skip + n])
  }

  /**
   * The pattern matches `s` at its start with the optional space taken
   * `skip` times and group 1 equal to `run`.
   */
  ghost predicate PatternMatches(s: string, skip: nat, run: string) {
    && skip <= 1
    && skip + |run| <= |s|
    && (skip == 1 ==> s[0] == ' ')
    && |run| > 0
    && AllRunChars(run)
    && s[skip..skip + |run|] == run
  }

  /** A match in which the greedy `+` cannot take one more character. */
  ghost predicate GreedyMatch(s: string, skip: nat, run: string) {
    && PatternMatches(s, skip, run)
    && (skip + |run| == |s| || !IsRunChar(s[skip + |run|]))
  }

  /** What `LeadingRun` returns is a greedy match of the pattern. */
  lemma LeadingRunIsGreedyMatch(s: string)
    requires LeadingRun(s).Some?
    ensures GreedyMatch(s, SpaceSkipped(s), LeadingRun(s).value)
  {
  }

  /**
   * Every match of the pattern takes the same optional space as
   * `LeadingRun` and captures a prefix of its run; the greedy match
   * captures exactly that run. So `LeadingRun` is `None` exactly when the
   * pattern does not match at all, and otherwise it is the group the
   * engine reports.
   */
  lemma MatchesAgreeWithLeadingRun(s: string, skip: nat, run: string)
    requires PatternMatches(s, skip, run)
    ensures LeadingRun(s).Some? && skip == SpaceSkipped(s)
    ensures run <= LeadingRun(s).value
    ensures GreedyMatch(s, skip, run) ==> run == LeadingRun(s).value
  {
    assert s[skip] == run[0];
    assert forall t | skip <= t < skip + |run| :: IsRunChar(s[t]) by {
      forall t | skip <= t < skip + |run| ensures IsRunChar(s[t]) {
        assert s[t] == run[t - skip];
      }
    }
    RunLengthOfRun(s, skip, |run|);
    var found := s[skip..skip + RunLength(s, skip)];
    assert found[..|run|] == run;
  }

  /**
   * A stretch of `k` class characters at `i` is covered by the run found
   * there, and is all of it when the next character ends it.
   */
  lemma {:induction false} RunLengthOfRun(s: string, i: nat, k: nat)
    requires i + k <= |s|
    requires forall t | i <= t < i + k :: IsRunChar(s[t])
    ensures RunLength(s, i) >= k
    ensures (i + k == |s| || !IsRunChar(s[i + k])) ==> RunLength(s, i) == k
    decreases k
  {
    if k > 0 {
      RunLengthOfRun(s, i + 1, k - 1);
    }
  }

  // ---------------------------------------------------------------------------
  // `float` on a run of digits and points
  // ---------------------------------------------------------------------------

  function DigitValue(c: char): (d: nat)
    requires IsDigit(c)
    ensures d < 10
  {
    (c as int) - ('0' as int)
  }

  function Pow10(k: nat): (p: nat)
    ensures p >= 1
  {
    if k == 0 then 1 else 10 * Pow10(k - 1)
  }

  /** The value of a string of decimal digits, most significant first. */
  function DigitsValue(ds: string): (n: nat)
    requires AllDigits(ds)
    ensures n < Pow10(|ds|)
  {
    if ds == [] then 0 else 10 * DigitsValue(ds[..|ds| - 1]) + DigitValue(ds[|ds| - 1])
  }

  /** Index of the first decimal point, or the length when there is none. */
  function PointIndex(run: string): (d: nat)
    ensures d <= |run|
    ensures '.' !in run[..d]
    ensures d < |run| ==> run[d] == '.'
  {
    if run == [] || run[0] == '.' then 0
    else
      assert run[..1 + PointIndex(run[1..])] == [run[0]] + run[1..][..PointIndex(run[1..])];
      1 + PointIndex(run[1..])
  }

  /** The digits before the first point. */
  function IntegerDigits(run: string): string {
    run[..PointIndex(run)]
  }

  /** Everything after the first point (empty when there is no point). */
  function FractionDigits(run: string): string {
    var d := PointIndex(run);
    if d < |run| then run[d + 1..] else []
  }

  /**
   * What Python's `float` accepts among strings of digits and points: at
   * least one digit and at most one point (`"2.5"`, `"1."`, `".5"`, but
   * not `"."` nor `"1.2.3"`).
   */
  predicate IsDecimal(run: string) {
    && multiset(run)['.'] <= 1
    && exists i | 0 <= i < |run| :: IsDigit(run[i])
  }

  /** A run of class characters is all digits exactly when it has no point. */
  lemma DigitsIffNoPoint(t: string)
    requires AllRunChars(t)
    ensures AllDigits(t) <==> multiset(t)['.'] == 0
  {
    if AllDigits(t) {
      assert '.' !in t by {
        forall i | 0 <= i < |t| ensures t[i] != '.' {
          assert IsDigit(t[i]);
        }
      }
    } else {
      var k :| 0 <= k < |t| && !IsDigit(t[k]);
      assert t[k] in multiset(t);
    }
  }

  /** Splitting at the first point gives digit strings exactly for the decimals. */
  lemma SplitAtPoint(run: string)
    requires AllRunChars(run)
    ensures AllDigits(IntegerDigits(run))
    ensures AllDigits(FractionDigits(run)) <==> multiset(run)['.'] <= 1
    ensures AllDigits(FractionDigits(run)) ==>
              (|IntegerDigits(run)| + |FractionDigits(run)| > 0 <==> IsDecimal(run))
  {
    var d := PointIndex(run);
    var ip, fp := IntegerDigits(run), FractionDigits(run);
    assert AllRunChars(ip) by {
      assert forall i | 0 <= i < |ip| :: ip[i] == run[i];
    }
    assert AllRunChars(fp) by {
      assert forall i | 0 <= i < |fp| :: fp[i] == run[d + 1 + i];
    }
    assert multiset(ip)['.'] == 0;
    DigitsIffNoPoint(ip);
    DigitsIffNoPoint(fp);
    if d < |run| {
      assert run == ip + [run[d]] + fp;
      assert multiset(run) == multiset(ip) + multiset([run[d]]) + multiset(fp);
      assert multiset(run)['.'] == multiset(fp)['.'] + 1;
    } else {
      assert run == ip;
    }
    if AllDigits(fp) {
      SomeDigitIffNonEmptyParts(run);
    }
  }

  /** With at most one point, a run has a digit exactly when it is not just the point. */
  lemma SomeDigitIffNonEmptyParts(run: string)
    requires AllRunChars(run)
    requires AllDigits(FractionDigits(run))
    ensures |IntegerDigits(run)| + |FractionDigits(run)| > 0
            <==> exists i | 0 <= i < |run| :: IsDigit(run[i])
  {
    var d := PointIndex(run);
    var ip, fp := IntegerDigits(run), FractionDigits(run);
    if |ip| > 0 {
      assert IsDigit(run[0]) by {
        assert run[0] == ip[0] && run[0] in run[..d];
      }
    } else if |fp| > 0 {
      assert IsDigit(run[d + 1]) by {
        assert run[d + 1] == fp[0];
      }
    }
    if exists i | 0 <= i < |run| :: IsDigit(run[i]) {
      var i :| 0 <= i < |run| && IsDigit(run[i]);
      assert i < d || i > d;
    }
  }

  /**
   * `float(run)` for a run captured by the pattern: `None` where Python
   * raises, otherwise the exact decimal value.
   */
  function ParseFloat(run: string): (v: Option<real>)
    requires AllRunChars(run)
    ensures v.Some? <==> IsDecimal(run)
    ensures v.Some? ==> v.value >= 0.0
  {
    SplitAtPoint(run);
    var ip, fp := IntegerDigits(run), FractionDigits(run);
    if AllDigits(fp) && |ip| + |fp| > 0 then
      Some(DigitsValue(ip) as real + DigitsValue(fp) as real / Pow10(|fp|) as real)
    else
      None
  }

  // ---------------------------------------------------------------------------
  // parse_output
  // ---------------------------------------------------------------------------

  /**
   * The score of one completion: the value of its leading number, or 0
   * when there is none or it is not a valid decimal.
   */
  function ParseOutput(output: string): (score: real)
    ensures score >= 0.0
  {
    match LeadingRun(output)
    case None => 0.0
    case Some(run) =>
      match ParseFloat(run)
      case None => 0.0
      case Some(v) => v
  }

  /**
   * A completion whose first character, after at most one space, is neither
   * a digit nor a point scores 0 (this covers the empty completion).
   */
  lemma NoLeadingNumberScoresZero(output: string)
    requires !StartsWithRun(output)
    requires |output| == 0 || output[0] != ' ' || !StartsWithRun(output[1..])
    ensures ParseOutput(output) == 0.0
  {
  }

  /**
   * Exactly one leading space is skipped: a space before a number changes
   * nothing, and a space before anything else (a second space included)
   * gives 0.
   */
  lemma OneLeadingSpaceSkipped(rest: string)
    ensures ParseOutput([' '] + rest) == if StartsWithRun(rest) then ParseOutput(rest) else 0.0
  {
    var s := [' '] + rest;
    assert s[1..] == rest;
    if StartsWithRun(rest) {
      LeadingRunIsGreedyMatch(s);
      var run := LeadingRun(s).value;
      assert s[1..1 + |run|] == rest[0..|run|];
      assert PatternMatches(rest, 0, run);
      MatchesAgreeWithLeadingRun(rest, 0, run);
    }
  }

  /** Two leading spaces never match. */
  lemma TwoLeadingSpacesScoreZero(rest: string)
    ensures ParseOutput([' ', ' '] + rest) == 0.0
  {
    assert [' ', ' '] + rest == [' '] + ([' '] + rest);
    OneLeadingSpaceSkipped([' '] + rest);
  }

  /**
   * Only the maximal leading run counts: whatever follows it leaves the
   * score unchanged, and the score is the run's decimal value when it has
   * at least one digit and at most one point, and 0 otherwise.
   */
  lemma LeadingRunDecidesScore(run: string, rest: string)
    requires |run| > 0 && AllRunChars(run)
    requires !StartsWithRun(rest)
    ensures ParseOutput(run + rest) == ParseOutput(run)
    ensures IsDecimal(run) ==> ParseOutput(run + rest) == ParseFloat(run).value
    ensures !IsDecimal(run) ==> ParseOutput(run + rest) == 0.0
  {
    var s := run + rest;
    assert s[0..|run|] == run;
    assert GreedyMatch(s, 0, run);
    MatchesAgreeWithLeadingRun(s, 0, run);
    assert run[0..|run|] == run;
    assert GreedyMatch(run, 0, run);
    MatchesAgreeWithLeadingRun(run, 0, run);
  }

  /** The digits of a natural number, most significant first (no leading zeros). */
  function NatDigits(n: nat): (ds: string)
    ensures |ds| > 0 && AllDigits(ds)
    ensures DigitsValue(ds) == n
  {
    var last := ['0' + (n % 10) as char];
    if n < 10 then last
    else
      var ds := NatDigits(n / 10) + last;
      assert ds[..|ds| - 1] == NatDigits(n / 10);
      ds
  }

  /** A non-empty string of digits is a decimal whose value is the integer it spells. */
  lemma DigitStringValue(ds: string)
    requires |ds| > 0 && AllDigits(ds)
    ensures AllRunChars(ds) && IsDecimal(ds)
    ensures ParseFloat(ds) == Some(DigitsValue(ds) as real)
  {
    assert PointIndex(ds) == |ds| by {
      assert forall i | 0 <= i < |ds| :: ds[i] != '.';
    }
    assert IntegerDigits(ds) == ds && FractionDigits(ds) == [];
    assert AllRunChars(ds);
    DigitsIffNoPoint(ds);
    assert IsDigit(ds[0]);
    assert IsDecimal(ds);
    assert DigitsValue([]) == 0 && Pow10(0) == 1;
    var v := ParseFloat(ds);
    assert v.Some?;
    assert v.value == DigitsValue(ds) as real;
  }

  /**
   * A judge answer made of an integer rating written in decimal, followed
   * by any explanation that does not continue the number, scores exactly
   * that rating, with or without one leading space.
   */
  lemma IntegerRatingRoundTrip(n: nat, explanation: string)
    requires !StartsWithRun(explanation)
    ensures ParseOutput(NatDigits(n) + explanation) == n as real
    ensures ParseOutput([' '] + NatDigits(n) + explanation) == n as real
  {
    var ds := NatDigits(n);
    DigitStringValue(ds);
    LeadingRunDecidesScore(ds, explanation);
    assert [' '] + ds + explanation == [' '] + (ds + explanation);
    OneLeadingSpaceSkipped(ds + explanation);
  }

  /**
   * A rating written as integer digits, a point and fraction digits (either
   * side may be empty, not both), followed by text that does not start with
   * a digit or a point, scores the exact decimal value written.
   */
  lemma DecimalRatingRoundTrip(whole: string, fraction: string, explanation: string)
    requires AllDigits(whole) && AllDigits(fraction)
    requires |whole| + |fraction| > 0
    requires !StartsWithRun(explanation)
    ensures ParseOutput(whole + ['.'] + fraction + explanation)
            == DigitsValue(whole) as real + DigitsValue(fraction) as real / Pow10(|fraction|) as real
  {
    var run := whole + ['.'] + fraction;
    PointSplitsDecimal(whole, fraction);
    SplitAtPoint(run);
    LeadingRunDecidesScore(run, explanation);
    assert run + explanation == whole + ['.'] + fraction + explanation;
  }

  /** Writing digits, a point and digits gives a run whose parts are those digits. */
  lemma PointSplitsDecimal(whole: string, fraction: string)
    requires AllDigits(whole) && AllDigits(fraction)
    ensures AllRunChars(whole + ['.'] + fraction)
    ensures IntegerDigits(whole + ['.'] + fraction) == whole
    ensures FractionDigits(whole + ['.'] + fraction) == fraction
  {
    var run := whole + ['.'] + fraction;
    assert AllRunChars(run) by {
      forall i | 0 <= i < |run| ensures IsRunChar(run[i]) {
        if i < |whole| {
          assert run[i] == whole[i];
        } else if i > |whole| {
          assert run[i] == fraction[i - |whole| - 1];
        }
      }
    }
    assert PointIndex(run) == |whole| by {
      assert run[|whole|] == '.';
      assert forall i | 0 <= i < |whole| :: run[i] == whole[i];
    }
    assert run[..|whole|] == whole;
    assert run[|whole| + 1..] == fraction;
  }

  /** Completions with no leading number. */
  lemma ExamplesWithoutNumber()
    ensures ParseOutput("") == 0.0
    ensures ParseOutput("not sure") == 0.0
    ensures ParseOutput("  4") == 0.0
  {
    NoLeadingNumberScoresZero("");
    NoLeadingNumberScoresZero("not sure");
    TwoLeadingSpacesScoreZero("4");
    assert "  4" == [' ', ' '] + "4";
  }

  /** An integer rating followed by an explanation. */
  lemma ExampleRatingWithExplanation()
    ensures ParseOutput("3 because...") == 3.0
  {
    assert AllDigits("3") && DigitsValue("3") == 3;
    DigitStringValue("3");
    LeadingRunDecidesScore("3", " because...");
    var answer := "3 because...";
    assert answer[1..] == " because...";
    assert answer == [answer[0]] + answer[1..];
  }

  /** An integer rating after one space. */
  lemma ExampleRatingAfterSpace()
    ensures ParseOutput(" 4") == 4.0
  {
    assert NatDigits(4) == "4";
    IntegerRatingRoundTrip(4, "");
    assert [' '] + NatDigits(4) + "" == " 4";
  }

  /** A decimal rating with digits on both sides of the point. */
  lemma ExampleDecimalRating()
    ensures ParseOutput("2.5") == 2.5
  {
    assert AllDigits("2") && AllDigits("5");
    assert DigitsValue("2") == 2 && DigitsValue("5") == 5 && Pow10(1) == 10;
    DecimalRatingRoundTrip("2", "5", "");
    assert "2" + ['.'] + "5" + "" == "2.5";
  }

  /** A trailing point with no fraction digits. */
  lemma ExampleTrailingPoint()
    ensures ParseOutput("1.") == 1.0
  {
    assert AllDigits("1") && DigitsValue("1") == 1;
    DecimalRatingRoundTrip("1", "", "");
    assert "1" + ['.'] + "" + "" == "1.";
  }

  /** A leading point with no integer digits. */
  lemma ExampleLeadingPoint()
    ensures ParseOutput(".5") == 0.5
  {
    assert AllDigits("5") && DigitsValue("5") == 5 && Pow10(1) == 10;
    DecimalRatingRoundTrip("", "5", "");
    assert "" + ['.'] + "5" + "" == ".5";
  }

  /** A run with two points is captured whole but `float` rejects it. */
  lemma ExampleTwoPoints()
    ensures LeadingRun("1.2.3") == Some("1.2.3") && ParseFloat("1.2.3") == None
    ensures ParseOutput("1.2.3") == 0.0
  {
    var answer := "1.2.3";
    assert multiset(answer)['.'] == 2 by {
      assert answer == ['1', '.'] + ['2', '.', '3'];
    }
    assert GreedyMatch(answer, 0, answer);
    MatchesAgreeWithLeadingRun(answer, 0, answer);
    LeadingRunDecidesScore(answer, "");
    assert answer + "" == answer;
  }

  /**
   * A decimal rating closed by a full stop: the point joins the run, which
   * then has two points, so `float` rejects it and the rating is lost.
   */
  lemma ExampleRatingWithFullStop()
    ensures LeadingRun("2.5. Good") == Some("2.5.") && ParseFloat("2.5.") == None
    ensures ParseOutput("2.5. Good") == 0.0
  {
    var run := "2.5.";
    assert multiset(run)['.'] == 2 by {
      assert run == ['2', '.'] + ['5', '.'];
    }
    var answer := "2.5. Good";
    assert answer[..4] == run && answer[4..] == " Good";
    assert answer == run + " Good";
    assert GreedyMatch(answer, 0, run);
    MatchesAgreeWithLeadingRun(answer, 0, run);
    LeadingRunDecidesScore(run, " Good");
  }

  /**
   * An integer rating closed by a full stop keeps its value: the run `"4."`
   * has one point, which `float` accepts.
   */
  lemma ExampleIntegerWithFullStop()
    ensures ParseOutput("4. Good") == 4.0
  {
    var run := "4.";
    PointSplitsDecimal("4", "");
    assert run == "4" + ['.'] + "";
    assert IsDecimal(run) && ParseFloat(run).value == 4.0 by {
      SplitAtPoint(run);
      assert DigitsValue("4") == 4 && DigitsValue("") == 0 && Pow10(0) == 1;
    }
    var answer := "4. Good";
    assert answer[..2] == run && answer[2..] == " Good";
    assert answer == run + " Good";
    LeadingRunDecidesScore(run, " Good");
  }

  /** A lone point is captured but `float` rejects it. */
  lemma ExampleLonePoint()
    ensures LeadingRun(".") == Some(".") && ParseFloat(".") == None
    ensures ParseOutput(".") == 0.0
  {
    assert !IsDecimal(".");
    assert GreedyMatch(".", 0, ".");
    MatchesAgreeWithLeadingRun(".", 0, ".");
    LeadingRunDecidesScore(".", "");
    assert "." + "" == ".";
  }
}
