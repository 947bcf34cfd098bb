/**
 * The coding-judge side: the fold that turns a decoded progress response
 * into LeetCodeStats, and the layout numbers of the judge badge.
 */
module LeetCode {
  import opened Wrappers
  import opened Models
  import Colors

  /** `allQuestionsCount[]`: number of questions of one difficulty. */
  datatype QuestionCount = QuestionCount(difficulty: string, count: int)

  /** An entry of `acSubmissionNum[]` or `totalSubmissionNum[]`. */
  datatype SubmissionCount = SubmissionCount(difficulty: string, count: int, submissions: int)

  /** The decoded response; `errors` holds the message of each reported error. */
  datatype ProgressResponse = ProgressResponse(
    allQuestionsCount: seq<QuestionCount>,
    ranking: int,
    acSubmissionNum: seq<SubmissionCount>,
    totalSubmissionNum: seq<SubmissionCount>,
    errors: seq<string>)

  // ---------------------------------------------------------------------
  // Specification of the fold
  // ---------------------------------------------------------------------

  /** Sum of `count` over every entry, whatever its difficulty level. */
  function QuestionTotal(qs: seq<QuestionCount>): int
  {
    if qs == [] then 0 else QuestionTotal(qs[..|qs| - 1]) + qs[|qs| - 1].count
  }

  /** Sum of `submissions` over every entry, with no level filtering. */
  function SubmissionTotal(ss: seq<SubmissionCount>): int
  {
    if ss == [] then 0 else SubmissionTotal(ss[..|ss| - 1]) + ss[|ss| - 1].submissions
  }

  /** The `count` of the last entry labelled `level`, or 0 when there is none. */
  function SolvedFor(ss: seq<SubmissionCount>, level: string): int
  {
    if ss == [] then 0
    else if ss[|ss| - 1].difficulty == level then ss[|ss| - 1].count
    else SolvedFor(ss[..|ss| - 1], level)
  }

  /** Accepted over total submissions as a percentage; 0 when there are no submissions. */
  function AcceptanceRate(accepted: int, total: int): real
  {
    if total > 0 then accepted as real / total as real * 100.0 else 0.0
  }

  /** The statistics the fold produces from an error-free response. */
  function StatsOf(resp: ProgressResponse): LeetCodeStats
  {
    var ac := resp.acSubmissionNum;
    var easy := SolvedFor(ac, "Easy");
    var medium := SolvedFor(ac, "Medium");
    var hard := SolvedFor(ac, "Hard");
    LeetCodeStats(
      totalSolved := easy + medium + hard,
      totalQuestions := QuestionTotal(resp.allQuestionsCount),
      easySolved := easy,
      mediumSolved := medium,
      hardSolved := hard,
      acceptanceRate := AcceptanceRate(SubmissionTotal(ac), SubmissionTotal(resp.totalSubmissionNum)),
      ranking := resp.ranking,
      contributionPoints := 0)
  }

  // ---------------------------------------------------------------------
  // The fold itself
  // ---------------------------------------------------------------------

  /**
   * Everything `FetchLeetCodeStats` does after decoding: fail with the first
   * reported error message, otherwise accumulate the statistics.
   */
  method FetchLeetCodeStats(resp: ProgressResponse) returns (r: Result<LeetCodeStats, string>)
    ensures r.Failure? <==> |resp.errors| > 0
    ensures r.Failure? ==> r.error == "leetcode API error: " + resp.errors[0]
    ensures r.Success? ==> r.value == StatsOf(resp)
  {
    if |resp.errors| > 0 {
      return Failure("leetcode API error: " + resp.errors[0]);
    }
    var totalQuestions := 0;
    var qs := resp.allQuestionsCount;
    for i := 0 to |qs|
      invariant totalQuestions == QuestionTotal(qs[..i])
    {
      assert qs[..i + 1][..i] == qs[..i];
      totalQuestions := totalQuestions + qs[i].count;
    }
    assert qs[..|qs|] == qs;

    var totalSubmissions, acceptedSubmissions := 0, 0;
    var easy, medium, hard := 0, 0, 0;
    var ac := resp.acSubmissionNum;
    for i := 0 to |ac|
      invariant acceptedSubmissions == SubmissionTotal(ac[..i])
      invariant easy == SolvedFor(ac[..i], "Easy")
      invariant medium == SolvedFor(ac[..i], "Medium")
      invariant hard == SolvedFor(ac[..i], "Hard")
    {
      assert ac[..i + 1][..i] == ac[..i];
      if ac[i].difficulty == "Easy" {
        easy := ac[i].count;
      } else if ac[i].difficulty == "Medium" {
        medium := ac[i].count;
      } else if ac[i].difficulty == "Hard" {
        hard := ac[i].count;
      }
      acceptedSubmissions := acceptedSubmissions + ac[i].submissions;
    }
    assert ac[..|ac|] == ac;

    var all := resp.totalSubmissionNum;
    for i := 0 to |all|
      invariant totalSubmissions == SubmissionTotal(all[..i])
    {
      assert all[..i + 1][..i] == all[..i];
      totalSubmissions := totalSubmissions + all[i].submissions;
    }
    assert all[..|all|] == all;

    var rate := 0.0;
    if totalSubmissions > 0 {
      rate := acceptedSubmissions as real / totalSubmissions as real * 100.0;
    }
    r := Success(LeetCodeStats(
      totalSolved := easy + medium + hard,
      totalQuestions := totalQuestions,
      easySolved := easy,
      mediumSolved := medium,
      hardSolved := hard,
      acceptanceRate := rate,
      ranking := resp.ranking,
      contributionPoints := 0));
  }

  // ---------------------------------------------------------------------
  // Properties of the fold
  // ---------------------------------------------------------------------

  /** The question total of a concatenation is the sum of the parts' totals. */
  lemma {:induction false} QuestionTotalAppend(a: seq<QuestionCount>, b: seq<QuestionCount>)
    ensures QuestionTotal(a + b) == QuestionTotal(a) + QuestionTotal(b)
    decreases |b|
  {
    if b != [] {
      var n := |b| - 1;
      assert (a + b)[..|a + b| - 1] == a + b[..n];
      assert (a + b)[|a + b| - 1] == b[n];
      QuestionTotalAppend(a, b[..n]);
    } else {
      assert a + b == a;
    }
  }

  /** The submission total of a concatenation is the sum of the parts' totals. */
  lemma {:induction false} SubmissionTotalAppend(a: seq<SubmissionCount>, b: seq<SubmissionCount>)
    ensures SubmissionTotal(a + b) == SubmissionTotal(a) + SubmissionTotal(b)
    decreases |b|
  {
    if b != [] {
      var n := |b| - 1;
      assert (a + b)[..|a + b| - 1] == a + b[..n];
      assert (a + b)[|a + b| - 1] == b[n];
      SubmissionTotalAppend(a, b[..n]);
    } else {
      assert a + b == a;
    }
  }

  /**
   * The solved count for a level comes from the last entry with exactly that
   * level, and is 0 when no entry carries it.
   */
  lemma SolvedForLastWins(ss: seq<SubmissionCount>, level: string)
    ensures (forall k :: 0 <= k < |ss| ==> ss[k].difficulty != level) ==> SolvedFor(ss, level) == 0
    ensures forall k :: 0 <= k < |ss| && ss[k].difficulty == level
                        && (forall j :: k < j < |ss| ==> ss[j].difficulty != level)
                        ==> SolvedFor(ss, level) == ss[k].count
  {
    if forall k :: 0 <= k < |ss| ==> ss[k].difficulty != level {
      SolvedForAbsent(ss, level);
    }
    forall k | 0 <= k < |ss| && ss[k].difficulty == level
               && (forall j :: k < j < |ss| ==> ss[j].difficulty != level)
      ensures SolvedFor(ss, level) == ss[k].count
    {
      SolvedForAt(ss, level, k);
    }
  }

  /** No entry labelled `level`: the count stays 0. */
  lemma {:induction false} SolvedForAbsent(ss: seq<SubmissionCount>, level: string)
    requires forall k :: 0 <= k < |ss| ==> ss[k].difficulty != level
    ensures SolvedFor(ss, level) == 0
  {
    if ss != [] {
      var prefix := ss[..|ss| - 1];
      assert forall k :: 0 <= k < |prefix| ==> prefix[k] == ss[k];
      SolvedForAbsent(prefix, level);
    }
  }

  /** Entry `k` is the last labelled `level`: the count is its count. */
  lemma {:induction false} SolvedForAt(ss: seq<SubmissionCount>, level: string, k: int)
    requires 0 <= k < |ss| && ss[k].difficulty == level
    requires forall j :: k < j < |ss| ==> ss[j].difficulty != level
    ensures SolvedFor(ss, level) == ss[k].count
  {
    var n := |ss| - 1;
    if k < n {
      var prefix := ss[..n];
      assert prefix[k] == ss[k];
      assert forall j :: k < j < |prefix| ==> prefix[j] == ss[j];
      SolvedForAt(prefix, level, k);
    }
  }

  /** An entry with another level (for instance "All") never changes a solved count. */
  lemma {:induction false} SolvedForIgnoresOtherLabels(ss: seq<SubmissionCount>, extra: SubmissionCount, level: string)
    requires extra.difficulty != level
    ensures SolvedFor(ss + [extra], level) == SolvedFor(ss, level)
    ensures SolvedFor([extra] + ss, level) == SolvedFor(ss, level)
    decreases |ss|
  {
    assert (ss + [extra])[..|ss|] == ss;
    if ss != [] {
      var n := |ss| - 1;
      assert ([extra] + ss)[..|ss|] == [extra] + ss[..n];
      SolvedForIgnoresOtherLabels(ss[..n], extra, level);
    }
  }

  /** The derived fields of the statistics of any error-free response. */
  lemma StatsOfDerived(resp: ProgressResponse)
    ensures StatsOf(resp).totalSolved
      == StatsOf(resp).easySolved + StatsOf(resp).mediumSolved + StatsOf(resp).hardSolved
    ensures StatsOf(resp).ranking == resp.ranking
    ensures SubmissionTotal(resp.totalSubmissionNum) <= 0 ==> StatsOf(resp).acceptanceRate == 0.0
  {
  }

  /**
   * With submissions present, the rate times the total is 100 times the
   * accepted count, and it lies in [0, 100] whenever 0 <= accepted <= total.
   */
  lemma AcceptanceRateMeaning(accepted: int, total: int)
    requires total > 0
    ensures AcceptanceRate(accepted, total) * total as real == 100.0 * accepted as real
    ensures 0 <= accepted <= total ==> 0.0 <= AcceptanceRate(accepted, total) <= 100.0
  {
    var t := total as real;
    var q := accepted as real / t;
    assert q * t == accepted as real;
    if 0 <= accepted <= total {
      assert 0.0 <= q;
      assert q <= 1.0;
    }
  }

  // ---------------------------------------------------------------------
  // Badge layout
  // ---------------------------------------------------------------------

  /** A Go float64 value: finite, or NaN/Inf after a division by zero. */
  datatype FloatValue = Finite(value: real) | NonFinite

  /** The numbers and colours substituted into the judge badge template. */
  datatype LeetCodeBadge = LeetCodeBadge(
    themeColor: string,
    bgColor: string,
    barBgColor: string,
    username: string,
    ranking: int,
    totalSolved: int,
    totalQuestions: int,
    totalBarWidth: FloatValue,
    easyBarWidth: FloatValue,
    mediumBarWidth: FloatValue,
    hardBarWidth: FloatValue,
    acceptanceRate: real)

  const ProgressBarWidth: real := 440.0

  /** A progress bar's share of the 440-unit track: solved over total, as a float division. */
  function ProgressWidth(solved: int, totalQuestions: int): (w: FloatValue)
    ensures w.Finite? <==> totalQuestions != 0
    ensures w.Finite? ==> w.value * totalQuestions as real == ProgressBarWidth * solved as real
    ensures w.Finite? && 0 <= solved <= totalQuestions ==> 0.0 <= w.value <= ProgressBarWidth
  {
    if totalQuestions == 0 then NonFinite
    else
      var percent := solved as real / totalQuestions as real * 100.0;
      var q := solved as real / totalQuestions as real;
      assert q * totalQuestions as real == solved as real;
      assert 0 <= solved <= totalQuestions ==> 0.0 <= q <= 1.0;
      Finite(ProgressBarWidth * percent / 100.0)
  }

  /** The parameters `GenerateLeetCodeStatsSVG` substitutes into its template. */
  function GenerateLeetCodeStatsSVG(stats: LeetCodeStats, username: string, color: string, background: string)
    : (b: LeetCodeBadge)
    ensures b.themeColor == Colors.ResolveColor(color) && b.bgColor == Colors.ResolveBackground(background)
    ensures b.themeColor in Colors.ColorSchemes.Values
    ensures b.bgColor in Colors.BackgroundSchemes.Values
    ensures color in Colors.ColorSchemes ==> b.themeColor == Colors.ColorSchemes[color]
    ensures background in Colors.BackgroundSchemes ==> b.bgColor == Colors.BackgroundSchemes[background]
    ensures color !in Colors.ColorSchemes ==> b.themeColor == "rgb(243, 69, 69)"
    ensures background !in Colors.BackgroundSchemes ==> b.bgColor == "#0A0A0A"
    ensures b.barBgColor == Colors.BarBackground(background)
    ensures b.barBgColor == "#E5E5E5" <==> background == "white"
    ensures background != "white" ==> b.barBgColor == "#171717"
    ensures b.totalBarWidth == ProgressWidth(stats.totalSolved, stats.totalQuestions)
    ensures b.easyBarWidth == ProgressWidth(stats.easySolved, stats.totalQuestions)
    ensures b.mediumBarWidth == ProgressWidth(stats.mediumSolved, stats.totalQuestions)
    ensures b.hardBarWidth == ProgressWidth(stats.hardSolved, stats.totalQuestions)
    ensures b.totalBarWidth.Finite? <==> stats.totalQuestions != 0
    ensures stats.totalQuestions != 0 ==>
      && b.totalBarWidth.value * stats.totalQuestions as real == 440.0 * stats.totalSolved as real
      && b.easyBarWidth.value * stats.totalQuestions as real == 440.0 * stats.easySolved as real
      && b.mediumBarWidth.value * stats.totalQuestions as real == 440.0 * stats.mediumSolved as real
      && b.hardBarWidth.value * stats.totalQuestions as real == 440.0 * stats.hardSolved as real
    ensures b.username == username && b.totalSolved == stats.totalSolved && b.totalQuestions == stats.totalQuestions
    ensures b.acceptanceRate == stats.acceptanceRate && b.ranking == stats.ranking
  {
    LeetCodeBadge(
      themeColor := Colors.ResolveColor(color),
      bgColor := Colors.ResolveBackground(background),
      barBgColor := Colors.BarBackground(background),
      username := username,
      ranking := stats.ranking,
      totalSolved := stats.totalSolved,
      totalQuestions := stats.totalQuestions,
      totalBarWidth := ProgressWidth(stats.totalSolved, stats.totalQuestions),
      easyBarWidth := ProgressWidth(stats.easySolved, stats.totalQuestions),
      mediumBarWidth := ProgressWidth(stats.mediumSolved, stats.totalQuestions),
      hardBarWidth := ProgressWidth(stats.hardSolved, stats.totalQuestions),
      acceptanceRate := stats.acceptanceRate)
  }

  /**
   * When every bucket is between 0 and the question total, all four bars
   * fit the 440-pixel track, and the total bar is the sum of the three.
   */
  lemma BadgeBarsFitTrack(stats: LeetCodeStats, username: string, color: string, background: string)
    requires stats.totalQuestions > 0
    requires stats.totalSolved == stats.easySolved + stats.mediumSolved + stats.hardSolved
    requires 0 <= stats.easySolved && 0 <= stats.mediumSolved && 0 <= stats.hardSolved
    requires stats.totalSolved <= stats.totalQuestions
    ensures var b := GenerateLeetCodeStatsSVG(stats, username, color, background);
      && 0.0 <= b.easyBarWidth.value <= 440.0
      && 0.0 <= b.mediumBarWidth.value <= 440.0
      && 0.0 <= b.hardBarWidth.value <= 440.0
      && 0.0 <= b.totalBarWidth.value <= 440.0
      && b.totalBarWidth.value == b.easyBarWidth.value + b.mediumBarWidth.value + b.hardBarWidth.value
  {
    ProgressWidthAdds(stats.easySolved, stats.mediumSolved, stats.hardSolved, stats.totalQuestions);
  }

  /** Widths add up: the bar of a sum of buckets is the sum of their bars. */
  lemma ProgressWidthAdds(a: int, b: int, c: int, total: int)
    requires total > 0
    ensures ProgressWidth(a + b + c, total).value
         == ProgressWidth(a, total).value + ProgressWidth(b, total).value + ProgressWidth(c, total).value
  {
    SharesAdd(ProgressWidth(a, total).value, ProgressWidth(b, total).value, ProgressWidth(c, total).value,
              ProgressWidth(a + b + c, total).value, total as real, a as real, b as real, c as real);
  }

  /** Shares of a positive total, each `w * t == 440 * x`, add up like their numerators. */
  lemma SharesAdd(wa: real, wb: real, wc: real, ws: real, t: real, a: real, b: real, c: real)
    requires t > 0.0
    requires wa * t == 440.0 * a && wb * t == 440.0 * b && wc * t == 440.0 * c
    requires ws * t == 440.0 * (a + b + c)
    ensures ws == wa + wb + wc
  {
    assert (wa + wb + wc) * t == wa * t + wb * t + wc * t;
    assert (ws - (wa + wb + wc)) * t == 0.0;
  }
}
