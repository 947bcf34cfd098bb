/**
 * Layout computation of the two source-control badges: the language-share
 * badge and the contribution badge. The SVG text is opaque; what is modelled
 * is every number and colour substituted into it.
 */
module GithubRender {
  import opened Wrappers
  import opened Models
  import Colors

  // ---------------------------------------------------------------------
  // Percentages in hundredths
  // ---------------------------------------------------------------------

  /** Integer division truncating toward zero, as Go's `int(x)` conversion does. */
  function TruncDiv(a: int, b: int): (q: int)
    requires b != 0
    ensures a >= 0 && b > 0 ==> q == a / b
  {
    var m := (if a < 0 then -a else a) / (if b < 0 then -b else b);
    if (a < 0) == (b < 0) then m else -m
  }

  /**
   * A language's share of the tagged repositories, truncated toward zero to
   * whole hundredths of a percent and held as an integer: 1234 stands for 12.34%.
   */
  function Hundredths(count: int, total: int): int
    requires total != 0
  {
    TruncDiv(count * 10000, total)
  }

  /**
   * For a share of a positive total, the percentage is the exact share
   * truncated down to a hundredth, and lies in [0, 100%].
   */
  lemma HundredthsIsFloor(count: int, total: int)
    requires 0 <= count && total > 0
    ensures Hundredths(count, total) * total <= count * 10000 < (Hundredths(count, total) + 1) * total
    ensures count <= total ==> 0 <= Hundredths(count, total) <= 10000
  {
    var n := count * 10000;
    var q := n / total;
    var r := n % total;
    assert Hundredths(count, total) == q;
    assert n == q * total + r && 0 <= r < total;
    assert (q + 1) * total == q * total + total;
    ScaledBelow(q, n, total);
    if count <= total {
      assert n <= 10000 * total;
      assert q * total <= 10000 * total;
      if q > 10000 {
        ScaledAbove(q, 10001, total);
      }
    }
  }

  /** A quotient times a positive divisor stays within the dividend's sign. */
  lemma ScaledBelow(q: int, n: int, t: int)
    requires t > 0 && 0 <= n < (q + 1) * t
    ensures q >= 0
  {
    if q < 0 {
      ScaledAbove(0, q + 1, t);
    }
  }

  /** Multiplying by a positive factor keeps order. */
  lemma ScaledAbove(q: int, k: int, t: int)
    requires t > 0 && q >= k
    ensures q * t >= k * t
  {
    assert q * t - k * t == (q - k) * t;
  }

  // ---------------------------------------------------------------------
  // Language-share badge
  // ---------------------------------------------------------------------

  /** One collected language: name, repository count, percentage in hundredths. */
  datatype LanguageRow = LanguageRow(name: string, count: int, percentage: int)

  /** One drawn row: vertical offset, label, percentage and bar width in pixels. */
  datatype LanguageBar = LanguageBar(y: int, name: string, percentage: int, width: real)

  datatype LanguagesBadge = LanguagesBadge(
    height: int,
    themeColor: string,
    bgColor: string,
    barBgColor: string,
    username: string,
    bars: seq<LanguageBar>)

  const BaseHeight := 100
  const RowHeight := 40
  const BarTrack: real := 440.0

  /** The bar's share of the 440-unit track, for a percentage given in hundredths. */
  function BarWidth(percentage: int): (w: real)
    ensures 0 <= percentage <= 10000 ==> 0.0 <= w <= BarTrack
    ensures w * 10000.0 == BarTrack * percentage as real
  {
    BarTrack * ((percentage as real / 100.0) / 100.0)
  }

  ghost predicate NonIncreasing(rows: seq<LanguageRow>)
  {
    forall i, j :: 0 <= i < j < |rows| ==> rows[i].percentage >= rows[j].percentage
  }

  /** Insert a row in front of the first row whose percentage it is not below. */
  function Insert(row: LanguageRow, rows: seq<LanguageRow>): (r: seq<LanguageRow>)
    ensures multiset(r) == multiset(rows) + multiset{row}
    ensures |r| == |rows| + 1
    ensures r[0] == row || (rows != [] && r[0] == rows[0])
  {
    if rows == [] || row.percentage >= rows[0].percentage then [row] + rows
    else
      assert rows == [rows[0]] + rows[1..];
      [rows[0]] + Insert(row, rows[1..])
  }

  /** Inserting into a non-increasing sequence keeps it non-increasing. */
  lemma {:induction false} InsertKeepsOrder(row: LanguageRow, rows: seq<LanguageRow>)
    requires NonIncreasing(rows)
    ensures NonIncreasing(Insert(row, rows))
  {
    var r := Insert(row, rows);
    if rows == [] || row.percentage >= rows[0].percentage {
      forall i, j | 0 <= i < j < |r|
        ensures r[i].percentage >= r[j].percentage
      {
        if i > 0 {
          assert r[i] == rows[i - 1] && r[j] == rows[j - 1];
        } else {
          assert r[j] == rows[j - 1];
        }
      }
    } else {
      var rest := Insert(row, rows[1..]);
      InsertKeepsOrder(row, rows[1..]);
      assert r == [rows[0]] + rest;
      assert rows[0].percentage >= rest[0].percentage;
      forall i, j | 0 <= i < j < |r|
        ensures r[i].percentage >= r[j].percentage
      {
        if i > 0 {
          assert r[i] == rest[i - 1] && r[j] == rest[j - 1];
        } else {
          assert r[j] == rest[j - 1];
          assert rest[0].percentage >= rest[j - 1].percentage;
        }
      }
    }
  }

  /**
   * The order `sort.Slice` leaves the rows in under the comparison
   * "greater percentage first": a permutation that is non-increasing.
   */
  function SortByPercentage(rows: seq<LanguageRow>): (r: seq<LanguageRow>)
    ensures multiset(r) == multiset(rows)
    ensures |r| == |rows|
    ensures NonIncreasing(r)
  {
    if rows == [] then []
    else
      assert rows == [rows[0]] + rows[1..];
      var sortedTail := SortByPercentage(rows[1..]);
      InsertKeepsOrder(rows[0], sortedTail);
      Insert(rows[0], sortedTail)
  }

  /**
   * The first loop of `GenerateLanguagesSVG`: one row per histogram entry,
   * in whatever order the map is iterated.
   */
  method CollectLanguages(languageCount: map<string, int>, totalRepos: int)
    returns (languages: seq<LanguageRow>)
    requires languageCount != map[] ==> totalRepos != 0
    ensures |languages| == |languageCount|
    ensures forall k :: 0 <= k < |languages| ==>
      && languages[k].name in languageCount
      && languages[k].count == languageCount[languages[k].name]
      && languages[k].percentage == Hundredths(languages[k].count, totalRepos)
    ensures forall lang :: lang in languageCount ==>
      exists k :: 0 <= k < |languages| && languages[k].name == lang
  {
    languages := [];
    var remaining := languageCount.Keys;
    while remaining != {}
      invariant remaining <= languageCount.Keys
      invariant |languages| + |remaining| == |languageCount.Keys|
      invariant forall k :: 0 <= k < |languages| ==>
        && languages[k].name in languageCount
        && languages[k].name !in remaining
        && languages[k].count == languageCount[languages[k].name]
        && languages[k].percentage == Hundredths(languages[k].count, totalRepos)
      invariant forall lang :: lang in languageCount && lang !in remaining ==>
        exists k :: 0 <= k < |languages| && languages[k].name == lang
      decreases remaining
    {
      var lang :| lang in remaining;
      var count := languageCount[lang];
      var before := languages;
      languages := languages + [LanguageRow(lang, count, Hundredths(count, totalRepos))];
      remaining := remaining - {lang};
      assert languages[|before|].name == lang;
      forall other | other in languageCount && other !in remaining
        ensures exists k :: 0 <= k < |languages| && languages[k].name == other
      {
        if other != lang {
          var k :| 0 <= k < |before| && before[k].name == other;
          assert languages[k] == before[k];
        }
      }
    }
    assert |languageCount.Keys| == |languageCount|;
  }

  /** The drawing loop of `GenerateLanguagesSVG`: row i at offset 40*i. */
  method LayOutLanguageBars(languages: seq<LanguageRow>) returns (bars: seq<LanguageBar>)
    ensures |bars| == |languages|
    ensures forall i :: 0 <= i < |bars| ==>
      bars[i] == LanguageBar(RowHeight * i, languages[i].name, languages[i].percentage, BarWidth(languages[i].percentage))
  {
    bars := [];
    for i := 0 to |languages|
      invariant |bars| == i
      invariant forall k :: 0 <= k < i ==>
        bars[k] == LanguageBar(RowHeight * k, languages[k].name, languages[k].percentage, BarWidth(languages[k].percentage))
    {
      var lang := languages[i];
      bars := bars + [LanguageBar(i * 40, lang.name, lang.percentage, 440.0 * (lang.percentage as real / 100.0 / 100.0))];
    }
  }

  /**
   * Sorting keeps the collected rows and loses none: every sorted row is one
   * of the collected rows, and every language of the histogram still has one.
   */
  lemma SortedRowsCover(languages: seq<LanguageRow>, sorted: seq<LanguageRow>, languageCount: map<string, int>)
    requires multiset(languages) == multiset(sorted)
    requires forall lang :: lang in languageCount ==>
      exists k :: 0 <= k < |languages| && languages[k].name == lang
    ensures forall k :: 0 <= k < |sorted| ==> sorted[k] in languages
    ensures forall lang :: lang in languageCount ==>
      exists k :: 0 <= k < |sorted| && sorted[k].name == lang
  {
    forall k | 0 <= k < |sorted|
      ensures sorted[k] in languages
    {
      assert sorted[k] in multiset(sorted);
    }
    forall lang | lang in languageCount
      ensures exists k :: 0 <= k < |sorted| && sorted[k].name == lang
    {
      var k :| 0 <= k < |languages| && languages[k].name == lang;
      assert languages[k] in multiset(languages);
      var j :| 0 <= j < |sorted| && sorted[j] == languages[k];
    }
  }

  /**
   * `sort.Slice` on the collected rows, seen through what it keeps: every
   * sorted row is a collected row (so it still carries its language's count
   * and percentage), every language still has a row, and the order is
   * non-increasing.
   */
  method SortRows(languages: seq<LanguageRow>, languageCount: map<string, int>, totalRepos: int)
    returns (sorted: seq<LanguageRow>)
    requires languageCount != map[] ==> totalRepos != 0
    requires forall k :: 0 <= k < |languages| ==>
      && languages[k].name in languageCount
      && languages[k].percentage == Hundredths(languageCount[languages[k].name], totalRepos)
    requires forall lang :: lang in languageCount ==>
      exists k :: 0 <= k < |languages| && languages[k].name == lang
    ensures |sorted| == |languages|
    ensures forall k :: 0 <= k < |sorted| ==>
      && sorted[k].name in languageCount
      && sorted[k].percentage == Hundredths(languageCount[sorted[k].name], totalRepos)
    ensures forall lang :: lang in languageCount ==>
      exists k :: 0 <= k < |sorted| && sorted[k].name == lang
    ensures forall i, j :: 0 <= i < j < |sorted| ==> sorted[i].percentage >= sorted[j].percentage
  {
    sorted := SortByPercentage(languages);
    SortedRowsCover(languages, sorted, languageCount);
    forall k | 0 <= k < |sorted|
      ensures && sorted[k].name in languageCount
              && sorted[k].percentage == Hundredths(languageCount[sorted[k].name], totalRepos)
    {
      var j :| 0 <= j < |languages| && languages[j] == sorted[k];
    }
  }

  /**
   * The rows of `GenerateLanguagesSVG`: one bar per histogram entry, ordered
   * by non-increasing percentage (ties in no particular order), row i at
   * offset 40*i.
   */
  method RankLanguages(languageCount: map<string, int>, totalRepos: int) returns (bars: seq<LanguageBar>)
    requires languageCount != map[] ==> totalRepos != 0
    ensures |bars| == |languageCount|
    ensures forall i :: 0 <= i < |bars| ==>
      && bars[i].name in languageCount
      && bars[i].percentage == Hundredths(languageCount[bars[i].name], totalRepos)
      && bars[i].y == RowHeight * i
      && bars[i].width == BarWidth(bars[i].percentage)
    ensures forall lang :: lang in languageCount ==>
      exists i :: 0 <= i < |bars| && bars[i].name == lang
    ensures forall i, j :: 0 <= i < j < |bars| ==> bars[i].percentage >= bars[j].percentage
  {
    var languages := CollectLanguages(languageCount, totalRepos);
    var sorted := SortRows(languages, languageCount, totalRepos);
    bars := LayOutLanguageBars(sorted);
    forall lang | lang in languageCount
      ensures exists i :: 0 <= i < |bars| && bars[i].name == lang
    {
      var k :| 0 <= k < |sorted| && sorted[k].name == lang;
      assert bars[k].name == lang;
    }
  }

  /**
   * The layout numbers of `GenerateLanguagesSVG`: the resolved colours, the
   * ranked rows, and a badge 100 + 40*rows tall.
   */
  method GenerateLanguagesSVG(languageCount: map<string, int>, totalRepos: int,
                              username: string, color: string, background: string)
    returns (badge: LanguagesBadge)
    requires languageCount != map[] ==> totalRepos != 0
    ensures badge.themeColor == Colors.ResolveColor(color)
    ensures badge.bgColor == Colors.ResolveBackground(background)
    ensures badge.barBgColor == Colors.BarBackground(background)
    ensures badge.username == username
    ensures badge.height == BaseHeight + RowHeight * |languageCount|
    ensures |badge.bars| == |languageCount|
    ensures forall i :: 0 <= i < |badge.bars| ==>
      && badge.bars[i].name in languageCount
      && badge.bars[i].percentage == Hundredths(languageCount[badge.bars[i].name], totalRepos)
      && badge.bars[i].y == RowHeight * i
      && badge.bars[i].width == BarWidth(badge.bars[i].percentage)
    ensures forall lang :: lang in languageCount ==>
      exists i :: 0 <= i < |badge.bars| && badge.bars[i].name == lang
    ensures forall i, j :: 0 <= i < j < |badge.bars| ==> badge.bars[i].percentage >= badge.bars[j].percentage
  {
    var themeColor := Colors.ResolveColor(color);
    var bgColor := Colors.ResolveBackground(background);
    var bars := RankLanguages(languageCount, totalRepos);
    var barBgColor := Colors.BarBackground(background);
    var height := BaseHeight + |bars| * 40;
    badge := LanguagesBadge(height, themeColor, bgColor, barBgColor, username, bars);
  }

  // ---------------------------------------------------------------------
  // Contribution badge
  // ---------------------------------------------------------------------

  /** `getDayName`: weekday index to the three-letter day name, Sunday first. */
  function GetDayName(weekday: int): (name: string)
    requires 0 <= weekday < 7
    ensures |name| == 3
  {
    ["Sun", "Mon", "Tue", "Wed", "Thu", "Fri", "Sat"][weekday]
  }

  /** Weekday 0 is Sunday and the names follow the week in order, each one distinct. */
  lemma DayNamesInOrder()
    ensures GetDayName(0) == "Sun" && GetDayName(1) == "Mon" && GetDayName(2) == "Tue"
    ensures GetDayName(3) == "Wed" && GetDayName(4) == "Thu" && GetDayName(5) == "Fri"
    ensures GetDayName(6) == "Sat"
    ensures forall i, j :: 0 <= i < j < 7 ==> GetDayName(i) != GetDayName(j)
  {
  }

  /**
   * The largest contribution count of the whole list, starting from 0 as the
   * loop in `GenerateStatsSVG` does (so it is 0 for an empty list).
   */
  function MaxContribution(days: seq<DayContribution>): (m: int)
    ensures m >= 0
    ensures forall k :: 0 <= k < |days| ==> days[k].contributionCount <= m
    ensures m == 0 || exists k :: 0 <= k < |days| && days[k].contributionCount == m
  {
    if days == [] then 0
    else
      var prefix := MaxContribution(days[..|days| - 1]);
      var last := days[|days| - 1].contributionCount;
      assert forall k :: 0 <= k < |days| - 1 ==> days[..|days| - 1][k] == days[k];
      if last > prefix then last else prefix
  }

  /** The "Last 7 Days" window: the final min(7, n) entries, in their original order. */
  function LastSevenDays(days: seq<DayContribution>): (w: seq<DayContribution>)
    ensures |w| == if |days| > 7 then 7 else |days|
    ensures w == days[|days| - |w|..]
  {
    if |days| > 7 then days[|days| - 7..] else days
  }

  /** Every weekday is a valid index for `getDayName` (which panics otherwise). */
  predicate WeekdaysValid(days: seq<DayContribution>)
  {
    forall k :: 0 <= k < |days| ==> 0 <= days[k].weekday < 7
  }

  /** The days `GenerateStatsSVG` names all carry a valid weekday. */
  predicate WindowWeekdaysValid(days: seq<DayContribution>)
  {
    WeekdaysValid(LastSevenDays(days))
  }

  /** `count / max * 100`, or 0 when max is 0, then 1 in place of 0. */
  function BarHeight(count: int, maxContributions: int): real
  {
    var percentage := if maxContributions == 0 then 0.0 else count as real / maxContributions as real;
    var barHeight := percentage * 100.0;
    if barHeight == 0.0 then 1.0 else barHeight
  }

  /** One column of the window: x offset, bar top, bar height, count, day name. */
  datatype DayBar = DayBar(x: int, y: real, height: real, count: int, dayName: string)

  datatype StatsBadge = StatsBadge(
    themeColor: string,
    bgColor: string,
    barBgColor: string,
    username: string,
    totalContributions: int,
    totalCommits: int,
    totalPRs: int,
    totalIssues: int,
    bars: seq<DayBar>)

  const ColumnWidth := 60
  const MaxBarHeight: real := 100.0

  function DayBarAt(i: int, day: DayContribution, maxContributions: int): DayBar
    requires 0 <= day.weekday < 7
  {
    var h := BarHeight(day.contributionCount, maxContributions);
    DayBar(ColumnWidth * i, MaxBarHeight - h, h, day.contributionCount, GetDayName(day.weekday))
  }

  /** The columns drawn for a window, column i from the i-th day. */
  function DayBars(window: seq<DayContribution>, maxContributions: int): (bars: seq<DayBar>)
    requires WeekdaysValid(window)
    ensures |bars| == |window|
  {
    seq(|window|, i requires 0 <= i < |window| => DayBarAt(i, window[i], maxContributions))
  }

  /** Everything `GenerateStatsSVG` substitutes into its template. */
  function StatsLayout(stats: ProfileStats, username: string, color: string, background: string): StatsBadge
    requires WindowWeekdaysValid(stats.contributionsByDay)
  {
    var color' := OrDefault(color, Colors.FallbackColor);
    var background' := OrDefault(background, Colors.FallbackBackground);
    StatsBadge(
      Colors.ResolveColor(color'),
      Colors.ResolveBackground(background'),
      Colors.BarBackground(background'),
      username,
      stats.totalContributions,
      stats.totalCommits,
      stats.totalPRs,
      stats.totalIssues,
      DayBars(LastSevenDays(stats.contributionsByDay), MaxContribution(stats.contributionsByDay)))
  }

  /** The `maxContributions` loop of `GenerateStatsSVG`. */
  method MaxContributions(days: seq<DayContribution>) returns (maxContributions: int)
    ensures maxContributions == MaxContribution(days)
  {
    maxContributions := 0;
    for k := 0 to |days|
      invariant maxContributions == MaxContribution(days[..k])
    {
      assert days[..k + 1][..k] == days[..k];
      if days[k].contributionCount > maxContributions {
        maxContributions := days[k].contributionCount;
      }
    }
    assert days[..|days|] == days;
  }

  /** The drawing loop of `GenerateStatsSVG` over the window. */
  method ContributionBars(lastSevenDays: seq<DayContribution>, maxContributions: int) returns (bars: seq<DayBar>)
    requires WeekdaysValid(lastSevenDays)
    ensures bars == DayBars(lastSevenDays, maxContributions)
  {
    bars := [];
    for i := 0 to |lastSevenDays|
      invariant |bars| == i
      invariant forall k :: 0 <= k < i ==> bars[k] == DayBarAt(k, lastSevenDays[k], maxContributions)
    {
      var day := lastSevenDays[i];
      // Go divides first and overwrites the NaN/Inf of a zero maximum;
      // here the division is simply not taken in that case.
      var percentage := 0.0;
      if maxContributions != 0 {
        percentage := day.contributionCount as real / maxContributions as real;
      }
      var barHeight := percentage * 100.0;
      if barHeight == 0.0 {
        barHeight := 1.0;
      }
      bars := bars + [DayBar(i * 60, 100.0 - barHeight, barHeight, day.contributionCount, GetDayName(day.weekday))];
    }
  }

  /**
   * `GenerateStatsSVG`: default the tokens, resolve the theme, find the
   * maximum over all days, and lay out one column per day of the window.
   */
  method GenerateStatsSVG(stats: ProfileStats, username: string, color: string, background: string)
    returns (badge: StatsBadge)
    requires WindowWeekdaysValid(stats.contributionsByDay)
    ensures badge == StatsLayout(stats, username, color, background)
  {
    var color' := if color == "" then "red" else color;
    var background' := if background == "" then "black" else background;
    var themeColor := Colors.ResolveColor(color');
    var bgColor := Colors.ResolveBackground(background');
    var barBgColor := Colors.BarBackground(background');

    var days := stats.contributionsByDay;
    var maxContributions := MaxContributions(days);
    var lastSevenDays := days;
    if |lastSevenDays| > 7 {
      lastSevenDays := lastSevenDays[|lastSevenDays| - 7..];
    }
    assert lastSevenDays == LastSevenDays(days);
    var bars := ContributionBars(lastSevenDays, maxContributions);
    assert color' == OrDefault(color, Colors.FallbackColor);
    assert background' == OrDefault(background, Colors.FallbackBackground);
    badge := StatsBadge(themeColor, bgColor, barBgColor, username,
                        stats.totalContributions, stats.totalCommits, stats.totalPRs, stats.totalIssues, bars);
  }

  /**
   * What a drawn column promises about the day it comes from: its height is
   * in (0, 100] (a zero count draws a 1-pixel bar), a positive count is drawn
   * exactly proportional to the maximum `m`, the top is at 100 minus the
   * height, column i sits at x = 60*i, and the day's count and name are copied.
   */
  ghost predicate ColumnFits(bar: DayBar, i: int, day: DayContribution, m: int)
    requires 0 <= day.weekday < 7
  {
    && 0.0 < bar.height <= 100.0
    && (day.contributionCount == 0 ==> bar.height == 1.0)
    && (day.contributionCount > 0 ==> bar.height * m as real == 100.0 * day.contributionCount as real)
    && bar.y == 100.0 - bar.height
    && bar.x == 60 * i
    && bar.count == day.contributionCount
    && bar.dayName == GetDayName(day.weekday)
  }

  /** One column per day of the window, each fitting its day. */
  ghost predicate ColumnsFit(bars: seq<DayBar>, window: seq<DayContribution>, m: int)
    requires WeekdaysValid(window)
  {
    && |bars| == |window|
    && forall i :: 0 <= i < |bars| ==> ColumnFits(bars[i], i, window[i], m)
  }

  /** A column for a count in [0, m] fits its day. */
  lemma DayBarFits(i: int, day: DayContribution, m: int)
    requires 0 <= day.weekday < 7
    requires 0 <= day.contributionCount <= m
    ensures ColumnFits(DayBarAt(i, day, m), i, day, m)
  {
    BarHeightBounds(day.contributionCount, m);
  }

  /** The columns of a window whose counts lie in [0, m] fit it. */
  lemma DayBarsInRange(window: seq<DayContribution>, m: int)
    requires WeekdaysValid(window)
    requires forall k :: 0 <= k < |window| ==> 0 <= window[k].contributionCount <= m
    ensures ColumnsFit(DayBars(window, m), window, m)
  {
    var bars := DayBars(window, m);
    forall i | 0 <= i < |window|
      ensures ColumnFits(bars[i], i, window[i], m)
    {
      DayBarFits(i, window[i], m);
    }
  }

  /**
   * For non-negative counts the contribution badge's columns fit the last
   * seven days, scaled by the maximum over all days: that maximum bounds
   * every day of the window.
   */
  lemma StatsBarsInRange(stats: ProfileStats, username: string, color: string, background: string)
    requires WindowWeekdaysValid(stats.contributionsByDay)
    requires forall k :: 0 <= k < |stats.contributionsByDay| ==> stats.contributionsByDay[k].contributionCount >= 0
    ensures ColumnsFit(StatsLayout(stats, username, color, background).bars,
                       LastSevenDays(stats.contributionsByDay), MaxContribution(stats.contributionsByDay))
  {
    var days := stats.contributionsByDay;
    var window := LastSevenDays(days);
    var m := MaxContribution(days);
    forall k | 0 <= k < |window|
      ensures 0 <= window[k].contributionCount <= m
    {
      assert window[k] == days[|days| - |window| + k];
    }
    DayBarsInRange(window, m);
  }

  /** The height of one bar for a count between 0 and a non-negative maximum. */
  lemma BarHeightBounds(count: int, maxContributions: int)
    requires 0 <= count <= maxContributions
    ensures 0.0 < BarHeight(count, maxContributions) <= 100.0
    ensures count == 0 ==> BarHeight(count, maxContributions) == 1.0
    ensures count > 0 ==> BarHeight(count, maxContributions) * maxContributions as real == 100.0 * count as real
  {
    if maxContributions > 0 {
      var p := count as real / maxContributions as real;
      assert p * maxContributions as real == count as real;
      assert 0.0 <= p <= 1.0;
      if count > 0 {
        assert p > 0.0;
      }
    }
  }
}
