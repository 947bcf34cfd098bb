/**
 * The source-control handlers after their HTTP call: the repository-language
 * histogram and its percentage map, the calendar flattening of the profile
 * fetcher, and the single-slot render cache of the contribution badge.
 */
module GithubController {
  import opened Wrappers
  import opened Models
  import GithubRender
  import Colors

  // ---------------------------------------------------------------------
  // Repository-language histogram
  // ---------------------------------------------------------------------

  /** Number of repositories whose primary language is `lang`. */
  function Occurrences(repos: seq<Repository>, lang: string): nat
  {
    if repos == [] then 0
    else Occurrences(repos[..|repos| - 1], lang) + (if repos[|repos| - 1].language == lang then 1 else 0)
  }

  /** Number of repositories that carry a language tag at all. */
  function TaggedCount(repos: seq<Repository>): nat
  {
    if repos == [] then 0
    else TaggedCount(repos[..|repos| - 1]) + (if repos[|repos| - 1].language != "" then 1 else 0)
  }

  /** The languages that occur as a non-empty tag. */
  function Languages(repos: seq<Repository>): set<string>
  {
    set k | 0 <= k < |repos| && repos[k].language != "" :: repos[k].language
  }

  /** Sum of the values of `m` over `keys`. */
  ghost function SumValues(m: map<string, int>, keys: set<string>): int
    requires keys <= m.Keys
    decreases keys
  {
    if keys == {} then 0
    else
      var k :| k in keys;
      m[k] + SumValues(m, keys - {k})
  }

  /** The sum can be split at any key, not only at the one the definition picks. */
  lemma {:induction false} SumValuesRemove(m: map<string, int>, keys: set<string>, k: string)
    requires keys <= m.Keys && k in keys
    ensures SumValues(m, keys) == m[k] + SumValues(m, keys - {k})
    decreases keys
  {
    var x :| x in keys && SumValues(m, keys) == m[x] + SumValues(m, keys - {x});
    if x != k {
      SumValuesRemove(m, keys - {x}, k);
      SumValuesRemove(m, keys - {k}, x);
      assert keys - {x} - {k} == keys - {k} - {x};
    }
  }

  /** Maps that agree on `keys` have the same sum over them. */
  lemma {:induction false} SumValuesAgree(m1: map<string, int>, m2: map<string, int>, keys: set<string>)
    requires keys <= m1.Keys && keys <= m2.Keys
    requires forall k :: k in keys ==> m1[k] == m2[k]
    ensures SumValues(m1, keys) == SumValues(m2, keys)
    decreases keys
  {
    if keys != {} {
      var k :| k in keys;
      SumValuesRemove(m1, keys, k);
      SumValuesRemove(m2, keys, k);
      SumValuesAgree(m1, m2, keys - {k});
    }
  }

  /** Go's `m[lang]++`: the missing key counts as 0, and the sum grows by one. */
  lemma SumValuesIncrement(m: map<string, int>, lang: string)
    ensures var m' := m[lang := (if lang in m then m[lang] else 0) + 1];
      SumValues(m', m'.Keys) == SumValues(m, m.Keys) + 1
  {
    var m' := m[lang := (if lang in m then m[lang] else 0) + 1];
    SumValuesRemove(m', m'.Keys, lang);
    SumValuesAgree(m, m', m.Keys - {lang});
    if lang in m {
      assert m'.Keys == m.Keys;
      assert m'[lang] == m[lang] + 1;
      SumValuesRemove(m, m.Keys, lang);
    } else {
      assert m'.Keys - {lang} == m.Keys - {lang};
      assert m.Keys - {lang} == m.Keys;
    }
  }

  /**
   * The counting loop shared by `GetMostUsedLanguages` and `GetLanguagesAsSVG`:
   * untagged repositories are skipped, each language is counted, and
   * `totalRepos` is both the number of tagged repositories and the sum of the
   * per-language counts.
   */
  method CountLanguages(repos: seq<Repository>) returns (languageCount: map<string, int>, totalRepos: int)
    ensures languageCount.Keys == Languages(repos)
    ensures forall lang :: lang in languageCount ==> languageCount[lang] == Occurrences(repos, lang) >= 1
    ensures totalRepos == TaggedCount(repos)
    ensures totalRepos == SumValues(languageCount, languageCount.Keys)
  {
    languageCount := map[];
    totalRepos := 0;
    for i := 0 to |repos|
      invariant HistogramOf(repos[..i], languageCount, totalRepos)
    {
      var repo := repos[i];
      ghost var before, beforeTotal := languageCount, totalRepos;
      if repo.language != "" {
        languageCount := languageCount[repo.language := (if repo.language in languageCount then languageCount[repo.language] else 0) + 1];
        totalRepos := totalRepos + 1;
      }
      CountStep(repos[..i], repo, before, beforeTotal);
      assert repos[..i + 1] == repos[..i] + [repo];
    }
    assert repos[..|repos|] == repos;
  }

  /** What the counting loop knows about the repositories it has seen. */
  ghost predicate HistogramOf(repos: seq<Repository>, languageCount: map<string, int>, totalRepos: int)
  {
    && languageCount.Keys == Languages(repos)
    && (forall lang :: lang in languageCount ==> languageCount[lang] == Occurrences(repos, lang) >= 1)
    && totalRepos == TaggedCount(repos)
    && totalRepos == SumValues(languageCount, languageCount.Keys)
  }

  /** One iteration of the counting loop keeps `HistogramOf`. */
  lemma CountStep(repos: seq<Repository>, repo: Repository, languageCount: map<string, int>, totalRepos: int)
    requires HistogramOf(repos, languageCount, totalRepos)
    ensures repo.language != "" ==>
      HistogramOf(repos + [repo],
                  languageCount[repo.language := (if repo.language in languageCount then languageCount[repo.language] else 0) + 1],
                  totalRepos + 1)
    ensures repo.language == "" ==> HistogramOf(repos + [repo], languageCount, totalRepos)
  {
    if repo.language != "" {
      CountTagged(repos, repo, languageCount, totalRepos);
    } else {
      AppendRepository(repos, repo);
    }
  }

  /** A tagged repository adds one to its language's count and to the total. */
  lemma CountTagged(repos: seq<Repository>, repo: Repository, languageCount: map<string, int>, totalRepos: int)
    requires HistogramOf(repos, languageCount, totalRepos)
    requires repo.language != ""
    ensures HistogramOf(repos + [repo],
                        languageCount[repo.language := (if repo.language in languageCount then languageCount[repo.language] else 0) + 1],
                        totalRepos + 1)
  {
    var lang := repo.language;
    var m' := languageCount[lang := (if lang in languageCount then languageCount[lang] else 0) + 1];
    var next := repos + [repo];
    AppendRepository(repos, repo);
    CountTaggedEntries(repos, repo, languageCount);
    SumValuesIncrement(languageCount, lang);
    assert m'.Keys == Languages(next);
    assert forall l :: l in m' ==> m'[l] == Occurrences(next, l) >= 1;
    assert totalRepos + 1 == TaggedCount(next);
    assert totalRepos + 1 == SumValues(m', m'.Keys);
    assert HistogramOf(next, m', totalRepos + 1);
  }

  /** The counts after a tagged repository: its language gains one, the others stay. */
  lemma CountTaggedEntries(repos: seq<Repository>, repo: Repository, languageCount: map<string, int>)
    requires languageCount.Keys == Languages(repos)
    requires forall lang :: lang in languageCount ==> languageCount[lang] == Occurrences(repos, lang) >= 1
    requires repo.language != ""
    ensures var m' := languageCount[repo.language := (if repo.language in languageCount then languageCount[repo.language] else 0) + 1];
      && m'.Keys == Languages(repos + [repo])
      && forall l :: l in m' ==> m'[l] == Occurrences(repos + [repo], l) >= 1
  {
    var lang := repo.language;
    var next := repos + [repo];
    var m' := languageCount[lang := (if lang in languageCount then languageCount[lang] else 0) + 1];
    AppendRepository(repos, repo);
    if lang !in languageCount {
      OccurrencesOfMissing(repos, lang);
    }
    assert m'.Keys == languageCount.Keys + {lang};
    forall l | l in m'
      ensures m'[l] == Occurrences(next, l) >= 1
    {
      if l != lang {
        assert m'[l] == languageCount[l];
      }
    }
  }

  /** How one more repository changes the tag set, the occurrences and the tagged count. */
  lemma AppendRepository(repos: seq<Repository>, repo: Repository)
    ensures Languages(repos + [repo]) == Languages(repos) + (if repo.language != "" then {repo.language} else {})
    ensures forall lang :: Occurrences(repos + [repo], lang) == Occurrences(repos, lang) + (if repo.language == lang then 1 else 0)
    ensures TaggedCount(repos + [repo]) == TaggedCount(repos) + (if repo.language != "" then 1 else 0)
  {
    var next := repos + [repo];
    assert next[..|repos|] == repos;
    var extra: set<string> := if repo.language != "" then {repo.language} else {};
    forall l | l in Languages(next)
      ensures l in Languages(repos) + extra
    {
      var k :| 0 <= k < |next| && next[k].language != "" && next[k].language == l;
      if k < |repos| {
        assert repos[k] == next[k];
      }
    }
    forall l | l in Languages(repos) + extra
      ensures l in Languages(next)
    {
      if l in Languages(repos) {
        var k :| 0 <= k < |repos| && repos[k].language != "" && repos[k].language == l;
        assert next[k] == repos[k];
      } else {
        assert next[|repos|] == repo;
      }
    }
  }

  /** A language that is not in the set of tags occurs nowhere. */
  lemma {:induction false} OccurrencesOfMissing(repos: seq<Repository>, lang: string)
    requires lang !in Languages(repos) || lang == ""
    ensures lang != "" ==> Occurrences(repos, lang) == 0
  {
    if repos != [] && lang != "" {
      var n := |repos| - 1;
      assert repos[n].language != lang;
      assert Languages(repos[..n]) <= Languages(repos) by {
        forall k | 0 <= k < n ensures repos[..n][k] == repos[k] { }
      }
      OccurrencesOfMissing(repos[..n], lang);
    }
  }

  /**
   * The percentage loop of `GetMostUsedLanguages`: the same keys as the
   * histogram, each value the share truncated to hundredths of a percent.
   */
  method LanguagePercentages(languageCount: map<string, int>, totalRepos: int)
    returns (languagePercentages: map<string, int>)
    requires languageCount != map[] ==> totalRepos != 0
    ensures languagePercentages.Keys == languageCount.Keys
    ensures forall lang :: lang in languagePercentages ==>
      languagePercentages[lang] == GithubRender.Hundredths(languageCount[lang], totalRepos)
  {
    languagePercentages := map[];
    var remaining := languageCount.Keys;
    while remaining != {}
      invariant remaining <= languageCount.Keys
      invariant languagePercentages.Keys == languageCount.Keys - remaining
      invariant forall lang :: lang in languagePercentages ==>
        languagePercentages[lang] == GithubRender.Hundredths(languageCount[lang], totalRepos)
      decreases remaining
    {
      var lang :| lang in remaining;
      languagePercentages := languagePercentages[lang := GithubRender.Hundredths(languageCount[lang], totalRepos)];
      remaining := remaining - {lang};
    }
  }

  /**
   * Summed over any set of languages, the truncated percentages fall short of
   * the exact shares by less than one hundredth per language.
   */
  lemma {:induction false} PercentageSumBounds(counts: map<string, int>, pct: map<string, int>,
                                               total: int, keys: set<string>)
    requires total > 0
    requires keys <= counts.Keys && keys <= pct.Keys
    requires forall lang :: lang in keys ==> pct[lang] * total <= counts[lang] * 10000 < (pct[lang] + 1) * total
    ensures total * SumValues(pct, keys) <= 10000 * SumValues(counts, keys)
    ensures keys != {} ==> 10000 * SumValues(counts, keys) < total * (SumValues(pct, keys) + |keys|)
    decreases keys
  {
    if keys != {} {
      var k :| k in keys;
      var rest := keys - {k};
      SumValuesRemove(counts, keys, k);
      SumValuesRemove(pct, keys, k);
      PercentageSumBounds(counts, pct, total, rest);
      var sc, sp := SumValues(counts, rest), SumValues(pct, rest);
      SumStep(total, counts[k], pct[k], sc, sp, |rest|, rest == {});
      assert |keys| == |rest| + 1;
    }
  }

  /** The arithmetic of one induction step of `PercentageSumBounds`. */
  lemma SumStep(total: int, c: int, h: int, sc: int, sp: int, n: int, restEmpty: bool)
    requires h * total <= c * 10000 < (h + 1) * total
    requires total * sp <= 10000 * sc
    requires !restEmpty ==> 10000 * sc < total * (sp + n)
    requires restEmpty ==> sc == 0 && sp == 0 && n == 0
    ensures total * (h + sp) <= 10000 * (c + sc)
    ensures 10000 * (c + sc) < total * (h + sp + n + 1)
  {
    assert total * (h + sp) == h * total + total * sp;
    assert 10000 * (c + sc) == c * 10000 + 10000 * sc;
    assert total * (h + sp + n + 1) == (h + 1) * total + total * (sp + n);
  }

  /**
   * `GetMostUsedLanguages` after the repositories are decoded: a percentage
   * per tagged language, whose sum is at most 100% and misses 100% by less
   * than one hundredth per language.
   */
  method GetMostUsedLanguages(repos: seq<Repository>) returns (languagePercentages: map<string, int>)
    ensures languagePercentages.Keys == Languages(repos)
    ensures forall lang :: lang in languagePercentages ==>
      TaggedCount(repos) > 0 &&
      languagePercentages[lang] == GithubRender.Hundredths(Occurrences(repos, lang), TaggedCount(repos))
    ensures TaggedCount(repos) > 0 ==>
      10000 - |languagePercentages| < SumValues(languagePercentages, languagePercentages.Keys) <= 10000
  {
    var languageCount, totalRepos := CountLanguages(repos);
    TaggedWhenCounted(repos, languageCount, totalRepos);
    languagePercentages := LanguagePercentages(languageCount, totalRepos);
    if totalRepos > 0 {
      forall lang | lang in languageCount.Keys
        ensures languagePercentages[lang] * totalRepos <= languageCount[lang] * 10000
                < (languagePercentages[lang] + 1) * totalRepos
      {
        GithubRender.HundredthsIsFloor(languageCount[lang], totalRepos);
      }
      PercentageSumBounds(languageCount, languagePercentages, totalRepos, languageCount.Keys);
      assert languageCount.Keys != {};
      CancelPositiveFactor(totalRepos, SumValues(languagePercentages, languagePercentages.Keys), |languagePercentages|);
    }
  }

  /** Dividing the two summed inequalities by the positive total. */
  lemma CancelPositiveFactor(total: int, sum: int, n: int)
    requires total > 0
    requires total * sum <= 10000 * total
    requires 10000 * total < total * (sum + n)
    ensures 10000 - n < sum <= 10000
  {
    PositiveFactor(total, 10000 - sum + 1);
    PositiveFactor(total, sum + n - 10000);
  }

  /** A product with a positive factor is positive exactly when the other factor is. */
  lemma PositiveFactor(t: int, x: int)
    requires t > 0
    ensures t * x > 0 <==> x > 0
  {
    if x > 0 {
      NonNegativeProduct(t, x - 1);
      assert t * x == t * (x - 1) + t;
    } else {
      NonNegativeProduct(t, -x);
      assert t * x == -(t * -x);
    }
  }

  lemma {:induction false} NonNegativeProduct(t: int, x: int)
    requires t >= 0 && x >= 0
    ensures t * x >= 0
    decreases x
  {
    if x > 0 {
      NonNegativeProduct(t, x - 1);
      assert t * x == t * (x - 1) + t;
    }
  }

  /** Every counted language implies at least one tagged repository. */
  lemma TaggedWhenCounted(repos: seq<Repository>, languageCount: map<string, int>, totalRepos: int)
    requires languageCount.Keys == Languages(repos)
    requires forall lang :: lang in languageCount ==> languageCount[lang] == Occurrences(repos, lang) >= 1
    requires totalRepos == TaggedCount(repos)
    ensures languageCount != map[] ==> totalRepos > 0
  {
    if languageCount != map[] {
      var lang :| lang in languageCount;
      assert lang != "";
      OccurrencesBoundedByTagged(repos, lang);
    }
  }

  /**
   * `GetLanguagesAsSVG` after the repositories are decoded: count the tagged
   * repositories and lay out the language badge from the histogram.
   */
  method GetLanguagesAsSVG(repos: seq<Repository>, username: string, color: string, background: string)
    returns (badge: GithubRender.LanguagesBadge)
    ensures badge.themeColor == Colors.ResolveColor(color)
    ensures badge.bgColor == Colors.ResolveBackground(background)
    ensures badge.barBgColor == Colors.BarBackground(background)
    ensures badge.username == username
    ensures badge.height == GithubRender.BaseHeight + GithubRender.RowHeight * |Languages(repos)|
    ensures |badge.bars| == |Languages(repos)|
    ensures forall i :: 0 <= i < |badge.bars| ==>
      && badge.bars[i].name in Languages(repos)
      && TaggedCount(repos) > 0
      && badge.bars[i].percentage == GithubRender.Hundredths(Occurrences(repos, badge.bars[i].name), TaggedCount(repos))
      && badge.bars[i].y == GithubRender.RowHeight * i
      && badge.bars[i].width == GithubRender.BarWidth(badge.bars[i].percentage)
    ensures forall lang :: lang in Languages(repos) ==>
      exists i :: 0 <= i < |badge.bars| && badge.bars[i].name == lang
    ensures forall i, j :: 0 <= i < j < |badge.bars| ==> badge.bars[i].percentage >= badge.bars[j].percentage
  {
    var languageCount, totalRepos := CountLanguages(repos);
    TaggedWhenCounted(repos, languageCount, totalRepos);
    badge := GithubRender.GenerateLanguagesSVG(languageCount, totalRepos, username, color, background);
  }

  /** A language never occurs more often than there are tagged repositories. */
  lemma {:induction false} OccurrencesBoundedByTagged(repos: seq<Repository>, lang: string)
    requires lang != ""
    ensures Occurrences(repos, lang) <= TaggedCount(repos)
  {
    if repos != [] {
      OccurrencesBoundedByTagged(repos[..|repos| - 1], lang);
    }
  }

  // ---------------------------------------------------------------------
  // Calendar flattening
  // ---------------------------------------------------------------------

  function CopyDay(day: CalendarDay): DayContribution
  {
    DayContribution(day.date, day.contributionCount, day.weekday)
  }

  function CopyDays(days: seq<CalendarDay>): (r: seq<DayContribution>)
    ensures |r| == |days|
  {
    seq(|days|, i requires 0 <= i < |days| => CopyDay(days[i]))
  }

  /** Every week's days, week after week, each copied field for field. */
  function Flatten(weeks: seq<CalendarWeek>): seq<DayContribution>
  {
    if weeks == [] then []
    else Flatten(weeks[..|weeks| - 1]) + CopyDays(weeks[|weeks| - 1].contributionDays)
  }

  /** The number of days in a list of weeks. */
  function DayCount(weeks: seq<CalendarWeek>): nat
  {
    if weeks == [] then 0
    else DayCount(weeks[..|weeks| - 1]) + |weeks[|weeks| - 1].contributionDays|
  }

  /**
   * The flattened list has one entry per calendar day, and day j of week w
   * sits right after the days of the earlier weeks, copied unchanged.
   */
  lemma {:induction false} FlattenIndex(weeks: seq<CalendarWeek>, w: int, j: int)
    requires 0 <= w < |weeks| && 0 <= j < |weeks[w].contributionDays|
    ensures |Flatten(weeks)| == DayCount(weeks)
    ensures DayCount(weeks[..w]) + j < |Flatten(weeks)|
    ensures Flatten(weeks)[DayCount(weeks[..w]) + j] == CopyDay(weeks[w].contributionDays[j])
  {
    var n := |weeks| - 1;
    FlattenLength(weeks[..n]);
    if w == n {
      assert weeks[..w] == weeks[..n];
    } else {
      assert weeks[..n][..w] == weeks[..w];
      assert weeks[..n][w] == weeks[w];
      FlattenIndex(weeks[..n], w, j);
    }
  }

  lemma {:induction false} FlattenLength(weeks: seq<CalendarWeek>)
    ensures |Flatten(weeks)| == DayCount(weeks)
  {
    if weeks != [] {
      FlattenLength(weeks[..|weeks| - 1]);
    }
  }

  /**
   * The statistics `fetchGitHubStats` builds from a decoded response: the
   * calendar's weeks flattened into one day list, the four totals copied.
   */
  method FetchGitHubStats(resp: GraphQLResponse) returns (stats: ProfileStats)
    ensures stats.contributionsByDay == Flatten(resp.contributionsCollection.contributionCalendar.weeks)
    ensures stats.totalContributions == resp.contributionsCollection.contributionCalendar.totalContributions
    ensures stats.totalCommits == resp.contributionsCollection.totalCommitContributions
    ensures stats.totalPRs == resp.contributionsCollection.totalPullRequestContributions
    ensures stats.totalIssues == resp.contributionsCollection.totalIssueContributions
  {
    var collection := resp.contributionsCollection;
    var weeks := collection.contributionCalendar.weeks;
    var contributionsByDay: seq<DayContribution> := [];
    for w := 0 to |weeks|
      invariant contributionsByDay == Flatten(weeks[..w])
    {
      var days := weeks[w].contributionDays;
      for d := 0 to |days|
        invariant contributionsByDay == Flatten(weeks[..w]) + CopyDays(days[..d])
      {
        var day := days[d];
        assert CopyDays(days[..d + 1]) == CopyDays(days[..d]) + [CopyDay(day)];
        contributionsByDay := contributionsByDay + [DayContribution(day.date, day.contributionCount, day.weekday)];
      }
      assert days[..|days|] == days;
      assert weeks[..w + 1][..w] == weeks[..w];
    }
    assert weeks[..|weeks|] == weeks;
    stats := ProfileStats(
      collection.contributionCalendar.totalContributions,
      collection.totalCommitContributions,
      collection.totalPullRequestContributions,
      collection.totalIssueContributions,
      contributionsByDay);
  }

  // ---------------------------------------------------------------------
  // Single-slot TTL render cache
  // ---------------------------------------------------------------------

  /** `cacheTTL`: one second, in the nanoseconds of Go's `time.Duration`. */
  const CacheTTL := 1_000_000_000

  /** What the badge handler answers: the SVG body, or the generic 500 error. */
  datatype SvgResponse = Svg(body: string) | InternalServerError

  /**
   * The package-level `svgCache`/`lastUpdated` pair. It is one slot for every
   * request: neither the username nor the theme is part of the key.
   */
  class StatsSvgCache {
    var svgCache: string
    var lastUpdated: int

    /** Go's zero values: an empty string and the zero time. */
    constructor ()
      ensures svgCache == "" && lastUpdated == 0
    {
      svgCache := "";
      lastUpdated := 0;
    }

    /** The slot holds an entry that is younger than the TTL at time `now`. */
    predicate IsFresh(now: int)
      reads this
    {
      now - lastUpdated < CacheTTL && svgCache != ""
    }

    /**
     * `GetStatsAsSVG`. `now` is the clock at the freshness test, `renderedAt`
     * the clock after rendering, `fetched` the outcome of the profile fetch
     * for this request's username, and `markup` the template substitution.
     */
    method GetStatsAsSVG(now: int, renderedAt: int, username: string, color: string, background: string,
                         fetched: Result<ProfileStats, string>, markup: GithubRender.StatsBadge -> string)
      returns (resp: SvgResponse)
      requires !IsFresh(now) && fetched.Success? ==>
        GithubRender.WindowWeekdaysValid(fetched.value.contributionsByDay)
      modifies this
      ensures old(IsFresh(now)) ==>
        resp == Svg(old(svgCache)) && svgCache == old(svgCache) && lastUpdated == old(lastUpdated)
      ensures !old(IsFresh(now)) && fetched.Failure? ==>
        resp == InternalServerError && svgCache == old(svgCache) && lastUpdated == old(lastUpdated)
      ensures !old(IsFresh(now)) && fetched.Success? ==>
        && svgCache == markup(GithubRender.StatsLayout(fetched.value, username, color, background))
        && lastUpdated == renderedAt
        && resp == Svg(svgCache)
    {
      if now - lastUpdated < CacheTTL && svgCache != "" {
        return Svg(svgCache);
      }
      if fetched.Failure? {
        return InternalServerError;
      }
      var badge := GithubRender.GenerateStatsSVG(fetched.value, username, color, background);
      var svg := markup(badge);
      svgCache := svg;
      lastUpdated := renderedAt;
      resp := Svg(svg);
    }
  }

  /**
   * A burst: a second request within the TTL of a successful render gets the
   * same bytes, whatever its username, theme or fetch outcome would have been.
   */
  method BurstServesOneRender(t1: int, t2: int, stats: ProfileStats, username: string, color: string,
                              background: string, otherUsername: string, otherColor: string,
                              otherBackground: string, otherFetch: Result<ProfileStats, string>,
                              markup: GithubRender.StatsBadge -> string)
    returns (first: SvgResponse, second: SvgResponse)
    requires GithubRender.WindowWeekdaysValid(stats.contributionsByDay)
    requires markup(GithubRender.StatsLayout(stats, username, color, background)) != ""
    requires t1 <= t2 < t1 + CacheTTL
    ensures first == Svg(markup(GithubRender.StatsLayout(stats, username, color, background)))
    ensures second == first
  {
    var cache := new StatsSvgCache();
    first := cache.GetStatsAsSVG(t1, t1, username, color, background, Success(stats), markup);
    second := cache.GetStatsAsSVG(t2, t2, otherUsername, otherColor, otherBackground, otherFetch, markup);
  }

  /**
   * Once the TTL has elapsed a request recomputes: it answers the new render
   * and moves the timestamp; a failed fetch instead answers the error and
   * leaves the stale entry in place for the next request.
   */
  method StaleEntryIsRecomputed(t1: int, t2: int, t3: int, stats: ProfileStats, newStats: ProfileStats,
                                username: string, color: string, background: string,
                                markup: GithubRender.StatsBadge -> string)
    returns (failed: SvgResponse, recomputed: SvgResponse, capturedAt: int)
    requires GithubRender.WindowWeekdaysValid(stats.contributionsByDay)
    requires GithubRender.WindowWeekdaysValid(newStats.contributionsByDay)
    requires t2 >= t1 + CacheTTL && t3 >= t1 + CacheTTL
    ensures failed == InternalServerError
    ensures recomputed == Svg(markup(GithubRender.StatsLayout(newStats, username, color, background)))
    ensures capturedAt == t3
  {
    var cache := new StatsSvgCache();
    var _ := cache.GetStatsAsSVG(t1, t1, username, color, background, Success(stats), markup);
    failed := cache.GetStatsAsSVG(t2, t2, username, color, background, Failure("upstream unavailable"), markup);
    recomputed := cache.GetStatsAsSVG(t3, t3, username, color, background, Success(newStats), markup);
    capturedAt := cache.lastUpdated;
  }
}
