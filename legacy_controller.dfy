/**
 * The older copy of the source-control handlers. Its histogram, percentage
 * and cache code is the same as the newer one's; what differs is that an
 * omitted username defaults to the literal "risv1", and that its cache slot
 * is a package-level pair of its own.
 */
module LegacyController {
  import opened Wrappers
  import opened Models
  import GithubRender
  import GithubController
  import Colors

  const DefaultUsername := "risv1"

  /** The username of every handler: the query value, or "risv1" when it is omitted. */
  function Username(query: string): (username: string)
    ensures query == "" ==> username == "risv1"
    ensures query != "" ==> username == query
    ensures username != ""
  {
    OrDefault(query, DefaultUsername)
  }

  /**
   * `GetMostUsedLanguages`: `repos` is the decoded repository list of the
   * resolved username; tagged languages only, each share truncated to
   * hundredths of a percent.
   */
  method GetMostUsedLanguages(usernameQuery: string, repos: seq<Repository>)
    returns (username: string, languagePercentages: map<string, int>)
    ensures username == Username(usernameQuery)
    ensures languagePercentages.Keys == GithubController.Languages(repos)
    ensures forall lang :: lang in languagePercentages ==>
      GithubController.TaggedCount(repos) > 0 &&
      languagePercentages[lang] == GithubRender.Hundredths(GithubController.Occurrences(repos, lang),
                                                           GithubController.TaggedCount(repos))
    ensures GithubController.TaggedCount(repos) > 0 ==>
      10000 - |languagePercentages| < GithubController.SumValues(languagePercentages, languagePercentages.Keys) <= 10000
  {
    username := OrDefault(usernameQuery, DefaultUsername);
    languagePercentages := GithubController.GetMostUsedLanguages(repos);
  }

  /** `GetLanguagesAsSVG`: username, colour and background defaulted, then the badge laid out. */
  method GetLanguagesAsSVG(usernameQuery: string, colorQuery: string, backgroundQuery: string,
                           repos: seq<Repository>)
    returns (badge: GithubRender.LanguagesBadge)
    ensures badge.username == Username(usernameQuery)
    ensures badge.themeColor == Colors.ResolveColor(OrDefault(colorQuery, "red"))
    ensures badge.bgColor == Colors.ResolveBackground(OrDefault(backgroundQuery, "black"))
    ensures badge.barBgColor == Colors.BarBackground(OrDefault(backgroundQuery, "black"))
    ensures colorQuery == "" ==> badge.themeColor == "rgb(243, 69, 69)"
    ensures backgroundQuery == "" ==> badge.bgColor == "#0A0A0A" && badge.barBgColor == "#171717"
    ensures badge.height == GithubRender.BaseHeight + GithubRender.RowHeight * |GithubController.Languages(repos)|
    ensures |badge.bars| == |GithubController.Languages(repos)|
    ensures forall i :: 0 <= i < |badge.bars| ==>
      && badge.bars[i].name in GithubController.Languages(repos)
      && GithubController.TaggedCount(repos) > 0
      && badge.bars[i].percentage == GithubRender.Hundredths(GithubController.Occurrences(repos, badge.bars[i].name),
                                                             GithubController.TaggedCount(repos))
      && badge.bars[i].y == GithubRender.RowHeight * i
      && badge.bars[i].width == GithubRender.BarWidth(badge.bars[i].percentage)
    ensures forall lang :: lang in GithubController.Languages(repos) ==>
      exists i :: 0 <= i < |badge.bars| && badge.bars[i].name == lang
    ensures forall i, j :: 0 <= i < j < |badge.bars| ==> badge.bars[i].percentage >= badge.bars[j].percentage
  {
    var username := OrDefault(usernameQuery, DefaultUsername);
    var color := OrDefault(colorQuery, "red");
    var background := OrDefault(backgroundQuery, "black");
    badge := GithubController.GetLanguagesAsSVG(repos, username, color, background);
  }

  /**
   * `GetStatsAsSVG` over this package's own slot: a fresh entry answers
   * unchanged, whatever the query; a miss renders for the defaulted
   * username and theme.
   */
  method GetStatsAsSVG(cache: GithubController.StatsSvgCache, now: int, renderedAt: int,
                       usernameQuery: string, colorQuery: string, backgroundQuery: string,
                       fetched: Result<ProfileStats, string>, markup: GithubRender.StatsBadge -> string)
    returns (resp: GithubController.SvgResponse)
    requires !cache.IsFresh(now) && fetched.Success? ==>
      GithubRender.WindowWeekdaysValid(fetched.value.contributionsByDay)
    modifies cache
    ensures old(cache.IsFresh(now)) ==>
      resp == GithubController.Svg(old(cache.svgCache)) && cache.svgCache == old(cache.svgCache)
      && cache.lastUpdated == old(cache.lastUpdated)
    ensures !old(cache.IsFresh(now)) && fetched.Failure? ==>
      resp == GithubController.InternalServerError && cache.svgCache == old(cache.svgCache)
      && cache.lastUpdated == old(cache.lastUpdated)
    ensures !old(cache.IsFresh(now)) && fetched.Success? ==>
      && cache.svgCache == markup(GithubRender.StatsLayout(fetched.value, Username(usernameQuery),
                                                            OrDefault(colorQuery, "red"),
                                                            OrDefault(backgroundQuery, "black")))
      && cache.lastUpdated == renderedAt
      && resp == GithubController.Svg(cache.svgCache)
  {
    var username := OrDefault(usernameQuery, DefaultUsername);
    var color := OrDefault(colorQuery, "red");
    var background := OrDefault(backgroundQuery, "black");
    resp := cache.GetStatsAsSVG(now, renderedAt, username, color, background, fetched, markup);
  }
}
