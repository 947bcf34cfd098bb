# my-realm statistics badges, modelled in Dafny

my-realm is a small Go web service that draws SVG "badges" for a developer
profile. This project models the part of it that turns fetched statistics
into what the badges show, and proves properties of that model:

- **LeetCode aggregation** (`LeetCode`): folding the decoded progress
  response into `LeetCodeStats` (question total, solved counts per
  difficulty, acceptance rate, ranking, the `leetcode API error: …` failure),
  and the numbers of the LeetCode badge (theme, bar widths `440·solved/total`).
- **GitHub aggregation** (`GithubController`): the repository-language
  histogram, the per-language percentage map truncated to hundredths, and the
  flattening of the GraphQL contribution calendar into a list of days.
- **Badge layout** (`GithubRender`, `Colors`): theme resolution with the
  `red` / `black` fallbacks, the bar background (`#E5E5E5` exactly for the
  raw token `white`, else `#171717`), language rows sorted by non-increasing
  percentage with height `100 + 40·rows`, row `i` at `y = 40·i` and width
  `440·pct/100`; the contribution badge over the last seven days, scaled by
  the maximum over all days, column `i` at `x = 60·i`, with day names.
- **The one-slot stats cache** (`GithubController.StatsSvgCache`): one
  rendered SVG and its timestamp, served again for one second whatever the
  query, recomputed on a miss, left untouched when the fetch fails.
- **The older handler copy** (`LegacyController`): the same handlers with
  the literal default username `risv1` and a cache slot of their own.

The SVG template text is not modelled: the render functions compute the
values substituted into it (a `LanguagesBadge`, `StatsBadge` or
`LeetCodeBadge`), and the cache takes the template as a parameter
`markup: StatsBadge -> string`. Percentages are integers counting hundredths
of a percent (1234 is 12.34 %), computed with Go's truncation toward zero.
Acceptance rates, bar widths and bar heights are exact rationals (`real`).
A Go float division by zero in the LeetCode badge is the value `NonFinite`.

Files: `wrappers.dfy` (`Result` and the empty-means-default rule), `colors.dfy`, `models.dfy` (the
records of `internal/models`), `leetcode.dfy`, `github_render.dfy`,
`github_controller.dfy`, `legacy_controller.dfy`.

## Model

| member | source | states |
|---|---|---|
| Colors.ResolveColor | internal/utils/github.utils.go:15-18 | the theme colour is the scheme of a known token and the red scheme for any other token, and is always one of the ten schemes |
| Colors.ResolveBackground | internal/utils/github.utils.go:20-23 | the background is the scheme of a known token and the black scheme for any other token, and is always one of the three schemes |
| Colors.BarBackground | internal/utils/github.utils.go:93-96 | the bar background is `#E5E5E5` if and only if the raw token is `white`, and `#171717` otherwise |
| Colors.ColorTokens | internal/utils/colors.utils.go:4-15 | the colour table's tokens are exactly the ten names red … black |
| Colors.BackgroundTokens | internal/utils/colors.utils.go:17-21 | the background table has exactly the three tokens black, neutral, white |
| Colors.EmptyLookupMeansMissing | internal/utils/github.utils.go:15-23 | a lookup yields "" exactly for a token not in the table, so the `== ""` test is a membership test |
| Colors.FallbacksExist | internal/utils/leetcode.utils.go:140-148 | the fallback tokens red and black are in their tables, so the fallback values are never empty |
| LeetCode.FetchLeetCodeStats | internal/utils/leetcode.utils.go:102-136 | fails exactly when the response lists errors, with message `leetcode API error: ` plus the first error; otherwise the stats are those of the reference fold `StatsOf` |
| LeetCode.QuestionTotalAppend | internal/utils/leetcode.utils.go:108-110 | the question total of a concatenation is the sum of the totals (the fold is a sum) |
| LeetCode.SubmissionTotalAppend | internal/utils/leetcode.utils.go:122-127 | the submission total of a concatenation is the sum of the totals |
| LeetCode.SolvedForLastWins | internal/utils/leetcode.utils.go:113-121 | the solved count of a difficulty is 0 when no entry carries it, and otherwise the count of the last entry that does |
| LeetCode.SolvedForAbsent | internal/utils/leetcode.utils.go:113-121 | when no entry carries a difficulty, its solved count stays at the zero it starts from |
| LeetCode.SolvedForAt | internal/utils/leetcode.utils.go:113-121 | the entry carrying a difficulty with no later entry of the same difficulty fixes that difficulty's solved count |
| LeetCode.SolvedForIgnoresOtherLabels | internal/utils/leetcode.utils.go:114-121 | an entry of another difficulty, before or after, does not change a difficulty's solved count |
| LeetCode.StatsOfDerived | internal/utils/leetcode.utils.go:129-134 | total solved is easy + medium + hard, ranking is copied, and the rate stays 0 when there are no submissions |
| LeetCode.AcceptanceRateMeaning | internal/utils/leetcode.utils.go:132-134 | with submissions, rate · total = 100 · accepted, and the rate lies in [0, 100] when accepted ≤ total |
| LeetCode.ProgressWidth | internal/utils/leetcode.utils.go:150-153 | the width is finite exactly when the question total is non-zero, then width · total = 440 · solved, in [0, 440] for 0 ≤ solved ≤ total |
| LeetCode.GenerateLeetCodeStatsSVG | internal/utils/leetcode.utils.go:139-276 | theme and background are the table entries for a known token and the red / black schemes otherwise, the bar background is `#E5E5E5` iff the token is `white` and `#171717` otherwise; each of the four bar widths is finite exactly when there are questions, and then width · total = 440 · solved; username, totals, rate and ranking are copied |
| LeetCode.BadgeBarsFitTrack | internal/utils/leetcode.utils.go:150-153 | with consistent stats every progress bar fits in the 440-unit track and the total bar is the sum of the three difficulty bars |
| LeetCode.ProgressWidthAdds | internal/utils/leetcode.utils.go:150-153 | the width of a sum of solved counts is the sum of their widths, for a non-zero question total |
| GithubRender.TruncDiv | internal/utils/github.utils.go:37 | Go's truncating conversion agrees with floor division on non-negative operands |
| GithubRender.HundredthsIsFloor | internal/utils/github.utils.go:33-37 | `Hundredths`, the stored percentage, is the largest number of hundredths not exceeding the exact share, and lies in [0, 10000] for count ≤ total |
| GithubRender.BarWidth | internal/utils/github.utils.go:125 | a language bar is `440 · pct / 100` wide and fits in the track for a percentage in [0, 100] |
| GithubRender.Insert | internal/utils/github.utils.go:41-43 | inserting a row adds exactly that row to the multiset of rows |
| GithubRender.InsertKeepsOrder | internal/utils/github.utils.go:41-43 | inserting into non-increasing rows keeps them non-increasing |
| GithubRender.SortByPercentage | internal/utils/github.utils.go:41-43 | the sorted rows are a permutation of the input in non-increasing percentage order |
| GithubRender.CollectLanguages | internal/utils/github.utils.go:31-39 | one row per map entry, each with the entry's count and its truncated percentage |
| GithubRender.LayOutLanguageBars | internal/utils/github.utils.go:101-126 | row i is drawn at y = 40·i with the row's name, percentage and bar width |
| GithubRender.SortedRowsCover | internal/utils/github.utils.go:41-43 | reordering the rows neither loses a language nor brings in one outside the rows |
| GithubRender.SortRows | internal/utils/github.utils.go:41-43 | the sorted rows keep each row's name and truncated percentage, still cover every language, and are in non-increasing percentage order |
| GithubRender.RankLanguages | internal/utils/github.utils.go:31-43 | one bar per language, each with its truncated percentage at y = 40·i and width `440 · pct / 100`, every language present, in non-increasing order |
| GithubRender.GenerateLanguagesSVG | internal/utils/github.utils.go:14-140 | resolved theme, background and bar background; height 100 + 40 · languages; one bar per language with its truncated percentage at y = 40·i and width `440 · pct / 100`, every language present, bars in non-increasing percentage order |
| GithubRender.GetDayName | internal/utils/github.utils.go:321-324 | a valid weekday names a three-letter day |
| GithubRender.DayNamesInOrder | internal/utils/github.utils.go:322 | weekdays 0 … 6 are Sun, Mon, Tue, Wed, Thu, Fri, Sat, and the seven names are distinct |
| GithubRender.MaxContribution | internal/utils/github.utils.go:165-170 | the maximum is non-negative, bounds every day's count, and is 0 or attained by some day |
| GithubRender.MaxContributions | internal/utils/github.utils.go:165-170 | the loop computes exactly `MaxContribution` over all days |
| GithubRender.LastSevenDays | internal/utils/github.utils.go:248-251 | the window is the last min(7, n) days, in order |
| GithubRender.DayBars | internal/utils/github.utils.go:253-301 | one column per day of the window |
| GithubRender.ContributionBars | internal/utils/github.utils.go:253-301 | the loop builds exactly the columns `DayBars` describes |
| GithubRender.GenerateStatsSVG | internal/utils/github.utils.go:142-319 | the badge is exactly the reference layout: defaulted tokens, resolved colours, the four totals, columns of the last seven days scaled by the all-days maximum |
| GithubRender.DayBarFits | internal/utils/github.utils.go:253-300 | the column of one day has height in (0, 100], height 1 for a zero count, height · max = 100 · count otherwise, top at 100 − height, x = 60·i, the day's count and name |
| GithubRender.DayBarsInRange | internal/utils/github.utils.go:253-300 | every column has height in (0, 100], height 1 for a zero count, height · max = 100 · count otherwise, top at 100 − height, x = 60·i, count copied |
| GithubRender.StatsBarsInRange | internal/utils/github.utils.go:248-300 | for non-negative counts the badge has one column per day of the last min(7, n) days, each with height in (0, 100], height 1 for a zero count, height · max = 100 · count otherwise for the all-days maximum, top at 100 − height, x = 60·i, the day's count and name |
| GithubRender.BarHeightBounds | internal/utils/github.utils.go:254-261 | `BarHeight`, a bar height, lies in (0, 100], is 1 for a zero count and proportional to the count otherwise |
| Wrappers.OrDefault | api/controllers/github.controller.go:91-92 | a query parameter or colour token is its value when present and the default when empty, as Fiber's `c.Query(key, default)` and the `== ""` replacement in `GenerateStatsSVG` both do |
| GithubController.CountLanguages | api/controllers/github.controller.go:36-44 | the histogram's keys are the tagged languages, each counted by its occurrences (≥ 1), the total is the number of tagged repositories and the sum of the counts |
| GithubController.SumValuesRemove | api/controllers/github.controller.go:36-44 | the sum of a map's values splits off any one key |
| GithubController.SumValuesAgree | api/controllers/github.controller.go:36-44 | maps equal on a key set have the same sum over it |
| GithubController.SumValuesIncrement | api/controllers/github.controller.go:41-42 | incrementing one count raises the sum of counts by one, as `totalRepos++` does |
| GithubController.AppendRepository | api/controllers/github.controller.go:39-44 | appending a repository adds its language (if tagged) to the language set, one to that language's occurrences and one to the tagged count |
| GithubController.CountTaggedEntries | api/controllers/github.controller.go:41-42 | `languageCount[repo.Language]++` adds the language as a key and raises exactly its count by one |
| GithubController.CountTagged | api/controllers/github.controller.go:39-44 | a tagged repository keeps the histogram equal to that of the repositories seen |
| GithubController.CountStep | api/controllers/github.controller.go:39-44 | one loop step keeps the histogram equal to that of the repositories seen |
| GithubController.OccurrencesOfMissing | api/controllers/github.controller.go:36-44 | a language absent from the histogram occurs in no repository |
| GithubController.LanguagePercentages | api/controllers/github.controller.go:46-50 | the percentage map has the histogram's keys, each value the count's share truncated to hundredths |
| GithubController.PercentageSumBounds | api/controllers/github.controller.go:46-50 | truncation loses less than one hundredth per language: the percentages sum to at most the exact total and to more than it minus one per key |
| GithubController.GetMostUsedLanguages | api/controllers/github.controller.go:22-60 | keys are exactly the tagged languages, each value its occurrence share in hundredths, and the shares sum to at most 100 % and more than 100 % minus 0.01 % per language |
| GithubController.TaggedWhenCounted | api/controllers/github.controller.go:106-116 | a non-empty histogram implies a non-zero total, so the percentage division is defined |
| GithubController.OccurrencesBoundedByTagged | api/controllers/github.controller.go:39-44 | a language never occurs more often than there are tagged repositories |
| GithubController.GetLanguagesAsSVG | api/controllers/github.controller.go:89-120 | the badge for the repositories has the resolved colours and username, height 100 + 40 · languages, one bar per tagged language with its truncated share at y = 40·i and width `440 · pct / 100`, every tagged language present, in non-increasing order |
| GithubController.CopyDays | api/controllers/github.controller.go:203-209 | a week contributes one day record per calendar day |
| GithubController.FlattenIndex | api/controllers/github.controller.go:201-210 | day j of week w lands at position (days of the earlier weeks) + j, with its date, count and weekday copied |
| GithubController.FlattenLength | api/controllers/github.controller.go:201-210 | the flattened list holds as many days as all weeks together |
| GithubController.FetchGitHubStats | api/controllers/github.controller.go:201-218 | the days are the weeks flattened in order, and the four totals are copied from the response |
| GithubController.StatsSvgCache.constructor | api/controllers/github.controller.go:62-67 | the slot starts empty with the zero time, so the first request is a miss |
| GithubController.StatsSvgCache.GetStatsAsSVG | api/controllers/github.controller.go:122-151 | a fresh entry (`IsFresh`: younger than one second and non-empty) is served unchanged; on a miss a failed fetch answers 500 and keeps the slot, a successful one stores and serves the newly rendered layout with its render time |
| GithubController.BurstServesOneRender | api/controllers/github.controller.go:122-128 | within one second of a render a second request gets the same SVG, whatever its username, colour, background or fetch outcome |
| GithubController.StaleEntryIsRecomputed | api/controllers/github.controller.go:122-147 | after a second, a failed fetch answers 500 and a later successful fetch renders the new stats and stamps its own time |
| LegacyController.Username | src/controllers/github.controller.go:21 | the username is the query value, or `risv1` when it is omitted |
| LegacyController.GetMostUsedLanguages | src/controllers/github.controller.go:20-58 | defaulted username; keys are the tagged languages, each value the truncated share, and the shares sum to at most 100 % and more than 100 % minus 0.01 % per language |
| LegacyController.GetLanguagesAsSVG | src/controllers/github.controller.go:87-118 | defaulted username, colour and background resolved through the tables (an omitted colour is the red theme, an omitted background black with the dark bar background); height 100 + 40 · languages; one bar per tagged language with its truncated share at y = 40·i and width `440 · pct / 100`, every tagged language present, in non-increasing order |
| LegacyController.GetStatsAsSVG | src/controllers/github.controller.go:120-149 | the same cache behaviour over this package's own slot, rendering for the defaulted username, colour and background |

## Left out

- HTTP, JSON decoding and the Fiber routing: the handlers take the decoded
  repository list, GraphQL response or LeetCode response as a parameter, and
  transport or decoding errors (which answer 500) are not modelled.
- `GetProfileStats` in both controllers, the LeetCode controller and the
  startup code (`cmd`, `dev`, `api/index.go`, `api/router.go`, config
  loading): thin handlers and startup code that call the fetchers and
  serialise the result. The LeetCode handler also answers 400 for an empty
  username, and config loading ends the process through `log.Fatal` when
  `GITHUB_TOKEN` is empty; neither is modelled.
- The GraphQL request construction of `fetchGitHubStats` (query text, bearer
  token): only the flattening of the decoded response is modelled. The `src`
  handlers call `utils.FetchGitHubStats`, which is not part of this model; its
  outcome is the `fetched` parameter.
- The `api` handlers default the username to `config.LoadEnv().GithubUsername`,
  a field the `Env` record in `internal/config/env.go` does not declare; the
  model takes the resolved username as a parameter.
- The SVG template text and `fmt` formatting (`%.1f`, `%.2f`, `%f`): the
  model computes the values substituted into the template.
- Float rounding: percentages, rates and widths are exact; Go's `float64`
  may differ in the last bit, and `int(percentage*100)` may round a value such
  as 0.29 · 100 to 28.999… before truncating.
- GithubRender.SortByPercentage: `sort.Slice` is not stable, so the order of
  languages with equal percentages is unspecified; the model proves only
  permutation and non-increasing order, and the iteration order of Go maps is
  likewise not modelled.
- Go's `int` is 64 bits wide; the model's integers are unbounded, so the
  sums in `FetchLeetCodeStats`, `totalRepos++` and the
  `languageCount[...]++` increments never wrap around. Counts of questions
  and repositories stay far below 2^63.
- GithubRender.GetDayName: Go panics on a weekday outside 0..6; the model
  requires a valid weekday of every day in the seven-day window.
- GithubRender.BarHeightBounds: a bar for a count below max/100 is lower than
  1, so heights lie in (0, 100], not [1, 100].
- GithubController.StatsSvgCache: the read/write mutex, and the window in
  which two concurrent misses both render, are not modelled; the clock is the
  `now` and `renderedAt` parameters in nanoseconds.
- LeetCode.GenerateLeetCodeStatsSVG: a division by a zero question total is
  `NonFinite`, not the NaN or ±Inf values Go would format.
