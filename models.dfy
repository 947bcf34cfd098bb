/**
 * Canonical records produced by the fetchers, and the already-decoded
 * upstream GraphQL response of the source-control provider.
 */
module Models {

  /** One calendar day of the canonical profile: date, count, weekday (0 is Sunday). */
  datatype DayContribution = DayContribution(date: string, contributionCount: int, weekday: int)

  /** Canonical source-control statistics. */
  datatype ProfileStats = ProfileStats(
    totalContributions: int,
    totalCommits: int,
    totalPRs: int,
    totalIssues: int,
    contributionsByDay: seq<DayContribution>)

  /** A day as the provider's calendar reports it. */
  datatype CalendarDay = CalendarDay(contributionCount: int, date: string, weekday: int)

  datatype CalendarWeek = CalendarWeek(contributionDays: seq<CalendarDay>)

  datatype ContributionCalendar = ContributionCalendar(totalContributions: int, weeks: seq<CalendarWeek>)

  /** `data.user.contributionsCollection` of the decoded response. */
  datatype ContributionsCollection = ContributionsCollection(
    totalCommitContributions: int,
    totalPullRequestContributions: int,
    totalIssueContributions: int,
    contributionCalendar: ContributionCalendar)

  datatype GraphQLResponse = GraphQLResponse(contributionsCollection: ContributionsCollection)

  /** Canonical coding-judge statistics; the acceptance rate is a percentage. */
  datatype LeetCodeStats = LeetCodeStats(
    totalSolved: int,
    totalQuestions: int,
    easySolved: int,
    mediumSolved: int,
    hardSolved: int,
    acceptanceRate: real,
    ranking: int,
    contributionPoints: int)

  /** A repository summary; "" when the provider reports no primary language. */
  datatype Repository = Repository(language: string)
}
