/**
 * What the GitHub REST API answers, as input data. Each `fetch` of the
 * handler becomes one of these values; a variant ending in `Failed` is a
 * `fetch` (or `.json()`) whose promise rejected, so that the `await`
 * throws. A repository carries both of its answers even when the handler
 * never gets as far as asking for the second.
 */
module Upstream {
  import opened Options

  /** The answer to `/repos/<user>/<repo>/commits?per_page=1&author=<user>`. */
  datatype CommitsResponse =
    | CommitsFetchFailed
    | CommitsNotOk
    | CommitsOk(link: Option<string>, body: CommitsBody)

  /** The commit list's JSON body: an array of `count` entries, or text that does not parse. */
  datatype CommitsBody = CommitList(count: nat) | CommitsMalformed

  /** The answer to `/repos/<user>/<repo>/stats/contributors`. */
  datatype StatsResponse =
    | StatsFetchFailed
    | StatsNotOk
    | StatsOk(body: StatsBody)

  /**
   * The statistics body: a JSON value that is not an array (GitHub answers
   * `{}` while it is still computing), an array of contributor entries, or
   * text that does not parse.
   */
  datatype StatsBody =
    | NotAList
    | ContributorList(entries: seq<ContributorEntry>)
    | StatsMalformed

  /** One array element: `null`, or an object with an optional `author` and optional `weeks`. */
  datatype ContributorEntry =
    | NullEntry
    | Contributor(author: Option<Author>, weeks: Weeks)

  /** The `author` object; its `login` may be missing. */
  datatype Author = Author(login: Option<string>)

  /** The `weeks` field: missing or falsy, or an array. */
  datatype Weeks = NoWeeks | WeekList(entries: seq<WeekEntry>)

  /** One element of `weeks`: `null`, or an object whose `a` and `d` counts may be missing. */
  datatype WeekEntry = NullWeek | Week(a: Option<nat>, d: Option<nat>)

  /** Both per-repository answers. */
  datatype RepoResponses = RepoResponses(commits: CommitsResponse, stats: StatsResponse)

  /**
   * The body of `/users/<user>/repos?per_page=100&sort=updated`: a failure
   * to fetch or parse it (with the exception's message), a JSON value
   * without a numeric `length` (such as an error object), or the array of
   * repositories in listing order.
   */
  datatype Listing =
    | ListingFailed(message: string)
    | NoLength
    | Repositories(repos: seq<RepoResponses>)

  /** The profile fields the badge shows; each may be missing. */
  datatype UserData = UserData(publicRepos: Option<nat>, followers: Option<nat>, following: Option<nat>)

  /**
   * The answer to `/users/<user>`: a failure to fetch or parse it (with the
   * exception's message), a response whose status is not in the 2xx range,
   * or the decoded profile.
   */
  datatype ProfileResponse =
    | ProfileFailed(message: string)
    | ProfileNotOk(status: nat)
    | ProfileOk(user: UserData)
}
