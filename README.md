# GitHub stats badge service: a verified model of the stats aggregation

The service answers `GET /api/stats?username=<user>` with an SVG badge. To build it, the
handler fetches the user's GitHub profile and then, once, the user's repository listing.
Then, one repository at a time, it asks for the number of commits the user authored in
that repository and for the repository's contributor statistics. It adds these into three counters: `totalCommits`,
`totalAdditions` and `totalDeletions`. Failures in one repository are caught and skipped.
A failure of the profile request gives an error badge. The badge's two lines come from
looking for `"403"` and `"404"` in the exception message.

This project models that core in Dafny. Every network answer is an input value
(module `Upstream`). Three kinds of code are modelled:

- The pure expressions become functions: the link-header regular expression
  (`LinkHeader`), the contributor `find` and the weekly sums (`Contributions`), and the
  message classification (`ErrorClassification`).
- The loop that updates the counters stays imperative: `Aggregator.Aggregate` and the
  step methods it calls. `Aggregate` is proved equal to the left fold
  `Contributions.Accumulated`.
- The handler (`StatsEndpoint.HandleStats`) is proved to send exactly what
  `StatsEndpoint.Respond` specifies.

A thrown exception is an explicit outcome. For the per-repository `try`, the commit step
returns `threw`. The statistics `try` becomes cases that add nothing. A `null` week ends
the weekly sum early, and everything added before it stays.

Three behaviours of the code are easy to misread, and the model keeps them as written:

- A repository that fails part way keeps what it has already added. Nothing is rolled
  back when an exception is caught. Commits added before a statistics failure stay
  (`StatsFailureKeepsCommits`), and so do the weeks summed before a `null` week
  (`NullWeekKeepsEarlierWeeks`).
- An unreadable repository listing does not count as an empty one. Only a JSON value
  without a `length` (such as an error object) ends the loop at once with the counters at 0
  (`NoRepositories`). A body that does not parse as JSON makes `.json()` throw, and the
  outer `catch` turns that into an error badge (`ListingFailureIsFatal`).
- The 403 sub-message is "Add GITHUB_TOKEN or try again later".

Of the values the handler computes, the success badge displays only the username and
`totalCommits` (server.js:192, 197). The model still computes the others, as the handler does.

The response is a function of the inputs. So repeating a request with the same answers
from upstream gives the same counters.

## Model

| member | source | states |
|---|---|---|
| `Text.DecimalValue` | server.js:71 | `parseInt` ignores a leading zero: `0` followed by digits reads as those digits (so `page=007` gives 7) |
| `LinkHeader.LastPage` | server.js:69-71 | the header yields no page exactly when `page=(\d+)>; rel="last"` matches nowhere in it |
| `Contributions.CommitStep` | server.js:65-78 | the commit step throws exactly when the fetch rejects, or when there is no non-empty link header and the body does not parse; a response that is not ok adds 0 |
| `Contributions.WeeksTotal` | server.js:101-104 | the weekly sum never adds commits, and every week before the first `null` week is counted: its `a \|\| 0` and `d \|\| 0` are at most the totals |
| `Contributions.RepoContribution` | server.js:55-115 | the commits a repository adds are exactly those of its commit step (0 when the step throws); the statistics never add commits |
| `Contributions.Accumulated` | server.js:46-116 | no repository's contribution exceeds the final counters: nothing added in one iteration is later lost |
| `ErrorClassification.StatusMessage` | server.js:24 | the thrown message is `GitHub API error: ` followed by digits that `parseInt` reads back as the status |
| `ErrorClassification.Classify` | server.js:303-312 | the rate-limit lines exactly when the message contains "403"; the user-not-found lines exactly when it contains "404" but not "403"; the default lines exactly when it contains neither |
| `StatsEndpoint.RequestedUsername` | server.js:11 | an absent `username` parameter means `4n4k1n`; a given one is used as it is |
| `StatsEndpoint.CardFor` | server.js:41-43 | each profile count is the decoded value when present and 0 when missing; the username and counters pass through unchanged |
| `StatsEndpoint.Respond` | server.js:10-335 | the stats badge is sent exactly when the profile is ok and the listing did not fail; either badge carries the requested username; the badge's counters are the fold over the listing (0 without a `length`); a profile status that is not ok is classified from its error message |
| `Text.DecimalRoundTrip` | server.js:71 | `parseInt` of the decimal digits of `n` gives back `n` |
| `Text.DecimalString` | server.js:24 | the `${status}` rendering is a non-empty string of digits, with a leading `0` only for 0 |
| `LinkHeader.MatchUsesWholeRun` | server.js:69 | in a match of `page=(\d+)>; rel="last"`, the group takes the whole run of digits: `\d+` is greedy and `>` is not a digit |
| `LinkHeader.MatchLength` | server.js:69 | at one position the pattern matches with at most one digit count, and the function returns exactly that count |
| `LinkHeader.LastPageSpec` | server.js:69-71 | the header yields `n` exactly when the leftmost match captures digits with value `n`, and yields nothing exactly when the pattern matches nowhere |
| `LinkHeader.LastLinkYieldsPage` | server.js:69-71 | a `page=N>; rel="last"` link yields exactly `N`, whatever follows it |
| `LinkHeader.NextLinkDoesNotMatch` | server.js:69 | a `page=N>; rel="next"` link never matches, whatever surrounds it |
| `LinkHeader.PerPageDoesNotMatch` | server.js:69 | `page=N&` (as in `per_page=1&`) never matches |
| `Contributions.CommitsFromLastLink` | server.js:65-72 | with a non-empty link header whose leftmost match captures `N`, the commit step adds exactly `N` |
| `Contributions.CommitsWithoutLastLink` | server.js:67-72 | with a non-empty link header in which the pattern matches nowhere, the commit step adds 0 and does not read the body |
| `Contributions.CommitsWithoutLinkHeader` | server.js:73-77 | with no header (or an empty one), the step adds the body's length; a body that does not parse throws |
| `Contributions.CommitsNotOkStillCountsStats` | server.js:65-81 | a commits response that is not ok adds no commits, and the repository still contributes its full statistics |
| `Contributions.CommitFailureSkipsStats` | server.js:55-115 | when the commit step throws, the outer catch skips the statistics: the repository contributes (0, 0, 0) |
| `Contributions.FindContributor` | server.js:95-97 | an entry that `find` returns has an author whose `login` equals the username |
| `Contributions.FindContributorSpec` | server.js:95-97 | `find` returns entry `e` exactly when `e` is the first entry for the user and no `null` entry comes before it |
| `Contributions.FindContributorAbsent` | server.js:95-97 | `find` returns `undefined` exactly when every entry is non-null and none is the user's |
| `Contributions.FirstContributorCounts` | server.js:93-105 | only the first entry for the user counts: the step adds the sum over that entry's weeks |
| `Contributions.ContributorWithoutWeeks` | server.js:99 | a user entry with missing or falsy `weeks` adds nothing |
| `Contributions.UnusableStatsAddNothing` | server.js:89-110 | a failed request, a body that is not an array, and a body that does not parse each add nothing |
| `Contributions.StatsStep` | server.js:81-111 | the statistics step never changes `totalCommits` |
| `Contributions.StatsFailureKeepsCommits` | server.js:81-115 | a failure in the statistics step keeps the commits already added for that repository |
| `Contributions.RepoContributionFields` | server.js:55-115 | one repository adds (0, 0, 0) if its commit step throws; otherwise it adds (its commits, its additions, its deletions) |
| `Contributions.WeeksTotalAppend` | server.js:101-104 | summing weeks in order is additive over a split whose first part holds no `null` week |
| `Contributions.WeeksTotalStep` | server.js:101-104 | each non-null week adds `week.a \|\| 0` and `week.d \|\| 0` |
| `Contributions.NullWeekKeepsEarlierWeeks` | server.js:101-110 | a `null` week stops the sum there, and the weeks summed before it stay added |
| `Contributions.AccumulatedStep` | server.js:52-116 | handling one more repository adds its contribution to the counters |
| `Contributions.AccumulatedAppend` | server.js:52-116 | folding a concatenated listing equals adding the folds of its two parts |
| `Contributions.AccumulatedMonotone` | server.js:46-116 | no counter ever decreases from one iteration to a later one |
| `Contributions.AccumulatedPermutation` | server.js:52-116 | the final counters do not depend on the order of the listing |
| `Aggregator.CountCommits` | server.js:57-78 | the imperative commit step throws exactly when the specification says it does, and otherwise adds the specified number of commits |
| `Aggregator.AddWeeks` | server.js:99-105 | the `forEach` loop adds exactly the specified weekly sums, stopping at a `null` week |
| `Aggregator.AddLineStats` | server.js:81-111 | the imperative statistics step adds exactly the specified additions and deletions |
| `Aggregator.VisitRepository` | server.js:55-115 | one loop iteration adds exactly the repository's specified contribution |
| `Aggregator.Aggregate` | server.js:46-116 | the counters start at 0 and end equal to the left fold of the per-repository contributions over the listing |
| `ErrorClassification.RateLimitCheckedFirst` | server.js:306-312 | a message containing both "403" and "404" gets the rate-limit lines, because that test comes first |
| `ErrorClassification.UnrecognisedMessage` | server.js:303-312 | a message containing neither substring gets the default lines |
| `ErrorClassification.StatusMessageDigits` | server.js:24 | the text `GitHub API error: ` holds no digit, so a code occurs in the message exactly when it occurs in the status |
| `ErrorClassification.ClassifyHttpStatus` | server.js:303-312 | for a three-digit status: the rate-limit lines exactly for 403, the user-not-found lines exactly for 404, the default lines otherwise |
| `StatsEndpoint.UsernameDefault` | server.js:11 | an absent `username` means `4n4k1n`; a given one (even empty) is used as it is |
| `StatsEndpoint.HandleStats` | server.js:10-335 | the handler's step-by-step code sends exactly the response that `Respond` specifies |
| `StatsEndpoint.RateLimitedProfile` | server.js:306-308 | a 403 profile response gives the "Rate limit exceeded" / "Add GITHUB_TOKEN or try again later" badge |
| `StatsEndpoint.UnknownUserProfile` | server.js:309-311 | a 404 profile response gives the "User not found" / "Check the username" badge |
| `StatsEndpoint.OtherProfileStatus` | server.js:303-312 | any other HTTP status gives the "Error loading stats" / "Check GitHub token or username" badge |
| `StatsEndpoint.NoRepositories` | server.js:38-52 | an empty listing, or a listing value without a numeric `length`, still gives the stats badge, with counters (0, 0, 0) |
| `StatsEndpoint.MissingProfileFields` | server.js:41-43 | missing `public_repos`, `followers` and `following` default to 0 |
| `StatsEndpoint.ListingFailureIsFatal` | server.js:30-38 | a listing that cannot be fetched or parsed gives the error badge for its message |
| `StatsEndpoint.ListingOrderIrrelevant` | server.js:52-116 | reordering the listing does not change the response |

## Left out

- Express setup, routing, CORS, the `/health` and `/` endpoints, `app.listen`, and reading the port and token from the environment: framework and configuration plumbing.
- The `fetch` calls, their request headers and URLs, and the `await`s: network I/O. Their outcomes are the inputs in `Upstream`. Usernames and repository names are not escaped into URLs.
- SVG markup, `toLocaleString` number formatting, the cache and content-type headers, and the HTTP status 500 of the error badge: presentation only. `Response` records which badge is sent, with the error lines or the computed values.
- `console.warn` and `console.error`: logging only.
- JavaScript number semantics, with counts and week fields modelled as naturals. Not modelled: `parseInt` losing precision or giving `Infinity` for very long digit runs; `+=` concatenating strings when a week field is a string.
- A commits body, read when there is no link header, that parses but is not an array: not modelled. JSON `null` makes `commits.length` throw (server.js:76), which has the same effect as `CommitsMalformed`. A JSON string adds its own length. A number, or an object without a numeric `length`, adds `undefined` and turns `totalCommits` into `NaN`.
- `totalRepos`, `followers`, `following`, `totalAdditions` and `totalDeletions` are computed but never displayed: the success SVG interpolates only `username` and `totalCommits` (server.js:192, 197). `Card` holds all of them, so the model says nothing about what is rendered.
- A listing value that is not an array but has a numeric `length` (a JSON string, for example): not modelled. `Listing` covers arrays, values without a `length`, and failures.
- A `null` repository entry: not modelled. `repo.name` throws inside the per-repository `try` (server.js:57). The `catch` reads `repo.name` again in its `console.warn` (server.js:114), so a second `TypeError` escapes the loop. The handler's outer `catch` then sends the default error badge, since that message holds neither "403" nor "404". `Listing` has no null element, so the model does not capture this way of failing the whole request.
- A truthy `weeks` field that is not an array: not a separate case. Its `forEach` throws before adding anything, which has the same effect as `NoWeeks`.
- A contributor entry that is a number or string rather than an object or `null`: not modelled.
- A profile body that parses to `null`: not modelled. Reading its fields would throw.
- The unused `contributedRepos` variable and the commented-out estimate block (server.js:118-127): dead code.
