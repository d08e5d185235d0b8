/**
 * The `GET /api/stats` handler with its I/O replaced by inputs: the
 * `username` query parameter, the profile answer and the repository
 * listing. `Respond` specifies what it sends back; `HandleStats` is the
 * handler's own sequence of steps, proved to send exactly that.
 */
module StatsEndpoint {
  import opened Options
  import opened Upstream
  import opened Contributions
  import opened Aggregator
  import opened ErrorClassification

  /** The value the handler's destructuring default gives an absent `username`. */
  const DefaultUsername: string := "4n4k1n"

  /** `const { username = '4n4k1n' } = req.query`: only an absent parameter takes the default. */
  function RequestedUsername(query: Option<string>): (u: string)
    ensures query.None? ==> u == "4n4k1n"
    ensures query.Some? ==> u == query.value
  {
    query.GetOr(DefaultUsername)
  }

  /** An absent parameter means the default user; a given one, even empty, is used as it is. */
  lemma UsernameDefault(name: string)
    ensures RequestedUsername(None) == "4n4k1n"
    ensures RequestedUsername(Some(name)) == name
  {
  }

  /**
   * The values the handler has computed when it builds the success badge.
   * The SVG renders only `username` and `totals.commits`; the profile
   * counts and the line counters are computed but not displayed.
   */
  datatype Card = Card(username: string, totalRepos: nat, followers: nat, following: nat, totals: Totals)

  /** The SVG sent back: the stats badge, or (with status 500) the error badge with its two lines. */
  datatype Response = Badge(card: Card) | ErrorBadge(display: ErrorDisplay, username: string)

  /** The card built from a decoded profile and the counters; missing profile fields default to 0. */
  function CardFor(username: string, user: UserData, totals: Totals): (c: Card)
    ensures c.username == username && c.totals == totals
    ensures c.totalRepos == (if user.publicRepos.Some? then user.publicRepos.value else 0)
    ensures c.followers == (if user.followers.Some? then user.followers.value else 0)
    ensures c.following == (if user.following.Some? then user.following.value else 0)
  {
    Card(username, OrZero(user.publicRepos), OrZero(user.followers), OrZero(user.following), totals)
  }

  /** The response for the given inputs. */
  function Respond(query: Option<string>, profile: ProfileResponse, listing: Listing): (r: Response)
    ensures r.Badge? <==> profile.ProfileOk? && !listing.ListingFailed?
    ensures r.Badge? ==> r.card.username == RequestedUsername(query)
    ensures r.ErrorBadge? ==> r.username == RequestedUsername(query)
    ensures r.Badge? && listing.Repositories? ==> r.card.totals == Accumulated(RequestedUsername(query), listing.repos)
    ensures r.Badge? && listing.NoLength? ==> r.card.totals == Zero
    ensures profile.ProfileNotOk? ==> r.display == Classify(StatusMessage(profile.status))
  {
    var username := RequestedUsername(query);
    match profile
    case ProfileNotOk(status) => ErrorBadge(Classify(StatusMessage(status)), username)
    case ProfileFailed(message) => ErrorBadge(Classify(message), username)
    case ProfileOk(user) =>
      match listing
      case ListingFailed(message) => ErrorBadge(Classify(message), username)
      case NoLength => Badge(CardFor(username, user, Zero))
      case Repositories(repos) => Badge(CardFor(username, user, Accumulated(username, repos)))
  }

  /**
   * The handler: fetch the profile and throw on a status that is not ok,
   * fetch the listing, run the loop, and on any exception caught by the
   * outer `catch` classify its message.
   */
  method HandleStats(query: Option<string>, profile: ProfileResponse, listing: Listing)
    returns (response: Response)
    ensures response == Respond(query, profile, listing)
  {
    var username := RequestedUsername(query);
    var caught: Option<string> := None;
    var card := Card(username, 0, 0, 0, Zero);
    match profile {
      case ProfileNotOk(status) =>
        caught := Some(StatusMessage(status));
      case ProfileFailed(message) =>
        caught := Some(message);
      case ProfileOk(user) =>
        match listing {
          case ListingFailed(message) =>
            caught := Some(message);
          case NoLength =>
            // `i < repos.length` is false at once when `length` is undefined
            var totals := Aggregate(username, []);
            card := CardFor(username, user, totals);
          case Repositories(repos) =>
            var totals := Aggregate(username, repos);
            card := CardFor(username, user, totals);
        }
    }
    if caught.Some? {
      response := ErrorBadge(Classify(caught.value), username);
    } else {
      response := Badge(card);
    }
  }

  // ----- properties of the response

  /** A 403 from the profile request gives the rate-limit badge. */
  lemma RateLimitedProfile(query: Option<string>, listing: Listing)
    ensures Respond(query, ProfileNotOk(403), listing) == ErrorBadge(RateLimited, RequestedUsername(query))
  {
    ClassifyHttpStatus(403);
  }

  /** A 404 from the profile request gives the user-not-found badge. */
  lemma UnknownUserProfile(query: Option<string>, listing: Listing)
    ensures Respond(query, ProfileNotOk(404), listing) == ErrorBadge(UserNotFound, RequestedUsername(query))
  {
    ClassifyHttpStatus(404);
  }

  /** Any other HTTP status from the profile request gives the default error badge. */
  lemma OtherProfileStatus(query: Option<string>, status: nat, listing: Listing)
    requires 100 <= status < 1000 && status != 403 && status != 404
    ensures Respond(query, ProfileNotOk(status), listing) == ErrorBadge(LoadFailed, RequestedUsername(query))
  {
    ClassifyHttpStatus(status);
  }

  /**
   * No repositories, or a listing without a numeric `length` (an error
   * object), still gives the stats badge, with all three counters at 0.
   */
  lemma NoRepositories(query: Option<string>, user: UserData, listing: Listing)
    requires listing == NoLength || listing == Repositories([])
    ensures Respond(query, ProfileOk(user), listing).Badge?
    ensures Respond(query, ProfileOk(user), listing).card.totals == Totals(0, 0, 0)
  {
  }

  /** Missing `public_repos`, `followers` and `following` default to 0. */
  lemma MissingProfileFields(query: Option<string>, listing: Listing)
    requires !listing.ListingFailed?
    ensures var r := Respond(query, ProfileOk(UserData(None, None, None)), listing);
            r.Badge? && r.card.totalRepos == 0 && r.card.followers == 0 && r.card.following == 0
  {
  }

  /** A listing that cannot be fetched or parsed fails the request; its message is classified. */
  lemma ListingFailureIsFatal(query: Option<string>, user: UserData, message: string)
    ensures Respond(query, ProfileOk(user), ListingFailed(message))
            == ErrorBadge(Classify(message), RequestedUsername(query))
  {
  }

  /** Reordering the listing does not change the response. */
  lemma ListingOrderIrrelevant(query: Option<string>, profile: ProfileResponse, a: seq<RepoResponses>, b: seq<RepoResponses>)
    requires multiset(a) == multiset(b)
    ensures Respond(query, profile, Repositories(a)) == Respond(query, profile, Repositories(b))
  {
    AccumulatedPermutation(RequestedUsername(query), a, b);
  }
}
