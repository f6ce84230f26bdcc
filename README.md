# pr-manager: a Dafny model of the reviewer service's domain layer

pr-manager assigns reviewers to pull requests. A pull request gets up to two
reviewers, drawn at random from the author's active team mates. One reviewer
can be replaced by a team mate of the reviewer being replaced. When a team is
deleted, its members are taken off every reviewer list that names them. A
statistics report counts users, teams and pull requests.

This project models that domain layer:

- **The in-memory stores** (`Storage`). These are the map-backed
  implementations of the user, team and pull-request storage ports that the
  managers are written against. Each is a class holding one map. The write
  operations reassign that map. Each store keeps every row under its own id
  or name.
- **The reviewer list encoding** (`ReviewerList`, over `GoStrings`). A
  pull request stores its reviewers as one string, `"[" + ids joined by ", " + "]"`.
  The module holds the encoder, the tokenizer and `parseReviewers`.
  `GoStrings` models the Go string functions these rely on: `strings.Trim`
  with a cut set, `strings.TrimSpace`, `strings.Split`, `strings.Join`,
  `strings.Contains` and `strings.ToUpper`.
- **The reviewer assignment engine** (`PullRequests`). It covers creating,
  merging and reassigning a pull request, and the reviewer query.
  `rand.IntN` becomes a free choice (`:|`), so every property holds whichever
  ids are drawn.
- **Team management** (`Teams`). It covers adding, getting and deleting
  teams, including the cascade that rewrites every reviewer list before the
  team is removed.
- **User management** (`Users`). It covers looking users up and switching
  one user's active flag.
- **The integer part of the statistics report** (`Stats`). GetStats takes the
  three fetched lists as sequences and calls the five calculators in the
  source's order.
- **The HTTP layer's conversions** (`Dto`). These convert between requests,
  responses and domain values.

Go map iteration order is unspecified. The model leaves it open wherever the
source iterates a map: listing a store, the reviewer query, and the
statistics loop over the per-user map. Properties are proved for every order.

Some behaviour is kept exactly as the code writes it:

- The statistics count a pull request as reviewed by, or waiting for, a user
  when the user id occurs anywhere in the encoded reviewer list as a
  substring (`Stats.ReviewedBy`).
- The least number of active members in a team is never updated after it is
  set to the first team's size (`Stats.LeastActiveIsFirstSize`).
- Reassignment keeps the other reviewer's text untrimmed. For
  `"[user2, user3]"` with `user2` replaced, the kept reviewer is `" user3"`.
  So `user3` is not excluded from the replacement pool
  (`PullRequests.UntrimmedKeptReviewer`), and reassignment does not
  guarantee distinct reviewers.

Some checks one might expect are not made by the code, and the model follows
the code:

- Reassignment (services/pr-manager/internal/domain/manager/pr.go:60-101) has
  no "not assigned" failure when the old reviewer is not on the list.
- Reassignment has no "no candidate" failure when nobody can replace the old
  reviewer; the list then keeps only the other reviewer.
- AddTeam (services/pr-manager/internal/domain/manager/team.go:21-27) has no
  "user in another team" check and no "team exists" check. The insert
  replaces any team with that name.
- Errors are the ad-hoc messages of the code, modelled by the `Error`
  datatype and `Message`.

The pull-request manager calls `Select` on a user, team or pull-request store
that returns a single row. Only the user store promises an error when no row
matches; the team and pull-request stores return a zero row with no error.
The managers are tested against in-memory stores whose `Select` returns a
list. The model uses those list-returning stores and turns an empty selection
into an error:

- `UserNotFound` for a user, as the user store does.
- `TeamNotFound` for a team, a choice of this model (see "Left out").
- `NotFound` for a pull request, a choice of this model (see "Left out").

## Model

| member | source | states |
|---|---|---|
| `Storage.UserStore.Select` | services/pr-manager/internal/domain/manager/mocks_test.go:25-40 | without an id every stored user, each once; with an id exactly the stored user or nothing; every returned row is the stored row under its id |
| `Storage.UserStore.Update` | services/pr-manager/internal/domain/manager/mocks_test.go:42-48 | an unknown id fails with NotFound and changes nothing; otherwise exactly that entry is replaced |
| `Storage.UserStore.Insert` | services/pr-manager/internal/domain/manager/mocks_test.go:50-53 | upsert: the user is stored under its id whatever was there |
| `Storage.TeamStore.Select` | services/pr-manager/internal/domain/manager/mocks_test.go:66-81 | without a name every stored team, each once; with a name exactly the stored team or nothing |
| `Storage.TeamStore.Insert` | services/pr-manager/internal/domain/manager/mocks_test.go:83-86 | upsert: the team is stored under its name whatever was there |
| `Storage.TeamStore.Delete` | services/pr-manager/internal/domain/manager/mocks_test.go:88-94 | an unknown name fails with NotFound; the map afterwards is the old map without that key, and nothing else changes |
| `Storage.PullRequestStore.Select` | services/pr-manager/internal/domain/manager/mocks_test.go:107-122 | without an id every stored pull request, each once; with an id exactly the stored one or nothing |
| `Storage.PullRequestStore.Create` | services/pr-manager/internal/domain/manager/mocks_test.go:124-131 | an id already stored fails with PRIdExists and leaves the map unchanged; otherwise exactly that entry is added |
| `Storage.PullRequestStore.Merge` | services/pr-manager/internal/domain/manager/mocks_test.go:133-147 | an unknown id fails with NotFound; otherwise only that entry changes, to MergedRow of the stored row |
| `Storage.MergedRow` | services/pr-manager/internal/domain/manager/mocks_test.go:138-145 | the merged row has status merged and every field but the merge time unchanged; an already merged row is returned as it is, an open one gets the merge time |
| `Storage.MergeIdempotent` | services/pr-manager/internal/domain/manager/mocks_test.go:138-146 | merging a second time, at any time, changes nothing |
| `Storage.PullRequestStore.Reassign` | services/pr-manager/internal/domain/manager/mocks_test.go:149-155 | an unknown id fails with NotFound and changes nothing; otherwise exactly that entry is replaced |
| `Storage.PullRequestStore.SelectUserPullRequestsReviews` | services/pr-manager/internal/domain/manager/mocks_test.go:157-174 | exactly the stored pull requests whose list has a part that, white-space trimmed, is the user id, each pull request once |
| `Storage.IsListedReviewer` | services/pr-manager/internal/domain/manager/mocks_test.go:162-171 | true exactly when the user id is one of the list's trimmed parts (`Tokens`) |
| `Storage.HasTrimmedPart` | services/pr-manager/internal/domain/manager/mocks_test.go:165-170 | the early-exit search finds a part exactly when some trimmed part equals the id |
| `Storage.Rows` | services/pr-manager/internal/domain/manager/mocks_test.go:28-32 | the map iteration yields each value once: as many rows as keys, every value present, nothing else |
| `ReviewerList.ParseReviewers` | services/pr-manager/internal/domain/manager/team.go:103-117 | every id is non-empty, not white-space padded and comma-free; a string is an id exactly when it is a non-empty trimmed part of the list |
| `ReviewerList.DecodeReviewers` | services/pr-manager/internal/domain/manager/team.go:103-117 | the loop that trims the brackets, splits on ',' and appends each non-empty trimmed part computes ParseReviewers |
| `ReviewerList.NonEmptySnoc` | services/pr-manager/internal/domain/manager/team.go:110-115 | appending one more part keeps the earlier result and adds the part unless it is empty |
| `ReviewerList.NonEmpty` | services/pr-manager/internal/domain/manager/team.go:112-114 | the kept parts are exactly the non-empty ones, no more of them than parts |
| `ReviewerList.TokensShape` | services/pr-manager/internal/domain/manager/team.go:104-111 | every trimmed part of a list is comma-free and either empty or clean |
| `ReviewerList.ParseEncode` | services/pr-manager/internal/domain/manager/team.go:86-117 | decoding `"[" + join(ids, ", ") + "]"` gives the ids back, in order, for ids that are clean and hold no ',', '[' or ']'; the empty list encodes as "[]" and decodes to nothing |
| `PullRequests.ActiveUserIds` | services/pr-manager/internal/domain/manager/pr.go:118-129 | an id is listed exactly when some active member has it; never more ids than members |
| `PullRequests.ActiveUserIdsConcat` | services/pr-manager/internal/domain/manager/pr.go:118-129 | the filter keeps member order: it distributes over concatenation |
| `PullRequests.FilterReviewers` | services/pr-manager/internal/domain/manager/pr.go:131-139 | an id is kept exactly when it is an input and not restricted; never longer than the input |
| `PullRequests.FilterReviewersConcat` | services/pr-manager/internal/domain/manager/pr.go:131-139 | the filter keeps the inputs' order: it distributes over concatenation |
| `PullRequests.FilterReviewersSnoc` | services/pr-manager/internal/domain/manager/pr.go:133-137 | one more input adds that input at the end unless it is restricted |
| `PullRequests.RandomUserId` | services/pr-manager/internal/domain/manager/pr.go:141-143 | requires a non-empty list, as indexing it does, and returns one of its elements |
| `PullRequests.DrawReviewers` | services/pr-manager/internal/domain/manager/pr.go:33-40 | the draw is min(2, number of distinct pool ids) pairwise distinct ids, all from the pool |
| `PullRequests.EligibleReviewers` | services/pr-manager/internal/domain/manager/pr.go:29 | the creation pool is exactly the active members of the author's team other than the author |
| `PullRequests.PullRequestManager.GetReviewerTeamMembers` | services/pr-manager/internal/domain/manager/pr.go:103-116 | the members of the user's team; UserNotFound for an unknown user, TeamNotFound for an unknown team |
| `PullRequests.PullRequestManager.CreatePullRequest` | services/pr-manager/internal/domain/manager/pr.go:24-49 | a lookup failure, an empty pool (NoPossibleAssigners) or a taken id fails and writes nothing; otherwise the stored and returned row is the request with a draw from the pool, encoded in draw order, and no other entry changes |
| `PullRequests.PullRequestManager.MergePullRequest` | services/pr-manager/internal/domain/manager/pr.go:51-58 | an unknown id fails with NotFound and writes nothing; otherwise returns and stores the merged row, idempotently |
| `PullRequests.Stripped` | services/pr-manager/internal/domain/manager/pr.go:78 | each part is compared after trimming blanks only |
| `PullRequests.FirstOtherIndex` | services/pr-manager/internal/domain/manager/pr.go:77-82 | the first position whose id is not the old reviewer; every earlier id is the old reviewer |
| `PullRequests.FindAnotherReviewer` | services/pr-manager/internal/domain/manager/pr.go:75-82 | the loop returns the first raw part whose blank-trimmed text differs from the old reviewer, untrimmed, or "" |
| `PullRequests.ReplacementPool` | services/pr-manager/internal/domain/manager/pr.go:84 | exactly the active members of the old reviewer's team other than the old reviewer, the author and the kept reviewer |
| `PullRequests.ReplacementReviewers` | services/pr-manager/internal/domain/manager/pr.go:75-93 | the new list is the kept reviewer (left out when "") followed by exactly one pool id when the pool is not empty, by nothing otherwise |
| `PullRequests.ReassignmentShape` | services/pr-manager/internal/domain/manager/pr.go:84-92 | a reassigned list has at most two reviewers, and a drawn replacement is an active team mate that is neither the old reviewer nor the author |
| `PullRequests.UntrimmedKeptReviewer` | services/pr-manager/internal/domain/manager/pr.go:75-84 | for "[user2, user3]" with user2 replaced, the kept reviewer is " user3", and user3 stays in the replacement pool |
| `PullRequests.PullRequestManager.ReassignPullRequest` | services/pr-manager/internal/domain/manager/pr.go:60-101 | an unknown id (NotFound), a merged pull request (PRAlreadyMerged) or an unknown old reviewer or team fails and writes nothing; otherwise exactly that row is rewritten with a reassignment of its list and returned |
| `PullRequests.PullRequestManager.UserPullRequestsReviews` | services/pr-manager/internal/domain/manager/pr.go:145-147 | exactly the stored pull requests listing the user as a trimmed part, each pull request once |
| `Teams.MemberIds` | services/pr-manager/internal/domain/manager/team.go:72-77 | the members' ids in member order |
| `Teams.AfterTeamRemoval` | services/pr-manager/internal/domain/manager/team.go:55-93 | the same pull request ids; those naming a member are stripped, the others untouched |
| `Teams.TeamRemovalReviewers` | services/pr-manager/internal/domain/manager/team.go:68-89 | after a deletion, every decoded list is the old one without the team's members, in the old order, and every pull request, open or merged, keeps all other fields |
| `Teams.FilterReviewersNoop` | services/pr-manager/internal/domain/manager/team.go:70-81 | a list with no member in it is left as it is |
| `Teams.TeamManager.AddTeam` | services/pr-manager/internal/domain/manager/team.go:21-27 | returns the team unchanged and stores it under its name, replacing any team already there |
| `Teams.TeamManager.GetTeam` | services/pr-manager/internal/domain/manager/team.go:29-38 | the named team or TeamNotFound; without a name some stored team, TeamNotFound only when there is none |
| `Teams.TeamManager.GetTeams` | services/pr-manager/internal/domain/manager/team.go:40-42 | the store's selection passed through |
| `Teams.TeamManager.DeleteTeam` | services/pr-manager/internal/domain/manager/team.go:44-101 | an unknown name fails with TeamNotFound and changes no team and no pull request; otherwise the pull requests become AfterTeamRemoval of the old ones and the team is removed |
| `Teams.TeamManager.StripTeam` | services/pr-manager/internal/domain/manager/team.go:55-94 | the member loop leaves the pull requests as AfterTeamRemoval of the old ones |
| `Teams.TeamManager.StripMemberReviews` | services/pr-manager/internal/domain/manager/team.go:56-93 | after member i's round, the processed ids are exactly those naming one of the first i+1 members, and only they are rewritten |
| `Teams.TeamManager.StripRows` | services/pr-manager/internal/domain/manager/team.go:62-93 | each selected pull request not yet processed is rewritten once and marked processed |
| `Teams.TeamManager.StripRow` | services/pr-manager/internal/domain/manager/team.go:63-66 | a processed id is skipped; any other is rewritten and marked |
| `Teams.TeamManager.StripPullRequest` | services/pr-manager/internal/domain/manager/team.go:68-92 | only that pull request changes, to its list without the members, re-encoded ("[]" when empty) |
| `Teams.RemoveTeamMembers` | services/pr-manager/internal/domain/manager/team.go:69-81 | the loop keeps exactly the reviewers that are not members, in order |
| `Teams.IsTeamMember` | services/pr-manager/internal/domain/manager/team.go:71-77 | true exactly when the reviewer is a member's id |
| `Users.StatusUpdate` | services/pr-manager/internal/domain/manager/user.go:18-32 | fails with UserNotFound exactly when the id is unknown; otherwise the stored user with only the active flag taken from the argument |
| `Users.StatusUpdateIdempotent` | services/pr-manager/internal/domain/manager/user.go:18-32 | repeating an update returns the same user and changes nothing more |
| `Users.StatusUpdateKeepsTeams` | services/pr-manager/internal/domain/manager/user.go:24 | an update keeps every user's name and team and leaves every other user unchanged |
| `Users.UserManager.UpdateUserStatus` | services/pr-manager/internal/domain/manager/user.go:18-32 | returns StatusUpdate of the stored users and leaves the store holding the returned user; an unknown user changes nothing |
| `Users.UserManager.SelectUser` | services/pr-manager/internal/domain/manager/user.go:34-43 | the stored user with the id, or UserNotFound; without an id some stored user, UserNotFound only when there is none |
| `Users.UserManager.SelectUsers` | services/pr-manager/internal/domain/manager/user.go:45-47 | the store's selection passed through |
| `Stats.CalculateUserStats` | services/pr-manager/internal/application/stats.go:72-85 | total is the number of users, active counts the active ones, active + inactive == total, and nothing else in the report changes |
| `Stats.CountPositions` | services/pr-manager/internal/application/stats.go:76-82 | the counter equals the number of positions holding an element that passes |
| `Stats.GetFilteredPRsForUser` | services/pr-manager/internal/application/stats.go:125-133 | the loop computes FilterPRs |
| `Stats.FilterPRs` | services/pr-manager/internal/application/stats.go:125-133 | a pull request is kept exactly when it passes the filter; never longer than the input |
| `Stats.FilterPRsConcat` | services/pr-manager/internal/application/stats.go:125-133 | the filter keeps order: it distributes over concatenation |
| `Stats.MergedOpenBound` | services/pr-manager/internal/application/stats.go:91-102 | per user, merged + open <= created, with equality when every status is open or merged |
| `Stats.UserStatsMapKeys` | services/pr-manager/internal/application/stats.go:89-123 | the per-user map has exactly one key per distinct user id |
| `Stats.UserStatsMapEntries` | services/pr-manager/internal/application/stats.go:90-121 | each user's entry holds that user's counts, the last user with an id deciding it |
| `Stats.CalculateIndividualUserStats` | services/pr-manager/internal/application/stats.go:87-124 | the report's per-user map becomes UserStatsMap, nothing else changes |
| `Stats.CountMembers` | services/pr-manager/internal/application/stats.go:154-162 | active counts the active members, active + inactive is the team size |
| `Stats.MaxOverTeams` | services/pr-manager/internal/application/stats.go:147-172 | a running maximum over the teams bounds every team from above and is some team's value when it starts low enough |
| `Stats.MinOverTeams` | services/pr-manager/internal/application/stats.go:147-172 | a running minimum over the teams bounds every team from below and is some team's value when it starts at the first |
| `Stats.RollTeam` | services/pr-manager/internal/application/stats.go:148-171 | one team raises the maxima and lowers the least members and least inactive members |
| `Stats.CalculateTeamStats` | services/pr-manager/internal/application/stats.go:135-173 | the team part of the report becomes TeamStatsOf: total is the number of teams, and the running extremes are as the loop writes them |
| `Stats.TeamStatsExtremes` | services/pr-manager/internal/application/stats.go:136-172 | for non-empty teams: most and least members are the largest and smallest sizes, most active and most inactive are maxima, least inactive is the minimum, each some team's value, and least active is the first team's size |
| `Stats.LeastActiveIsFirstSize` | services/pr-manager/internal/application/stats.go:144 | one team of two inactive members reports 2 as its least number of active members |
| `Stats.TeamEntryTotal` | services/pr-manager/internal/application/stats.go:186-205 | a team's total members is its size and splits into active and inactive members |
| `Stats.TeamMergedOpenBound` | services/pr-manager/internal/application/stats.go:192-195 | when every user entry has merged + open <= created, so does every team entry |
| `Stats.TeamEntryOf` | services/pr-manager/internal/application/stats.go:178-212 | the member loop yields the counts and the sums of the members' entries, a missing member counting zero |
| `Stats.CalculateIndividualTeamStats` | services/pr-manager/internal/application/stats.go:175-215 | the report's per-team map becomes TeamStatsMap over the per-user map, nothing else changes |
| `Stats.TeamStatsMapKeys` | services/pr-manager/internal/application/stats.go:175-215 | the per-team map has exactly one key per distinct team name |
| `Stats.TeamStatsMapEntries` | services/pr-manager/internal/application/stats.go:176-213 | each team's entry is its member count split into active and inactive plus its members' summed counts, the last team with a name deciding it |
| `Stats.MaxFromUnique` | services/pr-manager/internal/application/stats.go:229-240 | the maxima do not depend on the order the per-user map is walked in |
| `Stats.MinFromUnique` | services/pr-manager/internal/application/stats.go:229-243 | the minima do not depend on the order the per-user map is walked in |
| `Stats.RolledStep` | services/pr-manager/internal/application/stats.go:229-243 | one more entry extends the walked keys by its key |
| `Stats.RollEntry` | services/pr-manager/internal/application/stats.go:230-243 | one entry raises the most created and reviewed counts and lowers the least |
| `Stats.CalculatePullRequestStats` | services/pr-manager/internal/application/stats.go:217-257 | total is the number of pull requests; the extremes are what running maxima and minima reach over every per-user entry, in whatever order the map is walked |
| `Stats.GetStats` | services/pr-manager/internal/application/stats.go:18-37 | the calculators in the source's order from a zeroed report; each part of the report as the calculators specify |
| `Stats.PullRequestExtremes` | services/pr-manager/internal/application/stats.go:222-243 | with at least one user, the reported most and least created and reviewed counts are the largest and smallest over the per-user entries, each some user's count |
| `Dto.ShortOf` | services/pr-manager/api/handlers/dto.go:107-116 | id, name and author copied; the status upper-cased character by character |
| `Dto.DomainPRToResponse` | services/pr-manager/api/handlers/dto.go:69-105 | the short form, reviewer ids that are clean and comma-free and are exactly the non-empty parts of the list, and both timestamps as stored |
| `Dto.DomainPRToShortResponse` | services/pr-manager/api/handlers/dto.go:107-117 | the same short form as the full response |
| `Dto.RequestToDomainTeam` | services/pr-manager/api/handlers/dto.go:119-124 | name and members copied unchanged |
| `Dto.RequestToDomainPR` | services/pr-manager/api/handlers/dto.go:126-135 | id, name and author copied, status open, every other field zero |
| `Dto.RequestToDomainPRForMerge` | services/pr-manager/api/handlers/dto.go:137-143 | only the id set, every other field zero, so the status is neither open nor merged |
| `Dto.ResponseDecodesEncoded` | services/pr-manager/api/handlers/dto.go:70-80 | a list encoded from well-formed ids decodes to those ids, in order |
| `Dto.ResponseNoReviewers` | services/pr-manager/api/handlers/dto.go:70-80 | "" and "[]" decode to no reviewers |
| `Dto.ResponseTwoReviewers` | services/pr-manager/api/handlers/pullrequest_test.go:163-188 | "[user2, user3]" decodes to user2 and user3 |
| `Dto.StatusShown` | services/pr-manager/api/handlers/dto.go:82 | "open" shows as "OPEN" and "merged" as "MERGED" |
| `Dto.CreatedShown` | services/pr-manager/api/handlers/pullrequest_test.go:140-161 | a pull request built from a creation request shows open, with the request's fields, no reviewers and no timestamps |

## Left out

- The HTTP handlers, routing, JSON encoding and status-code mapping are not modelled. Only the value conversions of the handlers' DTO file are.
- The PostgreSQL stores and their SQL are not modelled. Their semantics differ from the in-memory stores: the reviewer query is a substring `LIKE`, a duplicate create is silently ignored, and the merge guard is in SQL. The managers are modelled against the in-memory stores.
- Transactions and rollback are not modelled. A failing step leaves earlier writes in place, as the manager code does without its enclosing transaction. Connection and constraint failures of a database cannot occur in the in-memory stores, so they are not modelled.
- The three goroutines, the mutex and the WaitGroup of GetStats are not modelled. The three fetched lists are parameters, and a failed fetch is an empty list.
- All floating-point fields of the report are not modelled: average merge hours, average members and pull requests per team, user and reviewer. So are the reviewer and creator counters that only feed those averages.
- `time.Now` is not modelled. The merge time is a parameter of the store's Merge, and timestamps are opaque integers.
- Go's `int64` counters are unbounded integers. Overflow is not modelled because the counts are bounded by list lengths.
- Dto.ShortOf: upper-cases the ASCII letters only. `strings.ToUpper` also maps non-ASCII letters, which the two statuses the service writes do not contain.
- Dto.DomainPRToResponse: does not distinguish Go's nil slice from an empty slice of reviewers, so the JSON `null` versus `[]` difference is not modelled.
- Stats.CalculatePullRequestStats: requires a first user whenever the report counts users, because the source indexes `users[0]` then. GetStats always meets this.
- Randomness is not modelled as a uniform distribution. Every draw is a free choice, and the properties hold for all choices.
- Concurrent requests and their races are not modelled.
- PullRequests.PullRequestManager.GetReviewerTeamMembers, PullRequests.PullRequestManager.ReassignPullRequest and PullRequests.PullRequestManager.MergePullRequest: a missing team fails with TeamNotFound and a missing pull request with NotFound. That is the model's choice. The code's team and pull-request stores return a zero row with no error, so the code would go on with an empty team (ending in NoPossibleAssigners on creation, or in a reassignment without a replacement) or return a zero pull request. The zero-row path is not modelled.
