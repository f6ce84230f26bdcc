/**
 * The service's entities (users, teams and their members, pull requests)
 * and the error outcomes its managers and stores return.
 */
module Domain {

  /** An instant as the store records it; the model never inspects it. */
  type Time = int

  datatype Option<T> = None | Some(value: T)

  /** A pull request's status is free text; the two values the service writes are Open and Merged. */
  type PullRequestStatus = string

  const Open: PullRequestStatus := "open"
  const Merged: PullRequestStatus := "merged"

  datatype User = User(userId: string, username: string, teamName: string, isActive: bool)

  datatype TeamMember = TeamMember(userId: string, username: string, isActive: bool)

  datatype Team = Team(teamName: string, members: seq<TeamMember>)

  /**
   * A pull request row. `assignedReviewers` is the encoded reviewer list,
   * "[" + ids joined by ", " + "]"; the timestamps are absent until set.
   */
  datatype PullRequest = PullRequest(
    id: string,
    name: string,
    authorId: string,
    status: PullRequestStatus,
    assignedReviewers: string,
    createdAt: Option<Time>,
    mergedAt: Option<Time>)

  /** The errors the managers and the in-memory stores raise. */
  datatype Error =
    | NotFound            // the stores' errNotFound
    | PRIdExists          // Create on an id that is already stored
    | NoPossibleAssigners // no active team mate other than the author
    | PRAlreadyMerged     // reassignment of a merged pull request
    | TeamNotFound
    | UserNotFound

  /** The text each error carries. */
  function Message(e: Error): string {
    match e
    case NotFound => "not found"
    case PRIdExists => "PR id already exists"
    case NoPossibleAssigners => "no possible assigners"
    case PRAlreadyMerged => "pull request is already merged"
    case TeamNotFound => "team not found"
    case UserNotFound => "user not found"
  }

  /** A Go `(value, error)` pair: Err stands for the zero value together with a non-nil error. */
  datatype Result<T> = Ok(value: T) | Err(error: Error)
}
