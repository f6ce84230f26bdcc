/**
 * The reviewer assignment engine: creating a pull request with up to two
 * reviewers drawn at random from the author's active team mates, merging,
 * and replacing one reviewer by a team mate of the reviewer being replaced.
 * The random draws are nondeterministic choices, so every property below
 * holds whichever ids are drawn.
 */
module PullRequests {
  import opened Domain
  import opened GoStrings
  import opened ReviewerList
  import opened Storage

  /** The most reviewers a pull request gets on creation. */
  const MaxAssigners := 2

  /** getActiveUserIDsFromTeam: the ids of the active members, in member order. */
  function ActiveUserIds(members: seq<TeamMember>): (ids: seq<string>)
    ensures |ids| <= |members|
    ensures forall id :: id in ids <==> exists m :: m in members && m.isActive && m.userId == id
  {
    if members == [] then []
    else
      assert forall m :: m in members <==> m == members[0] || m in members[1..];
      (if members[0].isActive then [members[0].userId] else []) + ActiveUserIds(members[1..])
  }

  /** Filtering the active members of two member lists one after the other is filtering their concatenation. */
  lemma {:induction false} ActiveUserIdsConcat(a: seq<TeamMember>, b: seq<TeamMember>)
    ensures ActiveUserIds(a + b) == ActiveUserIds(a) + ActiveUserIds(b)
  {
    if a == [] {
      assert a + b == b;
    } else {
      assert (a + b)[0] == a[0] && (a + b)[1..] == a[1..] + b;
      ActiveUserIdsConcat(a[1..], b);
    }
  }

  /** filterReviewers: the ids not in `restricted`, in their original order. */
  function FilterReviewers(userIds: seq<string>, restricted: seq<string>): (r: seq<string>)
    ensures |r| <= |userIds|
    ensures forall x :: x in r <==> x in userIds && x !in restricted
  {
    if userIds == [] then []
    else (if userIds[0] in restricted then [] else [userIds[0]]) + FilterReviewers(userIds[1..], restricted)
  }

  /** filterReviewers keeps order: filtering a concatenation is concatenating the filtered halves. */
  lemma {:induction false} FilterReviewersConcat(a: seq<string>, b: seq<string>, restricted: seq<string>)
    ensures FilterReviewers(a + b, restricted) == FilterReviewers(a, restricted) + FilterReviewers(b, restricted)
  {
    if a == [] {
      assert a + b == b;
    } else {
      assert (a + b)[0] == a[0] && (a + b)[1..] == a[1..] + b;
      FilterReviewersConcat(a[1..], b, restricted);
    }
  }

  /** Filtering a list one element longer adds that element unless it is restricted. */
  lemma FilterReviewersSnoc(xs: seq<string>, x: string, restricted: seq<string>)
    ensures FilterReviewers(xs + [x], restricted) == FilterReviewers(xs, restricted) + (if x in restricted then [] else [x])
  {
    FilterReviewersConcat(xs, [x], restricted);
    FilterReviewersSingle(x, restricted);
  }

  lemma FilterReviewersSingle(x: string, restricted: seq<string>)
    ensures FilterReviewers([x], restricted) == if x in restricted then [] else [x]
  {
    var single := [x];
    assert single[0] == x && single[1..] == [];
  }

  /** getRandomUserID: one element of a non-empty list, chosen freely. */
  method RandomUserId(userIds: seq<string>) returns (id: string)
    requires |userIds| > 0
    ensures id in userIds
  {
    var i :| 0 <= i < |userIds|;
    id := userIds[i];
  }

  /** The distinct ids of a list. */
  function Elems(xs: seq<string>): set<string> {
    set x | x in xs
  }

  function Min(a: int, b: int): int {
    if a <= b then a else b
  }

  /** A draw from `pool`: distinct ids of the pool, as many as MaxAssigners allows and the pool has. */
  ghost predicate IsDraw(pool: seq<string>, drawn: seq<string>) {
    && |drawn| == Min(MaxAssigners, |Elems(pool)|)
    && (forall i :: 0 <= i < |drawn| ==> drawn[i] in pool)
    && (forall i, j :: 0 <= i < j < |drawn| ==> drawn[i] != drawn[j])
  }

  /**
   * The drawing loop of CreatePullRequest: up to MaxAssigners rounds, each
   * taking one random id from what is left and then removing every id drawn
   * so far from the pool.
   */
  method DrawReviewers(pool: seq<string>) returns (assigners: seq<string>)
    ensures IsDraw(pool, assigners)
  {
    var possibleAssigners := pool;
    assigners := [];
    var round := 0;
    while round < MaxAssigners
      invariant 0 <= round <= MaxAssigners && |assigners| == round
      invariant forall x :: x in possibleAssigners <==> x in pool && x !in assigners
      invariant forall i :: 0 <= i < |assigners| ==> assigners[i] in pool
      invariant forall i, j :: 0 <= i < j < |assigners| ==> assigners[i] != assigners[j]
      invariant |Elems(possibleAssigners)| + |assigners| == |Elems(pool)|
    {
      if |possibleAssigners| == 0 {
        break;
      }
      var id := RandomUserId(possibleAssigners);
      ghost var before := Elems(possibleAssigners);
      assigners := assigners + [id];
      possibleAssigners := FilterReviewers(possibleAssigners, assigners);
      assert Elems(possibleAssigners) == before - {id};
      round := round + 1;
    }
    assert |possibleAssigners| == 0 ==> Elems(possibleAssigners) == {};
  }

  /** The creation pool: active members of the author's team other than the author. */
  function EligibleReviewers(members: seq<TeamMember>, authorId: string): (pool: seq<string>)
    ensures forall x :: x in pool <==> x != authorId && exists m :: m in members && m.isActive && m.userId == x
  {
    FilterReviewers(ActiveUserIds(members), [authorId])
  }

  /** getReviewerTeamMembers: the member list of the team of the given user. */
  function ReviewerTeamMembers(users: map<string, User>, teams: map<string, Team>, reviewerId: string): Result<seq<TeamMember>> {
    if reviewerId !in users then Err(UserNotFound)
    else if users[reviewerId].teamName !in teams then Err(TeamNotFound)
    else Ok(teams[users[reviewerId].teamName].members)
  }

  /** The part a reviewer string splits into when only the brackets are trimmed, as reassignment reads it. */
  function RawParts(assignedReviewers: string): seq<string> {
    Split(Trim(assignedReviewers, Brackets), ',')
  }

  /** The cut set of strings.Trim(s, " "). */
  const Blank: set<char> := {' '}

  /** strings.Trim(s, " "). */
  function TrimBlanks(s: string): string {
    Trim(s, Blank)
  }

  /** Each part with blanks trimmed from both ends, as reassignment compares it with the old reviewer. */
  function Stripped(parts: seq<string>): (r: seq<string>)
    ensures |r| == |parts|
    ensures forall i :: 0 <= i < |parts| ==> r[i] == TrimBlanks(parts[i])
  {
    seq(|parts|, i requires 0 <= i < |parts| => TrimBlanks(parts[i]))
  }

  /** The position of the first id that is not `oldReviewerId`; |ids| when there is none. */
  function FirstOtherIndex(ids: seq<string>, oldReviewerId: string): (i: nat)
    ensures i <= |ids|
    ensures forall j :: 0 <= j < i ==> ids[j] == oldReviewerId
    ensures i < |ids| ==> ids[i] != oldReviewerId
  {
    if ids == [] || ids[0] != oldReviewerId then 0
    else 1 + FirstOtherIndex(ids[1..], oldReviewerId)
  }

  /**
   * The reviewer reassignment keeps: the first raw part that, stripped of
   * blanks, is not the reviewer being replaced; "" when every part is. The
   * part is kept as it is, untrimmed.
   */
  function FirstOtherReviewer(parts: seq<string>, oldReviewerId: string): string {
    var i := FirstOtherIndex(Stripped(parts), oldReviewerId);
    if i < |parts| then parts[i] else ""
  }

  /** The loop of ReassignPullRequest that picks the reviewer to keep. */
  method FindAnotherReviewer(oldReviewers: seq<string>, oldReviewerId: string) returns (anotherReviewer: string)
    ensures anotherReviewer == FirstOtherReviewer(oldReviewers, oldReviewerId)
  {
    anotherReviewer := "";
    var i := 0;
    while i < |oldReviewers|
      invariant 0 <= i <= FirstOtherIndex(Stripped(oldReviewers), oldReviewerId)
    {
      if TrimBlanks(oldReviewers[i]) != oldReviewerId {
        anotherReviewer := oldReviewers[i];
        return;
      }
      i := i + 1;
    }
  }

  /** The candidates for a replacement: active members of the old reviewer's team, minus the old reviewer, the author and the kept reviewer. */
  function ReplacementPool(members: seq<TeamMember>, oldReviewerId: string, authorId: string, anotherReviewer: string): (pool: seq<string>)
    ensures forall x :: x in pool <==>
      x != oldReviewerId && x != authorId && x != anotherReviewer &&
      exists m :: m in members && m.isActive && m.userId == x
  {
    FilterReviewers(ActiveUserIds(members), [oldReviewerId, authorId, anotherReviewer])
  }

  /**
   * The reviewer list reassignment may write for `row`: the kept reviewer
   * (left out when empty) followed by one id drawn from the replacement
   * pool, or by nothing when the pool is empty.
   */
  ghost predicate IsReassignment(row: PullRequest, oldReviewerId: string, members: seq<TeamMember>, newReviewers: seq<string>) {
    var another := FirstOtherReviewer(RawParts(row.assignedReviewers), oldReviewerId);
    var kept := if another != "" then [another] else [];
    var pool := ReplacementPool(members, oldReviewerId, row.authorId, another);
    && |kept| <= |newReviewers| && newReviewers[..|kept|] == kept
    && |newReviewers| - |kept| == (if |pool| > 0 then 1 else 0)
    && (forall i :: |kept| <= i < |newReviewers| ==> newReviewers[i] in pool)
  }

  /**
   * The reviewer list ReassignPullRequest writes: the kept reviewer, then a
   * random id from the replacement pool when it is not empty.
   */
  method ReplacementReviewers(pullRequest: PullRequest, oldReviewerId: string, members: seq<TeamMember>)
    returns (newReviewers: seq<string>)
    ensures IsReassignment(pullRequest, oldReviewerId, members, newReviewers)
  {
    var oldReviewers := Split(Trim(pullRequest.assignedReviewers, Brackets), ',');
    var anotherReviewer := FindAnotherReviewer(oldReviewers, oldReviewerId);
    var newPossibleReviewers := FilterReviewers(ActiveUserIds(members), [oldReviewerId, pullRequest.authorId, anotherReviewer]);
    newReviewers := [];
    if anotherReviewer != "" {
      newReviewers := newReviewers + [anotherReviewer];
    }
    if |newPossibleReviewers| > 0 {
      var replacement := RandomUserId(newPossibleReviewers);
      newReviewers := newReviewers + [replacement];
    }
  }

  /**
   * A reassigned list has at most two reviewers, and a drawn replacement is
   * an active member of the old reviewer's team that is neither the old
   * reviewer nor the author.
   */
  lemma ReassignmentShape(row: PullRequest, oldReviewerId: string, members: seq<TeamMember>, newReviewers: seq<string>)
    requires IsReassignment(row, oldReviewerId, members, newReviewers)
    ensures |newReviewers| <= MaxAssigners
    ensures var another := FirstOtherReviewer(RawParts(row.assignedReviewers), oldReviewerId);
      forall i :: (if another != "" then 1 else 0) <= i < |newReviewers| ==>
        newReviewers[i] != oldReviewerId && newReviewers[i] != row.authorId &&
        exists m :: m in members && m.isActive && m.userId == newReviewers[i]
  {
  }

  /**
   * The kept reviewer is not trimmed: in "[user2, user3]" with user2
   * replaced it is " user3", so the filter that is meant to keep user3 out
   * of the pool does not, and user3 can be drawn a second time.
   */
  lemma UntrimmedKeptReviewer()
    ensures RawParts("[user2, user3]") == ["user2", " user3"]
    ensures FirstOtherReviewer(RawParts("[user2, user3]"), "user2") == " user3"
    ensures "user3" in ReplacementPool([TeamMember("user3", "reviewer2", true)], "user2", "user1", " user3")
  {
    ExampleParts();
    ExampleKept();
    ExamplePool();
  }

  /** Step of UntrimmedKeptReviewer: FindAnotherReviewer (general contract above) on the example's parts. */
  lemma ExampleKept()
    ensures FirstOtherReviewer(["user2", " user3"], "user2") == " user3"
  {
    var parts := ["user2", " user3"];
    TrimNoop("user2", Blank);
    BlankTrimmed();
    var stripped := Stripped(parts);
    assert stripped[0] == "user2" && stripped[1] != "user2";
    assert FirstOtherIndex(stripped[1..], "user2") == 0;
  }

  /** Step of UntrimmedKeptReviewer: ReplacementPool's membership contract on the example's team. */
  lemma ExamplePool()
    ensures "user3" in ReplacementPool([TeamMember("user3", "reviewer2", true)], "user2", "user1", " user3")
  {
    var m := TeamMember("user3", "reviewer2", true);
    assert m in [m];
  }

  /** Step of UntrimmedKeptReviewer: the raw parts of the example's list, an instance of SplitJoin. */
  lemma ExampleParts()
    ensures RawParts("[user2, user3]") == ["user2", " user3"]
  {
    var parts := ["user2", " user3"];
    assert TrimLeft("[user2, user3]", Brackets) == "user2, user3]";
    assert Trim("[user2, user3]", Brackets) == "user2, user3";
    assert Join(parts, [',']) == "user2, user3";
    SplitJoin(parts, ',');
  }

  /** Step of ExampleKept: an instance of TrimNoop after one leading blank. */
  lemma BlankTrimmed()
    ensures TrimBlanks(" user3") == "user3"
  {
    assert TrimLeft(" user3", Blank) == "user3";
    TrimNoop("user3", Blank);
  }

  class PullRequestManager {
    const users: UserStore
    const teams: TeamStore
    const pullRequests: PullRequestStore

    ghost predicate Valid()
      reads this, users, teams, pullRequests
    {
      users.Valid() && teams.Valid() && pullRequests.Valid()
    }

    constructor (users: UserStore, teams: TeamStore, pullRequests: PullRequestStore)
      ensures this.users == users && this.teams == teams && this.pullRequests == pullRequests
    {
      this.users := users;
      this.teams := teams;
      this.pullRequests := pullRequests;
    }

    /** getReviewerTeamMembers: look the user up, then that user's team. */
    method GetReviewerTeamMembers(reviewerId: string) returns (r: Result<seq<TeamMember>>)
      requires Valid()
      ensures r == ReviewerTeamMembers(users.users, teams.teams, reviewerId)
    {
      var reviewers := users.Select(Some(reviewerId));
      if |reviewers| == 0 {
        return Err(UserNotFound);
      }
      var reviewerTeams := teams.Select(Some(reviewers[0].teamName));
      if |reviewerTeams| == 0 {
        return Err(TeamNotFound);
      }
      return Ok(reviewerTeams[0].members);
    }

    /**
     * Creates `pullRequest` with reviewers drawn from the author's active
     * team mates. Fails, writing nothing, when the author or the author's
     * team is unknown, when no team mate is eligible, or when the id is
     * taken; otherwise stores the draw, encoded in draw order, and returns
     * the stored row.
     */
    method CreatePullRequest(pullRequest: PullRequest) returns (r: Result<PullRequest>)
      requires Valid()
      modifies pullRequests
      ensures Valid()
      ensures match ReviewerTeamMembers(users.users, teams.teams, pullRequest.authorId)
        case Err(e) => r == Err(e) && pullRequests.prs == old(pullRequests.prs)
        case Ok(members) =>
          var pool := EligibleReviewers(members, pullRequest.authorId);
          if pool == [] then
            r == Err(NoPossibleAssigners) && pullRequests.prs == old(pullRequests.prs)
          else if pullRequest.id in old(pullRequests.prs) then
            r == Err(PRIdExists) && pullRequests.prs == old(pullRequests.prs)
          else
            exists assigners :: IsDraw(pool, assigners) &&
              r == Ok(pullRequest.(assignedReviewers := Encode(assigners))) &&
              pullRequests.prs == old(pullRequests.prs)[pullRequest.id := r.value]
    {
      var authorTeamMembers := GetReviewerTeamMembers(pullRequest.authorId);
      if authorTeamMembers.Err? {
        return Err(authorTeamMembers.error);
      }
      var possibleAssigners := FilterReviewers(ActiveUserIds(authorTeamMembers.value), [pullRequest.authorId]);
      if |possibleAssigners| == 0 {
        return Err(NoPossibleAssigners);
      }
      var assigners := DrawReviewers(possibleAssigners);
      var created := pullRequest.(assignedReviewers := Encode(assigners));
      var err := pullRequests.Create(created);
      if err.Some? {
        return Err(err.value);
      }
      var rows := pullRequests.Select(Some(pullRequest.id));
      if |rows| == 0 {
        return Err(NotFound);
      }
      r := Ok(rows[0]);
    }

    /** Merges the pull request with the id of `pullRequest` at `now` and returns the stored row; NotFound when absent. */
    method MergePullRequest(pullRequest: PullRequest, now: Time) returns (r: Result<PullRequest>)
      requires Valid()
      modifies pullRequests
      ensures Valid()
      ensures pullRequest.id !in old(pullRequests.prs) ==>
        r == Err(NotFound) && pullRequests.prs == old(pullRequests.prs)
      ensures pullRequest.id in old(pullRequests.prs) ==>
        r == Ok(MergedRow(old(pullRequests.prs)[pullRequest.id], now)) &&
        pullRequests.prs == old(pullRequests.prs)[pullRequest.id := r.value]
    {
      var err := pullRequests.Merge(pullRequest, now);
      if err.Some? {
        return Err(err.value);
      }
      var rows := pullRequests.Select(Some(pullRequest.id));
      if |rows| == 0 {
        return Err(NotFound);
      }
      r := Ok(rows[0]);
    }

    /**
     * Replaces `oldReviewerId` on the pull request `pullRequestId`. Fails,
     * writing nothing, for an unknown or merged pull request and for an old
     * reviewer without a known user or team. Otherwise writes the kept
     * reviewer followed by at most one replacement and returns the stored
     * row. It does not check that the old reviewer was assigned, and it
     * does not fail when there is no candidate.
     */
    method ReassignPullRequest(pullRequestId: string, oldReviewerId: string) returns (r: Result<PullRequest>)
      requires Valid()
      modifies pullRequests
      ensures Valid()
      ensures pullRequestId !in old(pullRequests.prs) ==>
        r == Err(NotFound) && pullRequests.prs == old(pullRequests.prs)
      ensures pullRequestId in old(pullRequests.prs) ==>
        var row := old(pullRequests.prs)[pullRequestId];
        if row.status == Merged then
          r == Err(PRAlreadyMerged) && pullRequests.prs == old(pullRequests.prs)
        else match ReviewerTeamMembers(users.users, teams.teams, oldReviewerId)
          case Err(e) => r == Err(e) && pullRequests.prs == old(pullRequests.prs)
          case Ok(members) =>
            exists newReviewers :: IsReassignment(row, oldReviewerId, members, newReviewers) &&
              r == Ok(row.(assignedReviewers := Encode(newReviewers))) &&
              pullRequests.prs == old(pullRequests.prs)[pullRequestId := r.value]
    {
      var rows := pullRequests.Select(Some(pullRequestId));
      if |rows| == 0 {
        return Err(NotFound);
      }
      var pullRequest := rows[0];
      if pullRequest.status == Merged {
        return Err(PRAlreadyMerged);
      }
      var oldReviewerTeamMembers := GetReviewerTeamMembers(oldReviewerId);
      if oldReviewerTeamMembers.Err? {
        return Err(oldReviewerTeamMembers.error);
      }
      var newReviewers := ReplacementReviewers(pullRequest, oldReviewerId, oldReviewerTeamMembers.value);
      var reassigned := pullRequest.(assignedReviewers := Encode(newReviewers));
      var err := pullRequests.Reassign(reassigned);
      match err {
        case Some(e) => return Err(e);
        case None =>
      }
      rows := pullRequests.Select(Some(pullRequestId));
      if |rows| == 0 {
        return Err(NotFound);
      }
      r := Ok(rows[0]);
    }

    /** UserPullRequestsReviews: the store's reviewer query, passed through. */
    method UserPullRequestsReviews(userId: string) returns (rows: seq<PullRequest>)
      requires Valid()
      ensures forall pr :: pr in rows ==>
        pr.id in pullRequests.prs && pullRequests.prs[pr.id] == pr && userId in Tokens(pr.assignedReviewers)
      ensures forall k :: k in pullRequests.prs && userId in Tokens(pullRequests.prs[k].assignedReviewers) ==>
        pullRequests.prs[k] in rows
      ensures forall i, j :: 0 <= i < j < |rows| ==> rows[i].id != rows[j].id
    {
      rows := pullRequests.SelectUserPullRequestsReviews(userId);
    }
  }
}
