/**
 * The in-memory implementations of the three storage ports that the
 * managers are written against: users keyed by id, teams keyed by name,
 * pull requests keyed by id. Each store holds one map that its write
 * operations change in place. Listing a whole map follows Go's map
 * iteration, whose order is unspecified; the model leaves it open.
 */
module Storage {
  import opened Domain
  import opened ReviewerList

  /** Every value of `m` once, in some order. */
  method Rows<V(==)>(m: map<string, V>) returns (rows: seq<V>)
    ensures |rows| == |m|
    ensures forall k :: k in m ==> m[k] in rows
    ensures forall v :: v in rows ==> v in m.Values
  {
    rows := [];
    var todo := m.Keys;
    ghost var done: set<string> := {};
    while todo != {}
      invariant todo !! done && todo + done == m.Keys
      invariant |rows| == |done|
      invariant forall k :: k in done ==> m[k] in rows
      invariant forall v :: v in rows ==> v in m.Values
      decreases todo
    {
      var k :| k in todo;
      rows := rows + [m[k]];
      todo := todo - {k};
      done := done + {k};
    }
  }

  /**
   * The reviewer test of the pull-request store's reviewer query: the list
   * has a part which, white-space trimmed, is exactly `userId`.
   */
  method IsListedReviewer(assignedReviewers: string, userId: string) returns (listed: bool)
    ensures listed <==> userId in Tokens(assignedReviewers)
  {
    listed := false;
    var reviewers := GoStrings.Trim(assignedReviewers, Brackets);
    if reviewers != "" {
      var parts := GoStrings.Split(reviewers, ',');
      listed := HasTrimmedPart(parts, userId);
    }
  }

  /** The loop over the split parts, stopping at the first one that trims to `userId`. */
  method HasTrimmedPart(parts: seq<string>, userId: string) returns (found: bool)
    ensures found <==> userId in TrimAll(parts)
  {
    found := false;
    var i := 0;
    while i < |parts|
      invariant 0 <= i <= |parts|
      invariant forall j :: 0 <= j < i ==> GoStrings.TrimSpace(parts[j]) != userId
    {
      if GoStrings.TrimSpace(parts[i]) == userId {
        found := true;
        assert TrimAll(parts)[i] == userId;
        return;
      }
      i := i + 1;
    }
  }

  /** The row a merge leaves: an open row becomes merged at `now`; a merged row stays as it is. */
  function MergedRow(row: PullRequest, now: Time): (r: PullRequest)
    ensures r.status == Merged
    ensures r.id == row.id && r.name == row.name && r.authorId == row.authorId
    ensures r.assignedReviewers == row.assignedReviewers && r.createdAt == row.createdAt
    ensures row.status == Merged ==> r == row
    ensures row.status != Merged ==> r.mergedAt == Some(now)
  {
    if row.status != Merged then row.(status := Merged, mergedAt := Some(now)) else row
  }

  /** Merging is idempotent: a second merge, at any time, changes nothing. */
  lemma MergeIdempotent(row: PullRequest, first: Time, second: Time)
    ensures MergedRow(MergedRow(row, first), second) == MergedRow(row, first)
  {
  }

  class UserStore {
    var users: map<string, User>

    /** Every user is stored under its own id. */
    ghost predicate Valid()
      reads this
    {
      forall k :: k in users ==> users[k].userId == k
    }

    constructor ()
      ensures Valid() && users == map[]
    {
      users := map[];
    }

    /** All users when no id is given; otherwise the one user with that id, or none. */
    method Select(userId: Option<string>) returns (rows: seq<User>)
      requires Valid()
      ensures userId.Some? ==> rows == if userId.value in users then [users[userId.value]] else []
      ensures userId.None? ==> |rows| == |users| && forall k :: k in users ==> users[k] in rows
      ensures forall u :: u in rows ==> u.userId in users && users[u.userId] == u
    {
      if userId.None? {
        rows := Rows(users);
      } else if userId.value in users {
        rows := [users[userId.value]];
      } else {
        rows := [];
      }
    }

    /** Replaces the stored user with the same id; fails with NotFound when there is none. */
    method Update(user: User) returns (err: Option<Error>)
      requires Valid()
      modifies this
      ensures Valid()
      ensures err == (if user.userId in old(users) then None else Some(NotFound))
      ensures users == if err.None? then old(users)[user.userId := user] else old(users)
    {
      if user.userId !in users {
        return Some(NotFound);
      }
      users := users[user.userId := user];
      err := None;
    }

    /** Stores the user under its id, replacing any user already there. */
    method Insert(user: User)
      requires Valid()
      modifies this
      ensures Valid()
      ensures users == old(users)[user.userId := user]
    {
      users := users[user.userId := user];
    }
  }

  class TeamStore {
    var teams: map<string, Team>

    /** Every team is stored under its own name. */
    ghost predicate Valid()
      reads this
    {
      forall k :: k in teams ==> teams[k].teamName == k
    }

    constructor ()
      ensures Valid() && teams == map[]
    {
      teams := map[];
    }

    /** All teams when no name is given; otherwise the one team with that name, or none. */
    method Select(teamName: Option<string>) returns (rows: seq<Team>)
      requires Valid()
      ensures teamName.Some? ==> rows == if teamName.value in teams then [teams[teamName.value]] else []
      ensures teamName.None? ==> |rows| == |teams| && forall k :: k in teams ==> teams[k] in rows
      ensures forall t :: t in rows ==> t.teamName in teams && teams[t.teamName] == t
    {
      if teamName.None? {
        rows := Rows(teams);
      } else if teamName.value in teams {
        rows := [teams[teamName.value]];
      } else {
        rows := [];
      }
    }

    /** Stores the team under its name, replacing any team already there. */
    method Insert(team: Team)
      requires Valid()
      modifies this
      ensures Valid()
      ensures teams == old(teams)[team.teamName := team]
    {
      teams := teams[team.teamName := team];
    }

    /** Removes the named team; fails with NotFound when there is none. */
    method Delete(teamName: string) returns (err: Option<Error>)
      requires Valid()
      modifies this
      ensures Valid()
      ensures err == (if teamName in old(teams) then None else Some(NotFound))
      ensures teams == old(teams) - {teamName}
    {
      if teamName !in teams {
        return Some(NotFound);
      }
      teams := teams - {teamName};
      err := None;
    }
  }

  class PullRequestStore {
    var prs: map<string, PullRequest>

    /** Every pull request is stored under its own id. */
    ghost predicate Valid()
      reads this
    {
      forall k :: k in prs ==> prs[k].id == k
    }

    constructor ()
      ensures Valid() && prs == map[]
    {
      prs := map[];
    }

    /** All pull requests when no id is given; otherwise the one with that id, or none. */
    method Select(id: Option<string>) returns (rows: seq<PullRequest>)
      requires Valid()
      ensures id.Some? ==> rows == if id.value in prs then [prs[id.value]] else []
      ensures id.None? ==> |rows| == |prs| && forall k :: k in prs ==> prs[k] in rows
      ensures forall pr :: pr in rows ==> pr.id in prs && prs[pr.id] == pr
    {
      if id.None? {
        rows := Rows(prs);
      } else if id.value in prs {
        rows := [prs[id.value]];
      } else {
        rows := [];
      }
    }

    /** Adds a pull request under a new id; an id already present fails with PRIdExists and changes nothing. */
    method Create(pr: PullRequest) returns (err: Option<Error>)
      requires Valid()
      modifies this
      ensures Valid()
      ensures err == (if pr.id in old(prs) then Some(PRIdExists) else None)
      ensures prs == if err.None? then old(prs)[pr.id := pr] else old(prs)
    {
      if pr.id in prs {
        return Some(PRIdExists);
      }
      prs := prs[pr.id := pr];
      err := None;
    }

    /** Marks the pull request with the given id merged at `now`, unless it already is; NotFound when absent. */
    method Merge(pr: PullRequest, now: Time) returns (err: Option<Error>)
      requires Valid()
      modifies this
      ensures Valid()
      ensures err == (if pr.id in old(prs) then None else Some(NotFound))
      ensures prs == if err.None? then old(prs)[pr.id := MergedRow(old(prs)[pr.id], now)] else old(prs)
    {
      if pr.id !in prs {
        return Some(NotFound);
      }
      var row := prs[pr.id];
      if row.status != Merged {
        row := row.(status := Merged, mergedAt := Some(now));
        prs := prs[pr.id := row];
      }
      err := None;
    }

    /** Replaces the stored pull request with the same id; fails with NotFound when there is none. */
    method Reassign(pr: PullRequest) returns (err: Option<Error>)
      requires Valid()
      modifies this
      ensures Valid()
      ensures err == (if pr.id in old(prs) then None else Some(NotFound))
      ensures prs == if err.None? then old(prs)[pr.id := pr] else old(prs)
    {
      if pr.id !in prs {
        return Some(NotFound);
      }
      prs := prs[pr.id := pr];
      err := None;
    }

    /** The pull requests whose reviewer list names `userId` as a whole part, each once, in some order. */
    method SelectUserPullRequestsReviews(userId: string) returns (rows: seq<PullRequest>)
      requires Valid()
      ensures forall pr :: pr in rows ==>
        pr.id in prs && prs[pr.id] == pr && userId in Tokens(pr.assignedReviewers)
      ensures forall k :: k in prs && userId in Tokens(prs[k].assignedReviewers) ==> prs[k] in rows
      ensures forall i, j :: 0 <= i < j < |rows| ==> rows[i].id != rows[j].id
    {
      rows := [];
      var todo := prs.Keys;
      ghost var done: set<string> := {};
      while todo != {}
        invariant todo !! done && todo + done == prs.Keys
        invariant forall pr :: pr in rows ==>
          pr.id in done && prs[pr.id] == pr && userId in Tokens(pr.assignedReviewers)
        invariant forall k :: k in done && userId in Tokens(prs[k].assignedReviewers) ==> prs[k] in rows
        invariant forall i, j :: 0 <= i < j < |rows| ==> rows[i].id != rows[j].id
        decreases todo
      {
        var k :| k in todo;
        var listed := IsListedReviewer(prs[k].assignedReviewers, userId);
        if listed {
          rows := rows + [prs[k]];
        }
        todo := todo - {k};
        done := done + {k};
      }
    }
  }
}
