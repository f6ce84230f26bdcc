/**
 * Team management: adding and looking up teams, and deleting a team, which
 * first takes every member of the team off the reviewer list of every pull
 * request that names one of them.
 */
module Teams {
  import opened Domain
  import opened ReviewerList
  import opened Storage
  import opened PullRequests

  /** The ids of the members, in member order. */
  function MemberIds(members: seq<TeamMember>): (ids: seq<string>)
    ensures |ids| == |members|
    ensures forall i :: 0 <= i < |members| ==> ids[i] == members[i].userId
  {
    seq(|members|, i requires 0 <= i < |members| => members[i].userId)
  }

  /** The pull request names one of the members as a reviewer. */
  predicate NamesMember(pr: PullRequest, members: seq<TeamMember>) {
    exists i :: 0 <= i < |members| && members[i].userId in Tokens(pr.assignedReviewers)
  }

  /** The pull request with the members taken off its reviewer list and the rest re-encoded, in order. */
  function StripMembers(pr: PullRequest, members: seq<TeamMember>): PullRequest {
    pr.(assignedReviewers := Encode(FilterReviewers(ParseReviewers(pr.assignedReviewers), MemberIds(members))))
  }

  /** The pull requests once a team with these members is deleted: those naming a member are stripped, the others left alone. */
  function AfterTeamRemoval(prs: map<string, PullRequest>, members: seq<TeamMember>): (r: map<string, PullRequest>)
    ensures r.Keys == prs.Keys
  {
    map k | k in prs :: if NamesMember(prs[k], members) then StripMembers(prs[k], members) else prs[k]
  }

  /** Every pull request stripped of the members, whether or not it names one. */
  function StrippedAll(before: map<string, PullRequest>, members: seq<TeamMember>): (r: map<string, PullRequest>)
    ensures r.Keys == before.Keys
  {
    map k | k in before :: StripMembers(before[k], members)
  }

  /**
   * The pull requests part way through a team deletion: those in
   * `processed` take their rewritten row from `stripped`, the others are as
   * before.
   */
  function Staged(before: map<string, PullRequest>, stripped: map<string, PullRequest>, processed: set<string>): (r: map<string, PullRequest>)
    ensures r.Keys == before.Keys
  {
    map k | k in before :: if k in processed && k in stripped then stripped[k] else before[k]
  }

  /** The ids of the pull requests that name one of `members`. */
  function NamedBy(before: map<string, PullRequest>, members: seq<TeamMember>): set<string> {
    set k | k in before && NamesMember(before[k], members)
  }

  /** `processed` holds exactly the pull requests that name one of `members`. */
  ghost predicate Covered(before: map<string, PullRequest>, members: seq<TeamMember>, processed: set<string>) {
    processed == NamedBy(before, members)
  }

  /** The ids of the rows. */
  function Ids(rows: seq<PullRequest>): set<string> {
    set pr | pr in rows :: pr.id
  }

  /** Nothing is processed at the start of a deletion. */
  lemma StagedNone(before: map<string, PullRequest>, stripped: map<string, PullRequest>, members: seq<TeamMember>)
    ensures Staged(before, stripped, {}) == before
    ensures Covered(before, members[..0], {})
  {
  }

  /** Processing one more pull request rewrites that one entry. */
  lemma StagedAdd(before: map<string, PullRequest>, stripped: map<string, PullRequest>, processed: set<string>, id: string)
    requires id in before && id in stripped
    ensures Staged(before, stripped, processed + {id}) == Staged(before, stripped, processed)[id := stripped[id]]
  {
    var l := Staged(before, stripped, processed + {id});
    var r := Staged(before, stripped, processed)[id := stripped[id]];
    assert l.Keys == r.Keys;
    forall k | k in l ensures l[k] == r[k] {
    }
  }

  /** Before processing, an entry is as it was; the entries are the same as before. */
  lemma StagedUnprocessed(before: map<string, PullRequest>, stripped: map<string, PullRequest>, processed: set<string>)
    ensures Staged(before, stripped, processed).Keys == before.Keys
    ensures forall k :: k in before && k !in processed ==> Staged(before, stripped, processed)[k] == before[k]
  {
  }

  /** Once every pull request naming a member is processed, the staged map is the final one. */
  lemma StagedComplete(before: map<string, PullRequest>, members: seq<TeamMember>, processed: set<string>)
    requires Covered(before, members, processed)
    ensures Staged(before, StrippedAll(before, members), processed) == AfterTeamRemoval(before, members)
  {
    var stripped := StrippedAll(before, members);
    var l := Staged(before, stripped, processed);
    var r := AfterTeamRemoval(before, members);
    forall k | k in before ensures l[k] == r[k] {
      assert k in processed <==> k in NamedBy(before, members);
      if k in processed {
        assert l[k] == stripped[k];
      }
    }
  }

  /** StagedComplete at the end of DeleteTeam's member loop, when all members have had their round. */
  lemma StagedDone(before: map<string, PullRequest>, members: seq<TeamMember>, mi: nat, processed: set<string>)
    requires mi == |members|
    requires Covered(before, members[..mi], processed)
    ensures Staged(before, StrippedAll(before, members), processed) == AfterTeamRemoval(before, members)
  {
    assert members[..mi] == members;
    StagedComplete(before, members, processed);
  }

  /**
   * One member's round covers one more member: the rows the reviewer query
   * returned for member `mi`, together with what was processed before,
   * are exactly the pull requests naming one of the first `mi + 1` members.
   */
  lemma RoundCovers(before: map<string, PullRequest>, stripped: map<string, PullRequest>, members: seq<TeamMember>, mi: nat,
                    processed: set<string>, snapshot: map<string, PullRequest>, rows: seq<PullRequest>)
    requires mi < |members|
    requires forall k :: k in before ==> before[k].id == k
    requires Covered(before, members[..mi], processed)
    requires snapshot == Staged(before, stripped, processed)
    requires forall pr :: pr in rows ==>
      pr.id in snapshot && snapshot[pr.id] == pr && members[mi].userId in Tokens(pr.assignedReviewers)
    requires forall k :: k in snapshot && members[mi].userId in Tokens(snapshot[k].assignedReviewers) ==> snapshot[k] in rows
    ensures Covered(before, members[..mi + 1], processed + Ids(rows))
  {
    StagedUnprocessed(before, stripped, processed);
    RoundFindsAll(before, stripped, members, mi, processed, snapshot, rows);
    RoundFindsOnly(before, stripped, members, mi, processed, snapshot, rows);
    assert processed + Ids(rows) == NamedBy(before, members[..mi + 1]);
  }

  /** Every pull request naming one of the first `mi + 1` members is processed after the round. */
  lemma RoundFindsAll(before: map<string, PullRequest>, stripped: map<string, PullRequest>, members: seq<TeamMember>, mi: nat,
                      processed: set<string>, snapshot: map<string, PullRequest>, rows: seq<PullRequest>)
    requires mi < |members|
    requires forall k :: k in before ==> before[k].id == k
    requires forall k :: k in before && NamesMember(before[k], members[..mi]) ==> k in processed
    requires forall k :: k in before && k !in processed ==> k in snapshot && snapshot[k] == before[k]
    requires forall k :: k in snapshot && members[mi].userId in Tokens(snapshot[k].assignedReviewers) ==> snapshot[k] in rows
    ensures forall k :: k in before && NamesMember(before[k], members[..mi + 1]) ==> k in processed + Ids(rows)
  {
    forall k | k in before && NamesMember(before[k], members[..mi + 1])
      ensures k in processed + Ids(rows)
    {
      var i :| 0 <= i < mi + 1 && members[..mi + 1][i].userId in Tokens(before[k].assignedReviewers);
      if i < mi {
        assert members[..mi + 1][i] == members[..mi][i];
        assert NamesMember(before[k], members[..mi]);
      } else if k !in processed {
        assert members[..mi + 1][i] == members[mi];
        assert snapshot[k] == before[k] && snapshot[k] in rows && snapshot[k].id == k;
      }
    }
  }

  /** Every pull request processed after the round names one of the first `mi + 1` members. */
  lemma RoundFindsOnly(before: map<string, PullRequest>, stripped: map<string, PullRequest>, members: seq<TeamMember>, mi: nat,
                       processed: set<string>, snapshot: map<string, PullRequest>, rows: seq<PullRequest>)
    requires mi < |members|
    requires forall k :: k in processed ==> k in before && NamesMember(before[k], members[..mi])
    requires snapshot.Keys == before.Keys
    requires forall k :: k in before && k !in processed ==> snapshot[k] == before[k]
    requires forall pr :: pr in rows ==>
      pr.id in snapshot && snapshot[pr.id] == pr && members[mi].userId in Tokens(pr.assignedReviewers)
    ensures forall k :: k in processed + Ids(rows) ==> k in before && NamesMember(before[k], members[..mi + 1])
  {
    forall k | k in processed + Ids(rows)
      ensures k in before && NamesMember(before[k], members[..mi + 1])
    {
      if k in processed {
        var i :| 0 <= i < mi && members[..mi][i].userId in Tokens(before[k].assignedReviewers);
        assert members[..mi + 1][i] == members[..mi][i];
      } else {
        var pr :| pr in rows && pr.id == k;
        assert before[k] == pr;
        assert members[..mi + 1][mi].userId in Tokens(before[k].assignedReviewers);
      }
    }
  }

  /** Filtering leaves a list alone when none of its elements is restricted. */
  lemma {:induction false} FilterReviewersNoop(xs: seq<string>, restricted: seq<string>)
    requires forall x :: x in xs ==> x !in restricted
    ensures FilterReviewers(xs, restricted) == xs
  {
    if xs != [] {
      FilterReviewersNoop(xs[1..], restricted);
      assert [xs[0]] + xs[1..] == xs;
    }
  }

  /**
   * Deleting a team takes exactly the team's members off every reviewer
   * list: decoded, each list is the old one without the members, in the old
   * order. Lists must hold well-formed ids for the re-encoding to decode
   * back, and every pull request keeps everything but its reviewer list.
   */
  lemma TeamRemovalReviewers(prs: map<string, PullRequest>, members: seq<TeamMember>)
    requires forall k :: k in prs ==> forall x :: x in ParseReviewers(prs[k].assignedReviewers) ==> WellFormedId(x)
    ensures forall k :: k in prs ==>
      var pr := AfterTeamRemoval(prs, members)[k];
      && ParseReviewers(pr.assignedReviewers) == FilterReviewers(ParseReviewers(prs[k].assignedReviewers), MemberIds(members))
      && pr.(assignedReviewers := prs[k].assignedReviewers) == prs[k]
  {
    var ids := MemberIds(members);
    forall k | k in prs
      ensures ParseReviewers(AfterTeamRemoval(prs, members)[k].assignedReviewers)
        == FilterReviewers(ParseReviewers(prs[k].assignedReviewers), ids)
    {
      var parsed := ParseReviewers(prs[k].assignedReviewers);
      if NamesMember(prs[k], members) {
        var kept := FilterReviewers(parsed, ids);
        assert forall i :: 0 <= i < |kept| ==> kept[i] in parsed;
        ParseEncode(kept);
      } else {
        assert forall x :: x in parsed ==> x !in ids;
        FilterReviewersNoop(parsed, ids);
      }
    }
  }

  class TeamManager {
    const teamStorage: TeamStore
    const pullRequestStorage: PullRequestStore

    ghost predicate Valid()
      reads this, teamStorage, pullRequestStorage
    {
      teamStorage.Valid() && pullRequestStorage.Valid()
    }

    constructor (teamStorage: TeamStore, pullRequestStorage: PullRequestStore)
      ensures this.teamStorage == teamStorage && this.pullRequestStorage == pullRequestStorage
    {
      this.teamStorage := teamStorage;
      this.pullRequestStorage := pullRequestStorage;
    }

    /** Stores the team, replacing any team with the same name, and returns it. */
    method AddTeam(team: Team) returns (r: Result<Team>)
      requires Valid()
      modifies teamStorage
      ensures Valid()
      ensures r == Ok(team)
      ensures teamStorage.teams == old(teamStorage.teams)[team.teamName := team]
    {
      teamStorage.Insert(team);
      r := Ok(team);
    }

    /**
     * The named team, or TeamNotFound. Without a name it is the first team
     * of the store's listing, whose order is left open.
     */
    method GetTeam(teamName: Option<string>) returns (r: Result<Team>)
      requires Valid()
      ensures teamName.Some? ==>
        r == if teamName.value in teamStorage.teams then Ok(teamStorage.teams[teamName.value]) else Err(TeamNotFound)
      ensures teamName.None? ==>
        (r.Err? <==> teamStorage.teams == map[]) &&
        (r.Ok? ==> r.value.teamName in teamStorage.teams && teamStorage.teams[r.value.teamName] == r.value)
      ensures r.Err? ==> r.error == TeamNotFound
    {
      var teams := teamStorage.Select(teamName);
      if |teams| == 0 {
        return Err(TeamNotFound);
      }
      r := Ok(teams[0]);
    }

    /** The store's listing, passed through. */
    method GetTeams(teamName: Option<string>) returns (teams: seq<Team>)
      requires Valid()
      ensures teamName.Some? ==>
        teams == if teamName.value in teamStorage.teams then [teamStorage.teams[teamName.value]] else []
      ensures teamName.None? ==>
        |teams| == |teamStorage.teams| && forall k :: k in teamStorage.teams ==> teamStorage.teams[k] in teams
    {
      teams := teamStorage.Select(teamName);
    }

    /**
     * Deletes the named team. An unknown name fails with TeamNotFound and
     * changes nothing; otherwise every pull request naming a member as a
     * reviewer is rewritten once without the team's members, and the team
     * is removed.
     */
    method DeleteTeam(teamName: string) returns (err: Option<Error>)
      requires Valid()
      modifies teamStorage, pullRequestStorage
      ensures Valid()
      ensures teamName !in old(teamStorage.teams) ==>
        err == Some(TeamNotFound) &&
        teamStorage.teams == old(teamStorage.teams) && pullRequestStorage.prs == old(pullRequestStorage.prs)
      ensures teamName in old(teamStorage.teams) ==>
        err == None &&
        teamStorage.teams == old(teamStorage.teams) - {teamName} &&
        pullRequestStorage.prs == AfterTeamRemoval(old(pullRequestStorage.prs), old(teamStorage.teams)[teamName].members)
    {
      var teams := teamStorage.Select(Some(teamName));
      if |teams| == 0 {
        return Some(TeamNotFound);
      }
      var team := teams[0];
      var stripErr := StripTeam(team.members);
      match stripErr {
        case Some(e) => return Some(e);
        case None =>
      }
      var deleteErr := teamStorage.Delete(teamName);
      match deleteErr {
        case Some(e) => return Some(e);
        case None =>
      }
      err := None;
    }

    /** DeleteTeam's member loop: every pull request naming a member is rewritten once without the members. */
    method StripTeam(members: seq<TeamMember>) returns (err: Option<Error>)
      requires Valid()
      modifies pullRequestStorage
      ensures Valid() && err == None
      ensures pullRequestStorage.prs == AfterTeamRemoval(old(pullRequestStorage.prs), members)
    {
      ghost var before := pullRequestStorage.prs;
      ghost var stripped := StrippedAll(before, members);
      var processedPRs: set<string> := {};
      StagedNone(before, stripped, members);
      var mi := 0;
      while mi < |members|
        invariant Valid()
        invariant 0 <= mi <= |members|
        invariant pullRequestStorage.prs == Staged(before, stripped, processedPRs)
        invariant Covered(before, members[..mi], processedPRs)
      {
        var memberErr;
        processedPRs, memberErr := StripMemberReviews(members, mi, processedPRs, before);
        match memberErr {
          case Some(e) => return Some(e);
          case None =>
        }
        mi := mi + 1;
      }
      StagedDone(before, members, mi, processedPRs);
      err := None;
    }

    /** The rewrite of one pull request in DeleteTeam: its reviewer list without the team's members. */
    method StripPullRequest(pr: PullRequest, members: seq<TeamMember>) returns (err: Option<Error>)
      requires Valid() && pr.id in pullRequestStorage.prs
      modifies pullRequestStorage
      ensures Valid() && err == None
      ensures pullRequestStorage.prs == old(pullRequestStorage.prs)[pr.id := StripMembers(pr, members)]
    {
      var reviewers := DecodeReviewers(pr.assignedReviewers);
      var updatedReviewers := RemoveTeamMembers(reviewers, members);
      err := pullRequestStorage.Reassign(pr.(assignedReviewers := Encode(updatedReviewers)));
    }

    /**
     * One round of DeleteTeam's member loop: every pull request that member
     * `mi` reviews and that is not yet processed is stripped of the team and
     * marked processed, so that afterwards the processed pull requests are
     * those naming one of the first `mi + 1` members.
     */
    method StripMemberReviews(members: seq<TeamMember>, mi: nat, processedPRs: set<string>, ghost before: map<string, PullRequest>)
      returns (processedAfter: set<string>, err: Option<Error>)
      requires Valid() && mi < |members|
      requires forall k :: k in before ==> before[k].id == k
      requires pullRequestStorage.prs == Staged(before, StrippedAll(before, members), processedPRs)
      requires Covered(before, members[..mi], processedPRs)
      modifies pullRequestStorage
      ensures Valid() && err == None
      ensures pullRequestStorage.prs == Staged(before, StrippedAll(before, members), processedAfter)
      ensures Covered(before, members[..mi + 1], processedAfter)
    {
      ghost var stripped := StrippedAll(before, members);
      ghost var snapshot := pullRequestStorage.prs;
      var prs := pullRequestStorage.SelectUserPullRequestsReviews(members[mi].userId);
      StagedUnprocessed(before, stripped, processedPRs);
      processedAfter, err := StripRows(prs, members, processedPRs, before, stripped);
      RoundCovers(before, stripped, members, mi, processedPRs, snapshot, prs);
    }

    /** The inner loop of a round: each row not yet processed is stripped once and marked processed. */
    method StripRows(prs: seq<PullRequest>, members: seq<TeamMember>, processedPRs: set<string>,
                     ghost before: map<string, PullRequest>, ghost stripped: map<string, PullRequest>)
      returns (processedAfter: set<string>, err: Option<Error>)
      requires Valid()
      requires forall k :: k in before ==> k in stripped && stripped[k] == StripMembers(before[k], members)
      requires forall pr :: pr in prs ==> pr.id in before && (pr.id !in processedPRs ==> pr == before[pr.id])
      requires pullRequestStorage.prs == Staged(before, stripped, processedPRs)
      modifies pullRequestStorage
      ensures Valid() && err == None
      ensures pullRequestStorage.prs == Staged(before, stripped, processedAfter)
      ensures processedAfter == processedPRs + Ids(prs)
    {
      processedAfter := processedPRs;
      var ri := 0;
      while ri < |prs|
        invariant Valid()
        invariant 0 <= ri <= |prs|
        invariant processedAfter == processedPRs + Ids(prs[..ri])
        invariant pullRequestStorage.prs == Staged(before, stripped, processedAfter)
      {
        var pr := prs[ri];
        IdsSnoc(prs, ri);
        assert pr in prs;
        processedAfter, err := StripRow(pr, members, processedAfter, before, stripped);
        match err {
          case Some(e) => return processedAfter, Some(e);
          case None =>
        }
        ri := ri + 1;
      }
      assert prs[..ri] == prs;
      err := None;
    }

    /** One row of the inner loop: stripped and marked processed unless it already is. */
    method StripRow(pr: PullRequest, members: seq<TeamMember>, processedPRs: set<string>,
                    ghost before: map<string, PullRequest>, ghost stripped: map<string, PullRequest>)
      returns (processedAfter: set<string>, err: Option<Error>)
      requires Valid()
      requires pr.id in before && pr.id in stripped && stripped[pr.id] == StripMembers(before[pr.id], members)
      requires pr.id !in processedPRs ==> pr == before[pr.id]
      requires pullRequestStorage.prs == Staged(before, stripped, processedPRs)
      modifies pullRequestStorage
      ensures Valid() && err == None
      ensures pullRequestStorage.prs == Staged(before, stripped, processedAfter)
      ensures processedAfter == processedPRs + {pr.id}
    {
      processedAfter := processedPRs;
      if pr.id !in processedPRs {
        StagedAdd(before, stripped, processedPRs, pr.id);
        processedAfter := processedPRs + {pr.id};
        err := StripPullRequest(pr, members);
      } else {
        err := None;
      }
    }
  }

  /** The ids of a prefix one row longer. */
  lemma IdsSnoc(rows: seq<PullRequest>, i: nat)
    requires i < |rows|
    ensures Ids(rows[..i + 1]) == Ids(rows[..i]) + {rows[i].id}
  {
    assert rows[..i + 1] == rows[..i] + [rows[i]];
  }

  /** The reviewer loop of DeleteTeam: the reviewers that are not members, in order. */
  method RemoveTeamMembers(reviewers: seq<string>, members: seq<TeamMember>) returns (updatedReviewers: seq<string>)
    ensures updatedReviewers == FilterReviewers(reviewers, MemberIds(members))
  {
    updatedReviewers := [];
    var i := 0;
    while i < |reviewers|
      invariant 0 <= i <= |reviewers|
      invariant updatedReviewers == FilterReviewers(reviewers[..i], MemberIds(members))
    {
      var isTeamMember := IsTeamMember(reviewers[i], members);
      FilterReviewersSnoc(reviewers[..i], reviewers[i], MemberIds(members));
      assert reviewers[..i + 1] == reviewers[..i] + [reviewers[i]];
      if !isTeamMember {
        updatedReviewers := updatedReviewers + [reviewers[i]];
      }
      i := i + 1;
    }
    assert reviewers[..i] == reviewers;
  }

  /** The inner search of DeleteTeam: whether the reviewer is one of the members. */
  method IsTeamMember(reviewer: string, members: seq<TeamMember>) returns (isTeamMember: bool)
    ensures isTeamMember <==> reviewer in MemberIds(members)
  {
    isTeamMember := false;
    var i := 0;
    while i < |members|
      invariant 0 <= i <= |members|
      invariant forall j :: 0 <= j < i ==> members[j].userId != reviewer
    {
      if reviewer == members[i].userId {
        isTeamMember := true;
        assert MemberIds(members)[i] == reviewer;
        return;
      }
      i := i + 1;
    }
  }
}
