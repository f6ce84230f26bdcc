/**
 * The conversions between the HTTP layer's request and response values and
 * the domain's entities. A response carries the reviewer list decoded into
 * ids and the status upper-cased; a request becomes a domain value with
 * every field it does not carry left at its zero value.
 */
module Dto {
  import opened GoStrings
  import opened Domain
  import opened ReviewerList

  /** The fields a pull request shows in every response. */
  datatype PullRequestShort = PullRequestShort(id: string, name: string, authorId: string, status: PullRequestStatus)

  datatype PullRequestResponse = PullRequestResponse(
    short: PullRequestShort,
    assignedReviewers: seq<string>,
    createdAt: Option<Time>,
    mergedAt: Option<Time>)

  datatype PullRequestShortResponse = PullRequestShortResponse(short: PullRequestShort)

  datatype CreateTeamRequest = CreateTeamRequest(teamName: string, members: seq<TeamMember>)

  datatype CreatePullRequestRequest = CreatePullRequestRequest(pullRequestId: string, pullRequestName: string, authorId: string)

  datatype MergePullRequestRequest = MergePullRequestRequest(pullRequestId: string)

  /** A pull request with every field at Go's zero value. */
  const ZeroPullRequest := PullRequest("", "", "", "", "", None, None)

  /** The short form of a pull request: its id, name and author as stored, its status upper-cased. */
  function ShortOf(pr: PullRequest): (r: PullRequestShort)
    ensures r.id == pr.id && r.name == pr.name && r.authorId == pr.authorId
    ensures |r.status| == |pr.status|
    ensures forall i :: 0 <= i < |pr.status| ==> r.status[i] == UpperChar(pr.status[i])
  {
    PullRequestShort(pr.id, pr.name, pr.authorId, ToUpper(pr.status))
  }

  /**
   * domainPRToResponse: the short form, the reviewer list decoded (every id
   * clean and comma-free, exactly the non-empty parts of the list), and
   * both timestamps as stored.
   */
  function DomainPRToResponse(pr: PullRequest): (r: PullRequestResponse)
    ensures r.short == ShortOf(pr)
    ensures forall i :: 0 <= i < |r.assignedReviewers| ==> Clean(r.assignedReviewers[i]) && ',' !in r.assignedReviewers[i]
    ensures forall x :: x in r.assignedReviewers <==> x != "" && x in Tokens(pr.assignedReviewers)
    ensures r.createdAt == pr.createdAt && r.mergedAt == pr.mergedAt
  {
    PullRequestResponse(ShortOf(pr), ParseReviewers(pr.assignedReviewers), pr.createdAt, pr.mergedAt)
  }

  /** domainPRToShortResponse: the same short form as the full response. */
  function DomainPRToShortResponse(pr: PullRequest): (r: PullRequestShortResponse)
    ensures r.short == DomainPRToResponse(pr).short
  {
    PullRequestShortResponse(ShortOf(pr))
  }

  /** requestToDomainTeam: the team with the request's name and members, unchanged. */
  function RequestToDomainTeam(req: CreateTeamRequest): (r: Team)
    ensures r.teamName == req.teamName && r.members == req.members
  {
    Team(req.teamName, req.members)
  }

  /**
   * requestToDomainPR: a new open pull request with the request's id, name
   * and author, no reviewer list and no timestamps.
   */
  function RequestToDomainPR(req: CreatePullRequestRequest): (r: PullRequest)
    ensures r.id == req.pullRequestId && r.name == req.pullRequestName && r.authorId == req.authorId
    ensures r.status == Open
    ensures r == ZeroPullRequest.(id := r.id, name := r.name, authorId := r.authorId, status := Open)
  {
    ZeroPullRequest.(id := req.pullRequestId, name := req.pullRequestName, authorId := req.authorId, status := Open)
  }

  /** requestToDomainPRForMerge: only the id is set; everything else is the zero value. */
  function RequestToDomainPRForMerge(req: MergePullRequestRequest): (r: PullRequest)
    ensures r == ZeroPullRequest.(id := req.pullRequestId)
    ensures r.status != Open && r.status != Merged
  {
    ZeroPullRequest.(id := req.pullRequestId)
  }

  /** The response lists exactly the ids a well-formed encoded list was built from, in order. */
  lemma {:induction false} ResponseDecodesEncoded(pr: PullRequest, ids: seq<string>)
    requires forall i :: 0 <= i < |ids| ==> WellFormedId(ids[i])
    requires pr.assignedReviewers == Encode(ids)
    ensures DomainPRToResponse(pr).assignedReviewers == ids
  {
    ParseEncode(ids);
  }

  /** A pull request without reviewers, stored as "" or as "[]", shows an empty reviewer list. */
  lemma {:induction false} ResponseNoReviewers(pr: PullRequest)
    requires pr.assignedReviewers == "" || pr.assignedReviewers == "[]"
    ensures DomainPRToResponse(pr).assignedReviewers == []
  {
    if pr.assignedReviewers == "[]" {
      ParseEncode([]);
      assert Encode([]) == "[]";
    } else {
      assert Trim("", Brackets) == "";
    }
  }

  /** The list "[user2, user3]" shows the two reviewers user2 and user3. */
  lemma ResponseTwoReviewers(pr: PullRequest)
    requires pr.assignedReviewers == "[user2, user3]"
    ensures DomainPRToResponse(pr).assignedReviewers == ["user2", "user3"]
  {
    var ids := ["user2", "user3"];
    TwoIdsWellFormed(ids);
    TwoIdsEncoded(ids);
    ResponseDecodesEncoded(pr, ids);
  }

  /** Step of ResponseTwoReviewers, which instantiates ResponseDecodesEncoded (and so ParseEncode). */
  lemma TwoIdsWellFormed(ids: seq<string>)
    requires ids == ["user2", "user3"]
    ensures forall i :: 0 <= i < |ids| ==> WellFormedId(ids[i])
  {
    assert WellFormedId(ids[0]) && WellFormedId(ids[1]);
  }

  /** Step of ResponseTwoReviewers: the example list is Encode of its two ids. */
  lemma TwoIdsEncoded(ids: seq<string>)
    requires ids == ["user2", "user3"]
    ensures Encode(ids) == "[user2, user3]"
  {
    assert ids[1..] == ["user3"];
    assert Join(ids[1..], ", ") == "user3";
    assert Join(ids, ", ") == "user2" + ", " + "user3";
  }

  /** The two statuses the service writes show as "OPEN" and "MERGED". */
  lemma StatusShown(pr: PullRequest)
    ensures pr.status == Open ==> DomainPRToResponse(pr).short.status == "OPEN"
    ensures pr.status == Merged ==> DomainPRToResponse(pr).short.status == "MERGED"
  {
  }

  /** A pull request built from a creation request shows as open, with the request's fields and no reviewers. */
  lemma CreatedShown(req: CreatePullRequestRequest)
    ensures var r := DomainPRToResponse(RequestToDomainPR(req));
      && r.short == PullRequestShort(req.pullRequestId, req.pullRequestName, req.authorId, "OPEN")
      && r.assignedReviewers == []
      && r.createdAt == None && r.mergedAt == None
  {
    StatusShown(RequestToDomainPR(req));
    ResponseNoReviewers(RequestToDomainPR(req));
  }
}
