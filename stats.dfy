/**
 * The statistics report: user counts, per-user pull request counts, team
 * size extremes, per-team sums of the members' counts, and pull request
 * extremes over the per-user counts. Each calculator takes the report built
 * so far and returns it with its own part filled in, in the order GetStats
 * calls them. The floating-point averages are not part of this model.
 */
module Stats {
  import opened Domain
  import opened GoStrings

  datatype UserStats = UserStats(total: int, active: int, inactive: int)

  datatype IndividualUserStats = IndividualUserStats(
    username: string,
    prsCreated: nat,
    prsReviewed: nat,
    prsMerged: nat,
    prsOpen: nat,
    prsWaitingForReview: nat)

  datatype TeamStats = TeamStats(
    total: int,
    mostMembersInTeam: int,
    leastMembersInTeam: int,
    mostActiveMembersInTeam: int,
    leastActiveMembersInTeam: int,
    mostInactiveMembersInTeam: int,
    leastInactiveMembersInTeam: int)

  datatype IndividualTeamStats = IndividualTeamStats(
    totalMembers: nat,
    activeMembers: nat,
    inactiveMembers: nat,
    prsCreated: nat,
    prsReviewed: nat,
    prsMerged: nat,
    prsOpen: nat,
    prsWaitingForReview: nat)

  datatype PullRequestStats = PullRequestStats(
    total: int,
    mostPRsPerUser: int,
    leastPRsPerUser: int,
    mostPRsPerReviewer: int,
    leastPRsPerReviewer: int)

  datatype Stats = Stats(
    userStats: UserStats,
    individualUserStats: map<string, IndividualUserStats>,
    teamStats: TeamStats,
    individualTeamStats: map<string, IndividualTeamStats>,
    pullRequestStats: PullRequestStats)

  /** The zero value of a per-user entry, which a lookup of a missing user id yields. */
  const NoUserStats := IndividualUserStats("", 0, 0, 0, 0, 0)

  /** The zero value of the report, which GetStats starts from. */
  const EmptyStats := Stats(UserStats(0, 0, 0), map[], TeamStats(0, 0, 0, 0, 0, 0, 0), map[], PullRequestStats(0, 0, 0, 0, 0))

  // ----- counting -----

  /** How many elements satisfy `p`. */
  function Count<T>(xs: seq<T>, p: T -> bool): (n: nat)
    ensures n <= |xs|
  {
    if xs == [] then 0 else Count(xs[..|xs| - 1], p) + (if p(xs[|xs| - 1]) then 1 else 0)
  }

  /** The positions of the elements that satisfy `p`. */
  function Positions<T>(xs: seq<T>, p: T -> bool): set<int> {
    set i | 0 <= i < |xs| && p(xs[i])
  }

  /** Count agrees with the number of positions holding an element that satisfies `p`. */
  lemma {:induction false} CountPositions<T>(xs: seq<T>, p: T -> bool)
    ensures Count(xs, p) == |Positions(xs, p)|
    decreases |xs|
  {
    if xs != [] {
      var n := |xs| - 1;
      var init := xs[..n];
      CountPositions(init, p);
      if p(xs[n]) {
        assert Positions(xs, p) == Positions(init, p) + {n};
      } else {
        assert Positions(xs, p) == Positions(init, p);
      }
    }
  }

  predicate IsActiveUser(user: User) {
    user.isActive
  }

  predicate IsActiveMember(member: TeamMember) {
    member.isActive
  }

  function ActiveMembers(members: seq<TeamMember>): nat {
    Count(members, IsActiveMember)
  }

  /** calculateUserStats: the number of users, of active users and of inactive users. */
  method CalculateUserStats(users: seq<User>, stats: Stats) returns (r: Stats)
    ensures r == stats.(userStats := r.userStats)
    ensures r.userStats.total == |users|
    ensures r.userStats.active == Count(users, IsActiveUser)
    ensures r.userStats.active + r.userStats.inactive == r.userStats.total
  {
    var activeUsers := 0;
    var inactiveUsers := 0;
    for i := 0 to |users|
      invariant activeUsers == Count(users[..i], IsActiveUser)
      invariant activeUsers + inactiveUsers == i
    {
      assert users[..i + 1][..i] == users[..i];
      if users[i].isActive {
        activeUsers := activeUsers + 1;
      } else {
        inactiveUsers := inactiveUsers + 1;
      }
    }
    assert users[..|users|] == users;
    r := stats.(userStats := UserStats(|users|, activeUsers, inactiveUsers));
  }

  /** The member-counting loop of both team calculators. */
  method CountMembers(members: seq<TeamMember>) returns (activeMembers: nat, inactiveMembers: nat)
    ensures activeMembers == ActiveMembers(members)
    ensures activeMembers + inactiveMembers == |members|
  {
    activeMembers, inactiveMembers := 0, 0;
    for i := 0 to |members|
      invariant activeMembers == ActiveMembers(members[..i])
      invariant activeMembers + inactiveMembers == i
    {
      assert members[..i + 1][..i] == members[..i];
      if members[i].isActive {
        activeMembers := activeMembers + 1;
      } else {
        inactiveMembers := inactiveMembers + 1;
      }
    }
    assert members[..|members|] == members;
  }

  // ----- per-user pull request counts -----

  /** The pull requests that pass the filter for the user, in their order. */
  function FilterPRs(prs: seq<PullRequest>, user: User, filter: (PullRequest, User) -> bool): (r: seq<PullRequest>)
    ensures |r| <= |prs|
    ensures forall pr :: pr in r <==> pr in prs && filter(pr, user)
  {
    if prs == [] then []
    else
      var last := prs[|prs| - 1];
      FilterPRs(prs[..|prs| - 1], user, filter) + (if filter(last, user) then [last] else [])
  }

  /** Filtering keeps order: filtering a concatenation concatenates the filtered halves. */
  lemma {:induction false} FilterPRsConcat(a: seq<PullRequest>, b: seq<PullRequest>, user: User, filter: (PullRequest, User) -> bool)
    ensures FilterPRs(a + b, user, filter) == FilterPRs(a, user, filter) + FilterPRs(b, user, filter)
    decreases |b|
  {
    if b == [] {
      assert a + b == a;
    } else {
      var n := |b| - 1;
      assert (a + b)[..|a + b| - 1] == a + b[..n];
      assert (a + b)[|a + b| - 1] == b[n];
      FilterPRsConcat(a, b[..n], user, filter);
    }
  }

  /** getFilteredPRsForUser. */
  method GetFilteredPRsForUser(user: User, prs: seq<PullRequest>, filter: (PullRequest, User) -> bool)
    returns (filteredPRs: seq<PullRequest>)
    ensures filteredPRs == FilterPRs(prs, user, filter)
  {
    filteredPRs := [];
    for i := 0 to |prs|
      invariant filteredPRs == FilterPRs(prs[..i], user, filter)
    {
      assert prs[..i + 1][..i] == prs[..i];
      if filter(prs[i], user) {
        filteredPRs := filteredPRs + [prs[i]];
      }
    }
    assert prs[..|prs|] == prs;
  }

  predicate CreatedBy(pr: PullRequest, user: User) {
    pr.authorId == user.userId
  }

  /** Reviewed: merged, and the user id occurs anywhere in the encoded reviewer list. */
  predicate ReviewedBy(pr: PullRequest, user: User) {
    Contains(pr.assignedReviewers, user.userId) && pr.status == Merged
  }

  predicate MergedBy(pr: PullRequest, user: User) {
    pr.status == Merged && pr.authorId == user.userId
  }

  predicate OpenBy(pr: PullRequest, user: User) {
    pr.status == Open && pr.authorId == user.userId
  }

  /** Waiting for review: open, and the user id occurs anywhere in the encoded reviewer list. */
  predicate WaitingFor(pr: PullRequest, user: User) {
    Contains(pr.assignedReviewers, user.userId) && pr.status == Open
  }

  /** The entry calculateIndividualUserStats records for one user. */
  function UserEntry(user: User, prs: seq<PullRequest>): IndividualUserStats {
    IndividualUserStats(
      user.username,
      |FilterPRs(prs, user, CreatedBy)|,
      |FilterPRs(prs, user, ReviewedBy)|,
      |FilterPRs(prs, user, MergedBy)|,
      |FilterPRs(prs, user, OpenBy)|,
      |FilterPRs(prs, user, WaitingFor)|)
  }

  /** The per-user map, filled user by user; a later user with the same id replaces the earlier entry. */
  function UserStatsMap(users: seq<User>, prs: seq<PullRequest>): map<string, IndividualUserStats> {
    if users == [] then map[]
    else
      var last := users[|users| - 1];
      UserStatsMap(users[..|users| - 1], prs)[last.userId := UserEntry(last, prs)]
  }

  /**
   * Two disjoint filters that both imply a third pass at most as many pull
   * requests together as the third; exactly as many when every pull request
   * passing the third passes one of the two.
   */
  lemma {:induction false} FilterSplitBound(prs: seq<PullRequest>, user: User, p: (PullRequest, User) -> bool,
                                            q: (PullRequest, User) -> bool, whole: (PullRequest, User) -> bool)
    requires forall pr :: pr in prs ==> (p(pr, user) ==> whole(pr, user)) && (q(pr, user) ==> whole(pr, user))
    requires forall pr :: pr in prs ==> !(p(pr, user) && q(pr, user))
    ensures |FilterPRs(prs, user, p)| + |FilterPRs(prs, user, q)| <= |FilterPRs(prs, user, whole)|
    ensures (forall pr :: pr in prs && whole(pr, user) ==> p(pr, user) || q(pr, user)) ==>
      |FilterPRs(prs, user, p)| + |FilterPRs(prs, user, q)| == |FilterPRs(prs, user, whole)|
    decreases |prs|
  {
    if prs != [] {
      var init := prs[..|prs| - 1];
      assert forall pr :: pr in init ==> pr in prs;
      FilterSplitBound(init, user, p, q, whole);
    }
  }

  /**
   * Per user, the merged and the open pull requests the user created are
   * at most all the pull requests the user created, and exactly all of
   * them when every status is open or merged.
   */
  lemma MergedOpenBound(user: User, prs: seq<PullRequest>)
    ensures UserEntry(user, prs).prsMerged + UserEntry(user, prs).prsOpen <= UserEntry(user, prs).prsCreated
    ensures (forall pr :: pr in prs ==> pr.status == Open || pr.status == Merged) ==>
      UserEntry(user, prs).prsMerged + UserEntry(user, prs).prsOpen == UserEntry(user, prs).prsCreated
  {
    assert Open != Merged by {
      assert |Open| != |Merged|;
    }
    FilterSplitBound(prs, user, MergedBy, OpenBy, CreatedBy);
  }

  /** The per-user map has exactly one key per distinct user id. */
  lemma {:induction false} UserStatsMapKeys(users: seq<User>, prs: seq<PullRequest>)
    ensures UserStatsMap(users, prs).Keys == set u | u in users :: u.userId
    decreases |users|
  {
    if users != [] {
      var n := |users| - 1;
      UserStatsMapKeys(users[..n], prs);
      assert users == users[..n] + [users[n]];
    }
  }

  /** No user after position `i` has the id of the user at `i`. */
  predicate LastWithId(users: seq<User>, i: nat)
    requires i < |users|
  {
    forall j :: i < j < |users| ==> users[j].userId != users[i].userId
  }

  /** Each user's entry is computed from that user's pull requests, the last user with an id deciding the entry. */
  lemma {:induction false} UserStatsMapEntries(users: seq<User>, prs: seq<PullRequest>, i: nat)
    requires i < |users| && LastWithId(users, i)
    ensures users[i].userId in UserStatsMap(users, prs)
    ensures UserStatsMap(users, prs)[users[i].userId] == UserEntry(users[i], prs)
    decreases |users|
  {
    var n := |users| - 1;
    if i < n {
      var init := users[..n];
      assert users[i] == init[i];
      assert users[n].userId != users[i].userId;
      assert LastWithId(init, i) by {
        assert forall j :: i < j < |init| ==> init[j] == users[j];
      }
      UserStatsMapEntries(init, prs, i);
    }
  }

  /** Every user has an entry. */
  lemma UserStatsMapEntry(users: seq<User>, prs: seq<PullRequest>, i: nat)
    requires i < |users|
    ensures users[i].userId in UserStatsMap(users, prs)
  {
    UserStatsMapKeys(users, prs);
    assert users[i] in users;
  }

  /** calculateIndividualUserStats: the per-user map, replacing whatever map the report held. */
  method CalculateIndividualUserStats(users: seq<User>, prs: seq<PullRequest>, stats: Stats) returns (r: Stats)
    ensures r == stats.(individualUserStats := UserStatsMap(users, prs))
  {
    var individualUserStats := map[];
    for i := 0 to |users|
      invariant individualUserStats == UserStatsMap(users[..i], prs)
    {
      var user := users[i];
      var prsCreated := GetFilteredPRsForUser(user, prs, CreatedBy);
      var prsReviewed := GetFilteredPRsForUser(user, prs, ReviewedBy);
      var prsMerged := GetFilteredPRsForUser(user, prs, MergedBy);
      var prsOpen := GetFilteredPRsForUser(user, prs, OpenBy);
      var prsWaitingForReview := GetFilteredPRsForUser(user, prs, WaitingFor);
      assert users[..i + 1][..i] == users[..i];
      individualUserStats := individualUserStats[user.userId := IndividualUserStats(
        user.username, |prsCreated|, |prsReviewed|, |prsMerged|, |prsOpen|, |prsWaitingForReview|)];
    }
    assert users[..|users|] == users;
    r := stats.(individualUserStats := individualUserStats);
  }

  // ----- team extremes -----

  /** A running maximum: `init`, raised by every larger element in turn. */
  function RunningMax(init: int, xs: seq<int>): int {
    if xs == [] then init
    else
      var m := RunningMax(init, xs[..|xs| - 1]);
      if xs[|xs| - 1] > m then xs[|xs| - 1] else m
  }

  /** A running minimum: `init`, lowered by every smaller element in turn. */
  function RunningMin(init: int, xs: seq<int>): int {
    if xs == [] then init
    else
      var m := RunningMin(init, xs[..|xs| - 1]);
      if xs[|xs| - 1] < m then xs[|xs| - 1] else m
  }

  /** The running maximum is at least `init` and every element, and is `init` or one of the elements. */
  lemma {:induction false} RunningMaxBounds(init: int, xs: seq<int>)
    ensures RunningMax(init, xs) >= init
    ensures forall i :: 0 <= i < |xs| ==> RunningMax(init, xs) >= xs[i]
    ensures RunningMax(init, xs) == init || RunningMax(init, xs) in xs
    decreases |xs|
  {
    if xs != [] {
      var init' := xs[..|xs| - 1];
      RunningMaxBounds(init, init');
      assert forall x :: x in init' ==> x in xs;
      assert forall i :: 0 <= i < |init'| ==> xs[i] == init'[i];
    }
  }

  /** The running minimum is at most `init` and every element, and is `init` or one of the elements. */
  lemma {:induction false} RunningMinBounds(init: int, xs: seq<int>)
    ensures RunningMin(init, xs) <= init
    ensures forall i :: 0 <= i < |xs| ==> RunningMin(init, xs) <= xs[i]
    ensures RunningMin(init, xs) == init || RunningMin(init, xs) in xs
    decreases |xs|
  {
    if xs != [] {
      var init' := xs[..|xs| - 1];
      RunningMinBounds(init, init');
      assert forall x :: x in init' ==> x in xs;
      assert forall i :: 0 <= i < |init'| ==> xs[i] == init'[i];
    }
  }

  function Size(team: Team): int { |team.members| }
  function Active(team: Team): int { ActiveMembers(team.members) }
  function Inactive(team: Team): int { |team.members| - ActiveMembers(team.members) }

  /** One count per team, in team order. */
  function Project(teams: seq<Team>, f: Team -> int): (r: seq<int>)
    ensures |r| == |teams|
    ensures forall i :: 0 <= i < |teams| ==> r[i] == f(teams[i])
  {
    seq(|teams|, i requires 0 <= i < |teams| => f(teams[i]))
  }

  /** The start of the three minima: the first team's size, or the report's value when there is no team. */
  function LeastStart(teams: seq<Team>, current: int): int {
    if |teams| > 0 then |teams[0].members| else current
  }

  /** A running maximum over the teams is at least every team's count, and a team's count when it starts no higher than the first. */
  lemma MaxOverTeams(teams: seq<Team>, f: Team -> int, init: int)
    requires |teams| > 0
    ensures forall t :: t in teams ==> f(t) <= RunningMax(init, Project(teams, f))
    ensures init <= f(teams[0]) ==> exists t :: t in teams && RunningMax(init, Project(teams, f)) == f(t)
  {
    var xs := Project(teams, f);
    RunningMaxBounds(init, xs);
    forall t | t in teams ensures f(t) <= RunningMax(init, xs) {
      var i :| 0 <= i < |teams| && teams[i] == t;
      assert xs[i] == f(t);
    }
    if init <= f(teams[0]) {
      assert xs[0] == f(teams[0]);
      var i :| 0 <= i < |xs| && xs[i] == RunningMax(init, xs);
      assert teams[i] in teams;
    }
  }

  /** A running minimum over the teams is at most every team's count, and a team's count when it starts at the first. */
  lemma MinOverTeams(teams: seq<Team>, f: Team -> int, init: int)
    requires |teams| > 0
    ensures forall t :: t in teams ==> RunningMin(init, Project(teams, f)) <= f(t)
    ensures init == f(teams[0]) ==> exists t :: t in teams && RunningMin(init, Project(teams, f)) == f(t)
  {
    var xs := Project(teams, f);
    RunningMinBounds(init, xs);
    forall t | t in teams ensures RunningMin(init, xs) <= f(t) {
      var i :| 0 <= i < |teams| && teams[i] == t;
      assert xs[i] == f(t);
    }
    if init == f(teams[0]) {
      assert teams[0] in teams;
      if RunningMin(init, xs) != init {
        var i :| 0 <= i < |xs| && xs[i] == RunningMin(init, xs);
        assert teams[i] in teams;
      }
    }
  }

  /**
   * calculateTeamStats as written: the maxima start from the report's
   * values, the three minima from the first team's size, and the least
   * number of active members is never updated after that.
   */
  function TeamStatsOf(teams: seq<Team>, ts: TeamStats): TeamStats {
    TeamStats(
      |teams|,
      RunningMax(ts.mostMembersInTeam, Project(teams, Size)),
      RunningMin(LeastStart(teams, ts.leastMembersInTeam), Project(teams, Size)),
      RunningMax(ts.mostActiveMembersInTeam, Project(teams, Active)),
      LeastStart(teams, ts.leastActiveMembersInTeam),
      RunningMax(ts.mostInactiveMembersInTeam, Project(teams, Inactive)),
      RunningMin(LeastStart(teams, ts.leastInactiveMembersInTeam), Project(teams, Inactive)))
  }

  /** One team of calculateTeamStats's loop: the maxima raised, the least members and least inactive members lowered. */
  function TeamStep(ts: TeamStats, team: Team): TeamStats {
    ts.(mostMembersInTeam := if Size(team) > ts.mostMembersInTeam then Size(team) else ts.mostMembersInTeam,
        leastMembersInTeam := if Size(team) < ts.leastMembersInTeam then Size(team) else ts.leastMembersInTeam,
        mostActiveMembersInTeam := if Active(team) > ts.mostActiveMembersInTeam then Active(team) else ts.mostActiveMembersInTeam,
        mostInactiveMembersInTeam := if Inactive(team) > ts.mostInactiveMembersInTeam then Inactive(team) else ts.mostInactiveMembersInTeam,
        leastInactiveMembersInTeam := if Inactive(team) < ts.leastInactiveMembersInTeam then Inactive(team) else ts.leastInactiveMembersInTeam)
  }

  /** The extremes of `ts` are those of TeamStatsOf over the first `i` teams, from the report `start`. */
  ghost predicate TeamsRolled(ts: TeamStats, start: TeamStats, teams: seq<Team>, i: nat)
    requires i <= |teams|
  {
    && ts.total == |teams| && ts.leastActiveMembersInTeam == LeastStart(teams, start.leastActiveMembersInTeam)
    && ts.mostMembersInTeam == RunningMax(start.mostMembersInTeam, Project(teams, Size)[..i])
    && ts.leastMembersInTeam == RunningMin(LeastStart(teams, start.leastMembersInTeam), Project(teams, Size)[..i])
    && ts.mostActiveMembersInTeam == RunningMax(start.mostActiveMembersInTeam, Project(teams, Active)[..i])
    && ts.mostInactiveMembersInTeam == RunningMax(start.mostInactiveMembersInTeam, Project(teams, Inactive)[..i])
    && ts.leastInactiveMembersInTeam == RunningMin(LeastStart(teams, start.leastInactiveMembersInTeam), Project(teams, Inactive)[..i])
  }

  /** One more team extends the walked prefix by one. */
  lemma TeamsRolledStep(ts: TeamStats, start: TeamStats, teams: seq<Team>, i: nat)
    requires i < |teams| && TeamsRolled(ts, start, teams, i)
    ensures TeamsRolled(TeamStep(ts, teams[i]), start, teams, i + 1)
  {
    var sizes, actives, inactives := Project(teams, Size), Project(teams, Active), Project(teams, Inactive);
    assert sizes[..i + 1][..i] == sizes[..i] && actives[..i + 1][..i] == actives[..i] && inactives[..i + 1][..i] == inactives[..i];
  }

  /** Having walked every team, the extremes are TeamStatsOf's. */
  lemma TeamsRolledDone(ts: TeamStats, start: TeamStats, teams: seq<Team>)
    requires TeamsRolled(ts, start, teams, |teams|)
    ensures ts == TeamStatsOf(teams, start)
  {
    var sizes, actives, inactives := Project(teams, Size), Project(teams, Active), Project(teams, Inactive);
    assert sizes[..|teams|] == sizes && actives[..|teams|] == actives && inactives[..|teams|] == inactives;
  }

  /** The body of calculateTeamStats's loop. */
  method RollTeam(ts: TeamStats, team: Team) returns (r: TeamStats)
    ensures r == TeamStep(ts, team)
  {
    r := ts;
    if |team.members| > r.mostMembersInTeam {
      r := r.(mostMembersInTeam := |team.members|);
    }
    if |team.members| < r.leastMembersInTeam {
      r := r.(leastMembersInTeam := |team.members|);
    }
    var activeMembers, inactiveMembers := CountMembers(team.members);
    if activeMembers > r.mostActiveMembersInTeam {
      r := r.(mostActiveMembersInTeam := activeMembers);
    }
    if inactiveMembers > r.mostInactiveMembersInTeam {
      r := r.(mostInactiveMembersInTeam := inactiveMembers);
    }
    if inactiveMembers < r.leastInactiveMembersInTeam {
      r := r.(leastInactiveMembersInTeam := inactiveMembers);
    }
  }

  /** calculateTeamStats. */
  method CalculateTeamStats(teams: seq<Team>, stats: Stats) returns (r: Stats)
    ensures r == stats.(teamStats := TeamStatsOf(teams, stats.teamStats))
  {
    var ts := stats.teamStats.(total := |teams|);
    if |teams| > 0 {
      ts := ts.(leastMembersInTeam := |teams[0].members|,
                leastActiveMembersInTeam := |teams[0].members|,
                leastInactiveMembersInTeam := |teams[0].members|);
    }
    for i := 0 to |teams|
      invariant TeamsRolled(ts, stats.teamStats, teams, i)
    {
      TeamsRolledStep(ts, stats.teamStats, teams, i);
      ts := RollTeam(ts, teams[i]);
    }
    TeamsRolledDone(ts, stats.teamStats, teams);
    r := stats.(teamStats := ts);
  }

  /**
   * From a zeroed report and a non-empty team list: the most and least
   * members are the largest and smallest team sizes, the most active and
   * most inactive members are maxima, the least inactive members the
   * minimum, each the count of some team, and the least active members
   * are the first team's size.
   */
  lemma TeamStatsExtremes(teams: seq<Team>)
    requires |teams| > 0
    ensures var ts := TeamStatsOf(teams, EmptyStats.teamStats);
      && ts.total == |teams|
      && (forall t :: t in teams ==> ts.leastMembersInTeam <= Size(t) <= ts.mostMembersInTeam)
      && (exists t :: t in teams && ts.mostMembersInTeam == Size(t))
      && (exists t :: t in teams && ts.leastMembersInTeam == Size(t))
      && (forall t :: t in teams ==> Active(t) <= ts.mostActiveMembersInTeam)
      && (exists t :: t in teams && ts.mostActiveMembersInTeam == Active(t))
      && (forall t :: t in teams ==> ts.leastInactiveMembersInTeam <= Inactive(t) <= ts.mostInactiveMembersInTeam)
      && (exists t :: t in teams && ts.mostInactiveMembersInTeam == Inactive(t))
      && (exists t :: t in teams && ts.leastInactiveMembersInTeam == Inactive(t))
      && ts.leastActiveMembersInTeam == Size(teams[0])
  {
    var first := teams[0];
    assert Active(first) <= Size(first);
    MaxOverTeams(teams, Size, 0);
    MinOverTeams(teams, Size, Size(first));
    MaxOverTeams(teams, Active, 0);
    MaxOverTeams(teams, Inactive, 0);
    MinOverTeams(teams, Inactive, Size(first));
    InactiveLeastStart(teams);
  }

  /** The least inactive count starts at the first team's size, which is no smaller than its inactive count. */
  lemma InactiveLeastStart(teams: seq<Team>)
    requires |teams| > 0
    ensures exists t :: t in teams && RunningMin(Size(teams[0]), Project(teams, Inactive)) == Inactive(t)
  {
    var xs := Project(teams, Inactive);
    var ys := xs[..1];
    assert ys == [Inactive(teams[0])] && ys[..0] == [];
    MinPrefixStart(Size(teams[0]), xs);
    MinOverTeams(teams, Inactive, Inactive(teams[0]));
  }

  /** Starting a running minimum above the first element gives the same result as starting at it. */
  lemma {:induction false} MinPrefixStart(init: int, xs: seq<int>)
    requires |xs| > 0 && init >= xs[0]
    ensures RunningMin(init, xs) == RunningMin(xs[0], xs)
    decreases |xs|
  {
    if |xs| == 1 {
      assert xs[..0] == [];
    } else {
      var n := |xs| - 1;
      assert xs[..n][0] == xs[0];
      MinPrefixStart(init, xs[..n]);
    }
  }

  /**
   * The least number of active members is not the minimum of the teams'
   * active counts: a single team of two inactive members reports 2 although
   * it has no active member. A one-team instance of TeamStatsExtremes.
   */
  lemma LeastActiveIsFirstSize()
    ensures var team := Team("t", [TeamMember("a", "a", false), TeamMember("b", "b", false)]);
      && ActiveMembers(team.members) == 0
      && TeamStatsOf([team], EmptyStats.teamStats).leastActiveMembersInTeam == 2
  {
    var members := [TeamMember("a", "a", false), TeamMember("b", "b", false)];
    assert members[..1][..0] == [];
    assert members[..1] == [members[0]];
    assert ActiveMembers(members[..1]) == 0;
  }

  // ----- per-team sums -----

  /** A missing user id reads as the zero entry, as a Go map lookup does. */
  function Lookup(m: map<string, IndividualUserStats>, userId: string): IndividualUserStats {
    if userId in m then m[userId] else NoUserStats
  }

  function Created(s: IndividualUserStats): nat { s.prsCreated }
  function Reviewed(s: IndividualUserStats): nat { s.prsReviewed }
  function MergedCount(s: IndividualUserStats): nat { s.prsMerged }
  function OpenCount(s: IndividualUserStats): nat { s.prsOpen }
  function Waiting(s: IndividualUserStats): nat { s.prsWaitingForReview }

  /** The sum of one count over the members' entries. */
  function SumOver(members: seq<TeamMember>, m: map<string, IndividualUserStats>, f: IndividualUserStats -> nat): nat {
    if members == [] then 0
    else SumOver(members[..|members| - 1], m, f) + f(Lookup(m, members[|members| - 1].userId))
  }

  /** The entry calculateIndividualTeamStats records for one team. */
  function TeamEntry(team: Team, m: map<string, IndividualUserStats>): IndividualTeamStats {
    var active := ActiveMembers(team.members);
    IndividualTeamStats(
      |team.members|,
      active,
      |team.members| - active,
      SumOver(team.members, m, Created),
      SumOver(team.members, m, Reviewed),
      SumOver(team.members, m, MergedCount),
      SumOver(team.members, m, OpenCount),
      SumOver(team.members, m, Waiting))
  }

  /** The per-team map, filled team by team; a later team with the same name replaces the earlier entry. */
  function TeamStatsMap(teams: seq<Team>, m: map<string, IndividualUserStats>): map<string, IndividualTeamStats> {
    if teams == [] then map[]
    else
      var last := teams[|teams| - 1];
      TeamStatsMap(teams[..|teams| - 1], m)[last.teamName := TeamEntry(last, m)]
  }

  /** The per-team map has exactly one key per distinct team name. */
  lemma {:induction false} TeamStatsMapKeys(teams: seq<Team>, m: map<string, IndividualUserStats>)
    ensures TeamStatsMap(teams, m).Keys == set t | t in teams :: t.teamName
    decreases |teams|
  {
    if teams != [] {
      var n := |teams| - 1;
      TeamStatsMapKeys(teams[..n], m);
      assert teams == teams[..n] + [teams[n]];
    }
  }

  /** No team after position `i` has the name of the team at `i`. */
  predicate LastWithName(teams: seq<Team>, i: nat)
    requires i < |teams|
  {
    forall j :: i < j < |teams| ==> teams[j].teamName != teams[i].teamName
  }

  /** Each team's entry is TeamEntry of that team, the last team with a name deciding the entry. */
  lemma {:induction false} TeamStatsMapEntries(teams: seq<Team>, m: map<string, IndividualUserStats>, i: nat)
    requires i < |teams| && LastWithName(teams, i)
    ensures teams[i].teamName in TeamStatsMap(teams, m)
    ensures TeamStatsMap(teams, m)[teams[i].teamName] == TeamEntry(teams[i], m)
    decreases |teams|
  {
    var n := |teams| - 1;
    if i < n {
      var init := teams[..n];
      assert teams[i] == init[i];
      assert teams[n].teamName != teams[i].teamName;
      assert LastWithName(init, i) by {
        assert forall j :: i < j < |init| ==> init[j] == teams[j];
      }
      TeamStatsMapEntries(init, m, i);
    }
  }

  /** A team's member count splits into its active and inactive members. */
  lemma TeamEntryTotal(team: Team, m: map<string, IndividualUserStats>)
    ensures TeamEntry(team, m).totalMembers == TeamEntry(team, m).activeMembers + TeamEntry(team, m).inactiveMembers
    ensures TeamEntry(team, m).totalMembers == |team.members|
    ensures TeamEntry(team, m).activeMembers == |set i | 0 <= i < |team.members| && team.members[i].isActive|
  {
    CountPositions(team.members, IsActiveMember);
    assert Positions(team.members, IsActiveMember) == set i | 0 <= i < |team.members| && team.members[i].isActive;
  }

  /** Summing over members keeps a bound that holds entry by entry. */
  lemma {:induction false} SumOverBound(members: seq<TeamMember>, m: map<string, IndividualUserStats>)
    requires forall k :: k in m ==> m[k].prsMerged + m[k].prsOpen <= m[k].prsCreated
    ensures SumOver(members, m, MergedCount) + SumOver(members, m, OpenCount) <= SumOver(members, m, Created)
    decreases |members|
  {
    if members != [] {
      SumOverBound(members[..|members| - 1], m);
    }
  }

  /**
   * When every per-user entry has merged plus open at most created, so has
   * every team's entry.
   */
  lemma TeamMergedOpenBound(team: Team, m: map<string, IndividualUserStats>)
    requires forall k :: k in m ==> m[k].prsMerged + m[k].prsOpen <= m[k].prsCreated
    ensures TeamEntry(team, m).prsMerged + TeamEntry(team, m).prsOpen <= TeamEntry(team, m).prsCreated
  {
    SumOverBound(team.members, m);
  }

  /** The team loop of calculateIndividualTeamStats: counts and sums in one pass over the members. */
  method TeamEntryOf(team: Team, m: map<string, IndividualUserStats>) returns (entry: IndividualTeamStats)
    ensures entry == TeamEntry(team, m)
  {
    var members := team.members;
    var activeMembers, inactiveMembers := 0, 0;
    var prsCreated, prsReviewed, prsMerged, prsOpen, prsWaitingForReview := 0, 0, 0, 0, 0;
    for i := 0 to |members|
      invariant activeMembers == ActiveMembers(members[..i]) && activeMembers + inactiveMembers == i
      invariant prsCreated == SumOver(members[..i], m, Created)
      invariant prsReviewed == SumOver(members[..i], m, Reviewed)
      invariant prsMerged == SumOver(members[..i], m, MergedCount)
      invariant prsOpen == SumOver(members[..i], m, OpenCount)
      invariant prsWaitingForReview == SumOver(members[..i], m, Waiting)
    {
      var member := members[i];
      assert members[..i + 1][..i] == members[..i];
      if member.isActive {
        activeMembers := activeMembers + 1;
      } else {
        inactiveMembers := inactiveMembers + 1;
      }
      var s := Lookup(m, member.userId);
      prsCreated := prsCreated + s.prsCreated;
      prsReviewed := prsReviewed + s.prsReviewed;
      prsMerged := prsMerged + s.prsMerged;
      prsOpen := prsOpen + s.prsOpen;
      prsWaitingForReview := prsWaitingForReview + s.prsWaitingForReview;
    }
    assert members[..|members|] == members;
    entry := IndividualTeamStats(|members|, activeMembers, inactiveMembers,
      prsCreated, prsReviewed, prsMerged, prsOpen, prsWaitingForReview);
  }

  /** calculateIndividualTeamStats: the per-team map over the report's per-user map. */
  method CalculateIndividualTeamStats(teams: seq<Team>, stats: Stats) returns (r: Stats)
    ensures r == stats.(individualTeamStats := TeamStatsMap(teams, stats.individualUserStats))
  {
    var individualTeamStats := map[];
    for i := 0 to |teams|
      invariant individualTeamStats == TeamStatsMap(teams[..i], stats.individualUserStats)
    {
      var entry := TeamEntryOf(teams[i], stats.individualUserStats);
      assert teams[..i + 1][..i] == teams[..i];
      individualTeamStats := individualTeamStats[teams[i].teamName := entry];
    }
    assert teams[..|teams|] == teams;
    r := stats.(individualTeamStats := individualTeamStats);
  }

  // ----- pull request extremes -----

  /**
   * `v` is what a running maximum over the entries with the given keys
   * reaches from `init`, in any order: at least `init` and every entry, and
   * `init` or some entry.
   */
  ghost predicate IsMaxFrom(v: int, init: int, m: map<string, IndividualUserStats>, keys: set<string>, f: IndividualUserStats -> nat) {
    && v >= init
    && (forall k :: k in keys && k in m ==> v >= f(m[k]))
    && (v == init || exists k :: k in keys && k in m && v == f(m[k]))
  }

  /** The same for a running minimum. */
  ghost predicate IsMinFrom(v: int, init: int, m: map<string, IndividualUserStats>, keys: set<string>, f: IndividualUserStats -> nat) {
    && v <= init
    && (forall k :: k in keys && k in m ==> v <= f(m[k]))
    && (v == init || exists k :: k in keys && k in m && v == f(m[k]))
  }

  /** The result of the running maximum does not depend on the order the map is walked in. */
  lemma MaxFromUnique(v: int, w: int, init: int, m: map<string, IndividualUserStats>, f: IndividualUserStats -> nat)
    requires IsMaxFrom(v, init, m, m.Keys, f) && IsMaxFrom(w, init, m, m.Keys, f)
    ensures v == w
  {
    if v != init {
      var k :| k in m && v == f(m[k]);
      assert w >= v;
    }
    if w != init {
      var k :| k in m && w == f(m[k]);
      assert v >= w;
    }
  }

  /** The result of the running minimum does not depend on the order the map is walked in. */
  lemma MinFromUnique(v: int, w: int, init: int, m: map<string, IndividualUserStats>, f: IndividualUserStats -> nat)
    requires IsMinFrom(v, init, m, m.Keys, f) && IsMinFrom(w, init, m, m.Keys, f)
    ensures v == w
  {
    if v != init {
      var k :| k in m && v == f(m[k]);
      assert w <= v;
    }
    if w != init {
      var k :| k in m && w == f(m[k]);
      assert v <= w;
    }
  }

  function Raise(v: int, x: int): int { if x > v then x else v }
  function Lower(v: int, x: int): int { if x < v then x else v }

  /** One more key in a running maximum. */
  lemma MaxFromStep(v: int, init: int, m: map<string, IndividualUserStats>, keys: set<string>, k: string, f: IndividualUserStats -> nat)
    requires k in m && IsMaxFrom(v, init, m, keys, f)
    ensures IsMaxFrom(Raise(v, f(m[k])), init, m, keys + {k}, f)
  {
  }

  /** One more key in a running minimum. */
  lemma MinFromStep(v: int, init: int, m: map<string, IndividualUserStats>, keys: set<string>, k: string, f: IndividualUserStats -> nat)
    requires k in m && IsMinFrom(v, init, m, keys, f)
    ensures IsMinFrom(Lower(v, f(m[k])), init, m, keys + {k}, f)
  {
  }

  /** One entry of the per-user map raises the two maxima and lowers the two minima. */
  function Roll(ps: PullRequestStats, userStats: IndividualUserStats): PullRequestStats {
    ps.(mostPRsPerUser := Raise(ps.mostPRsPerUser, userStats.prsCreated),
        leastPRsPerUser := Lower(ps.leastPRsPerUser, userStats.prsCreated),
        mostPRsPerReviewer := Raise(ps.mostPRsPerReviewer, userStats.prsReviewed),
        leastPRsPerReviewer := Lower(ps.leastPRsPerReviewer, userStats.prsReviewed))
  }

  /**
   * The four extremes of `ps` are what running maxima and minima starting
   * from `start` reach over the entries with the given keys, in any order.
   */
  ghost predicate Rolled(ps: PullRequestStats, start: PullRequestStats, m: map<string, IndividualUserStats>, keys: set<string>) {
    && IsMaxFrom(ps.mostPRsPerUser, start.mostPRsPerUser, m, keys, Created)
    && IsMinFrom(ps.leastPRsPerUser, start.leastPRsPerUser, m, keys, Created)
    && IsMaxFrom(ps.mostPRsPerReviewer, start.mostPRsPerReviewer, m, keys, Reviewed)
    && IsMinFrom(ps.leastPRsPerReviewer, start.leastPRsPerReviewer, m, keys, Reviewed)
  }

  /** Rolling in one more entry extends the walked keys by its key. */
  lemma RolledStep(ps: PullRequestStats, start: PullRequestStats, m: map<string, IndividualUserStats>, keys: set<string>, k: string)
    requires k in m && Rolled(ps, start, m, keys)
    ensures Rolled(Roll(ps, m[k]), start, m, keys + {k})
  {
    MaxFromStep(ps.mostPRsPerUser, start.mostPRsPerUser, m, keys, k, Created);
    MinFromStep(ps.leastPRsPerUser, start.leastPRsPerUser, m, keys, k, Created);
    MaxFromStep(ps.mostPRsPerReviewer, start.mostPRsPerReviewer, m, keys, k, Reviewed);
    MinFromStep(ps.leastPRsPerReviewer, start.leastPRsPerReviewer, m, keys, k, Reviewed);
  }

  /** The body of calculatePullRequestStats's loop. */
  method RollEntry(ps: PullRequestStats, userStats: IndividualUserStats) returns (r: PullRequestStats)
    ensures r == Roll(ps, userStats)
  {
    r := ps;
    if userStats.prsCreated > r.mostPRsPerUser {
      r := r.(mostPRsPerUser := userStats.prsCreated);
    }
    if userStats.prsCreated < r.leastPRsPerUser {
      r := r.(leastPRsPerUser := userStats.prsCreated);
    }
    if userStats.prsReviewed > r.mostPRsPerReviewer {
      r := r.(mostPRsPerReviewer := userStats.prsReviewed);
    }
    if userStats.prsReviewed < r.leastPRsPerReviewer {
      r := r.(leastPRsPerReviewer := userStats.prsReviewed);
    }
  }

  /**
   * Where the walk starts: the report's values, except that the two minima
   * start at the first user's entry when the report counts any user.
   */
  function RollStart(users: seq<User>, stats: Stats): PullRequestStats
    requires stats.userStats.total > 0 ==> |users| > 0
  {
    var ps := stats.pullRequestStats;
    if stats.userStats.total > 0 then
      var first := Lookup(stats.individualUserStats, users[0].userId);
      ps.(leastPRsPerUser := first.prsCreated, leastPRsPerReviewer := first.prsReviewed)
    else ps
  }

  /**
   * calculatePullRequestStats: the number of pull requests, and the most
   * and least created and reviewed counts over the per-user entries,
   * walked in the map's order. The source indexes the first user whenever
   * the report counts users, so a caller must supply one then.
   */
  method CalculatePullRequestStats(users: seq<User>, prs: seq<PullRequest>, stats: Stats) returns (r: Stats)
    requires stats.userStats.total > 0 ==> |users| > 0
    ensures r == stats.(pullRequestStats := r.pullRequestStats)
    ensures r.pullRequestStats.total == |prs|
    ensures Rolled(r.pullRequestStats, RollStart(users, stats), stats.individualUserStats, stats.individualUserStats.Keys)
  {
    var m := stats.individualUserStats;
    var ps := stats.pullRequestStats.(total := |prs|);
    if stats.userStats.total > 0 {
      ps := ps.(leastPRsPerUser := Lookup(m, users[0].userId).prsCreated,
                leastPRsPerReviewer := Lookup(m, users[0].userId).prsReviewed);
    }
    ghost var start := RollStart(users, stats);
    var todo := m.Keys;
    ghost var done: set<string> := {};
    while todo != {}
      invariant todo + done == m.Keys && todo !! done
      invariant ps.total == |prs|
      invariant Rolled(ps, start, m, done)
      decreases todo
    {
      var k :| k in todo;
      var userStats := m[k];
      RolledStep(ps, start, m, done, k);
      ps := RollEntry(ps, userStats);
      todo := todo - {k};
      done := done + {k};
    }
    r := stats.(pullRequestStats := ps);
  }

  // ----- the report -----

  /** The first user's id, or none. */
  function FirstId(users: seq<User>): string {
    if |users| > 0 then users[0].userId else ""
  }

  /** Where GetStats's pull request extremes start: zero maxima, minima at the first user's entry. */
  function ExtremesStart(users: seq<User>, m: map<string, IndividualUserStats>): PullRequestStats {
    PullRequestStats(0, 0, Lookup(m, FirstId(users)).prsCreated, 0, Lookup(m, FirstId(users)).prsReviewed)
  }

  /**
   * GetStats over the three fetched lists (a failed fetch is an empty
   * list): the calculators in the source's order, from a zeroed report.
   */
  method GetStats(users: seq<User>, teams: seq<Team>, prs: seq<PullRequest>) returns (stats: Stats)
    ensures stats.userStats.total == |users|
    ensures stats.userStats.active == Count(users, IsActiveUser)
    ensures stats.userStats.active + stats.userStats.inactive == |users|
    ensures stats.individualUserStats == UserStatsMap(users, prs)
    ensures stats.teamStats == TeamStatsOf(teams, EmptyStats.teamStats)
    ensures stats.individualTeamStats == TeamStatsMap(teams, UserStatsMap(users, prs))
    ensures stats.pullRequestStats.total == |prs|
    ensures var m := UserStatsMap(users, prs);
      Rolled(stats.pullRequestStats, ExtremesStart(users, m), m, m.Keys)
  {
    stats := EmptyStats;
    stats := CalculateUserStats(users, stats);
    stats := CalculateIndividualUserStats(users, prs, stats);
    stats := CalculateTeamStats(teams, stats);
    stats := CalculateIndividualTeamStats(teams, stats);
    if |users| > 0 {
      UserStatsMapEntry(users, prs, 0);
    }
    stats := CalculatePullRequestStats(users, prs, stats);
  }

  /**
   * With at least one user, the reported pull request extremes are the
   * largest and smallest created and reviewed counts of the per-user
   * entries, each the count of some user.
   */
  lemma PullRequestExtremes(users: seq<User>, prs: seq<PullRequest>, ps: PullRequestStats)
    requires |users| > 0
    requires var m := UserStatsMap(users, prs); Rolled(ps, ExtremesStart(users, m), m, m.Keys)
    ensures var m := UserStatsMap(users, prs);
      && (forall k :: k in m ==> ps.leastPRsPerUser <= m[k].prsCreated <= ps.mostPRsPerUser)
      && (forall k :: k in m ==> ps.leastPRsPerReviewer <= m[k].prsReviewed <= ps.mostPRsPerReviewer)
      && (exists k :: k in m && ps.mostPRsPerUser == m[k].prsCreated)
      && (exists k :: k in m && ps.leastPRsPerUser == m[k].prsCreated)
      && (exists k :: k in m && ps.mostPRsPerReviewer == m[k].prsReviewed)
      && (exists k :: k in m && ps.leastPRsPerReviewer == m[k].prsReviewed)
  {
    var m := UserStatsMap(users, prs);
    var first := users[0].userId;
    UserStatsMapEntry(users, prs, 0);
    assert Created(m[first]) == m[first].prsCreated && Reviewed(m[first]) == m[first].prsReviewed;
    if ps.mostPRsPerUser == 0 {
      assert ps.mostPRsPerUser == m[first].prsCreated;
    }
    if ps.mostPRsPerReviewer == 0 {
      assert ps.mostPRsPerReviewer == m[first].prsReviewed;
    }
  }
}
