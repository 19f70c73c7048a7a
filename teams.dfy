/** server/src/routes/teams.js: creating a team in a league, joining one,
    and the two listings of a league's teams (the leaderboard, by points,
    and the team list, by draft order, which is `Models.TeamsByDraftOrder`).

    Neither route runs the admin check: any signed-in user may create or
    join a team. */
module Teams {
  import opened Outcomes
  import opened Ordering
  import opened Models
  import opened Text
  import opened Validation

  // ---------------------------------------------------------------------
  // create

  /** The guards of `POST /api/leagues/:leagueId/teams`, in the source's
      order: the name, the league, one team per user, and the league's
      team limit. On success, the team to create; the schema's trimming
      leaves the validated name as it is. */
  function CreateCheck(d: Db, uid: Uid, leagueId: Id, name: Option<string>): (r: Outcome<Team>)
    ensures r.Ok? ==> leagueId in d.leagues && !HasTeamIn(d.teams, leagueId, uid)
    ensures r.Ok? ==> r.value.members == [uid] && r.value.players == [] && r.value.leagueId == leagueId
  {
    var valid := ValidateTeamName(name.GetOr(""));
    if valid.Fail? then BadRequest(valid.message)
    else if leagueId !in d.leagues then NotFound("League not found")
    else if HasTeamIn(d.teams, leagueId, uid) then BadRequest("You already belong to a team in this league")
    else if TeamCount(d.teams, d.nextId, leagueId) >= d.leagues[leagueId].settings.maxTeams then
      BadRequest("League has reached maximum teams")
    else Ok(FreshTeam(leagueId, valid.value, uid, d.leagues[leagueId].settings.membersPerTeam))
  }

  /** A create goes ahead exactly for a valid name in an existing league
      where the user has no team and the team count is below `maxTeams`. */
  lemma CreateAccepted(d: Db, uid: Uid, leagueId: Id, name: Option<string>)
    ensures CreateCheck(d, uid, leagueId, name).Ok? <==>
      && ValidateTeamName(name.GetOr("")).Pass? && leagueId in d.leagues
      && !HasTeamIn(d.teams, leagueId, uid)
      && TeamCount(d.teams, d.nextId, leagueId) < d.leagues[leagueId].settings.maxTeams
  {
  }

  /** A created team has the validated, trimmed name, the creator as its
      only member, the league's `membersPerTeam` as its limit, and starts
      with no draft order, no points and an empty roster. */
  lemma CreatedTeam(d: Db, uid: Uid, leagueId: Id, name: Option<string>)
    requires CreateCheck(d, uid, leagueId, name).Ok?
    ensures var team := CreateCheck(d, uid, leagueId, name).value;
      && team.name == Trim(name.value) && IsTrimmed(team.name) && 2 <= Utf16Length(team.name) <= 50
      && team.maxMembers == d.leagues[leagueId].settings.membersPerTeam
      && team.draftOrder.None? && team.totalPoints == 0 && team.weeklyPoints == map[]
  {
  }

  /** The update of a successful create: the team under a new id. */
  function CreateApplied(d: Db, team: Team): Db {
    d.(teams := d.teams[d.nextId := team], nextId := d.nextId + 1)
  }

  lemma CreateKeepsValid(d: Db, uid: Uid, leagueId: Id, name: Option<string>)
    requires d.Valid() && CreateCheck(d, uid, leagueId, name).Ok?
    ensures CreateApplied(d, CreateCheck(d, uid, leagueId, name).value).Valid()
  {
    TeamAddedKeepsValid(d, CreateCheck(d, uid, leagueId, name).value, uid);
  }

  /** A create adds exactly one team to the league. */
  lemma CreateAddsOneTeam(d: Db, uid: Uid, leagueId: Id, name: Option<string>)
    requires IdsOk(d) && CreateCheck(d, uid, leagueId, name).Ok?
    ensures var d' := CreateApplied(d, CreateCheck(d, uid, leagueId, name).value);
      TeamCount(d'.teams, d'.nextId, leagueId) == TeamCount(d.teams, d.nextId, leagueId) + 1
  {
    AddedTeamCounted(d, CreateCheck(d, uid, leagueId, name).value, leagueId);
  }

  /** A create never takes the league past `maxTeams`. */
  lemma CreateWithinMaxTeams(d: Db, uid: Uid, leagueId: Id, name: Option<string>)
    requires IdsOk(d) && CreateCheck(d, uid, leagueId, name).Ok?
    ensures var d' := CreateApplied(d, CreateCheck(d, uid, leagueId, name).value);
      TeamCount(d'.teams, d'.nextId, leagueId) <= d.leagues[leagueId].settings.maxTeams
  {
    CreateAccepted(d, uid, leagueId, name);
    CreateAddsOneTeam(d, uid, leagueId, name);
  }

  lemma AddedTeamCounted(d: Db, team: Team, leagueId: Id)
    requires IdsOk(d) && team.leagueId == leagueId
    ensures var d' := CreateApplied(d, team);
      TeamCount(d'.teams, d'.nextId, leagueId) == TeamCount(d.teams, d.nextId, leagueId) + 1
  {
    TeamAddedCounted(d.teams, d.nextId, team);
  }

  /** `POST /api/leagues/:leagueId/teams`; on success the created team. */
  method CreateTeam(s: Store, uid: Uid, leagueId: Id, name: Option<string>) returns (o: Outcome<Team>)
    requires s.Valid()
    modifies s
    ensures s.Valid()
    ensures o == CreateCheck(old(s.State()), uid, leagueId, name)
    ensures !o.Ok? ==> s.State() == old(s.State())
    ensures o.Ok? ==> s.State() == CreateApplied(old(s.State()), o.value) && s.teams[old(s.nextId)] == o.value
  {
    o := CreateCheck(s.State(), uid, leagueId, name);
    if o.Ok? {
      CreateKeepsValid(s.State(), uid, leagueId, name);
      StoreTeam(s, o.value);
    }
  }

  /** `Team.create`: the team under the next id. */
  method StoreTeam(s: Store, team: Team)
    requires CreateApplied(s.State(), team).Valid()
    modifies s
    ensures s.Valid()
    ensures s.State() == CreateApplied(old(s.State()), team) && s.teams[old(s.nextId)] == team
  {
    ghost var d := s.State();
    s.teams := s.teams[s.nextId := team];
    s.nextId := s.nextId + 1;
    assert s.State() == CreateApplied(d, team);
  }

  // ---------------------------------------------------------------------
  // join

  /** The guards of `POST /api/leagues/:leagueId/teams/:teamId/join`, in
      the source's order: one team per user, a team of this league, and a
      team that is not full. */
  function JoinCheck(d: Db, uid: Uid, leagueId: Id, teamId: Id): (r: Outcome<()>)
    ensures r.Ok? ==> teamId in d.teams && d.teams[teamId].leagueId == leagueId
  {
    if HasTeamIn(d.teams, leagueId, uid) then BadRequest("You already belong to a team in this league")
    else if teamId !in d.teams || d.teams[teamId].leagueId != leagueId then NotFound("Team not found")
    else if |d.teams[teamId].members| >= d.teams[teamId].maxMembers then BadRequest("Team is full")
    else Ok(())
  }

  /** A join goes ahead exactly for a user with no team in the league and a
      team of the league with room left. */
  lemma JoinAccepted(d: Db, uid: Uid, leagueId: Id, teamId: Id)
    ensures JoinCheck(d, uid, leagueId, teamId).Ok? <==>
      && !HasTeamIn(d.teams, leagueId, uid) && teamId in d.teams && d.teams[teamId].leagueId == leagueId
      && |d.teams[teamId].members| < d.teams[teamId].maxMembers
  {
  }

  /** The update of a successful join. */
  function JoinApplied(d: Db, uid: Uid, teamId: Id): Db
    requires teamId in d.teams
  {
    d.(teams := WithMember(d.teams, teamId, uid))
  }

  lemma JoinKeepsValid(d: Db, uid: Uid, leagueId: Id, teamId: Id)
    requires d.Valid() && JoinCheck(d, uid, leagueId, teamId).Ok?
    ensures JoinApplied(d, uid, teamId).Valid()
  {
    MemberAddedKeepsValid(d, teamId, uid);
  }

  /** A join appends the user to the team, which is then still within
      `maxMembers`. */
  lemma JoinWithinMaxMembers(d: Db, uid: Uid, leagueId: Id, teamId: Id)
    requires JoinCheck(d, uid, leagueId, teamId).Ok?
    ensures var team := JoinApplied(d, uid, teamId).teams[teamId];
      team.members == d.teams[teamId].members + [uid] && |team.members| <= team.maxMembers
  {
  }

  /** After a create or a join the user is on exactly one team of the
      league: the created or joined one. */
  lemma OneTeamPerUser(d: Db, uid: Uid, leagueId: Id, name: Option<string>, teamId: Id)
    ensures CreateCheck(d, uid, leagueId, name).Ok? ==>
      var d' := CreateApplied(d, CreateCheck(d, uid, leagueId, name).value);
      forall t :: t in d'.teams && d'.teams[t].leagueId == leagueId && uid in d'.teams[t].members ==> t == d.nextId
    ensures JoinCheck(d, uid, leagueId, teamId).Ok? ==>
      var d' := JoinApplied(d, uid, teamId);
      forall t :: t in d'.teams && d'.teams[t].leagueId == leagueId && uid in d'.teams[t].members ==> t == teamId
  {
  }

  /** `POST /api/leagues/:leagueId/teams/:teamId/join`; on success the team
      as saved. */
  method JoinTeam(s: Store, uid: Uid, leagueId: Id, teamId: Id) returns (o: Outcome<Team>)
    requires s.Valid()
    modifies s
    ensures s.Valid()
    ensures var c := JoinCheck(old(s.State()), uid, leagueId, teamId);
      && (!c.Ok? ==> o == c.Forward() && s.State() == old(s.State()))
      && (c.Ok? ==> s.State() == JoinApplied(old(s.State()), uid, teamId) && o == Ok(s.teams[teamId]))
  {
    var check := JoinCheck(s.State(), uid, leagueId, teamId);
    if !check.Ok? {
      return check.Forward();
    }
    JoinKeepsValid(s.State(), uid, leagueId, teamId);
    s.teams := WithMember(s.teams, teamId, uid);
    return Ok(s.teams[teamId]);
  }

  // ---------------------------------------------------------------------
  // leaderboard

  /** A team's `totalPoints`; 0 for an unknown id. */
  function PointsOf(teams: map<Id, Team>, t: Id): int {
    if t in teams then teams[t].totalPoints else 0
  }

  /** The order of `.sort({ totalPoints: -1 })`. */
  function ByPointsDesc(teams: map<Id, Team>): (Id, Id) -> bool {
    (a: Id, b: Id) => PointsOf(teams, a) >= PointsOf(teams, b)
  }

  lemma ByPointsDescPreorder(teams: map<Id, Team>)
    ensures TotalPreorder(ByPointsDesc(teams))
  {
  }

  /** `GET /api/leagues/:leagueId/teams/leaderboard`: the league's teams,
      highest `totalPoints` first. */
  function Leaderboard(d: Db, leagueId: Id): (r: seq<Id>)
    ensures multiset(r) == multiset(TeamsInLeague(d.teams, d.nextId, leagueId))
    ensures forall t :: t in r <==> t in d.teams && d.teams[t].leagueId == leagueId && t < d.nextId
    ensures Sorted(r, ByPointsDesc(d.teams))
  {
    ByPointsDescPreorder(d.teams);
    SortBySorted(TeamsInLeague(d.teams, d.nextId, leagueId), ByPointsDesc(d.teams));
    var r := SortBy(TeamsInLeague(d.teams, d.nextId, leagueId), ByPointsDesc(d.teams));
    assert forall t :: t in r <==> t in multiset(r);
    r
  }

  /** Every team on the leaderboard has at least the points of every team
      below it, and each of the league's teams appears on it exactly once. */
  lemma LeaderboardRanks(d: Db, leagueId: Id)
    ensures var r := Leaderboard(d, leagueId);
      forall i, j :: 0 <= i < j < |r| ==> d.teams[r[i]].totalPoints >= d.teams[r[j]].totalPoints
    ensures var r := Leaderboard(d, leagueId);
      forall t :: t in d.teams && d.teams[t].leagueId == leagueId && t < d.nextId ==> multiset(r)[t] == 1
  {
    var r := Leaderboard(d, leagueId);
    var ids := TeamsInLeague(d.teams, d.nextId, leagueId);
    forall i, j | 0 <= i < j < |r|
      ensures d.teams[r[i]].totalPoints >= d.teams[r[j]].totalPoints
    {
      assert ByPointsDesc(d.teams)(r[i], r[j]);
    }
    forall t | t in d.teams && d.teams[t].leagueId == leagueId && t < d.nextId
      ensures multiset(r)[t] == 1
    {
      IncreasingCountsOnce(ids, t);
    }
  }
}
