/** The records of server/src/models (League, Team, Player, Invite, Week,
    ScoringEvent) and the database that holds them.

    The database is a `Store` object whose collections are maps from id to
    record; invites are keyed by their code, which the schema declares
    unique. Ids are handed out from the counter `nextId`, so they increase
    with creation time: creation order (`createdAt`, and the order in which
    an unsorted `find` lists records) is ascending id order. `Db` is the
    value of the whole store, on which the invariants and queries are
    stated. */
module Models {
  import opened Outcomes
  import opened Ordering

  /** An ObjectId. */
  type Id = nat

  /** A Firebase user id. */
  type Uid = string

  datatype LeagueStatus = Setup | Draft | Active | Final

  /** The names of the statuses, as stored. */
  const StatusNames: seq<string> := ["setup", "draft", "active", "final"]

  function StatusNamed(name: string): (r: LeagueStatus)
    requires name in StatusNames
    ensures StatusName(r) == name
  {
    if name == "setup" then Setup else if name == "draft" then Draft
    else if name == "active" then Active else Final
  }

  function StatusName(s: LeagueStatus): string {
    match s
    case Setup => "setup"
    case Draft => "draft"
    case Active => "active"
    case Final => "final"
  }

  /** `settings.draft`; the draft type can only be 'snake' and is left out. */
  datatype DraftSettings = DraftSettings(pickSeconds: int, randomizedOrder: bool)

  /** `settings.invites`. */
  datatype InviteSettings = InviteSettings(allowTeamInvites: bool, allowLeagueInvites: bool)

  datatype Settings = Settings(
    show: string,
    seasonLabel: string,
    maxTeams: int,
    membersPerTeam: int,
    draft: DraftSettings,
    invites: InviteSettings,
    scoringRules: map<string, int>)

  datatype League = League(
    leagueName: string,
    ownerUid: Uid,
    admins: seq<Uid>,
    settings: Settings,
    draftCompleted: bool,
    status: LeagueStatus)

  /** `draftOrder` is null until a draft starts; `players` is the roster,
      in pick order. */
  datatype Team = Team(
    leagueId: Id,
    name: string,
    members: seq<Uid>,
    maxMembers: int,
    draftOrder: Option<int>,
    totalPoints: int,
    weeklyPoints: map<string, int>,
    players: seq<Id>)

  /** `meta.tribe` may be absent; `meta.status` is one of `PlayerStatusNames`
      on import. */
  datatype Meta = Meta(tribe: Option<string>, status: string)

  /** The player statuses the schema allows. */
  const PlayerStatusNames: seq<string> := ["active", "voted_out", "jury", "finalist", "winner"]

  datatype Player = Player(
    leagueId: Id,
    name: string,
    photoUrl: string,
    meta: Meta,
    draftedBy: Option<Id>,
    totalPoints: int,
    weeklyPoints: map<string, int>)

  datatype InviteType = LeagueInvite | TeamInvite

  /** `expiresAt` is a time in the same unit as the clock given to
      redemption. */
  datatype Invite = Invite(
    leagueId: Id,
    inviteType: InviteType,
    teamId: Option<Id>,
    code: string,
    multiUse: bool,
    uses: nat,
    maxUses: Option<int>,
    expiresAt: Option<int>,
    createdBy: Uid)

  datatype WeekStatus = Open | Closed

  datatype Week = Week(
    leagueId: Id,
    weekNumber: int,
    episodeDate: Option<int>,
    title: string,
    status: WeekStatus,
    scoringFinalized: bool)

  datatype ScoringEvent = ScoringEvent(
    leagueId: Id,
    week: int,
    player: Id,
    eventType: string,
    description: string,
    points: int)

  /** The value of the whole database. */
  datatype Db = Db(
    leagues: map<Id, League>,
    teams: map<Id, Team>,
    players: map<Id, Player>,
    invites: map<string, Invite>,
    weeks: map<Id, Week>,
    events: map<Id, ScoringEvent>,
    nextId: nat)
  {
    /** What every handler keeps true of the database. */
    ghost predicate Valid() {
      LeaguesOk(leagues) && MembershipOk(teams) && RostersOk(teams, players, nextId)
      && InvitesOk(invites, teams, nextId) && WeeksOk(weeks) && IdsOk(this)
    }
  }

  /** The ranges the handlers validate league limits against. */
  predicate SettingsOk(s: Settings) {
    2 <= s.maxTeams <= 20 && 1 <= s.membersPerTeam <= 10
  }

  ghost predicate LeaguesOk(leagues: map<Id, League>) {
    forall l :: l in leagues ==> SettingsOk(leagues[l].settings)
  }

  /** No user is in both member lists. */
  predicate Disjoint(a: seq<Uid>, b: seq<Uid>) {
    forall u :: u in a ==> u !in b
  }

  /** No team has more members than `maxMembers`, and no user is a member
      of two teams of one league. */
  ghost predicate MembershipOk(teams: map<Id, Team>) {
    (forall t :: t in teams ==> |teams[t].members| <= teams[t].maxMembers)
    && (forall t1, t2 :: t1 in teams && t2 in teams && t1 != t2 && teams[t1].leagueId == teams[t2].leagueId
          ==> Disjoint(teams[t1].members, teams[t2].members))
  }

  /** Rosters agree with `draftedBy`: a player is on a team's roster exactly
      when the team drafted it; a drafting team is in the player's league;
      and rosters and `draftedBy` only name ids already handed out (a
      deleted player's id can stay on a roster, but is never reused). */
  ghost predicate RostersOk(teams: map<Id, Team>, players: map<Id, Player>, nextId: nat) {
    (forall p, t :: p in players && t in teams ==> (p in teams[t].players <==> players[p].draftedBy == Some(t)))
    && (forall p :: p in players && players[p].draftedBy.Some? && players[p].draftedBy.value in teams
          ==> teams[players[p].draftedBy.value].leagueId == players[p].leagueId)
    && (forall p :: p in players && players[p].draftedBy.Some? ==> players[p].draftedBy.value < nextId)
    && (forall t, k :: t in teams && 0 <= k < |teams[t].players| ==> teams[t].players[k] < nextId)
  }

  /** An invite is stored under its code; `uses` stays within `maxUses`,
      which is 1..1000 when set; a single-use invite is used at most once;
      a team invite names a team of its own league (by an id already handed
      out) and a league invite names none. */
  ghost predicate InviteOk(code: string, inv: Invite, teams: map<Id, Team>, nextId: nat) {
    && inv.code == code
    && (inv.maxUses.Some? ==> 1 <= inv.maxUses.value <= 1000 && inv.uses <= inv.maxUses.value)
    && (!inv.multiUse ==> inv.uses <= 1)
    && (inv.inviteType == LeagueInvite ==> inv.teamId.None?)
    && (inv.teamId.Some? ==> inv.teamId.value < nextId)
    && (inv.teamId.Some? && inv.teamId.value in teams ==> teams[inv.teamId.value].leagueId == inv.leagueId)
  }

  ghost predicate InvitesOk(invites: map<string, Invite>, teams: map<Id, Team>, nextId: nat) {
    forall c :: c in invites ==> InviteOk(c, invites[c], teams, nextId)
  }

  /** The unique index on (leagueId, weekNumber), and week numbers in 1..100. */
  ghost predicate WeeksOk(weeks: map<Id, Week>) {
    (forall w :: w in weeks ==> 1 <= weeks[w].weekNumber <= 100)
    && (forall w1, w2 :: w1 in weeks && w2 in weeks && w1 != w2 && weeks[w1].leagueId == weeks[w2].leagueId
          ==> weeks[w1].weekNumber != weeks[w2].weekNumber)
  }

  /** Every id in use was handed out before `nextId`. */
  ghost predicate IdsOk(d: Db) {
    (forall l :: l in d.leagues ==> l < d.nextId)
    && (forall t :: t in d.teams ==> t < d.nextId)
    && (forall p :: p in d.players ==> p < d.nextId)
    && (forall w :: w in d.weeks ==> w < d.nextId)
    && (forall e :: e in d.events ==> e < d.nextId)
  }

  /** The database. Handlers (one module per route file) read and update
      its collections in place. */
  class Store {
    var leagues: map<Id, League>
    var teams: map<Id, Team>
    var players: map<Id, Player>
    var invites: map<string, Invite>
    var weeks: map<Id, Week>
    var events: map<Id, ScoringEvent>
    var nextId: nat

    /** The current value of the database. */
    function State(): Db
      reads this
    {
      Db(leagues, teams, players, invites, weeks, events, nextId)
    }

    ghost predicate Valid()
      reads this
    {
      State().Valid()
    }

    /** An empty database. */
    constructor ()
      ensures State() == Db(map[], map[], map[], map[], map[], map[], 0)
      ensures Valid()
    {
      leagues, teams, players, invites, weeks, events, nextId := map[], map[], map[], map[], map[], map[], 0;
    }
  }

  // ---------------------------------------------------------------------
  // Queries shared by several routes

  /** `Team.find({ leagueId })`, in creation order. */
  function TeamsInLeague(teams: map<Id, Team>, nextId: nat, leagueId: Id): (r: seq<Id>)
    ensures forall t :: t in r <==> t in teams && teams[t].leagueId == leagueId && t < nextId
    ensures Increasing(r)
  {
    var keep := (t: Id) => t in teams && teams[t].leagueId == leagueId;
    IdsBelowIncreasing(teams.Keys, nextId);
    SelectIncreasing(IdsBelow(teams.Keys, nextId), keep);
    Select(IdsBelow(teams.Keys, nextId), keep)
  }

  /** `Player.find({ leagueId })`, in creation order. */
  function PlayersInLeague(players: map<Id, Player>, nextId: nat, leagueId: Id): (r: seq<Id>)
    ensures forall p :: p in r <==> p in players && players[p].leagueId == leagueId && p < nextId
    ensures Increasing(r)
  {
    var keep := (p: Id) => p in players && players[p].leagueId == leagueId;
    IdsBelowIncreasing(players.Keys, nextId);
    SelectIncreasing(IdsBelow(players.Keys, nextId), keep);
    Select(IdsBelow(players.Keys, nextId), keep)
  }

  /** `Team.findOne({ leagueId, members: uid })` finds a team. */
  predicate HasTeamIn(teams: map<Id, Team>, leagueId: Id, uid: Uid) {
    exists t :: t in teams && teams[t].leagueId == leagueId && uid in teams[t].members
  }

  /** `Team.countDocuments({ leagueId })`. */
  function TeamCount(teams: map<Id, Team>, nextId: nat, leagueId: Id): nat {
    |TeamsInLeague(teams, nextId, leagueId)|
  }

  /** The drafted players of a league, in creation order. */
  function DraftedInLeague(players: map<Id, Player>, nextId: nat, leagueId: Id): (r: seq<Id>)
    ensures forall p :: p in r <==>
      p in players && players[p].leagueId == leagueId && players[p].draftedBy.Some? && p < nextId
  {
    Select(PlayersInLeague(players, nextId, leagueId), p => p in players && players[p].draftedBy.Some?)
  }

  /** `Player.countDocuments({ leagueId, draftedBy: { $ne: null } })`. */
  function DraftedCount(players: map<Id, Player>, nextId: nat, leagueId: Id): nat {
    |DraftedInLeague(players, nextId, leagueId)|
  }

  /** A team's draft order; null for an unknown id. */
  function DraftOrderOf(teams: map<Id, Team>, t: Id): Option<int> {
    if t in teams then teams[t].draftOrder else None
  }

  /** The order of `.sort({ draftOrder: 1 })`. */
  function ByDraftOrder(teams: map<Id, Team>): (Id, Id) -> bool {
    (a: Id, b: Id) => NullFirstLeq(DraftOrderOf(teams, a), DraftOrderOf(teams, b))
  }

  lemma ByDraftOrderPreorder(teams: map<Id, Team>)
    ensures TotalPreorder(ByDraftOrder(teams))
  {
  }

  /** `Team.find({ leagueId }).sort({ draftOrder: 1 })`: the league's teams,
      ascending by draft order, null first. */
  function TeamsByDraftOrder(teams: map<Id, Team>, nextId: nat, leagueId: Id): (r: seq<Id>)
    ensures multiset(r) == multiset(TeamsInLeague(teams, nextId, leagueId))
    ensures forall t :: t in r <==> t in teams && teams[t].leagueId == leagueId && t < nextId
    ensures Sorted(r, ByDraftOrder(teams))
  {
    ByDraftOrderPreorder(teams);
    SortBySorted(TeamsInLeague(teams, nextId, leagueId), ByDraftOrder(teams));
    var r := SortBy(TeamsInLeague(teams, nextId, leagueId), ByDraftOrder(teams));
    assert forall t :: t in r <==> t in multiset(r);
    r
  }

  /** Two team collections that differ at most in `players`, the points
      and the names keep the same listing by draft order. */
  predicate SameDraftOrders(a: map<Id, Team>, b: map<Id, Team>) {
    a.Keys == b.Keys
    && forall t :: t in a ==> a[t].leagueId == b[t].leagueId && a[t].draftOrder == b[t].draftOrder
  }

  lemma SameDraftOrdersListing(a: map<Id, Team>, b: map<Id, Team>, nextId: nat, leagueId: Id)
    requires SameDraftOrders(a, b)
    ensures TeamsInLeague(a, nextId, leagueId) == TeamsInLeague(b, nextId, leagueId)
    ensures TeamsByDraftOrder(a, nextId, leagueId) == TeamsByDraftOrder(b, nextId, leagueId)
  {
    var ids := IdsBelow(a.Keys, nextId);
    SelectAgree(ids, t => t in a && a[t].leagueId == leagueId, t => t in b && b[t].leagueId == leagueId);
    var s := TeamsInLeague(a, nextId, leagueId);
    SortByAgree(s, ByDraftOrder(a), ByDraftOrder(b));
  }

  // ---------------------------------------------------------------------
  // Frame lemmas: updates that keep the invariants because they leave the
  // fields the invariants speak of unchanged

  /** Two team collections with the same teams, leagues, members, limits
      and rosters (they may differ in names, draft orders and points). */
  predicate SameTeamShape(a: map<Id, Team>, b: map<Id, Team>) {
    a.Keys == b.Keys
    && forall t :: t in a ==>
      a[t].leagueId == b[t].leagueId && a[t].members == b[t].members
      && a[t].maxMembers == b[t].maxMembers && a[t].players == b[t].players
  }

  /** Two player collections with the same players, leagues and drafting
      teams (they may differ in names, photos, metadata and points). */
  predicate SamePlayerShape(a: map<Id, Player>, b: map<Id, Player>) {
    a.Keys == b.Keys
    && forall p :: p in a ==> a[p].leagueId == b[p].leagueId && a[p].draftedBy == b[p].draftedBy
  }

  lemma TeamShapeKeepsValid(d: Db, teams: map<Id, Team>)
    requires d.Valid() && SameTeamShape(d.teams, teams)
    ensures d.(teams := teams).Valid()
  {
    var d' := d.(teams := teams);
    assert RostersOk(teams, d.players, d.nextId) by {
      forall p, t | p in d.players && t in teams
        ensures p in teams[t].players <==> d.players[p].draftedBy == Some(t)
      {
        assert t in d.teams;
      }
    }
    assert InvitesOk(d.invites, teams, d.nextId) by {
      forall c | c in d.invites
        ensures InviteOk(c, d.invites[c], teams, d.nextId)
      {
        assert InviteOk(c, d.invites[c], d.teams, d.nextId);
      }
    }
  }

  lemma PlayerShapeKeepsValid(d: Db, players: map<Id, Player>)
    requires d.Valid() && SamePlayerShape(d.players, players)
    ensures d.(players := players).Valid()
  {
    assert RostersOk(d.teams, players, d.nextId) by {
      forall p, t | p in players && t in d.teams
        ensures p in d.teams[t].players <==> players[p].draftedBy == Some(t)
      {
        assert p in d.players;
      }
    }
  }

  /** Two team collections with the same teams, leagues, members and
      limits (they may differ in rosters, names, draft orders and points). */
  predicate SameMembers(a: map<Id, Team>, b: map<Id, Team>) {
    a.Keys == b.Keys
    && forall t :: t in a ==>
      a[t].leagueId == b[t].leagueId && a[t].members == b[t].members && a[t].maxMembers == b[t].maxMembers
  }

  /** An update of rosters and drafting teams keeps every invariant when
      the rosters still agree with the players. */
  lemma RostersKeepValid(d: Db, teams: map<Id, Team>, players: map<Id, Player>)
    requires d.Valid() && SameMembers(d.teams, teams) && players.Keys == d.players.Keys
    requires RostersOk(teams, players, d.nextId)
    ensures d.(teams := teams, players := players).Valid()
  {
    assert InvitesOk(d.invites, teams, d.nextId) by {
      forall c | c in d.invites
        ensures InviteOk(c, d.invites[c], teams, d.nextId)
      {
        assert InviteOk(c, d.invites[c], d.teams, d.nextId);
      }
    }
  }

  /** Storing a league under an id already handed out keeps every
      invariant, so long as its settings are in range. */
  lemma LeagueKeepsValid(d: Db, l: Id, league: League)
    requires d.Valid() && l < d.nextId && SettingsOk(league.settings)
    ensures d.(leagues := d.leagues[l := league]).Valid()
  {
  }

  /** Storing a new league under a new id keeps every invariant, so long
      as its settings are in range. */
  lemma LeagueAddedKeepsValid(d: Db, league: League)
    requires d.Valid() && SettingsOk(league.settings)
    ensures d.(leagues := d.leagues[d.nextId := league], nextId := d.nextId + 1).Valid()
  {
    FreshIdKeepsValid(d);
    LeagueKeepsValid(d.(nextId := d.nextId + 1), d.nextId, league);
  }

  /** Drafting one more player of a league raises the league's drafted
      count by exactly one. */
  lemma DraftedCountOneMore(players: map<Id, Player>, nextId: nat, p: Id, t: Id)
    requires p in players && p < nextId && players[p].draftedBy.None?
    ensures var leagueId := players[p].leagueId;
      var players' := players[p := players[p].(draftedBy := Some(t))];
      DraftedCount(players', nextId, leagueId) == DraftedCount(players, nextId, leagueId) + 1
  {
    var leagueId := players[p].leagueId;
    var players' := players[p := players[p].(draftedBy := Some(t))];
    var ids := IdsBelow(players.Keys, nextId);
    assert players'.Keys == players.Keys;
    SelectAgree(ids, (q: Id) => q in players && players[q].leagueId == leagueId,
      (q: Id) => q in players' && players'[q].leagueId == leagueId);
    var inLeague := PlayersInLeague(players, nextId, leagueId);
    assert PlayersInLeague(players', nextId, leagueId) == inLeague;
    SelectOneMore(inLeague, (q: Id) => q in players && players[q].draftedBy.Some?,
      (q: Id) => q in players' && players'[q].draftedBy.Some?, p);
  }

  /** Changing names, draft orders or points of players and teams, adding
      or removing scoring events and handing out ids keeps every invariant. */
  lemma PointsKeepValid(d: Db, players: map<Id, Player>, teams: map<Id, Team>, events: map<Id, ScoringEvent>, nextId: nat)
    requires d.Valid() && SamePlayerShape(d.players, players) && SameTeamShape(d.teams, teams)
    requires d.nextId <= nextId && forall e :: e in events ==> e < nextId
    ensures d.(players := players, teams := teams, events := events, nextId := nextId).Valid()
  {
    assert RostersOk(teams, players, nextId) by {
      forall p, t | p in players && t in teams
        ensures p in teams[t].players <==> players[p].draftedBy == Some(t)
      {
        assert p in d.players && t in d.teams;
      }
      forall t, k | t in teams && 0 <= k < |teams[t].players|
        ensures teams[t].players[k] < nextId
      {
        assert t in d.teams;
      }
    }
    assert InvitesOk(d.invites, teams, nextId) by {
      forall c | c in d.invites
        ensures InviteOk(c, d.invites[c], teams, nextId)
      {
        assert InviteOk(c, d.invites[c], d.teams, d.nextId);
      }
    }
  }

  /** Storing a scoring event under a new id, with points moved. */
  lemma EventAddedKeepsValid(d: Db, players: map<Id, Player>, teams: map<Id, Team>, e: ScoringEvent)
    requires d.Valid() && SamePlayerShape(d.players, players) && SameTeamShape(d.teams, teams)
    ensures d.(players := players, teams := teams, events := d.events[d.nextId := e], nextId := d.nextId + 1).Valid()
  {
    PointsKeepValid(d, players, teams, d.events[d.nextId := e], d.nextId + 1);
  }

  /** Removing a scoring event, with points moved. */
  lemma EventRemovedKeepsValid(d: Db, players: map<Id, Player>, teams: map<Id, Team>, eventId: Id)
    requires d.Valid() && SamePlayerShape(d.players, players) && SameTeamShape(d.teams, teams)
    ensures d.(players := players, teams := teams, events := d.events - {eventId}).Valid()
  {
    PointsKeepValid(d, players, teams, d.events - {eventId}, d.nextId);
    assert d.(players := players, teams := teams, events := d.events - {eventId})
      == d.(players := players, teams := teams, events := d.events - {eventId}, nextId := d.nextId);
  }

  /** `Team.create({ leagueId, name, members: [uid], maxMembers })`: the
      other fields take the schema's defaults (no draft order, no points,
      an empty roster). */
  function FreshTeam(leagueId: Id, name: string, uid: Uid, maxMembers: int): Team {
    Team(leagueId, name, [uid], maxMembers, None, 0, map[], [])
  }

  /** `team.members.push(uid)`. */
  function WithMember(teams: map<Id, Team>, t: Id, uid: Uid): (r: map<Id, Team>)
    requires t in teams
    ensures r.Keys == teams.Keys
    ensures r[t].members == teams[t].members + [uid]
    ensures forall t' :: t' in teams && t' != t ==> r[t'] == teams[t']
  {
    teams[t := teams[t].(members := teams[t].members + [uid])]
  }

  /** `invite.uses += 1`. */
  function UseInvite(invites: map<string, Invite>, code: string): (r: map<string, Invite>)
    requires code in invites
    ensures r.Keys == invites.Keys
    ensures r[code].uses == invites[code].uses + 1
    ensures forall c :: c in invites && c != code ==> r[c] == invites[c]
  {
    invites[code := invites[code].(uses := invites[code].uses + 1)]
  }

  /** Adding a user who is on no team of the league to a team of it that
      is not full keeps every invariant. */
  lemma MemberAddedKeepsValid(d: Db, t: Id, uid: Uid)
    requires d.Valid() && t in d.teams && |d.teams[t].members| < d.teams[t].maxMembers
    requires !HasTeamIn(d.teams, d.teams[t].leagueId, uid)
    ensures d.(teams := WithMember(d.teams, t, uid)).Valid()
  {
    var teams := WithMember(d.teams, t, uid);
    MembershipAfterJoin(d.teams, t, uid);
    RostersSameRosters(d.teams, teams, d.players, d.nextId);
    InvitesWithGrownTeams(d.invites, d.teams, teams, d.nextId, d.nextId);
  }

  /** A member joining a team with room, who is on no team of its league,
      keeps the membership invariant. */
  lemma MembershipAfterJoin(teams: map<Id, Team>, t: Id, uid: Uid)
    requires MembershipOk(teams) && t in teams && |teams[t].members| < teams[t].maxMembers
    requires !HasTeamIn(teams, teams[t].leagueId, uid)
    ensures MembershipOk(WithMember(teams, t, uid))
  {
    var teams' := WithMember(teams, t, uid);
    forall t1, t2 | t1 in teams' && t2 in teams' && t1 != t2 && teams'[t1].leagueId == teams'[t2].leagueId
      ensures Disjoint(teams'[t1].members, teams'[t2].members)
    {
      if t1 == t {
        assert uid !in teams[t2].members;
      } else if t2 == t {
        assert uid !in teams[t1].members;
      }
    }
  }

  /** Changing teams without touching their leagues and rosters keeps the
      roster invariant. */
  lemma RostersSameRosters(teams: map<Id, Team>, teams': map<Id, Team>, players: map<Id, Player>, nextId: nat)
    requires RostersOk(teams, players, nextId) && teams'.Keys == teams.Keys
    requires forall t :: t in teams ==> teams'[t].players == teams[t].players && teams'[t].leagueId == teams[t].leagueId
    ensures RostersOk(teams', players, nextId)
  {
    forall p, t | p in players && t in teams'
      ensures p in teams'[t].players <==> players[p].draftedBy == Some(t)
    {
      assert t in teams;
    }
  }

  /** Invites stay valid when teams keep their leagues, new teams only get
      ids no invite can name, and more ids are handed out. */
  lemma InvitesWithGrownTeams(invites: map<string, Invite>, teams: map<Id, Team>, teams': map<Id, Team>,
                              nextId: nat, nextId': nat)
    requires InvitesOk(invites, teams, nextId) && nextId <= nextId'
    requires forall t :: t in teams ==> t in teams' && teams'[t].leagueId == teams[t].leagueId
    requires forall t :: t in teams' && t !in teams ==> t >= nextId
    ensures InvitesOk(invites, teams', nextId')
  {
    forall c | c in invites
      ensures InviteOk(c, invites[c], teams', nextId')
    {
      assert InviteOk(c, invites[c], teams, nextId);
    }
  }

  /** New undrafted players under ids not yet handed out keep the roster
      invariant, as more ids are handed out. */
  lemma RostersWithNewPlayers(teams: map<Id, Team>, players: map<Id, Player>, players': map<Id, Player>,
                              nextId: nat, nextId': nat)
    requires RostersOk(teams, players, nextId) && nextId <= nextId'
    requires forall p :: p in players ==> p in players' && players'[p] == players[p]
    requires forall p :: p in players' && p !in players ==> nextId <= p < nextId' && players'[p].draftedBy.None?
    ensures RostersOk(teams, players', nextId')
  {
    forall p, t | p in players' && t in teams
      ensures p in teams[t].players <==> players'[p].draftedBy == Some(t)
    {
      if p !in players {
        assert forall k :: 0 <= k < |teams[t].players| ==> teams[t].players[k] < nextId;
      }
    }
  }

  /** Storing, under a new id, a team with an empty roster whose one member
      is on no team of its league keeps every invariant. */
  lemma TeamAddedKeepsValid(d: Db, team: Team, uid: Uid)
    requires d.Valid() && team.members == [uid] && 1 <= team.maxMembers && team.players == []
    requires !HasTeamIn(d.teams, team.leagueId, uid)
    ensures d.(teams := d.teams[d.nextId := team], nextId := d.nextId + 1).Valid()
  {
    var teams := d.teams[d.nextId := team];
    var nextId := d.nextId + 1;
    MembershipAfterNewTeam(d.teams, d.nextId, team, uid);
    RostersAfterNewTeam(d.teams, d.players, d.nextId, team);
    InvitesWithGrownTeams(d.invites, d.teams, teams, d.nextId, nextId);
  }

  /** A new team, under an id no team has, whose one member is on no team of
      its league, keeps the membership invariant. */
  lemma MembershipAfterNewTeam(teams: map<Id, Team>, id: Id, team: Team, uid: Uid)
    requires MembershipOk(teams) && id !in teams
    requires team.members == [uid] && 1 <= team.maxMembers && !HasTeamIn(teams, team.leagueId, uid)
    ensures MembershipOk(teams[id := team])
  {
    var teams' := teams[id := team];
    forall t1, t2 | t1 in teams' && t2 in teams' && t1 != t2 && teams'[t1].leagueId == teams'[t2].leagueId
      ensures Disjoint(teams'[t1].members, teams'[t2].members)
    {
      if t1 == id {
        assert uid !in teams[t2].members;
      } else if t2 == id {
        assert uid !in teams[t1].members;
      }
    }
  }

  /** A new team with an empty roster, under the next id, keeps the roster
      invariant once the id is handed out. */
  lemma RostersAfterNewTeam(teams: map<Id, Team>, players: map<Id, Player>, nextId: nat, team: Team)
    requires RostersOk(teams, players, nextId) && nextId !in teams && team.players == []
    ensures RostersOk(teams[nextId := team], players, nextId + 1)
  {
    var teams' := teams[nextId := team];
    forall p, t | p in players && t in teams'
      ensures p in teams'[t].players <==> players[p].draftedBy == Some(t)
    {
      if t == nextId {
        assert players[p].draftedBy != Some(t);
      }
    }
  }

  /** Storing a new invite under its code keeps every invariant when the
      invite satisfies them itself. */
  lemma InviteAddedKeepsValid(d: Db, inv: Invite)
    requires d.Valid() && inv.code !in d.invites && InviteOk(inv.code, inv, d.teams, d.nextId)
    ensures d.(invites := d.invites[inv.code := inv]).Valid()
  {
  }

  /** Counting one more use of an invite that the redemption checks let
      through keeps every invariant. */
  lemma InviteUsedKeepsValid(d: Db, code: string)
    requires d.Valid() && code in d.invites
    requires d.invites[code].multiUse || d.invites[code].uses == 0
    requires d.invites[code].maxUses.Some? ==> d.invites[code].uses < d.invites[code].maxUses.value
    ensures d.(invites := UseInvite(d.invites, code)).Valid()
  {
    assert InviteOk(code, d.invites[code], d.teams, d.nextId);
  }

  /** A team stored under a new id is listed last among its league's
      teams, so the league has exactly one team more. */
  lemma TeamAddedCounted(teams: map<Id, Team>, nextId: nat, team: Team)
    requires forall t :: t in teams ==> t < nextId
    ensures TeamsInLeague(teams[nextId := team], nextId + 1, team.leagueId)
      == TeamsInLeague(teams, nextId, team.leagueId) + [nextId]
    ensures TeamCount(teams[nextId := team], nextId + 1, team.leagueId) == TeamCount(teams, nextId, team.leagueId) + 1
  {
    var teams' := teams[nextId := team];
    var l := team.leagueId;
    var ids := IdsBelow(teams.Keys, nextId);
    assert teams'.Keys == teams.Keys + {nextId};
    IdsBelowAddTop(teams.Keys, nextId);
    SelectExtendTop(ids, nextId, t => t in teams && teams[t].leagueId == l, t => t in teams' && teams'[t].leagueId == l);
  }

  /** Handing out a new id keeps every invariant. */
  lemma FreshIdKeepsValid(d: Db)
    requires d.Valid()
    ensures d.(nextId := d.nextId + 1).Valid()
  {
    var d' := d.(nextId := d.nextId + 1);
    assert InvitesOk(d.invites, d.teams, d'.nextId) by {
      forall c | c in d.invites
        ensures InviteOk(c, d.invites[c], d.teams, d'.nextId)
      {
        assert InviteOk(c, d.invites[c], d.teams, d.nextId);
      }
    }
  }
}
