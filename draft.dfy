/** server/src/routes/draft.js: starting, picking in, resetting and
    reporting on a league's snake draft.

    Each handler is a method on the `Store`. Its contract ties the response
    and the new database to two functions: a check that runs the handler's
    guards in the source's order and yields the first refusal (or `Ok`),
    and the update that a successful request makes. The lemmas below are
    about those functions. */
module Draft {
  import opened Outcomes
  import opened Ordering
  import opened Models
  import opened Authorize
  import opened Utils

  /** `teams.map((_, index) => index + 1)`. */
  function OneTo(n: nat): (r: seq<int>)
    ensures |r| == n
    ensures forall k :: 0 <= k < n ==> r[k] == k + 1
  {
    if n == 0 then [] else OneTo(n - 1) + [n]
  }

  // ---------------------------------------------------------------------
  // start

  /** The guards of `POST /draft/start`: the admin check, then a league in
      setup with at least one team. */
  function StartCheck(d: Db, uid: Uid, leagueId: Id): (r: Outcome<()>)
    ensures !RequireLeagueAdmin(d.leagues, Some(leagueId), uid).Ok?
      ==> r == RequireLeagueAdmin(d.leagues, Some(leagueId), uid).Forward()
  {
    var auth := RequireLeagueAdmin(d.leagues, Some(leagueId), uid);
    if !auth.Ok? then auth.Forward()
    else if d.leagues[leagueId].status != Setup then BadRequest("Draft can only be started from setup status")
    else if |TeamsInLeague(d.teams, d.nextId, leagueId)| == 0 then
      BadRequest("No teams found. Create teams before starting draft")
    else Ok(())
  }

  /** A start goes ahead exactly for an admin of a league in setup that has
      teams. */
  lemma StartAccepted(d: Db, uid: Uid, leagueId: Id)
    ensures StartCheck(d, uid, leagueId).Ok? <==>
      leagueId in d.leagues && IsLeagueAdmin(d.leagues[leagueId], uid)
      && d.leagues[leagueId].status == Setup && |TeamsInLeague(d.teams, d.nextId, leagueId)| > 0
  {
  }

  /** The teams of a successful start: team `ids[k]` gets draft order
      `order[k]`, and every other team stays as it was. */
  ghost predicate DraftOrdersAssigned(before: map<Id, Team>, after: map<Id, Team>, ids: seq<Id>, order: seq<int>) {
    && after.Keys == before.Keys && |ids| == |order|
    && (forall k :: 0 <= k < |ids| ==> ids[k] in before && after[ids[k]] == before[ids[k]].(draftOrder := Some(order[k])))
    && (forall t :: t in before && t !in ids ==> after[t] == before[t])
  }

  /** Assigning draft orders keeps every invariant: only draft orders
      change. */
  lemma DraftOrdersKeepValid(d: Db, teams: map<Id, Team>, ids: seq<Id>, order: seq<int>)
    requires d.Valid() && DraftOrdersAssigned(d.teams, teams, ids, order)
    ensures d.(teams := teams).Valid()
  {
    assert SameTeamShape(d.teams, teams) by {
      forall t | t in d.teams
        ensures teams[t].leagueId == d.teams[t].leagueId && teams[t].members == d.teams[t].members
          && teams[t].maxMembers == d.teams[t].maxMembers && teams[t].players == d.teams[t].players
      {
        if t in ids {
          var k :| 0 <= k < |ids| && ids[k] == t;
        }
      }
    }
    TeamShapeKeepsValid(d, teams);
  }

  /** A permutation of 1..n holds each of 1..n exactly once. */
  lemma PermutationOfOneTo(order: seq<int>)
    requires multiset(order) == multiset(OneTo(|order|))
    ensures forall k :: 0 <= k < |order| ==> 1 <= order[k] <= |order|
    ensures forall j, k :: 0 <= j < k < |order| ==> order[j] != order[k]
  {
    var n := |order|;
    forall k | 0 <= k < n
      ensures 1 <= order[k] <= n
    {
      assert order[k] in multiset(OneTo(n));
    }
    OneToDistinct(n);
    forall j, k | 0 <= j < k < n
      ensures order[j] != order[k]
    {
      if order[j] == order[k] {
        RepeatCountsTwice(order, j, k);
      }
    }
  }

  /** Each number occurs in 1..n at most once. */
  lemma {:induction false} OneToDistinct(n: nat)
    ensures forall x :: multiset(OneTo(n))[x] <= 1
  {
    if n > 0 {
      OneToDistinct(n - 1);
      var prefix := OneTo(n - 1);
      assert forall k :: 0 <= k < n - 1 ==> prefix[k] < n;
      assert n !in prefix;
    }
  }

  /** A fresh array holding 1..n. */
  method DraftNumbers(n: nat) returns (numbers: array<int>)
    ensures fresh(numbers) && numbers[..] == OneTo(n)
  {
    numbers := new int[n](k => k + 1);
    assert forall k :: 0 <= k < n ==> numbers[k] == OneTo(n)[k];
  }

  /** The draft orders 1..n, shuffled with `rand` when `randomized`. */
  method DraftOrder(n: nat, randomized: bool, rand: nat -> nat) returns (order: seq<int>)
    ensures |order| == n && multiset(order) == multiset(OneTo(n))
    ensures !randomized ==> order == OneTo(n)
  {
    var numbers := DraftNumbers(n);
    if randomized {
      numbers := ShuffleArray(numbers, rand);
    }
    order := numbers[..];
  }

  /** The loop of the start handler that stores draft order `order[k]` on
      team `ids[k]`. */
  method AssignDraftOrders(s: Store, ids: seq<Id>, order: seq<int>)
    requires |ids| == |order| && Increasing(ids)
    requires forall k :: 0 <= k < |ids| ==> ids[k] in s.teams
    modifies s
    ensures DraftOrdersAssigned(old(s.teams), s.teams, ids, order)
    ensures s.State() == old(s.State()).(teams := s.teams)
  {
    ghost var before := s.teams;
    for i := 0 to |ids|
      invariant s.State() == old(s.State()).(teams := s.teams)
      invariant s.teams.Keys == before.Keys
      invariant forall k :: 0 <= k < i ==> s.teams[ids[k]] == before[ids[k]].(draftOrder := Some(order[k]))
      invariant forall k :: i <= k < |ids| ==> s.teams[ids[k]] == before[ids[k]]
      invariant forall t :: t in before && t !in ids ==> s.teams[t] == before[t]
    {
      s.teams := s.teams[ids[i] := s.teams[ids[i]].(draftOrder := Some(order[i]))];
    }
  }

  /** A start keeps every invariant: only draft orders and the league's
      status change. */
  lemma StartKeepsValid(d: Db, teams: map<Id, Team>, ids: seq<Id>, order: seq<int>, leagueId: Id)
    requires d.Valid() && DraftOrdersAssigned(d.teams, teams, ids, order) && leagueId in d.leagues
    ensures d.(teams := teams, leagues := d.leagues[leagueId := d.leagues[leagueId].(status := Draft)]).Valid()
  {
    DraftOrdersKeepValid(d, teams, ids, order);
    LeagueKeepsValid(d.(teams := teams), leagueId, d.leagues[leagueId].(status := Draft));
  }

  /** `POST /draft/start`. The draft orders are 1..N, shuffled with `rand`
      when the league's `randomizedOrder` setting is on; team `i` in
      creation order gets the `i`-th of them, and the league moves to
      draft. */
  method Start(s: Store, uid: Uid, leagueId: Id, rand: nat -> nat) returns (o: Outcome<seq<int>>)
    requires s.Valid()
    modifies s
    ensures s.Valid()
    ensures !StartCheck(old(s.State()), uid, leagueId).Ok? ==>
      o == StartCheck(old(s.State()), uid, leagueId).Forward() && s.State() == old(s.State())
    ensures StartCheck(old(s.State()), uid, leagueId).Ok? ==>
      var ids := TeamsInLeague(old(s.teams), old(s.nextId), leagueId);
      && o.Ok? && multiset(o.value) == multiset(OneTo(|ids|))
      && (!old(s.leagues[leagueId]).settings.draft.randomizedOrder ==> o.value == OneTo(|ids|))
      && DraftOrdersAssigned(old(s.teams), s.teams, ids, o.value)
      && s.leagues == old(s.leagues)[leagueId := old(s.leagues[leagueId]).(status := Draft)]
      && s.State() == old(s.State()).(teams := s.teams, leagues := s.leagues)
  {
    var check := StartCheck(s.State(), uid, leagueId);
    if !check.Ok? {
      return check.Forward();
    }
    StartAccepted(s.State(), uid, leagueId);
    ghost var d := s.State();
    var league := s.leagues[leagueId];
    var ids := TeamsInLeague(s.teams, s.nextId, leagueId);
    var draftOrder := DraftOrder(|ids|, league.settings.draft.randomizedOrder, rand);
    assert forall k :: 0 <= k < |ids| ==> ids[k] in ids;
    AssignDraftOrders(s, ids, draftOrder);
    s.leagues := s.leagues[leagueId := league.(status := Draft)];
    assert s.State() == d.(teams := s.teams, leagues := d.leagues[leagueId := d.leagues[leagueId].(status := Draft)]);
    StartKeepsValid(d, s.teams, ids, draftOrder, leagueId);
    return Ok(draftOrder);
  }

  /** After a start every team of the league holds a draft order, the
      orders are the numbers 1..N, each once (N the number of teams), and
      teams of other leagues keep theirs. */
  lemma StartAssignsPermutation(before: map<Id, Team>, after: map<Id, Team>, ids: seq<Id>, order: seq<int>)
    requires DraftOrdersAssigned(before, after, ids, order)
    requires multiset(order) == multiset(OneTo(|order|))
    ensures forall k :: 0 <= k < |ids| ==> after[ids[k]].draftOrder == Some(order[k]) && 1 <= order[k] <= |ids|
    ensures forall j, k :: 0 <= j < k < |ids| ==> after[ids[j]].draftOrder != after[ids[k]].draftOrder
    ensures forall t :: t in before && t !in ids ==> after[t] == before[t]
  {
    PermutationOfOneTo(order);
  }

  // ---------------------------------------------------------------------
  // pick

  /** It is team `t`'s turn: of the league's teams sorted by draft order,
      the one at the snake index of the next pick. */
  predicate IsTurnOf(d: Db, leagueId: Id, t: Id) {
    var order := TeamsByDraftOrder(d.teams, d.nextId, leagueId);
    |order| > 0 && order[SnakeIndex(DraftedCount(d.players, d.nextId, leagueId) + 1, |order|)] == t
  }

  /** The guards of `POST /draft/pick`, in order: the league exists and is
      in draft, the player exists in the league and is undrafted, the team
      exists in the league, the caller is a member of it, and it is the
      team's turn. There is no admin check. */
  function PickCheck(d: Db, uid: Uid, leagueId: Id, playerId: Option<Id>, teamId: Option<Id>): (r: Outcome<()>)
    ensures leagueId !in d.leagues ==> r == NotFound("League not found")
    ensures r.Ok? ==> playerId.Some? && playerId.value in d.players && teamId.Some? && teamId.value in d.teams
    ensures r.Ok? ==>
      d.players[playerId.value].draftedBy.None? && d.teams[teamId.value].leagueId == d.players[playerId.value].leagueId
  {
    if leagueId !in d.leagues then NotFound("League not found")
    else if d.leagues[leagueId].status != Draft then BadRequest("League is not in draft mode")
    else if playerId.None? || playerId.value !in d.players || d.players[playerId.value].leagueId != leagueId then
      NotFound("Player not found")
    else if d.players[playerId.value].draftedBy.Some? then BadRequest("Player already drafted")
    else if teamId.None? || teamId.value !in d.teams || d.teams[teamId.value].leagueId != leagueId then
      NotFound("Team not found")
    else if uid !in d.teams[teamId.value].members then Forbidden("You are not a member of this team")
    else if !IsTurnOf(d, leagueId, teamId.value) then BadRequest("It is not your turn to pick")
    else Ok(())
  }

  /** A pick goes ahead exactly when every guard passes. */
  lemma PickAccepted(d: Db, uid: Uid, leagueId: Id, playerId: Option<Id>, teamId: Option<Id>)
    ensures PickCheck(d, uid, leagueId, playerId, teamId).Ok? <==>
      leagueId in d.leagues && d.leagues[leagueId].status == Draft
      && playerId.Some? && playerId.value in d.players && d.players[playerId.value].leagueId == leagueId
      && d.players[playerId.value].draftedBy.None?
      && teamId.Some? && teamId.value in d.teams && d.teams[teamId.value].leagueId == leagueId
      && uid in d.teams[teamId.value].members
      && IsTurnOf(d, leagueId, teamId.value)
  {
    var r := PickCheck(d, uid, leagueId, playerId, teamId);
    if r.Ok? {
      assert leagueId in d.leagues && d.leagues[leagueId].status == Draft;
      assert d.players[playerId.value].leagueId == leagueId && d.teams[teamId.value].leagueId == leagueId;
      assert uid in d.teams[teamId.value].members;
    }
  }

  /** The update of a successful pick: the player is drafted by the team and
      appended to its roster. */
  function PickApplied(d: Db, p: Id, t: Id): Db
    requires p in d.players && t in d.teams
  {
    d.(players := d.players[p := d.players[p].(draftedBy := Some(t))],
       teams := d.teams[t := d.teams[t].(players := d.teams[t].players + [p])])
  }

  /** Drafting an undrafted player onto a team of its league keeps the
      rosters in agreement with `draftedBy`. */
  lemma PickKeepsRosters(teams: map<Id, Team>, players: map<Id, Player>, nextId: nat, p: Id, t: Id)
    requires RostersOk(teams, players, nextId) && p in players && t in teams && p < nextId && t < nextId
    requires players[p].draftedBy.None? && teams[t].leagueId == players[p].leagueId
    ensures RostersOk(teams[t := teams[t].(players := teams[t].players + [p])],
                      players[p := players[p].(draftedBy := Some(t))], nextId)
  {
    var teams' := teams[t := teams[t].(players := teams[t].players + [p])];
    var players' := players[p := players[p].(draftedBy := Some(t))];
    forall q, t' | q in players' && t' in teams'
      ensures q in teams'[t'].players <==> players'[q].draftedBy == Some(t')
    {
      assert p !in teams[t'].players;
      if t' == t {
        assert teams'[t].players == teams[t].players + [p];
      }
    }
  }

  /** A pick keeps every invariant. */
  lemma PickKeepsValid(d: Db, p: Id, t: Id)
    requires d.Valid() && p in d.players && t in d.teams
    requires d.players[p].draftedBy.None? && d.teams[t].leagueId == d.players[p].leagueId
    ensures PickApplied(d, p, t).Valid()
  {
    PickKeepsRosters(d.teams, d.players, d.nextId, p, t);
    RostersKeepValid(d, PickApplied(d, p, t).teams, PickApplied(d, p, t).players);
  }

  /** A pick drafts exactly one more player of the league. */
  lemma PickCountsOne(d: Db, p: Id, t: Id)
    requires d.Valid() && p in d.players && t in d.teams && d.players[p].draftedBy.None?
    ensures var leagueId := d.players[p].leagueId;
      DraftedCount(PickApplied(d, p, t).players, d.nextId, leagueId) == DraftedCount(d.players, d.nextId, leagueId) + 1
  {
    DraftedCountOneMore(d.players, d.nextId, p, t);
  }

  /** A pick does not change the draft-order listing, so the next turn is
      the snake index of the following pick number in the same listing:
      picks arrive in snake order. */
  lemma PickKeepsTurnOrder(d: Db, p: Id, t: Id)
    requires d.Valid() && p in d.players && t in d.teams && d.players[p].draftedBy.None?
    ensures var leagueId := d.players[p].leagueId;
      var order := TeamsByDraftOrder(d.teams, d.nextId, leagueId);
      && TeamsByDraftOrder(PickApplied(d, p, t).teams, d.nextId, leagueId) == order
      && forall t' :: IsTurnOf(PickApplied(d, p, t), leagueId, t') <==>
           |order| > 0 && order[SnakeIndex(DraftedCount(d.players, d.nextId, leagueId) + 2, |order|)] == t'
  {
    var leagueId := d.players[p].leagueId;
    SameDraftOrdersListing(d.teams, PickApplied(d, p, t).teams, d.nextId, leagueId);
    PickCountsOne(d, p, t);
  }

  /** `POST /draft/pick`. */
  method Pick(s: Store, uid: Uid, leagueId: Id, playerId: Option<Id>, teamId: Option<Id>) returns (o: Outcome<()>)
    requires s.Valid()
    modifies s
    ensures s.Valid()
    ensures o == PickCheck(old(s.State()), uid, leagueId, playerId, teamId)
    ensures !o.Ok? ==> s.State() == old(s.State())
    ensures o.Ok? ==> s.State() == PickApplied(old(s.State()), playerId.value, teamId.value)
  {
    o := PickCheck(s.State(), uid, leagueId, playerId, teamId);
    if o.Ok? {
      var p, t := playerId.value, teamId.value;
      ghost var d := s.State();
      s.players := s.players[p := s.players[p].(draftedBy := Some(t))];
      s.teams := s.teams[t := s.teams[t].(players := s.teams[t].players + [p])];
      assert s.State() == PickApplied(d, p, t);
      PickKeepsValid(d, p, t);
    }
  }

  // ---------------------------------------------------------------------
  // reset

  /** Every player of the league becomes undrafted. */
  function ClearDrafted(players: map<Id, Player>, leagueId: Id): (r: map<Id, Player>)
    ensures r.Keys == players.Keys
  {
    map p | p in players :: if players[p].leagueId == leagueId then players[p].(draftedBy := None) else players[p]
  }

  /** Every team of the league gets an empty roster and no draft order. */
  function ClearRosters(teams: map<Id, Team>, leagueId: Id): (r: map<Id, Team>)
    ensures r.Keys == teams.Keys
  {
    map t | t in teams :: if teams[t].leagueId == leagueId then teams[t].(players := [], draftOrder := None) else teams[t]
  }

  /** The update of `POST /draft/reset`. */
  function ResetApplied(d: Db, leagueId: Id): Db
    requires leagueId in d.leagues
  {
    d.(players := ClearDrafted(d.players, leagueId),
       teams := ClearRosters(d.teams, leagueId),
       leagues := d.leagues[leagueId := d.leagues[leagueId].(status := Setup, draftCompleted := false)])
  }

  /** Clearing a league's rosters and drafting teams keeps the rosters in
      agreement with `draftedBy`, because a drafting team is always in its
      player's league. */
  lemma ResetKeepsRosters(teams: map<Id, Team>, players: map<Id, Player>, nextId: nat, leagueId: Id)
    requires RostersOk(teams, players, nextId)
    ensures RostersOk(ClearRosters(teams, leagueId), ClearDrafted(players, leagueId), nextId)
  {
    var teams', players' := ClearRosters(teams, leagueId), ClearDrafted(players, leagueId);
    forall p, t | p in players' && t in teams'
      ensures p in teams'[t].players <==> players'[p].draftedBy == Some(t)
    {
      if teams[t].leagueId == leagueId && players[p].draftedBy == Some(t) {
        assert players[p].leagueId == leagueId;
      }
      if teams[t].leagueId != leagueId && p in teams[t].players {
        assert players[p].leagueId == teams[t].leagueId;
      }
    }
  }

  /** A reset keeps every invariant. */
  lemma ResetKeepsValid(d: Db, leagueId: Id)
    requires d.Valid() && leagueId in d.leagues
    ensures ResetApplied(d, leagueId).Valid()
  {
    var teams, players := ClearRosters(d.teams, leagueId), ClearDrafted(d.players, leagueId);
    ResetKeepsRosters(d.teams, d.players, d.nextId, leagueId);
    RostersKeepValid(d, teams, players);
    LeagueKeepsValid(d.(teams := teams, players := players), leagueId,
      d.leagues[leagueId].(status := Setup, draftCompleted := false));
  }

  /** After a reset, whatever the status was: no player of the league is
      drafted, every team of the league has an empty roster and no draft
      order, the league is in setup with `draftCompleted` false, and no
      other league's players or teams changed. */
  lemma ResetClears(d: Db, leagueId: Id)
    requires leagueId in d.leagues
    ensures var d' := ResetApplied(d, leagueId);
      && DraftedCount(d'.players, d'.nextId, leagueId) == 0
      && (forall t :: t in d'.teams && d'.teams[t].leagueId == leagueId ==>
            d'.teams[t].players == [] && d'.teams[t].draftOrder.None?)
      && d'.leagues[leagueId].status == Setup && !d'.leagues[leagueId].draftCompleted
      && (forall p :: p in d.players && d.players[p].leagueId != leagueId ==> d'.players[p] == d.players[p])
      && (forall t :: t in d.teams && d.teams[t].leagueId != leagueId ==> d'.teams[t] == d.teams[t])
  {
    var d' := ResetApplied(d, leagueId);
    var ps := PlayersInLeague(d'.players, d'.nextId, leagueId);
    SelectNone(ps, q => q in d'.players && d'.players[q].draftedBy.Some?);
  }

  /** `POST /draft/reset`: the admin check, then the reset, from any
      status. */
  method Reset(s: Store, uid: Uid, leagueId: Id) returns (o: Outcome<()>)
    requires s.Valid()
    modifies s
    ensures s.Valid()
    ensures !RequireLeagueAdmin(old(s.leagues), Some(leagueId), uid).Ok? ==>
      o == RequireLeagueAdmin(old(s.leagues), Some(leagueId), uid).Forward() && s.State() == old(s.State())
    ensures RequireLeagueAdmin(old(s.leagues), Some(leagueId), uid).Ok? ==>
      o == Ok(()) && s.State() == ResetApplied(old(s.State()), leagueId)
  {
    var auth := RequireLeagueAdmin(s.leagues, Some(leagueId), uid);
    if !auth.Ok? {
      return auth.Forward();
    }
    ghost var d := s.State();
    s.players := ClearDrafted(s.players, leagueId);
    s.teams := ClearRosters(s.teams, leagueId);
    s.leagues := s.leagues[leagueId := s.leagues[leagueId].(status := Setup, draftCompleted := false)];
    assert s.State() == ResetApplied(d, leagueId);
    ResetKeepsValid(d, leagueId);
    return Ok(());
  }

  // ---------------------------------------------------------------------
  // status

  /** The report of `GET /draft/status`. */
  datatype DraftStatus = DraftStatus(
    status: LeagueStatus,
    totalPlayers: nat,
    draftedPlayers: nat,
    currentPickTeam: Option<Id>,
    teams: seq<Id>)

  /** `GET /draft/status`: the league's teams by draft order, its player
      counts and, while a draft is running and players remain, the team
      whose turn it is. With no teams there is no current team (the
      source's index is then not a number). */
  function Status(d: Db, leagueId: Id): (r: Outcome<DraftStatus>)
    ensures leagueId !in d.leagues <==> r == NotFound("League not found")
    ensures r.Ok? ==>
      && r.value.status == d.leagues[leagueId].status
      && r.value.teams == TeamsByDraftOrder(d.teams, d.nextId, leagueId)
      && r.value.totalPlayers == |PlayersInLeague(d.players, d.nextId, leagueId)|
      && r.value.draftedPlayers == DraftedCount(d.players, d.nextId, leagueId)
      && r.value.draftedPlayers <= r.value.totalPlayers
    ensures r.Ok? ==>
      (r.value.currentPickTeam.Some? <==>
        r.value.status == Draft && r.value.draftedPlayers < r.value.totalPlayers && |r.value.teams| > 0)
    ensures r.Ok? && r.value.currentPickTeam.Some? ==>
      r.value.currentPickTeam.value == r.value.teams[SnakeIndex(r.value.draftedPlayers + 1, |r.value.teams|)]
  {
    if leagueId !in d.leagues then NotFound("League not found")
    else
      var teams := TeamsByDraftOrder(d.teams, d.nextId, leagueId);
      var totalPlayers := |PlayersInLeague(d.players, d.nextId, leagueId)|;
      var draftedPlayers := DraftedCount(d.players, d.nextId, leagueId);
      var current :=
        if d.leagues[leagueId].status == Draft && draftedPlayers < totalPlayers && |teams| > 0 then
          Some(teams[SnakeIndex(draftedPlayers + 1, |teams|)])
        else None;
      Ok(DraftStatus(d.leagues[leagueId].status, totalPlayers, draftedPlayers, current, teams))
  }

  /** The team the status reports as current is exactly the team whose pick
      the pick handler's turn check accepts, while undrafted players remain. */
  lemma StatusAgreesWithPick(d: Db, leagueId: Id, t: Id)
    requires leagueId in d.leagues && d.leagues[leagueId].status == Draft
    requires DraftedCount(d.players, d.nextId, leagueId) < |PlayersInLeague(d.players, d.nextId, leagueId)|
    ensures Status(d, leagueId).value.currentPickTeam == Some(t) <==> IsTurnOf(d, leagueId, t)
  {
  }
}
