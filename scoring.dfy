/** server/src/routes/scoring.js: adding a scoring event (which credits the
    player and the player's drafting team), listing a week's events, and
    deleting an event (which reverses the credit). */
module Scoring {
  import opened Outcomes
  import opened Ordering
  import opened Text
  import opened Models
  import opened Authorize
  import opened Validation

  /** The key of a week in the `weeklyPoints` maps. */
  function WeekKey(week: int): string {
    "week_" + IntString(week)
  }

  /** `weeklyPoints.get(key) || 0`. */
  function PointsAt(weekly: map<string, int>, key: string): int {
    if key in weekly then weekly[key] else 0
  }

  /** `weeklyPoints.set(key, (weeklyPoints.get(key) || 0) + points)`. */
  function Credit(weekly: map<string, int>, key: string, points: int): (r: map<string, int>)
    ensures r.Keys == weekly.Keys + {key}
  {
    weekly[key := PointsAt(weekly, key) + points]
  }

  /** The body of `POST /scoring/add`; absent fields are `None`. */
  datatype EventInput = EventInput(
    week: Option<int>,
    playerId: Option<Id>,
    eventType: Option<string>,
    description: Option<string>)

  // ---------------------------------------------------------------------
  // crediting points

  /** A player's points, credited `points` under the week key `key`. */
  function CreditPlayer(player: Player, key: string, points: int): Player {
    player.(weeklyPoints := Credit(player.weeklyPoints, key, points), totalPoints := player.totalPoints + points)
  }

  /** A team's points, credited `points` under the week key `key`. */
  function CreditTeam(team: Team, key: string, points: int): Team {
    team.(weeklyPoints := Credit(team.weeklyPoints, key, points), totalPoints := team.totalPoints + points)
  }

  /** `points` credited to player `p` under `key`. */
  function CreditPlayers(players: map<Id, Player>, p: Id, key: string, points: int): (r: map<Id, Player>)
    requires p in players
    ensures r.Keys == players.Keys
  {
    players[p := CreditPlayer(players[p], key, points)]
  }

  /** `points` credited under `key` to team `t`, when there is one and it
      exists (`if (team)` in the handler). */
  function CreditTeams(teams: map<Id, Team>, t: Option<Id>, key: string, points: int): (r: map<Id, Team>)
    ensures r.Keys == teams.Keys
  {
    if t.Some? && t.value in teams then teams[t.value := CreditTeam(teams[t.value], key, points)] else teams
  }

  /** Crediting `points` under the week key `key` to player `p`, and to the
      team that drafted it when that team exists. Adding an event credits
      its points; deleting one credits their negation. */
  function ApplyPoints(d: Db, p: Id, key: string, points: int): Db
    requires p in d.players
  {
    d.(players := CreditPlayers(d.players, p, key, points),
       teams := CreditTeams(d.teams, d.players[p].draftedBy, key, points))
  }

  /** What crediting a record means: its entry for the week moves by
      exactly `points` and every other week entry stays. */
  lemma CreditShifts(weekly: map<string, int>, key: string, points: int)
    ensures forall k :: PointsAt(Credit(weekly, key, points), k) == PointsAt(weekly, k) + (if k == key then points else 0)
  {
  }

  /** Two credits under one key add up to one. */
  lemma CreditAdditive(weekly: map<string, int>, key: string, x: int, y: int)
    ensures Credit(Credit(weekly, key, x), key, y) == Credit(weekly, key, x + y)
  {
  }

  lemma CreditPlayersAdditive(players: map<Id, Player>, p: Id, key: string, x: int, y: int)
    requires p in players
    ensures CreditPlayers(CreditPlayers(players, p, key, x), p, key, y) == CreditPlayers(players, p, key, x + y)
  {
    CreditAdditive(players[p].weeklyPoints, key, x, y);
  }

  lemma CreditTeamsAdditive(teams: map<Id, Team>, t: Option<Id>, key: string, x: int, y: int)
    ensures CreditTeams(CreditTeams(teams, t, key, x), t, key, y) == CreditTeams(teams, t, key, x + y)
  {
    if t.Some? && t.value in teams {
      CreditAdditive(teams[t.value].weeklyPoints, key, x, y);
    }
  }

  /** Two credits for the same player and week add up to one. */
  lemma ApplyPointsAdditive(d: Db, p: Id, key: string, x: int, y: int)
    requires p in d.players
    ensures ApplyPoints(ApplyPoints(d, p, key, x), p, key, y) == ApplyPoints(d, p, key, x + y)
  {
    var t := d.players[p].draftedBy;
    var d1 := ApplyPoints(d, p, key, x);
    assert d1.players[p].draftedBy == t;
    CreditPlayersAdditive(d.players, p, key, x, y);
    CreditTeamsAdditive(d.teams, t, key, x, y);
  }

  /** Crediting keeps the shape of the players and teams. */
  lemma CreditShape(d: Db, p: Id, key: string, points: int)
    requires p in d.players
    ensures SamePlayerShape(d.players, CreditPlayers(d.players, p, key, points))
    ensures SameTeamShape(d.teams, CreditTeams(d.teams, d.players[p].draftedBy, key, points))
  {
  }

  /** Crediting only moves points, so it keeps every invariant. */
  lemma ApplyPointsKeepsValid(d: Db, p: Id, key: string, points: int)
    requires d.Valid() && p in d.players
    ensures ApplyPoints(d, p, key, points).Valid()
  {
    CreditShape(d, p, key, points);
    PointsKeepValid(d, CreditPlayers(d.players, p, key, points), CreditTeams(d.teams, d.players[p].draftedBy, key, points),
                    d.events, d.nextId);
  }

  // ---------------------------------------------------------------------
  // add

  /** The guards of `POST /scoring/add`, in the handler's order, and on
      success the event it creates. The handler fetches the league a second
      time after the admin check; that second lookup cannot fail here. */
  function AddCheck(d: Db, uid: Uid, leagueId: Id, input: EventInput): (r: Outcome<ScoringEvent>)
    ensures !RequireLeagueAdmin(d.leagues, Some(leagueId), uid).Ok?
      ==> r == RequireLeagueAdmin(d.leagues, Some(leagueId), uid).Forward()
    ensures r.Ok? ==> r.value.player in d.players && d.players[r.value.player].leagueId == leagueId
    ensures r.Ok? ==> r.value.leagueId == leagueId
  {
    var auth := RequireLeagueAdmin(d.leagues, Some(leagueId), uid);
    if !auth.Ok? then auth.Forward()
    else match ValidateNumber(input.week, 1, 100, "Week")
      case Fail(message) => BadRequest(message)
      case Pass(week) =>
        if input.playerId.None? || !Truthy(input.eventType) then
          BadRequest("Player ID and event type required")
        else if leagueId !in d.leagues then NotFound("League not found")
        else
          var rules := d.leagues[leagueId].settings.scoringRules;
          var eventType := ToUpper(input.eventType.value);
          if eventType !in rules then
            BadRequest("Event type '" + input.eventType.value + "' not found in scoring rules")
          else if input.playerId.value !in d.players || d.players[input.playerId.value].leagueId != leagueId then
            NotFound("Player not found")
          else
            Ok(ScoringEvent(leagueId, week, input.playerId.value, eventType, input.description.GetOr(""), rules[eventType]))
  }

  /** An event is added exactly for an admin giving a week in 1..100, a
      player of the league and a non-empty type whose upper case has a
      scoring rule; the event carries the upper-cased type and that rule's
      points, and an absent description becomes empty. */
  lemma AddAccepted(d: Db, uid: Uid, leagueId: Id, input: EventInput)
    ensures var r := AddCheck(d, uid, leagueId, input);
      r.Ok? <==>
        && leagueId in d.leagues && IsLeagueAdmin(d.leagues[leagueId], uid)
        && input.week.Some? && 1 <= input.week.value <= 100
        && input.playerId.Some? && input.eventType.Some? && input.eventType.value != ""
        && ToUpper(input.eventType.value) in d.leagues[leagueId].settings.scoringRules
        && input.playerId.value in d.players && d.players[input.playerId.value].leagueId == leagueId
    ensures var r := AddCheck(d, uid, leagueId, input);
      r.Ok? ==>
        var eventType := ToUpper(input.eventType.value);
        && r.value.week == input.week.value && r.value.player == input.playerId.value
        && r.value.eventType == eventType
        && r.value.points == d.leagues[leagueId].settings.scoringRules[eventType]
        && (input.description.None? ==> r.value.description == "")
  {
  }

  /** Event types are matched without regard to case: a request and the
      same request with the type upper-cased create the same event. */
  lemma AddIgnoresCase(d: Db, uid: Uid, leagueId: Id, input: EventInput)
    requires input.eventType.Some?
    ensures var upper := input.(eventType := Some(ToUpper(input.eventType.value)));
      AddCheck(d, uid, leagueId, input).Ok? ==> AddCheck(d, uid, leagueId, upper) == AddCheck(d, uid, leagueId, input)
  {
    ToUpperIdempotent(input.eventType.value);
  }

  /** The update of a successful add: the event is stored under a new id,
      then its points are credited for its week. */
  function AddApplied(d: Db, e: ScoringEvent): Db
    requires e.player in d.players
  {
    ApplyPoints(d.(events := d.events[d.nextId := e], nextId := d.nextId + 1), e.player, WeekKey(e.week), e.points)
  }

  lemma AddKeepsValid(d: Db, e: ScoringEvent)
    requires d.Valid() && e.player in d.players
    ensures AddApplied(d, e).Valid()
  {
    var key := WeekKey(e.week);
    CreditShape(d, e.player, key, e.points);
    EventAddedKeepsValid(d, CreditPlayers(d.players, e.player, key, e.points),
                         CreditTeams(d.teams, d.players[e.player].draftedBy, key, e.points), e);
  }

  /** The writes of a successful add: `ScoringEvent.create`, then the
      player's and the team's `save`. */
  method RecordEvent(s: Store, e: ScoringEvent)
    requires s.Valid() && e.player in s.players
    modifies s
    ensures s.Valid()
    ensures s.State() == AddApplied(old(s.State()), e)
  {
    ghost var d := s.State();
    s.events := s.events[s.nextId := e];
    s.nextId := s.nextId + 1;
    var key := WeekKey(e.week);
    var draftedBy := s.players[e.player].draftedBy;
    s.players := CreditPlayers(s.players, e.player, key, e.points);
    s.teams := CreditTeams(s.teams, draftedBy, key, e.points);
    assert s.State() == AddApplied(d, e);
    AddKeepsValid(d, e);
  }

  /** `POST /api/leagues/:leagueId/scoring/add`; on success the id of the
      new event. */
  method AddEvent(s: Store, uid: Uid, leagueId: Id, input: EventInput) returns (o: Outcome<Id>)
    requires s.Valid()
    modifies s
    ensures s.Valid()
    ensures var c := AddCheck(old(s.State()), uid, leagueId, input);
      && (!c.Ok? ==> o == c.Forward() && s.State() == old(s.State()))
      && (c.Ok? ==> o == Ok(old(s.nextId)) && s.State() == AddApplied(old(s.State()), c.value))
  {
    var check := AddCheck(s.State(), uid, leagueId, input);
    if !check.Ok? {
      return check.Forward();
    }
    var id := s.nextId;
    RecordEvent(s, check.value);
    return Ok(id);
  }

  // ---------------------------------------------------------------------
  // listing a week

  /** Whether an event is one of the league's events for the week. */
  predicate InWeek(events: map<Id, ScoringEvent>, x: Id, leagueId: Id, week: int) {
    x in events && events[x].leagueId == leagueId && events[x].week == week
  }

  /** `ScoringEvent.find({ leagueId, week }).sort({ createdAt: 1 })`: the
      league's events for the week among the ids below `bound`, in creation
      order. */
  function EventsOfWeek(events: map<Id, ScoringEvent>, bound: nat, leagueId: Id, week: int): (r: seq<Id>)
    ensures forall x: Id :: x in r <==> InWeek(events, x, leagueId, week) && x < bound
    ensures forall k :: 0 <= k < |r| ==> r[k] < bound
    ensures Increasing(r)
  {
    if bound == 0 then []
    else
      var rest := EventsOfWeek(events, bound - 1, leagueId, week);
      if InWeek(events, bound - 1, leagueId, week) then rest + [bound - 1] else rest
  }

  /** `GET /api/leagues/:leagueId/scoring/week/:week`: a week outside
      1..100 is a server error (the validation error is caught as 500). */
  function WeekEvents(d: Db, leagueId: Id, week: Option<int>): (r: Outcome<seq<Id>>)
    ensures r.Ok? <==> week.Some? && 1 <= week.value <= 100
    ensures r.Ok? ==> r.value == EventsOfWeek(d.events, d.nextId, leagueId, week.value)
    ensures r.Ok? || r.ServerError?
  {
    match ValidateNumber(week, 1, 100, "Week")
    case Fail(message) => ServerError(message)
    case Pass(w) => Ok(EventsOfWeek(d.events, d.nextId, leagueId, w))
  }

  /** Two event collections that agree below `bound` list alike. */
  lemma {:induction false} EventsOfWeekAgree(a: map<Id, ScoringEvent>, b: map<Id, ScoringEvent>, bound: nat, leagueId: Id, week: int)
    requires forall x: Id :: x < bound ==> InWeek(a, x, leagueId, week) == InWeek(b, x, leagueId, week)
    ensures EventsOfWeek(a, bound, leagueId, week) == EventsOfWeek(b, bound, leagueId, week)
  {
    if bound > 0 {
      EventsOfWeekAgree(a, b, bound - 1, leagueId, week);
    }
  }

  /** Storing an event under the next id lists it last among the events of
      its league and week, and leaves every other listing unchanged. */
  lemma NewEventListedLast(events: map<Id, ScoringEvent>, nextId: nat, e: ScoringEvent, leagueId: Id, week: int)
    requires forall x :: x in events ==> x < nextId
    ensures var before := EventsOfWeek(events, nextId, leagueId, week);
      EventsOfWeek(events[nextId := e], nextId + 1, leagueId, week)
        == if e.leagueId == leagueId && e.week == week then before + [nextId] else before
  {
    EventsOfWeekAgree(events, events[nextId := e], nextId, leagueId, week);
  }

  /** An added event is listed last among its week's events. */
  lemma AddListedLast(d: Db, e: ScoringEvent, leagueId: Id, week: int)
    requires (forall x :: x in d.events ==> x < d.nextId) && e.player in d.players
    ensures var d' := AddApplied(d, e);
      var before := EventsOfWeek(d.events, d.nextId, leagueId, week);
      EventsOfWeek(d'.events, d'.nextId, leagueId, week)
        == if e.leagueId == leagueId && e.week == week then before + [d.nextId] else before
  {
    var d1 := d.(events := d.events[d.nextId := e], nextId := d.nextId + 1);
    NewEventListedLast(d.events, d.nextId, e, leagueId, week);
  }

  // ---------------------------------------------------------------------
  // delete

  /** The guards of `DELETE /scoring/:eventId`: the event is looked up
      within the league. */
  function DeleteCheck(d: Db, uid: Uid, leagueId: Id, eventId: Id): (r: Outcome<()>)
    ensures !RequireLeagueAdmin(d.leagues, Some(leagueId), uid).Ok?
      ==> r == RequireLeagueAdmin(d.leagues, Some(leagueId), uid).Forward()
    ensures r.Ok? <==>
      && leagueId in d.leagues && IsLeagueAdmin(d.leagues[leagueId], uid)
      && eventId in d.events && d.events[eventId].leagueId == leagueId
    ensures RequireLeagueAdmin(d.leagues, Some(leagueId), uid).Ok? && !r.Ok? ==> r == NotFound("Scoring event not found")
  {
    var auth := RequireLeagueAdmin(d.leagues, Some(leagueId), uid);
    if !auth.Ok? then auth.Forward()
    else if eventId !in d.events || d.events[eventId].leagueId != leagueId then NotFound("Scoring event not found")
    else Ok(())
  }

  /** The update of a successful delete: the event's points are taken back
      from its player (when the player still exists, whatever its league)
      and the event is removed. */
  function DeleteApplied(d: Db, eventId: Id): Db
    requires eventId in d.events
  {
    var e := d.events[eventId];
    RemoveEvent(d, eventId, e.player, WeekKey(e.week), e.points)
  }

  /** The credit that takes `points` back: the delete handler subtracts
      what the add handler added. */
  function TakenBack(points: int): int {
    -points
  }

  /** Removing the event stored under `eventId`, taking `points` back
      under `key` from player `p` when it exists. */
  function RemoveEvent(d: Db, eventId: Id, p: Id, key: string, points: int): Db {
    if p in d.players then ApplyPoints(d.(events := d.events - {eventId}), p, key, TakenBack(points))
    else d.(events := d.events - {eventId})
  }

  /** Removing an event while crediting points keeps every invariant. */
  lemma CreditedRemovalKeepsValid(d: Db, p: Id, key: string, points: int, eventId: Id)
    requires d.Valid() && p in d.players
    ensures ApplyPoints(d.(events := d.events - {eventId}), p, key, points).Valid()
  {
    CreditShape(d, p, key, points);
    EventRemovedKeepsValid(d, CreditPlayers(d.players, p, key, points),
                           CreditTeams(d.teams, d.players[p].draftedBy, key, points), eventId);
  }

  lemma RemoveEventKeepsValid(d: Db, eventId: Id, p: Id, key: string, points: int)
    requires d.Valid()
    ensures RemoveEvent(d, eventId, p, key, points).Valid()
  {
    if p in d.players {
      CreditedRemovalKeepsValid(d, p, key, TakenBack(points), eventId);
    } else {
      EventRemovedKeepsValid(d, d.players, d.teams, eventId);
    }
  }

  lemma DeleteKeepsValid(d: Db, eventId: Id)
    requires d.Valid() && eventId in d.events
    ensures DeleteApplied(d, eventId).Valid()
  {
    var e := d.events[eventId];
    RemoveEventKeepsValid(d, eventId, e.player, WeekKey(e.week), e.points);
  }

  /** Deleting the event just added restores the database: the events,
      every total and every week entry are as before (by `CreditShifts`, a
      credit of zero moves no points). What remains is that the id is used
      up and that the week's entries of the player and its team now exist,
      holding zero when they were absent. */
  lemma DeleteUndoesAdd(d: Db, e: ScoringEvent)
    requires d.nextId !in d.events && e.player in d.players
    ensures DeleteApplied(AddApplied(d, e), d.nextId)
      == ApplyPoints(d, e.player, WeekKey(e.week), 0).(nextId := d.nextId + 1)
  {
    var key := WeekKey(e.week);
    var d1 := d.(events := d.events[d.nextId := e], nextId := d.nextId + 1);
    var d2 := ApplyPoints(d1, e.player, key, e.points);
    assert d2.events == d1.events && d2.players.Keys == d.players.Keys;
    assert d2.players[e.player].draftedBy == d.players[e.player].draftedBy;
    ApplyPointsAdditive(d1, e.player, key, e.points, TakenBack(e.points));
    assert d1.events - {d.nextId} == d.events;
  }

  /** The writes of a successful delete: the player's and the team's
      `save`, then `event.deleteOne()`. */
  method RemoveStoredEvent(s: Store, eventId: Id)
    requires s.Valid() && eventId in s.events
    modifies s
    ensures s.Valid()
    ensures s.State() == DeleteApplied(old(s.State()), eventId)
  {
    ghost var d := s.State();
    var e := s.events[eventId];
    if e.player in s.players {
      var key := WeekKey(e.week);
      var draftedBy := s.players[e.player].draftedBy;
      s.players := CreditPlayers(s.players, e.player, key, TakenBack(e.points));
      s.teams := CreditTeams(s.teams, draftedBy, key, TakenBack(e.points));
    }
    s.events := s.events - {eventId};
    assert s.State() == DeleteApplied(d, eventId);
    DeleteKeepsValid(d, eventId);
  }

  /** `DELETE /api/leagues/:leagueId/scoring/:eventId`. */
  method DeleteEvent(s: Store, uid: Uid, leagueId: Id, eventId: Id) returns (o: Outcome<()>)
    requires s.Valid()
    modifies s
    ensures s.Valid()
    ensures o == DeleteCheck(old(s.State()), uid, leagueId, eventId)
    ensures !o.Ok? ==> s.State() == old(s.State())
    ensures o.Ok? ==> s.State() == DeleteApplied(old(s.State()), eventId)
  {
    o := DeleteCheck(s.State(), uid, leagueId, eventId);
    if o.Ok? {
      RemoveStoredEvent(s, eventId);
    }
  }
}
