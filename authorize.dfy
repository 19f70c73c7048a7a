/** server/src/middleware/authorize.js: `requireLeagueAdmin`, which lets a
    request through to its handler only for the league's owner or one of
    its admins. The middleware changes nothing; on success it hands the
    league on to the handler. */
module Authorize {
  import opened Outcomes
  import opened Models

  /** The owner-or-admin test. */
  predicate IsLeagueAdmin(league: League, uid: Uid) {
    league.ownerUid == uid || uid in league.admins
  }

  /** `requireLeagueAdmin`: `leagueId` is the route parameter (`None` when
      it is missing). `Ok(league)` means the next handler runs. */
  function RequireLeagueAdmin(leagues: map<Id, League>, leagueId: Option<Id>, uid: Uid): (r: Outcome<League>)
    ensures leagueId.None? ==> r == BadRequest("League ID required")
    ensures leagueId.Some? && leagueId.value !in leagues ==> r == NotFound("League not found")
    ensures r.Ok? <==> leagueId.Some? && leagueId.value in leagues && IsLeagueAdmin(leagues[leagueId.value], uid)
    ensures r.Ok? ==> r.value == leagues[leagueId.value]
    ensures r.Forbidden? ==> r.error == "Admin access required"
    ensures r.Ok? || r.BadRequest? || r.NotFound? || r.Forbidden?
  {
    if leagueId.None? then BadRequest("League ID required")
    else if leagueId.value !in leagues then NotFound("League not found")
    else if leagues[leagueId.value].ownerUid != uid && uid !in leagues[leagueId.value].admins then
      Forbidden("Admin access required")
    else Ok(leagues[leagueId.value])
  }

}
