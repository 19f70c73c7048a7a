/** server/src/routes/players.js: the player list of a league, and the
    admin-only bulk import, update and delete. */
module Players {
  import opened Outcomes
  import opened Ordering
  import opened Text
  import opened Models
  import opened Authorize
  import opened Validation

  // ---------------------------------------------------------------------
  // list

  /** A player's name; empty for an unknown id. */
  function NameOf(players: map<Id, Player>, p: Id): string {
    if p in players then players[p].name else ""
  }

  /** The order of `.sort({ name: 1 })`. */
  function ByName(players: map<Id, Player>): (Id, Id) -> bool {
    (a: Id, b: Id) => StringLeq(NameOf(players, a), NameOf(players, b))
  }

  lemma ByNamePreorder(players: map<Id, Player>)
    ensures TotalPreorder(ByName(players))
  {
    var leq := ByName(players);
    forall a, b
      ensures leq(a, b) || leq(b, a)
    {
      StringLeqTotal(NameOf(players, a), NameOf(players, b));
    }
    forall a, b, c | leq(a, b) && leq(b, c)
      ensures leq(a, c)
    {
      StringLeqTransitive(NameOf(players, a), NameOf(players, b), NameOf(players, c));
    }
  }

  /** `GET /api/leagues/:leagueId/players`: the league's players, by name. */
  function PlayerList(d: Db, leagueId: Id): (r: seq<Id>)
    ensures multiset(r) == multiset(PlayersInLeague(d.players, d.nextId, leagueId))
    ensures forall p :: p in r <==> p in d.players && d.players[p].leagueId == leagueId && p < d.nextId
    ensures Sorted(r, ByName(d.players))
  {
    ByNamePreorder(d.players);
    SortBySorted(PlayersInLeague(d.players, d.nextId, leagueId), ByName(d.players));
    var r := SortBy(PlayersInLeague(d.players, d.nextId, leagueId), ByName(d.players));
    assert forall p :: p in r <==> p in multiset(r);
    r
  }

  /** Names along the list never decrease. */
  lemma PlayerListByName(d: Db, leagueId: Id)
    ensures var r := PlayerList(d, leagueId);
      forall i, j :: 0 <= i < j < |r| ==> StringLeq(d.players[r[i]].name, d.players[r[j]].name)
  {
    var r := PlayerList(d, leagueId);
    forall i, j | 0 <= i < j < |r|
      ensures StringLeq(d.players[r[i]].name, d.players[r[j]].name)
    {
      assert ByName(d.players)(r[i], r[j]);
    }
  }

  // ---------------------------------------------------------------------
  // import

  /** One element of the `players` array; `None` is an absent field. */
  datatype PlayerInput = PlayerInput(
    name: Option<string>,
    photoUrl: Option<string>,
    tribe: Option<string>,
    metaTribe: Option<string>,
    status: Option<string>,
    metaStatus: Option<string>)

  /** `a || b || fallback` over strings. */
  function FirstTruthy(a: Option<string>, b: Option<string>, fallback: string): (r: string)
    ensures Truthy(a) ==> r == a.value
    ensures !Truthy(a) && Truthy(b) ==> r == b.value
    ensures !Truthy(a) && !Truthy(b) ==> r == fallback
  {
    if Truthy(a) then a.value else if Truthy(b) then b.value else fallback
  }

  /** The record the `map` callback builds for one entry, or what it
      throws: a missing name, then the name validator's message. */
  function ValidatedPlayer(leagueId: Id, p: PlayerInput): (r: Checked<Player>)
    ensures !Truthy(p.name) ==> r == Fail("Each player must have a name")
    ensures Truthy(p.name) ==> (r.Pass? <==> ValidatePlayerName(p.name.value).Pass?)
  {
    if !Truthy(p.name) then Fail("Each player must have a name")
    else
      var name := ValidatePlayerName(p.name.value);
      if name.Fail? then Fail(name.message)
      else
        Pass(Player(leagueId, name.value, FirstTruthy(p.photoUrl, None, ""),
                    Meta(Some(FirstTruthy(p.tribe, p.metaTribe, "")), FirstTruthy(p.status, p.metaStatus, "active")),
                    None, 0, map[]))
  }

  /** An imported record: the league, the trimmed and validated name, the
      photo or '', the tribe from `tribe`, then `meta.tribe`, then '', the
      status from `status`, then `meta.status`, then `active`; undrafted,
      with no points. */
  lemma ImportedPlayer(leagueId: Id, p: PlayerInput)
    requires ValidatedPlayer(leagueId, p).Pass?
    ensures var r := ValidatedPlayer(leagueId, p).value;
      && r.leagueId == leagueId
      && r.name == Trim(p.name.value) && IsTrimmed(r.name) && 1 <= Utf16Length(r.name) <= 100
      && (Truthy(p.photoUrl) ==> r.photoUrl == p.photoUrl.value) && (!Truthy(p.photoUrl) ==> r.photoUrl == "")
      && r.meta.tribe.Some?
      && (Truthy(p.tribe) ==> r.meta.tribe.value == p.tribe.value)
      && (!Truthy(p.tribe) && Truthy(p.metaTribe) ==> r.meta.tribe.value == p.metaTribe.value)
      && (!Truthy(p.tribe) && !Truthy(p.metaTribe) ==> r.meta.tribe.value == "")
      && (Truthy(p.status) ==> r.meta.status == p.status.value)
      && (!Truthy(p.status) && Truthy(p.metaStatus) ==> r.meta.status == p.metaStatus.value)
      && (!Truthy(p.status) && !Truthy(p.metaStatus) ==> r.meta.status == "active")
      && r.draftedBy.None? && r.totalPoints == 0 && r.weeklyPoints == map[]
  {
  }

  /** The per-entry check of `players.map(...)`, as a function value. */
  function PlayerValidator(leagueId: Id): PlayerInput -> Checked<Player> {
    p => ValidatedPlayer(leagueId, p)
  }

  /** `players.map(...)`: every record, or the first entry's error. */
  function ValidatedPlayers(leagueId: Id, inputs: seq<PlayerInput>): (r: Checked<seq<Player>>)
    ensures r.Pass? ==> |r.value| == |inputs|
  {
    CheckAll(PlayerValidator(leagueId), inputs)
  }

  /** The batch is accepted exactly when every entry is, and then record k
      is what entry k maps to. */
  lemma ValidatedPlayersPointwise(leagueId: Id, inputs: seq<PlayerInput>)
    ensures ValidatedPlayers(leagueId, inputs).Pass? <==>
      forall k :: 0 <= k < |inputs| ==> ValidatedPlayer(leagueId, inputs[k]).Pass?
    ensures ValidatedPlayers(leagueId, inputs).Pass? ==>
      forall k :: 0 <= k < |inputs| ==>
        ValidatedPlayers(leagueId, inputs).value[k] == ValidatedPlayer(leagueId, inputs[k]).value
  {
    CheckAllPointwise(PlayerValidator(leagueId), inputs);
  }

  /** The first entry that fails decides the error, whatever follows it. */
  lemma FirstBadEntryWins(leagueId: Id, inputs: seq<PlayerInput>, k: nat)
    requires k < |inputs| && ValidatedPlayer(leagueId, inputs[k]).Fail?
    requires forall j :: 0 <= j < k ==> ValidatedPlayer(leagueId, inputs[j]).Pass?
    ensures ValidatedPlayers(leagueId, inputs) == Fail(ValidatedPlayer(leagueId, inputs[k]).message)
  {
    CheckAllFirstFail(PlayerValidator(leagueId), inputs, k);
  }

  /** The message of the schema's enum validator for `meta.status`, as
      `insertMany` throws it. */
  function StatusEnumMessage(status: string): string {
    "Player validation failed: meta.status: `" + status + "` is not a valid enum value for path `meta.status`."
  }

  /** The first record whose status the schema refuses, if any. */
  function FirstBadStatus(records: seq<Player>): (r: Option<string>)
    ensures r.None? <==> forall k :: 0 <= k < |records| ==> records[k].meta.status in PlayerStatusNames
  {
    if records == [] then None
    else if records[0].meta.status !in PlayerStatusNames then Some(records[0].meta.status)
    else
      var rest := FirstBadStatus(records[1..]);
      assert forall k :: 1 <= k < |records| ==> records[1..][k - 1] == records[k];
      rest
  }

  /** The batch as `insertMany` receives it: every entry mapped, then the
      schema's status enum checked over all records. */
  function BatchCheck(leagueId: Id, inputs: seq<PlayerInput>): (r: Checked<seq<Player>>)
    ensures r.Pass? ==> |r.value| == |inputs|
  {
    var records := ValidatedPlayers(leagueId, inputs);
    if records.Fail? then Fail(records.message)
    else
      var bad := FirstBadStatus(records.value);
      if bad.Some? then Fail(StatusEnumMessage(bad.value)) else Pass(records.value)
  }

  /** A batch is accepted exactly when every entry has a valid name and a
      status the schema allows; record k is then entry k's, an undrafted
      player of the league. */
  lemma BatchAccepted(leagueId: Id, inputs: seq<PlayerInput>)
    ensures BatchCheck(leagueId, inputs).Pass? <==>
      && (forall k :: 0 <= k < |inputs| ==> ValidatedPlayer(leagueId, inputs[k]).Pass?)
      && (forall k :: 0 <= k < |inputs| ==> ValidatedPlayer(leagueId, inputs[k]).value.meta.status in PlayerStatusNames)
    ensures BatchCheck(leagueId, inputs).Pass? ==>
      forall k :: 0 <= k < |inputs| ==>
        && ValidatedPlayer(leagueId, inputs[k]).Pass?
        && BatchCheck(leagueId, inputs).value[k] == ValidatedPlayer(leagueId, inputs[k]).value
        && BatchCheck(leagueId, inputs).value[k].leagueId == leagueId
        && BatchCheck(leagueId, inputs).value[k].draftedBy.None?
  {
    ValidatedPlayersPointwise(leagueId, inputs);
  }

  /** The checks of `POST /api/leagues/:leagueId/players/import`: the admin
      middleware, a non-empty array (`None`: not an array), the league
      (already found by the middleware), then the batch; on success the
      records. */
  function ImportCheck(d: Db, uid: Uid, leagueId: Id, players: Option<seq<PlayerInput>>): (r: Outcome<seq<Player>>)
    ensures !RequireLeagueAdmin(d.leagues, Some(leagueId), uid).Ok?
      ==> r == RequireLeagueAdmin(d.leagues, Some(leagueId), uid).Forward()
    ensures r.Ok? ==>
      (players.Some? && players.value != [] && BatchCheck(leagueId, players.value).Pass?
       && r.value == BatchCheck(leagueId, players.value).value)
  {
    var auth := RequireLeagueAdmin(d.leagues, Some(leagueId), uid);
    if !auth.Ok? then auth.Forward()
    else if players.None? || players.value == [] then BadRequest("Players array required")
    else if leagueId !in d.leagues then NotFound("League not found")
    else
      var batch := BatchCheck(leagueId, players.value);
      if batch.Fail? then BadRequest(batch.message) else Ok(batch.value)
  }

  /** An import is accepted exactly for an admin sending a non-empty array
      that the batch checks accept. */
  lemma ImportAccepted(d: Db, uid: Uid, leagueId: Id, players: Option<seq<PlayerInput>>)
    ensures ImportCheck(d, uid, leagueId, players).Ok? <==>
      && leagueId in d.leagues && IsLeagueAdmin(d.leagues[leagueId], uid)
      && players.Some? && players.value != [] && BatchCheck(leagueId, players.value).Pass?
  {
  }

  /** `Player.insertMany`: record k under id `start + k`. */
  function Inserted(m: map<Id, Player>, start: nat, records: seq<Player>): map<Id, Player>
    decreases |records|
  {
    if records == [] then m
    else Inserted(m, start, records[..|records| - 1])[start + |records| - 1 := records[|records| - 1]]
  }

  /** Where the inserted records are, and that nothing below `start`
      changes. */
  lemma {:induction false} InsertedAt(m: map<Id, Player>, start: nat, records: seq<Player>)
    ensures forall p: Id :: start <= p < start + |records| ==>
      p in Inserted(m, start, records) && Inserted(m, start, records)[p] == records[p - start]
    ensures forall p :: p in m && p < start ==> p in Inserted(m, start, records) && Inserted(m, start, records)[p] == m[p]
    ensures forall p :: p in Inserted(m, start, records) ==> p in m || start <= p < start + |records|
    decreases |records|
  {
    if records != [] {
      var init := records[..|records| - 1];
      InsertedAt(m, start, init);
      forall p: Id | start <= p < start + |records|
        ensures p in Inserted(m, start, records) && Inserted(m, start, records)[p] == records[p - start]
      {
        if p < start + |init| {
          assert init[p - start] == records[p - start];
        }
      }
    }
  }

  /** The ids of the inserted records, in input order. */
  function IdRange(start: nat, n: nat): (r: seq<Id>)
    ensures |r| == n && forall k :: 0 <= k < n ==> r[k] == start + k
  {
    seq(n, k => start + k)
  }

  /** The update of an accepted import. */
  function ImportApplied(d: Db, records: seq<Player>): Db {
    d.(players := Inserted(d.players, d.nextId, records), nextId := d.nextId + |records|)
  }

  /** Inserting undrafted players under new ids keeps every invariant. */
  lemma ImportKeepsValid(d: Db, records: seq<Player>)
    requires d.Valid() && forall k :: 0 <= k < |records| ==> records[k].draftedBy.None?
    ensures ImportApplied(d, records).Valid()
  {
    var d' := ImportApplied(d, records);
    var players := d'.players;
    InsertedAt(d.players, d.nextId, records);
    assert forall p :: p in players && p !in d.players ==> d.nextId <= p < d'.nextId && players[p].draftedBy.None? by {
      forall p | p in players && p !in d.players
        ensures d.nextId <= p < d'.nextId && players[p].draftedBy.None?
      {
        assert players[p] == records[p - d.nextId];
      }
    }
    RostersWithNewPlayers(d.teams, d.players, players, d.nextId, d'.nextId);
    InvitesWithGrownTeams(d.invites, d.teams, d.teams, d.nextId, d'.nextId);
  }

  /** The import response: its message and the created players' ids. */
  datatype ImportReply = ImportReply(message: string, players: seq<Id>)

  /** `Player.insertMany`. */
  method StorePlayers(s: Store, records: seq<Player>) returns (ids: seq<Id>)
    requires ImportApplied(s.State(), records).Valid()
    modifies s
    ensures s.Valid()
    ensures s.State() == ImportApplied(old(s.State()), records)
    ensures ids == IdRange(old(s.nextId), |records|)
  {
    ghost var d := s.State();
    ids := IdRange(s.nextId, |records|);
    s.players := Inserted(s.players, s.nextId, records);
    s.nextId := s.nextId + |records|;
    assert s.State() == ImportApplied(d, records);
  }

  /** `POST /api/leagues/:leagueId/players/import`: all of the batch or
      none of it; on success one new id per entry, in order. */
  method ImportPlayers(s: Store, uid: Uid, leagueId: Id, players: Option<seq<PlayerInput>>) returns (o: Outcome<ImportReply>)
    requires s.Valid()
    modifies s
    ensures s.Valid()
    ensures var c := ImportCheck(old(s.State()), uid, leagueId, players);
      && (!c.Ok? ==> o == c.Forward() && s.State() == old(s.State()))
      && (c.Ok? ==>
            && s.State() == ImportApplied(old(s.State()), c.value)
            && o == Ok(ImportReply(DecimalString(|c.value|) + " players imported", IdRange(old(s.nextId), |c.value|))))
  {
    var check := ImportCheck(s.State(), uid, leagueId, players);
    if !check.Ok? {
      return check.Forward();
    }
    BatchAccepted(leagueId, players.value);
    ImportKeepsValid(s.State(), check.value);
    var ids := StorePlayers(s, check.value);
    return Ok(ImportReply(DecimalString(|check.value|) + " players imported", ids));
  }

  // ---------------------------------------------------------------------
  // patch

  /** The `updateData` object of a player patch. */
  datatype PlayerPatch = PlayerPatch(name: Option<string>, photoUrl: Option<string>, meta: Option<Meta>)

  /** The message of the update validator for `meta.status`. */
  function UpdateStatusMessage(status: string): string {
    "Validation failed: meta.status: `" + status + "` is not a valid enum value for path `meta.status`."
  }

  /** The player is stored in this league (`findOne({ _id, leagueId })`). */
  predicate InLeague(d: Db, leagueId: Id, playerId: Id) {
    playerId in d.players && d.players[playerId].leagueId == leagueId
  }

  /** The checks of `PATCH /api/leagues/:leagueId/players/:playerId`: the
      admin middleware, the name when truthy, the update validators on a
      supplied `meta` (they run before the query), and the player's
      existence in the league; on success the update. */
  function PatchCheck(d: Db, uid: Uid, leagueId: Id, playerId: Id,
                      name: Option<string>, photoUrl: Option<string>, meta: Option<Meta>): (r: Outcome<PlayerPatch>)
    ensures !RequireLeagueAdmin(d.leagues, Some(leagueId), uid).Ok?
      ==> r == RequireLeagueAdmin(d.leagues, Some(leagueId), uid).Forward()
    ensures r.Ok? ==> InLeague(d, leagueId, playerId)
  {
    var auth := RequireLeagueAdmin(d.leagues, Some(leagueId), uid);
    if !auth.Ok? then auth.Forward()
    else
      var validName := if Truthy(name) then ValidatePlayerName(name.value) else Pass("");
      if validName.Fail? then BadRequest(validName.message)
      else if meta.Some? && meta.value.status !in PlayerStatusNames then
        BadRequest(UpdateStatusMessage(meta.value.status))
      else if !InLeague(d, leagueId, playerId) then NotFound("Player not found")
      else Ok(PlayerPatch(if Truthy(name) then Some(validName.value) else None, photoUrl, meta))
  }

  /** A patch is accepted exactly for an admin, a valid name if one is
      given, an allowed status if `meta` is given, and a player of the
      league; an unknown player is a 404. */
  lemma PatchAccepted(d: Db, uid: Uid, leagueId: Id, playerId: Id,
                      name: Option<string>, photoUrl: Option<string>, meta: Option<Meta>)
    ensures PatchCheck(d, uid, leagueId, playerId, name, photoUrl, meta).Ok? <==>
      && leagueId in d.leagues && IsLeagueAdmin(d.leagues[leagueId], uid)
      && (Truthy(name) ==> ValidatePlayerName(name.value).Pass?)
      && (meta.Some? ==> meta.value.status in PlayerStatusNames)
      && InLeague(d, leagueId, playerId)
    ensures leagueId in d.leagues && IsLeagueAdmin(d.leagues[leagueId], uid)
      && (Truthy(name) ==> ValidatePlayerName(name.value).Pass?)
      && (meta.Some? ==> meta.value.status in PlayerStatusNames)
      && !InLeague(d, leagueId, playerId)
      ==> PatchCheck(d, uid, leagueId, playerId, name, photoUrl, meta) == NotFound("Player not found")
  {
  }

  /** `{ $set: updateData }` on a player. */
  function PlayerPatched(p: Player, u: PlayerPatch): Player {
    p.(name := u.name.GetOr(p.name), photoUrl := u.photoUrl.GetOr(p.photoUrl), meta := u.meta.GetOr(p.meta))
  }

  /** An accepted patch sets the trimmed name when one is given, the photo
      when it is defined and the meta when it is given, and nothing else:
      league, drafting team and points stay. */
  lemma PatchedPlayer(d: Db, uid: Uid, leagueId: Id, playerId: Id,
                      name: Option<string>, photoUrl: Option<string>, meta: Option<Meta>)
    requires PatchCheck(d, uid, leagueId, playerId, name, photoUrl, meta).Ok?
    ensures var p := d.players[playerId];
      var p' := PlayerPatched(p, PatchCheck(d, uid, leagueId, playerId, name, photoUrl, meta).value);
      && (Truthy(name) ==> p'.name == Trim(name.value) && 1 <= Utf16Length(p'.name) <= 100)
      && (!Truthy(name) ==> p'.name == p.name)
      && p'.photoUrl == photoUrl.GetOr(p.photoUrl)
      && p'.meta == meta.GetOr(p.meta)
      && p'.leagueId == p.leagueId && p'.draftedBy == p.draftedBy
      && p'.totalPoints == p.totalPoints && p'.weeklyPoints == p.weeklyPoints
  {
  }

  /** Sending the same patch again changes nothing more. */
  lemma PlayerPatchIdempotent(p: Player, u: PlayerPatch)
    ensures PlayerPatched(PlayerPatched(p, u), u) == PlayerPatched(p, u)
  {
  }

  /** The update of an accepted patch. */
  function PatchApplied(d: Db, playerId: Id, u: PlayerPatch): Db
    requires playerId in d.players
  {
    d.(players := d.players[playerId := PlayerPatched(d.players[playerId], u)])
  }

  /** `PATCH /api/leagues/:leagueId/players/:playerId`; on success the
      updated player. */
  method PatchPlayer(s: Store, uid: Uid, leagueId: Id, playerId: Id,
                     name: Option<string>, photoUrl: Option<string>, meta: Option<Meta>) returns (o: Outcome<Player>)
    requires s.Valid()
    modifies s
    ensures s.Valid()
    ensures var c := PatchCheck(old(s.State()), uid, leagueId, playerId, name, photoUrl, meta);
      && (!c.Ok? ==> o == c.Forward() && s.State() == old(s.State()))
      && (c.Ok? ==> s.State() == PatchApplied(old(s.State()), playerId, c.value) && o == Ok(s.players[playerId]))
  {
    var check := PatchCheck(s.State(), uid, leagueId, playerId, name, photoUrl, meta);
    if !check.Ok? {
      return check.Forward();
    }
    UpdatePlayer(s, playerId, check.value);
    return Ok(s.players[playerId]);
  }

  /** `findOneAndUpdate` with `$set`. */
  method UpdatePlayer(s: Store, playerId: Id, u: PlayerPatch)
    requires s.Valid() && playerId in s.players
    modifies s
    ensures s.Valid()
    ensures s.State() == PatchApplied(old(s.State()), playerId, u)
  {
    ghost var d := s.State();
    s.players := s.players[playerId := PlayerPatched(s.players[playerId], u)];
    assert s.State() == PatchApplied(d, playerId, u);
    PlayerShapeKeepsValid(d, s.players);
  }

  // ---------------------------------------------------------------------
  // delete

  /** The checks of `DELETE /api/leagues/:leagueId/players/:playerId`. */
  function DeleteCheck(d: Db, uid: Uid, leagueId: Id, playerId: Id): (r: Outcome<()>)
    ensures !RequireLeagueAdmin(d.leagues, Some(leagueId), uid).Ok?
      ==> r == RequireLeagueAdmin(d.leagues, Some(leagueId), uid).Forward()
    ensures RequireLeagueAdmin(d.leagues, Some(leagueId), uid).Ok? ==>
      (r.Ok? <==> InLeague(d, leagueId, playerId)) && (!r.Ok? ==> r == NotFound("Player not found"))
  {
    var auth := RequireLeagueAdmin(d.leagues, Some(leagueId), uid);
    if !auth.Ok? then auth.Forward()
    else if !InLeague(d, leagueId, playerId) then NotFound("Player not found")
    else Ok(())
  }

  /** The update of an accepted delete: the player is gone, nothing else
      changes (a roster that lists it keeps the id). */
  function DeleteApplied(d: Db, playerId: Id): Db {
    d.(players := d.players - {playerId})
  }

  lemma DeleteKeepsValid(d: Db, playerId: Id)
    requires d.Valid()
    ensures DeleteApplied(d, playerId).Valid()
  {
  }

  /** A deleted player is no longer listed, and every other player of the
      league still is. */
  lemma DeletedNotListed(d: Db, leagueId: Id, playerId: Id)
    ensures var d' := DeleteApplied(d, playerId);
      && playerId !in PlayerList(d', leagueId)
      && forall p :: p in PlayerList(d, leagueId) && p != playerId ==> p in PlayerList(d', leagueId)
  {
    var d' := DeleteApplied(d, playerId);
    assert playerId !in d'.players;
    forall p | p in PlayerList(d, leagueId) && p != playerId
      ensures p in PlayerList(d', leagueId)
    {
      assert p in d'.players && d'.players[p] == d.players[p];
    }
  }

  /** `DELETE /api/leagues/:leagueId/players/:playerId`; on success the
      confirmation message. */
  method DeletePlayer(s: Store, uid: Uid, leagueId: Id, playerId: Id) returns (o: Outcome<string>)
    requires s.Valid()
    modifies s
    ensures s.Valid()
    ensures var c := DeleteCheck(old(s.State()), uid, leagueId, playerId);
      && (!c.Ok? ==> o == c.Forward() && s.State() == old(s.State()))
      && (c.Ok? ==> s.State() == DeleteApplied(old(s.State()), playerId) && o == Ok("Player deleted"))
  {
    var check := DeleteCheck(s.State(), uid, leagueId, playerId);
    if !check.Ok? {
      return check.Forward();
    }
    RemovePlayer(s, playerId);
    return Ok("Player deleted");
  }

  /** `findOneAndDelete`. */
  method RemovePlayer(s: Store, playerId: Id)
    requires s.Valid()
    modifies s
    ensures s.Valid()
    ensures s.State() == DeleteApplied(old(s.State()), playerId)
  {
    ghost var d := s.State();
    s.players := s.players - {playerId};
    assert s.State() == DeleteApplied(d, playerId);
    DeleteKeepsValid(d, playerId);
  }
}
