/** server/src/routes/leagues.js: creating a league, the `mine` listing,
    the settings patch and the status update. The patch and the status
    update run behind `requireLeagueAdmin`. */
module Leagues {
  import opened Outcomes
  import opened Ordering
  import opened Models
  import opened Authorize
  import opened Text
  import opened Validation

  /** The request's `settings` object, field by field; `None` is a field
      that is absent (`undefined`). Numbers are what `Number()` makes of
      the value; `draft` and `invites` stand for a supplied (truthy)
      sub-object; `scoringRules` for a supplied truthy value, which the
      scoring-rule validator still has to accept as an object. */
  datatype SettingsInput = SettingsInput(
    show: Option<string>,
    seasonLabel: Option<string>,
    maxTeams: Option<int>,
    membersPerTeam: Option<int>,
    draft: Option<DraftSettings>,
    invites: Option<InviteSettings>,
    scoringRules: Option<RulesInput>)

  /** A request without `settings`: every `settings?.x` is undefined. */
  function NoSettings(): SettingsInput {
    SettingsInput(None, None, None, None, None, None, None)
  }

  /** The sub-objects the schema's defaults fill in for `{}`. */
  function DefaultDraft(): DraftSettings { DraftSettings(60, true) }
  function DefaultInvites(): InviteSettings { InviteSettings(true, true) }

  // ---------------------------------------------------------------------
  // create

  /** `settings?.x ? validateNumber(settings.x, min, max, field) : default`. */
  function NumberOrDefault(value: Option<int>, min: int, max: int, fieldName: string, default: int): (r: Checked<int>)
    ensures !NumberTruthy(value) ==> r == Pass(default)
    ensures NumberTruthy(value) ==> r == ValidateNumber(value, min, max, fieldName)
  {
    if NumberTruthy(value) then ValidateNumber(value, min, max, fieldName) else Pass(default)
  }

  /** The scoring rules of a create or a patch: validated when supplied. */
  function RulesOf(rules: Option<RulesInput>): Checked<map<string, int>> {
    if rules.Some? then RulesChecked(rules.value) else Pass(map[])
  }

  /** The `settings` object `League.create` receives, evaluated field by
      field in the order written, so the first validator that throws
      decides the message. */
  function NewSettings(input: SettingsInput): Checked<Settings> {
    var maxTeams := NumberOrDefault(input.maxTeams, 2, 20, "Max teams", 8);
    if maxTeams.Fail? then Fail(maxTeams.message)
    else
      var membersPerTeam := NumberOrDefault(input.membersPerTeam, 1, 10, "Members per team", 2);
      if membersPerTeam.Fail? then Fail(membersPerTeam.message)
      else
        var rules := RulesOf(input.scoringRules);
        if rules.Fail? then Fail(rules.message)
        else
          Pass(Settings(
            if Truthy(input.show) then input.show.value else "Survivor",
            if Truthy(input.seasonLabel) then input.seasonLabel.value else "S1",
            maxTeams.value,
            membersPerTeam.value,
            input.draft.GetOr(DefaultDraft()),
            input.invites.GetOr(DefaultInvites()),
            rules.value))
  }

  /** The league `POST /api/leagues` creates: the validated name, the
      caller as owner and only admin, and the settings with their
      defaults; the name is validated first. */
  function NewLeague(uid: Uid, leagueName: Option<string>, settings: SettingsInput): (r: Checked<League>)
    ensures ValidateLeagueName(leagueName.GetOr("")).Fail? ==> r == Fail(ValidateLeagueName(leagueName.GetOr("")).message)
  {
    var name := ValidateLeagueName(leagueName.GetOr(""));
    if name.Fail? then Fail(name.message)
    else
      var st := NewSettings(settings);
      if st.Fail? then Fail(st.message)
      else Pass(League(name.value, uid, [uid], st.value, false, Setup))
  }

  /** A create is accepted exactly for a valid name and, of the numbers and
      rules supplied, values the validators accept. */
  lemma NewLeagueAccepted(uid: Uid, leagueName: Option<string>, settings: SettingsInput)
    ensures NewLeague(uid, leagueName, settings).Pass? <==>
      && ValidateLeagueName(leagueName.GetOr("")).Pass?
      && (NumberTruthy(settings.maxTeams) ==> 2 <= settings.maxTeams.value <= 20)
      && (NumberTruthy(settings.membersPerTeam) ==> 1 <= settings.membersPerTeam.value <= 10)
      && (settings.scoringRules.Some? ==>
            settings.scoringRules.value.Entries? && AllRulesValid(settings.scoringRules.value.entries))
  {
  }

  /** The creator owns the new league and is its only admin; the name is
      the trimmed input of 3 to 100 code units; the league starts in
      setup with no draft completed. */
  lemma CreatedLeague(uid: Uid, leagueName: Option<string>, settings: SettingsInput)
    requires NewLeague(uid, leagueName, settings).Pass?
    ensures var league := NewLeague(uid, leagueName, settings).value;
      && league.ownerUid == uid && league.admins == [uid]
      && league.leagueName == Trim(leagueName.value) && IsTrimmed(league.leagueName)
      && 3 <= Utf16Length(league.leagueName) <= 100
      && league.status == Setup && !league.draftCompleted
  {
  }

  /** The defaults of a create: `Survivor`, `S1`, 8 teams, 2 members per
      team, the schema's draft and invite defaults and no scoring rules,
      each taking the supplied value instead when that is truthy. The
      limits always lie in the schema's ranges. */
  lemma CreatedSettings(uid: Uid, leagueName: Option<string>, settings: SettingsInput)
    requires NewLeague(uid, leagueName, settings).Pass?
    ensures var st := NewLeague(uid, leagueName, settings).value.settings;
      && (!Truthy(settings.show) ==> st.show == "Survivor")
      && (Truthy(settings.show) ==> st.show == settings.show.value)
      && (!Truthy(settings.seasonLabel) ==> st.seasonLabel == "S1")
      && (Truthy(settings.seasonLabel) ==> st.seasonLabel == settings.seasonLabel.value)
      && (!NumberTruthy(settings.maxTeams) ==> st.maxTeams == 8)
      && (NumberTruthy(settings.maxTeams) ==> st.maxTeams == settings.maxTeams.value)
      && (!NumberTruthy(settings.membersPerTeam) ==> st.membersPerTeam == 2)
      && (NumberTruthy(settings.membersPerTeam) ==> st.membersPerTeam == settings.membersPerTeam.value)
      && (settings.draft.None? ==> st.draft == DraftSettings(60, true))
      && (settings.invites.None? ==> st.invites == InviteSettings(true, true))
      && (settings.scoringRules.None? ==> st.scoringRules == map[])
      && (settings.scoringRules.Some? ==> st.scoringRules == RulesFrom(settings.scoringRules.value.entries))
      && SettingsOk(st)
  {
  }

  /** A request without settings gets every default. */
  lemma DefaultLeagueSettings(uid: Uid, leagueName: Option<string>)
    requires ValidateLeagueName(leagueName.GetOr("")).Pass?
    ensures NewLeague(uid, leagueName, NoSettings()).Pass?
    ensures NewLeague(uid, leagueName, NoSettings()).value.settings
      == Settings("Survivor", "S1", 8, 2, DraftSettings(60, true), InviteSettings(true, true), map[])
  {
  }

  /** The update of a create: the league under a new id. */
  function CreateApplied(d: Db, league: League): Db {
    d.(leagues := d.leagues[d.nextId := league], nextId := d.nextId + 1)
  }

  /** `League.create`. */
  method StoreLeague(s: Store, league: League)
    requires s.Valid() && SettingsOk(league.settings)
    modifies s
    ensures s.Valid()
    ensures s.State() == CreateApplied(old(s.State()), league)
  {
    ghost var d := s.State();
    s.leagues := s.leagues[s.nextId := league];
    s.nextId := s.nextId + 1;
    assert s.State() == CreateApplied(d, league);
    LeagueAddedKeepsValid(d, league);
  }

  /** `POST /api/leagues`; on success the created league, stored under the
      next id. Any thrown validation error is a 400. */
  method CreateLeague(s: Store, uid: Uid, leagueName: Option<string>, settings: SettingsInput)
    returns (o: Outcome<League>)
    requires s.Valid()
    modifies s
    ensures s.Valid()
    ensures var c := NewLeague(uid, leagueName, settings);
      && (c.Fail? ==> o == BadRequest(c.message) && s.State() == old(s.State()))
      && (c.Pass? ==> o == Ok(c.value) && s.State() == CreateApplied(old(s.State()), c.value))
  {
    var c := NewLeague(uid, leagueName, settings);
    if c.Fail? {
      return BadRequest(c.message);
    }
    CreatedSettings(uid, leagueName, settings);
    StoreLeague(s, c.value);
    return Ok(c.value);
  }

  // ---------------------------------------------------------------------
  // mine

  /** The user owns or administers the league, or is on one of its teams. */
  predicate BelongsTo(d: Db, uid: Uid, l: Id)
    requires l in d.leagues
  {
    IsLeagueAdmin(d.leagues[l], uid) || HasTeamIn(d.teams, l, uid)
  }

  /** The filter of the `mine` query. */
  function MineFilter(d: Db, uid: Uid): Id -> bool {
    (l: Id) => l in d.leagues && BelongsTo(d, uid, l)
  }

  /** `GET /api/leagues/mine`: the leagues the user owns, administers or
      has a team in, newest first. */
  function Mine(d: Db, uid: Uid): (r: seq<Id>)
    ensures forall l :: l in r <==> l in d.leagues && l < d.nextId && BelongsTo(d, uid, l)
    ensures Decreasing(r)
  {
    IdsBelowIncreasing(d.leagues.Keys, d.nextId);
    SelectIncreasing(IdsBelow(d.leagues.Keys, d.nextId), MineFilter(d, uid));
    ReverseIncreasing(Select(IdsBelow(d.leagues.Keys, d.nextId), MineFilter(d, uid)));
    Reverse(Select(IdsBelow(d.leagues.Keys, d.nextId), MineFilter(d, uid)))
  }

  /** A league the user has just created heads the user's `mine` listing,
      followed by the listing as it was. */
  lemma CreatedLeagueFirst(d: Db, uid: Uid, league: League)
    requires IdsOk(d) && league.ownerUid == uid
    ensures Mine(CreateApplied(d, league), uid) == [d.nextId] + Mine(d, uid)
  {
    MineSelectExtends(d, uid, league);
    ReverseAppendOne(Select(IdsBelow(d.leagues.Keys, d.nextId), MineFilter(d, uid)), d.nextId);
  }

  lemma MineSelectExtends(d: Db, uid: Uid, league: League)
    requires IdsOk(d) && league.ownerUid == uid
    ensures var d' := CreateApplied(d, league);
      Select(IdsBelow(d'.leagues.Keys, d'.nextId), MineFilter(d', uid))
      == Select(IdsBelow(d.leagues.Keys, d.nextId), MineFilter(d, uid)) + [d.nextId]
  {
    var d' := CreateApplied(d, league);
    var ids := IdsBelow(d.leagues.Keys, d.nextId);
    assert d'.leagues.Keys == d.leagues.Keys + {d.nextId};
    IdsBelowAddTop(d.leagues.Keys, d.nextId);
    forall k | 0 <= k < |ids|
      ensures MineFilter(d, uid)(ids[k]) == MineFilter(d', uid)(ids[k])
    {
      assert ids[k] in ids;
    }
    SelectExtendTop(ids, d.nextId, MineFilter(d, uid), MineFilter(d', uid));
  }

  // ---------------------------------------------------------------------
  // settings patch

  /** The `updateData` object: each field present is one `$set`. */
  datatype SettingsPatch = SettingsPatch(
    show: Option<string>,
    seasonLabel: Option<string>,
    maxTeams: Option<int>,
    membersPerTeam: Option<int>,
    draft: Option<DraftSettings>,
    invites: Option<InviteSettings>,
    scoringRules: Option<map<string, int>>)

  /** `if (settings.x !== undefined) updateData[..] = validateNumber(..)`. */
  function NumberIfSupplied(value: Option<int>, min: int, max: int, fieldName: string): (r: Checked<Option<int>>)
    ensures value.None? ==> r == Pass(None)
    ensures value.Some? ==> (r.Pass? <==> ValidateNumber(value, min, max, fieldName).Pass?)
    ensures r.Pass? && value.Some? ==> r.value == Some(value.value)
  {
    if value.None? then Pass(None)
    else
      var c := ValidateNumber(value, min, max, fieldName);
      if c.Fail? then Fail(c.message) else Pass(Some(c.value))
  }

  /** A string field is set when it is truthy. */
  function StringIfTruthy(value: Option<string>): Option<string> {
    if Truthy(value) then value else None
  }

  /** Filling `updateData` in the order written; the first validator that
      throws decides the message. */
  function UpdateData(input: SettingsInput): Checked<SettingsPatch> {
    var maxTeams := NumberIfSupplied(input.maxTeams, 2, 20, "Max teams");
    if maxTeams.Fail? then Fail(maxTeams.message)
    else
      var membersPerTeam := NumberIfSupplied(input.membersPerTeam, 1, 10, "Members per team");
      if membersPerTeam.Fail? then Fail(membersPerTeam.message)
      else
        var rules := if input.scoringRules.Some? then RulesChecked(input.scoringRules.value) else Pass(map[]);
        if rules.Fail? then Fail(rules.message)
        else
          Pass(SettingsPatch(
            StringIfTruthy(input.show),
            StringIfTruthy(input.seasonLabel),
            maxTeams.value,
            membersPerTeam.value,
            input.draft,
            input.invites,
            if input.scoringRules.Some? then Some(rules.value) else None))
  }

  /** `{ $set: updateData }` on a league's settings. */
  function Patched(st: Settings, u: SettingsPatch): Settings {
    Settings(
      u.show.GetOr(st.show),
      u.seasonLabel.GetOr(st.seasonLabel),
      u.maxTeams.GetOr(st.maxTeams),
      u.membersPerTeam.GetOr(st.membersPerTeam),
      u.draft.GetOr(st.draft),
      u.invites.GetOr(st.invites),
      u.scoringRules.GetOr(st.scoringRules))
  }

  /** The checks of `PATCH /api/leagues/:leagueId/settings`: the admin
      middleware, a `settings` object (`None`: missing, or not an object),
      and the validators; on success the update. */
  function PatchCheck(d: Db, uid: Uid, leagueId: Id, settings: Option<SettingsInput>): (r: Outcome<SettingsPatch>)
    ensures !RequireLeagueAdmin(d.leagues, Some(leagueId), uid).Ok?
      ==> r == RequireLeagueAdmin(d.leagues, Some(leagueId), uid).Forward()
    ensures r.Ok? ==> leagueId in d.leagues
  {
    var auth := RequireLeagueAdmin(d.leagues, Some(leagueId), uid);
    if !auth.Ok? then auth.Forward()
    else if settings.None? then BadRequest("Settings object required")
    else
      var u := UpdateData(settings.value);
      if u.Fail? then BadRequest(u.message) else Ok(u.value)
  }

  /** A patch is accepted exactly for an admin sending a settings object
      whose supplied limits and rules are valid: one bad value rejects the
      whole patch. */
  lemma PatchAccepted(d: Db, uid: Uid, leagueId: Id, settings: Option<SettingsInput>)
    ensures PatchCheck(d, uid, leagueId, settings).Ok? <==>
      && leagueId in d.leagues && IsLeagueAdmin(d.leagues[leagueId], uid) && settings.Some?
      && (settings.value.maxTeams.Some? ==> 2 <= settings.value.maxTeams.value <= 20)
      && (settings.value.membersPerTeam.Some? ==> 1 <= settings.value.membersPerTeam.value <= 10)
      && (settings.value.scoringRules.Some? ==>
            settings.value.scoringRules.value.Entries? && AllRulesValid(settings.value.scoringRules.value.entries))
  {
  }

  /** An accepted patch sets exactly the supplied fields (strings when
      truthy, numbers when present, sub-objects and rules when truthy) and
      leaves every other setting as it was. */
  lemma PatchedFields(st: Settings, input: SettingsInput)
    requires UpdateData(input).Pass?
    ensures var st' := Patched(st, UpdateData(input).value);
      && st'.show == (if Truthy(input.show) then input.show.value else st.show)
      && st'.seasonLabel == (if Truthy(input.seasonLabel) then input.seasonLabel.value else st.seasonLabel)
      && st'.maxTeams == input.maxTeams.GetOr(st.maxTeams)
      && st'.membersPerTeam == input.membersPerTeam.GetOr(st.membersPerTeam)
      && st'.draft == input.draft.GetOr(st.draft)
      && st'.invites == input.invites.GetOr(st.invites)
      && (input.scoringRules.None? ==> st'.scoringRules == st.scoringRules)
      && (input.scoringRules.Some? ==> st'.scoringRules == RulesFrom(input.scoringRules.value.entries))
  {
  }

  /** A patch keeps the limits within the schema's ranges. */
  lemma PatchedSettingsOk(st: Settings, input: SettingsInput)
    requires SettingsOk(st) && UpdateData(input).Pass?
    ensures SettingsOk(Patched(st, UpdateData(input).value))
  {
  }

  /** Sending the same patch again changes nothing more. */
  lemma PatchIdempotent(st: Settings, u: SettingsPatch)
    ensures Patched(Patched(st, u), u) == Patched(st, u)
  {
  }

  /** A settings object with no field set changes nothing. */
  lemma EmptyPatchChangesNothing(st: Settings)
    ensures UpdateData(NoSettings()) == Pass(SettingsPatch(None, None, None, None, None, None, None))
    ensures Patched(st, UpdateData(NoSettings()).value) == st
  {
  }

  /** The update of an accepted patch: only that league's settings change. */
  function PatchApplied(d: Db, leagueId: Id, u: SettingsPatch): Db
    requires leagueId in d.leagues
  {
    d.(leagues := d.leagues[leagueId := d.leagues[leagueId].(settings := Patched(d.leagues[leagueId].settings, u))])
  }

  lemma PatchKeepsValid(d: Db, uid: Uid, leagueId: Id, settings: Option<SettingsInput>)
    requires d.Valid() && PatchCheck(d, uid, leagueId, settings).Ok?
    ensures PatchApplied(d, leagueId, PatchCheck(d, uid, leagueId, settings).value).Valid()
  {
    var league := d.leagues[leagueId];
    PatchedSettingsOk(league.settings, settings.value);
    LeagueKeepsValid(d, leagueId, league.(settings := Patched(league.settings, PatchCheck(d, uid, leagueId, settings).value)));
  }

  /** `PATCH /api/leagues/:leagueId/settings`; on success the updated
      league. */
  method PatchSettings(s: Store, uid: Uid, leagueId: Id, settings: Option<SettingsInput>) returns (o: Outcome<League>)
    requires s.Valid()
    modifies s
    ensures s.Valid()
    ensures var c := PatchCheck(old(s.State()), uid, leagueId, settings);
      && (!c.Ok? ==> o == c.Forward() && s.State() == old(s.State()))
      && (c.Ok? ==> s.State() == PatchApplied(old(s.State()), leagueId, c.value) && o == Ok(s.leagues[leagueId]))
  {
    var check := PatchCheck(s.State(), uid, leagueId, settings);
    if !check.Ok? {
      return check.Forward();
    }
    PatchKeepsValid(s.State(), uid, leagueId, settings);
    var league := s.leagues[leagueId];
    s.leagues := s.leagues[leagueId := league.(settings := Patched(league.settings, check.value))];
    return Ok(s.leagues[leagueId]);
  }

  // ---------------------------------------------------------------------
  // status

  /** The checks of `POST /api/leagues/:leagueId/status`: the admin
      middleware and the status enum; on success the new status. */
  function StatusCheck(d: Db, uid: Uid, leagueId: Id, status: Option<string>): (r: Outcome<LeagueStatus>)
    ensures !RequireLeagueAdmin(d.leagues, Some(leagueId), uid).Ok?
      ==> r == RequireLeagueAdmin(d.leagues, Some(leagueId), uid).Forward()
    ensures r.Ok? ==> leagueId in d.leagues
  {
    var auth := RequireLeagueAdmin(d.leagues, Some(leagueId), uid);
    if !auth.Ok? then auth.Forward()
    else
      var valid := ValidateEnum(status.GetOr(""), StatusNames, "Status");
      if valid.Fail? then BadRequest(valid.message) else Ok(StatusNamed(valid.value))
  }

  /** Any of the four statuses is accepted from any current status, as the
      stored status named; anything else is refused with the enum
      validator's message. */
  lemma StatusAnyJump(d: Db, uid: Uid, leagueId: Id, status: Option<string>)
    requires leagueId in d.leagues && IsLeagueAdmin(d.leagues[leagueId], uid)
    ensures StatusCheck(d, uid, leagueId, status).Ok? <==> status.Some? && status.value in StatusNames
    ensures StatusCheck(d, uid, leagueId, status).Ok? ==>
      StatusName(StatusCheck(d, uid, leagueId, status).value) == status.value
    ensures !StatusCheck(d, uid, leagueId, status).Ok? ==>
      StatusCheck(d, uid, leagueId, status) == BadRequest(ValidateEnum(status.GetOr(""), StatusNames, "Status").message)
  {
  }

  /** The update of an accepted status change: only that league's status. */
  function StatusApplied(d: Db, leagueId: Id, status: LeagueStatus): Db
    requires leagueId in d.leagues
  {
    d.(leagues := d.leagues[leagueId := d.leagues[leagueId].(status := status)])
  }

  /** `POST /api/leagues/:leagueId/status`; on success the updated league. */
  method UpdateStatus(s: Store, uid: Uid, leagueId: Id, status: Option<string>) returns (o: Outcome<League>)
    requires s.Valid()
    modifies s
    ensures s.Valid()
    ensures var c := StatusCheck(old(s.State()), uid, leagueId, status);
      && (!c.Ok? ==> o == c.Forward() && s.State() == old(s.State()))
      && (c.Ok? ==> s.State() == StatusApplied(old(s.State()), leagueId, c.value) && o == Ok(s.leagues[leagueId]))
  {
    var check := StatusCheck(s.State(), uid, leagueId, status);
    if !check.Ok? {
      return check.Forward();
    }
    var league := s.leagues[leagueId];
    LeagueKeepsValid(s.State(), leagueId, league.(status := check.value));
    s.leagues := s.leagues[leagueId := league.(status := check.value)];
    return Ok(s.leagues[leagueId]);
  }
}
