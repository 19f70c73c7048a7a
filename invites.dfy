/** server/src/routes/invites.js: an admin creates an invite code for a
    league; a user redeems a code, which either creates a new team in the
    invite's league (a league invite) or adds the user to the invite's team
    (a team invite).

    As in the draft handlers, each method's contract ties the response and
    the new database to a function that runs the guards in the source's
    order and to the update a successful request makes. */
module Invites {
  import opened Outcomes
  import opened Text
  import opened Models
  import opened Authorize
  import opened Utils
  import opened Validation

  // ---------------------------------------------------------------------
  // create

  /** The body of `POST /api/leagues/:leagueId/invites`; a field that is
      absent or null is `None`. `expiresAt` is a time on the redemption
      clock. */
  datatype CreateRequest = CreateRequest(
    inviteType: Option<string>,
    teamId: Option<Id>,
    multiUse: Option<bool>,
    maxUses: Option<int>,
    expiresAt: Option<int>)

  const InviteTypeNames: seq<string> := ["league", "team"]

  /** `validateEnum(type, ['league', 'team'], 'Invite type')`. An absent
      type is not among the allowed values either. */
  function ValidInviteType(t: Option<string>): (r: Checked<InviteType>)
    ensures r.Pass? <==> t == Some("league") || t == Some("team")
    ensures r == Pass(LeagueInvite) <==> t == Some("league")
    ensures r == Pass(TeamInvite) <==> t == Some("team")
  {
    var v := ValidateEnum(t.GetOr(""), InviteTypeNames, "Invite type");
    if v.Fail? then Fail(v.message)
    else if v.value == "league" then Pass(LeagueInvite)
    else Pass(TeamInvite)
  }

  /** The guards of a create that run before a code is drawn: the admin
      check, the type, and for a team invite a team id naming a team of
      this league. */
  function CreateCheck(d: Db, uid: Uid, leagueId: Id, req: CreateRequest): (r: Outcome<InviteType>)
    ensures !RequireLeagueAdmin(d.leagues, Some(leagueId), uid).Ok?
      ==> r == RequireLeagueAdmin(d.leagues, Some(leagueId), uid).Forward()
    ensures r.Ok? ==> leagueId in d.leagues && ValidInviteType(req.inviteType) == Pass(r.value)
    ensures r == Ok(TeamInvite) ==>
      req.teamId.Some? && req.teamId.value in d.teams && d.teams[req.teamId.value].leagueId == leagueId
  {
    var auth := RequireLeagueAdmin(d.leagues, Some(leagueId), uid);
    if !auth.Ok? then auth.Forward()
    else
      var t := ValidInviteType(req.inviteType);
      if t.Fail? then BadRequest(t.message)
      else if t.value == TeamInvite && req.teamId.None? then BadRequest("Team ID required for team invites")
      else if t.value == TeamInvite && !(req.teamId.value in d.teams && d.teams[req.teamId.value].leagueId == leagueId) then
        NotFound("Team not found")
      else Ok(t.value)
  }

  /** The guards before the code search pass exactly for an admin with a
      valid type and, for a team invite, a team of the league. */
  lemma CreateCheckAccepted(d: Db, uid: Uid, leagueId: Id, req: CreateRequest)
    ensures CreateCheck(d, uid, leagueId, req).Ok? <==>
      && leagueId in d.leagues && IsLeagueAdmin(d.leagues[leagueId], uid)
      && (req.inviteType == Some("league")
          || (req.inviteType == Some("team") && req.teamId.Some? && req.teamId.value in d.teams
              && d.teams[req.teamId.value].leagueId == leagueId))
  {
  }

  /** The number of codes drawn before giving up. */
  const MaxCodeAttempts: nat := 10

  /** The random draws of attempt `a`: each attempt consumes the next
      `DefaultCodeLength()` draws of `Math.random`. */
  function Draws(rand: nat -> nat, a: nat): nat -> nat {
    k => rand(a * DefaultCodeLength() + k)
  }

  /** The code drawn by attempt `a`. */
  function Candidate(rand: nat -> nat, a: nat): string {
    DrawnCode(Draws(rand, a), DefaultCodeLength())
  }

  /** The first attempt, from `a` on, whose code no invite has yet;
      `MaxCodeAttempts` when every attempt up to the tenth collides. */
  function FirstFree(invites: map<string, Invite>, rand: nat -> nat, a: nat): (b: nat)
    requires a <= MaxCodeAttempts
    decreases MaxCodeAttempts - a
    ensures a <= b <= MaxCodeAttempts
    ensures forall c :: a <= c < b ==> Candidate(rand, c) in invites
    ensures b < MaxCodeAttempts ==> Candidate(rand, b) !in invites
  {
    if a == MaxCodeAttempts || Candidate(rand, a) !in invites then a
    else FirstFree(invites, rand, a + 1)
  }

  /** The outcome of the retry loop: the first drawn code that no invite
      has, or `None` after ten collisions. */
  function CodeSearch(invites: map<string, Invite>, rand: nat -> nat): (r: Option<string>)
    ensures r.None? <==> forall b :: 0 <= b < MaxCodeAttempts ==> Candidate(rand, b) in invites
    ensures r.Some? ==> r.value !in invites && r.value == Candidate(rand, FirstFree(invites, rand, 0))
  {
    var b := FirstFree(invites, rand, 0);
    if b < MaxCodeAttempts then Some(Candidate(rand, b)) else None
  }

  /** The do/while loop of the create handler: draw a code, stop when no
      invite has it, and give up after ten collisions. */
  method FindUniqueCode(invites: map<string, Invite>, rand: nat -> nat) returns (code: Option<string>)
    ensures code == CodeSearch(invites, rand)
  {
    var attempts := 0;
    while true
      invariant 0 <= attempts < MaxCodeAttempts
      invariant FirstFree(invites, rand, attempts) == FirstFree(invites, rand, 0)
      decreases MaxCodeAttempts - attempts
    {
      var candidate := GenerateInviteCode(Draws(rand, attempts));
      if candidate !in invites {
        return Some(candidate);
      }
      attempts := attempts + 1;
      if attempts >= MaxCodeAttempts {
        return None;
      }
    }
  }

  /** `maxUses ? validateNumber(maxUses, 1, 1000, 'Max uses') : null`. */
  function MaxUsesOf(maxUses: Option<int>): (r: Checked<Option<int>>)
    ensures r.Pass? <==> !NumberTruthy(maxUses) || 1 <= maxUses.value <= 1000
    ensures r.Pass? && NumberTruthy(maxUses) ==> r.value == maxUses
    ensures r.Pass? && !NumberTruthy(maxUses) ==> r.value.None?
  {
    if !NumberTruthy(maxUses) then Pass(None)
    else match ValidateNumber(maxUses, 1, 1000, "Max uses")
      case Pass(v) => Pass(Some(v))
      case Fail(m) => Fail(m)
  }

  /** `expiresAt ? new Date(expiresAt) : null`. */
  function ExpiryOf(expiresAt: Option<int>): Option<int> {
    if NumberTruthy(expiresAt) then expiresAt else None
  }

  /** `Invite.create({ ... })` with the values the handler computed; the
      schema starts `uses` at 0. */
  function NewInvite(leagueId: Id, t: InviteType, req: CreateRequest, code: string, maxUses: Option<int>, uid: Uid): Invite {
    Invite(leagueId, t, if t == TeamInvite then req.teamId else None,
           code, req.multiUse != Some(false), 0, maxUses, ExpiryOf(req.expiresAt), uid)
  }

  /** The whole create request: the guards, the code search, the
      `maxUses` check inside `Invite.create`, and the invite created. */
  function CreateOutcome(d: Db, uid: Uid, leagueId: Id, req: CreateRequest, rand: nat -> nat): (r: Outcome<Invite>)
    ensures !CreateCheck(d, uid, leagueId, req).Ok? ==> r == CreateCheck(d, uid, leagueId, req).Forward()
    ensures CreateCheck(d, uid, leagueId, req).Ok? && CodeSearch(d.invites, rand).None?
      ==> r == ServerError("Failed to generate unique code")
    ensures r.Ok? ==>
      (CreateCheck(d, uid, leagueId, req).Ok? && CodeSearch(d.invites, rand).Some? && MaxUsesOf(req.maxUses).Pass?
       && r.value == NewInvite(leagueId, CreateCheck(d, uid, leagueId, req).value, req,
                               CodeSearch(d.invites, rand).value, MaxUsesOf(req.maxUses).value, uid))
  {
    var check := CreateCheck(d, uid, leagueId, req);
    if !check.Ok? then check.Forward()
    else match CodeSearch(d.invites, rand)
      case None => ServerError("Failed to generate unique code")
      case Some(code) =>
        match MaxUsesOf(req.maxUses)
        case Fail(m) => BadRequest(m)
        case Pass(maxUses) => Ok(NewInvite(leagueId, check.value, req, code, maxUses, uid))
  }

  /** A create succeeds exactly for an admin with a valid type (and, for a
      team invite, a team of the league), when a free code is found within
      ten attempts and `maxUses` is absent or in 1..1000. */
  lemma CreateAccepted(d: Db, uid: Uid, leagueId: Id, req: CreateRequest, rand: nat -> nat)
    ensures CreateOutcome(d, uid, leagueId, req, rand).Ok? <==>
      && leagueId in d.leagues && IsLeagueAdmin(d.leagues[leagueId], uid)
      && (req.inviteType == Some("league")
          || (req.inviteType == Some("team") && req.teamId.Some? && req.teamId.value in d.teams
              && d.teams[req.teamId.value].leagueId == leagueId))
      && (exists b :: 0 <= b < MaxCodeAttempts && Candidate(rand, b) !in d.invites)
      && (!NumberTruthy(req.maxUses) || 1 <= req.maxUses.value <= 1000)
  {
    CreateCheckAccepted(d, uid, leagueId, req);
    CreateOutcomeOk(d, uid, leagueId, req, rand);
    CodeFound(d.invites, rand);
  }

  /** The create succeeds when each of its three stages does. */
  lemma CreateOutcomeOk(d: Db, uid: Uid, leagueId: Id, req: CreateRequest, rand: nat -> nat)
    ensures CreateOutcome(d, uid, leagueId, req, rand).Ok? <==>
      CreateCheck(d, uid, leagueId, req).Ok? && CodeSearch(d.invites, rand).Some? && MaxUsesOf(req.maxUses).Pass?
  {
  }

  /** The search finds a code exactly when one of the ten draws is free. */
  lemma CodeFound(invites: map<string, Invite>, rand: nat -> nat)
    ensures CodeSearch(invites, rand).Some? <==> exists b :: 0 <= b < MaxCodeAttempts && Candidate(rand, b) !in invites
  {
  }

  /** A created invite has the first drawn code that no invite had; it is
      eight characters of `[A-Z0-9]`, which redemption accepts as it is. */
  lemma CreatedCode(d: Db, uid: Uid, leagueId: Id, req: CreateRequest, rand: nat -> nat)
    requires CreateOutcome(d, uid, leagueId, req, rand).Ok?
    ensures var code := CreateOutcome(d, uid, leagueId, req, rand).value.code;
      && code !in d.invites && code == Candidate(rand, FirstFree(d.invites, rand, 0))
      && |code| == DefaultCodeLength() && AllCodeChars(code) && ValidateInviteCode(code) == Pass(code)
  {
    var code := CreateOutcome(d, uid, leagueId, req, rand).value.code;
    CodeCharsAccepted(code);
  }

  /** A created invite belongs to the league and its creator and has no
      uses yet; it is multi-use unless `multiUse` was explicitly false. */
  lemma CreatedFields(d: Db, uid: Uid, leagueId: Id, req: CreateRequest, rand: nat -> nat)
    requires CreateOutcome(d, uid, leagueId, req, rand).Ok?
    ensures var inv := CreateOutcome(d, uid, leagueId, req, rand).value;
      && inv.leagueId == leagueId && inv.createdBy == uid && inv.uses == 0
      && (inv.multiUse <==> req.multiUse != Some(false))
  {
  }

  /** A created invite is a league invite exactly when the type was
      'league', and then names no team; a team invite names the requested
      team, which is a team of the league. */
  lemma CreatedTeam(d: Db, uid: Uid, leagueId: Id, req: CreateRequest, rand: nat -> nat)
    requires CreateOutcome(d, uid, leagueId, req, rand).Ok?
    ensures var inv := CreateOutcome(d, uid, leagueId, req, rand).value;
      && (inv.inviteType == LeagueInvite <==> req.inviteType == Some("league"))
      && (inv.inviteType == LeagueInvite ==> inv.teamId.None?)
      && (inv.inviteType == TeamInvite ==>
            inv.teamId == req.teamId && inv.teamId.value in d.teams && d.teams[inv.teamId.value].leagueId == leagueId)
  {
    var t := CreateCheck(d, uid, leagueId, req).value;
    assert ValidInviteType(req.inviteType) == Pass(t);
  }

  /** A created invite's `maxUses` is absent when none (or 0) was given,
      and otherwise the given value, which is in 1..1000. */
  lemma CreatedMaxUses(d: Db, uid: Uid, leagueId: Id, req: CreateRequest, rand: nat -> nat)
    requires CreateOutcome(d, uid, leagueId, req, rand).Ok?
    ensures var inv := CreateOutcome(d, uid, leagueId, req, rand).value;
      && (inv.maxUses.None? <==> !NumberTruthy(req.maxUses))
      && (inv.maxUses.Some? ==> inv.maxUses == req.maxUses && 1 <= inv.maxUses.value <= 1000)
  {
  }

  /** Every code `generateInviteCode()` draws passes `validateInviteCode`
      unchanged. */
  lemma GeneratedCodeAccepted(rand: nat -> nat)
    ensures ValidateInviteCode(DrawnCode(rand, DefaultCodeLength())) == Pass(DrawnCode(rand, DefaultCodeLength()))
  {
    CodeCharsAccepted(DrawnCode(rand, DefaultCodeLength()));
  }

  /** The update of a successful create: the invite under its code. */
  function InviteApplied(d: Db, inv: Invite): Db {
    d.(invites := d.invites[inv.code := inv])
  }

  /** A created invite satisfies the invite invariant, under a code no
      invite had, so storing it keeps every invariant. */
  lemma CreateKeepsValid(d: Db, uid: Uid, leagueId: Id, req: CreateRequest, rand: nat -> nat)
    requires d.Valid() && CreateOutcome(d, uid, leagueId, req, rand).Ok?
    ensures InviteApplied(d, CreateOutcome(d, uid, leagueId, req, rand).value).Valid()
  {
    var inv := CreateOutcome(d, uid, leagueId, req, rand).value;
    CreatedCode(d, uid, leagueId, req, rand);
    CreatedFields(d, uid, leagueId, req, rand);
    CreatedTeam(d, uid, leagueId, req, rand);
    CreatedMaxUses(d, uid, leagueId, req, rand);
    assert req.teamId.Some? && inv.inviteType == TeamInvite ==> req.teamId.value < d.nextId;
    InviteAddedKeepsValid(d, inv);
  }

  /** `POST /api/leagues/:leagueId/invites`; `rand` stands for the draws
      of `Math.random`. */
  method CreateInvite(s: Store, uid: Uid, leagueId: Id, req: CreateRequest, rand: nat -> nat) returns (o: Outcome<Invite>)
    requires s.Valid()
    modifies s
    ensures s.Valid()
    ensures o == CreateOutcome(old(s.State()), uid, leagueId, req, rand)
    ensures !o.Ok? ==> s.State() == old(s.State())
    ensures o.Ok? ==> s.State() == InviteApplied(old(s.State()), o.value)
  {
    var check := CreateCheck(s.State(), uid, leagueId, req);
    if !check.Ok? {
      return check.Forward();
    }
    var code := FindUniqueCode(s.invites, rand);
    if code.None? {
      return ServerError("Failed to generate unique code");
    }
    var maxUses := MaxUsesOf(req.maxUses);
    if maxUses.Fail? {
      return BadRequest(maxUses.message);
    }
    var invite := NewInvite(leagueId, check.value, req, code.value, maxUses.value, uid);
    assert CreateOutcome(s.State(), uid, leagueId, req, rand) == Ok(invite);
    CreateKeepsValid(s.State(), uid, leagueId, req, rand);
    StoreInvite(s, invite);
    return Ok(invite);
  }

  /** `Invite.create`. */
  method StoreInvite(s: Store, inv: Invite)
    requires InviteApplied(s.State(), inv).Valid()
    modifies s
    ensures s.Valid()
    ensures s.State() == InviteApplied(old(s.State()), inv)
  {
    ghost var d := s.State();
    s.invites := s.invites[inv.code := inv];
    assert s.State() == InviteApplied(d, inv);
  }

  // ---------------------------------------------------------------------
  // redeem

  /** What a successful redemption does to the teams. */
  datatype TeamChange = CreateTeam(team: Team) | JoinTeam(teamId: Id)

  /** A redemption the checks let through: the invite's code and the team
      change. */
  datatype Redemption = Redemption(code: string, change: TeamChange)

  /** The message of the schema's `required` validator for a team name
      that is empty once trimmed. */
  const TeamNameMissing: string := "Team validation failed: name: Path `name` is required."

  /** The guards on the invite itself, in the source's order: not
      expired, not a used single-use invite, not at its `maxUses`. */
  function UsableCheck(inv: Invite, now: int): (r: Outcome<()>)
    ensures r.Ok? <==>
      && (inv.expiresAt.None? || now <= inv.expiresAt.value)
      && (inv.multiUse || inv.uses == 0)
      && (NumberTruthy(inv.maxUses) ==> inv.uses < inv.maxUses.value)
  {
    if inv.expiresAt.Some? && now > inv.expiresAt.value then BadRequest("Invite code expired")
    else if !inv.multiUse && inv.uses >= 1 then BadRequest("Invite code already used")
    else if NumberTruthy(inv.maxUses) && inv.uses >= inv.maxUses.value then BadRequest("Invite code usage limit reached")
    else Ok(())
  }

  /** The guards on the user and the team, in the source's order: no team
      of the user in the league yet; for a league invite a team name that
      is not blank once trimmed (the schema trims it before `required`
      checks it) and the league; for a team invite the team, not full. */
  function ChangeCheck(d: Db, uid: Uid, inv: Invite, teamName: Option<string>): (r: Outcome<TeamChange>)
    ensures r.Ok? <==>
      && !HasTeamIn(d.teams, inv.leagueId, uid)
      && (inv.inviteType == LeagueInvite ==>
            teamName.Some? && Trim(teamName.value) != "" && inv.leagueId in d.leagues)
      && (inv.inviteType == TeamInvite ==>
            inv.teamId.Some? && inv.teamId.value in d.teams
            && |d.teams[inv.teamId.value].members| < d.teams[inv.teamId.value].maxMembers)
    ensures r.Ok? ==> match r.value
      case CreateTeam(team) =>
        inv.inviteType == LeagueInvite && inv.leagueId in d.leagues && Trim(team.name) == team.name && team.name != ""
        && team == FreshTeam(inv.leagueId, team.name, uid, d.leagues[inv.leagueId].settings.membersPerTeam)
      case JoinTeam(t) =>
        inv.inviteType == TeamInvite && inv.teamId == Some(t) && t in d.teams
        && |d.teams[t].members| < d.teams[t].maxMembers
  {
    assert Trim("") == "";
    if HasTeamIn(d.teams, inv.leagueId, uid) then BadRequest("You already belong to a team in this league")
    else if inv.inviteType == LeagueInvite then
      (if !Truthy(teamName) then BadRequest("Team name required for league invites")
       else if inv.leagueId !in d.leagues then NotFound("League not found")
       else if Trim(teamName.value) == "" then BadRequest(TeamNameMissing)
       else
         TrimIdempotent(teamName.value);
         Ok(CreateTeam(FreshTeam(inv.leagueId, Trim(teamName.value), uid, d.leagues[inv.leagueId].settings.membersPerTeam))))
    else
      assert inv.inviteType == TeamInvite;
      if inv.teamId.None? || inv.teamId.value !in d.teams then NotFound("Team not found")
      else if |d.teams[inv.teamId.value].members| >= d.teams[inv.teamId.value].maxMembers then BadRequest("Team is full")
      else Ok(JoinTeam(inv.teamId.value))
  }

  /** The guards of `POST /api/invites/redeem`, in the source's order;
      `now` is the clock. */
  function RedeemCheck(d: Db, uid: Uid, code: Option<string>, teamName: Option<string>, now: int): (r: Outcome<Redemption>)
    ensures r.Ok? ==> Redeemable(d, uid, r.value)
  {
    var valid := ValidateInviteCode(code.GetOr(""));
    if valid.Fail? then BadRequest(valid.message)
    else if valid.value !in d.invites then NotFound("Invalid invite code")
    else
      var usable := UsableCheck(d.invites[valid.value], now);
      if !usable.Ok? then usable.Forward()
      else
        var change := ChangeCheck(d, uid, d.invites[valid.value], teamName);
        if !change.Ok? then change.Forward()
        else Ok(Redemption(valid.value, change.value))
  }

  /** What the guards establish about a redemption they let through. */
  ghost predicate Redeemable(d: Db, uid: Uid, r: Redemption) {
    && r.code in d.invites
    && var inv := d.invites[r.code];
    && (inv.multiUse || inv.uses == 0)
    && (NumberTruthy(inv.maxUses) ==> inv.uses < inv.maxUses.value)
    && !HasTeamIn(d.teams, inv.leagueId, uid)
    && match r.change
       case CreateTeam(team) =>
         inv.inviteType == LeagueInvite && inv.leagueId in d.leagues && Trim(team.name) == team.name && team.name != ""
         && team == FreshTeam(inv.leagueId, team.name, uid, d.leagues[inv.leagueId].settings.membersPerTeam)
       case JoinTeam(t) =>
         inv.inviteType == TeamInvite && inv.teamId == Some(t) && t in d.teams
         && |d.teams[t].members| < d.teams[t].maxMembers
  }

  /** A redemption goes ahead exactly when the code normalises to a stored
      invite that has not expired, is not used up, belongs to a league in
      which the user has no team, and: for a league invite, a team name that
      is not blank and an existing league; for a team invite, an existing
      team that is not full. The league's `maxTeams` plays no part. */
  lemma RedeemAccepted(d: Db, uid: Uid, code: Option<string>, teamName: Option<string>, now: int)
    ensures RedeemCheck(d, uid, code, teamName, now).Ok? <==>
      && ValidateInviteCode(code.GetOr("")).Pass?
      && var c := ValidateInviteCode(code.GetOr("")).value;
      && c in d.invites
      && var inv := d.invites[c];
      && (inv.expiresAt.None? || now <= inv.expiresAt.value)
      && (inv.multiUse || inv.uses == 0)
      && (NumberTruthy(inv.maxUses) ==> inv.uses < inv.maxUses.value)
      && !HasTeamIn(d.teams, inv.leagueId, uid)
      && (inv.inviteType == LeagueInvite ==>
            teamName.Some? && Trim(teamName.value) != "" && inv.leagueId in d.leagues)
      && (inv.inviteType == TeamInvite ==>
            inv.teamId.Some? && inv.teamId.value in d.teams
            && |d.teams[inv.teamId.value].members| < d.teams[inv.teamId.value].maxMembers)
  {
    RedeemStagesOk(d, uid, code, teamName, now);
    var valid := ValidateInviteCode(code.GetOr(""));
    if valid.Pass? && valid.value in d.invites {
      var inv := d.invites[valid.value];
      var usable := UsableCheck(inv, now);
      var change := ChangeCheck(d, uid, inv, teamName);
    }
  }

  /** A redemption goes ahead exactly when the code check, the lookup and
      both stages of guards pass. */
  lemma RedeemStagesOk(d: Db, uid: Uid, code: Option<string>, teamName: Option<string>, now: int)
    ensures RedeemCheck(d, uid, code, teamName, now).Ok? <==>
      && ValidateInviteCode(code.GetOr("")).Pass?
      && ValidateInviteCode(code.GetOr("")).value in d.invites
      && UsableCheck(d.invites[ValidateInviteCode(code.GetOr("")).value], now).Ok?
      && ChangeCheck(d, uid, d.invites[ValidateInviteCode(code.GetOr("")).value], teamName).Ok?
  {
  }

  /** The league's `maxTeams` setting does not affect whether a redemption
      goes ahead: a league invite creates a team even in a league that has
      reached its limit. */
  lemma RedeemIgnoresMaxTeams(d: Db, uid: Uid, code: Option<string>, teamName: Option<string>, now: int,
                              l: Id, maxTeams: int)
    requires l in d.leagues
    ensures var league := d.leagues[l];
      var d' := d.(leagues := d.leagues[l := league.(settings := league.settings.(maxTeams := maxTeams))]);
      RedeemCheck(d', uid, code, teamName, now).Ok? <==> RedeemCheck(d, uid, code, teamName, now).Ok?
  {
    var league := d.leagues[l];
    var d' := d.(leagues := d.leagues[l := league.(settings := league.settings.(maxTeams := maxTeams))]);
    RedeemAccepted(d, uid, code, teamName, now);
    RedeemAccepted(d', uid, code, teamName, now);
  }

  /** The teams after a redemption: a new team under a new id, or the user
      appended to the invite's team. */
  function ChangeTeams(d: Db, uid: Uid, change: TeamChange): Db
    requires change.JoinTeam? ==> change.teamId in d.teams
  {
    match change
    case CreateTeam(team) => d.(teams := d.teams[d.nextId := team], nextId := d.nextId + 1)
    case JoinTeam(t) => d.(teams := WithMember(d.teams, t, uid))
  }

  /** The update of a successful redemption: the team change, then one more
      use of the invite. */
  function RedeemApplied(d: Db, uid: Uid, r: Redemption): Db
    requires r.code in d.invites && (r.change.JoinTeam? ==> r.change.teamId in d.teams)
  {
    var d1 := ChangeTeams(d, uid, r.change);
    d1.(invites := UseInvite(d1.invites, r.code))
  }

  /** The id of the team a redemption creates or joins. */
  function RedeemedTeam(d: Db, r: Redemption): Id {
    match r.change
    case CreateTeam(_) => d.nextId
    case JoinTeam(t) => t
  }

  /** A redemption the guards let through keeps every invariant: the team
      of a team invite is in the invite's league, so the user is on no other
      team of it; and an invite with a use left, or a single-use invite not
      used yet, can take one more. */
  lemma RedeemKeepsValid(d: Db, uid: Uid, r: Redemption)
    requires d.Valid() && Redeemable(d, uid, r)
    ensures RedeemApplied(d, uid, r).Valid()
  {
    var inv := d.invites[r.code];
    assert InviteOk(r.code, inv, d.teams, d.nextId);
    match r.change {
      case CreateTeam(team) =>
        TeamAddedKeepsValid(d, team, uid);
      case JoinTeam(t) =>
        MemberAddedKeepsValid(d, t, uid);
    }
    var d1 := ChangeTeams(d, uid, r.change);
    InviteUsedKeepsValid(d1, r.code);
  }

  /** A redemption uses its invite exactly once more and no other invite;
      no invite changes unless the redemption succeeds. */
  lemma RedeemCountsOneUse(d: Db, uid: Uid, r: Redemption)
    requires r.code in d.invites && (r.change.JoinTeam? ==> r.change.teamId in d.teams)
    ensures var d' := RedeemApplied(d, uid, r);
      && d'.invites.Keys == d.invites.Keys
      && d'.invites[r.code] == d.invites[r.code].(uses := d.invites[r.code].uses + 1)
      && forall c :: c in d.invites && c != r.code ==> d'.invites[c] == d.invites[c]
  {
    var d1 := ChangeTeams(d, uid, r.change);
    assert d1.invites == d.invites;
    assert RedeemApplied(d, uid, r).invites == UseInvite(d.invites, r.code);
  }

  /** A league invite's redemption gives its league exactly one team more. */
  lemma LeagueInviteAddsTeam(d: Db, uid: Uid, r: Redemption)
    requires d.Valid() && Redeemable(d, uid, r) && r.change.CreateTeam?
    ensures var l := d.invites[r.code].leagueId;
      TeamCount(RedeemApplied(d, uid, r).teams, d.nextId + 1, l) == TeamCount(d.teams, d.nextId, l) + 1
  {
    TeamAddedCounted(d.teams, d.nextId, r.change.team);
  }

  /** A single-use invite is redeemed at most once: after one successful
      redemption, every later attempt with the same code is refused. */
  lemma SingleUseRedeemedOnce(d: Db, uid: Uid, r: Redemption,
                              uid': Uid, code': Option<string>, teamName': Option<string>, now': int)
    requires r.code in d.invites && (r.change.JoinTeam? ==> r.change.teamId in d.teams)
    requires !d.invites[r.code].multiUse
    requires ValidateInviteCode(code'.GetOr("")) == Pass(r.code)
    ensures !RedeemCheck(RedeemApplied(d, uid, r), uid', code', teamName', now').Ok?
  {
  }

  /** An invite with `maxUses` set is redeemed at most `maxUses` times in
      all: a redemption is refused once `uses` has reached it. */
  lemma UsedUpRefused(d: Db, uid: Uid, code: Option<string>, teamName: Option<string>, now: int)
    requires ValidateInviteCode(code.GetOr("")).Pass?
    requires var c := ValidateInviteCode(code.GetOr("")).value;
      c in d.invites && NumberTruthy(d.invites[c].maxUses) && d.invites[c].uses >= d.invites[c].maxUses.value
    ensures !RedeemCheck(d, uid, code, teamName, now).Ok?
  {
  }

  /** The writes of a successful redemption: `Team.create` or
      `team.members.push(uid)` with `team.save()`, then `invite.uses += 1`
      with `invite.save()`. The team is returned as saved. */
  method ApplyRedemption(s: Store, uid: Uid, r: Redemption) returns (team: Team)
    requires r.code in s.invites && (r.change.JoinTeam? ==> r.change.teamId in s.teams)
    requires RedeemApplied(s.State(), uid, r).Valid()
    modifies s
    ensures s.Valid()
    ensures s.State() == RedeemApplied(old(s.State()), uid, r)
    ensures RedeemedTeam(old(s.State()), r) in s.teams && team == s.teams[RedeemedTeam(old(s.State()), r)]
  {
    ghost var d := s.State();
    match r.change {
      case CreateTeam(t) =>
        s.teams := s.teams[s.nextId := t];
        s.nextId := s.nextId + 1;
        team := t;
      case JoinTeam(t) =>
        s.teams := WithMember(s.teams, t, uid);
        team := s.teams[t];
    }
    s.invites := UseInvite(s.invites, r.code);
    assert s.State() == RedeemApplied(d, uid, r);
  }

  /** `POST /api/invites/redeem`; on success the team the user is now on. */
  method Redeem(s: Store, uid: Uid, code: Option<string>, teamName: Option<string>, now: int) returns (o: Outcome<Team>)
    requires s.Valid()
    modifies s
    ensures s.Valid()
    ensures var c := RedeemCheck(old(s.State()), uid, code, teamName, now);
      && (!c.Ok? ==> o == c.Forward() && s.State() == old(s.State()))
      && (c.Ok? ==>
            s.State() == RedeemApplied(old(s.State()), uid, c.value) && o == Ok(s.teams[RedeemedTeam(old(s.State()), c.value)]))
  {
    var check := RedeemCheck(s.State(), uid, code, teamName, now);
    if !check.Ok? {
      return check.Forward();
    }
    RedeemKeepsValid(s.State(), uid, check.value);
    var team := ApplyRedemption(s, uid, check.value);
    return Ok(team);
  }
}
