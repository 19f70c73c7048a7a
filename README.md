# Survivor fantasy league: a Dafny model of the server core

This project models the core of a Survivor fantasy-league server and its
web client:

- **The snake draft:** starting a draft, picking in it, resetting it and
  reporting its status.
- **The bookkeeping around the draft:**
  - leagues and their settings;
  - teams and team membership;
  - invite codes;
  - the player pool;
  - the weeks of a season;
  - scoring events, which credit points to players and to the teams that
    drafted them.
- **The input validators and the admin check** that guard all of these.
- **Two computations of the web client:**
  - the layout of the draft board;
  - the parse of the admin panel's bulk player import.

Every request handler is one atomic operation on `Models.Store`. The store
is a class whose fields are the collections, each a map from id to record
(invites are keyed by their code). A handler is a method that updates these
fields, and its contract ties the new state to two functions of the old
state:

- a *check* function, which runs the handler's guards in the source's
  order and yields the first refusal (`BadRequest`, `Forbidden`,
  `NotFound` or `ServerError`, for 400, 403, 404 and 500) or `Ok`;
- an *applied* function, which gives the database after a successful
  request.

A refused request leaves the store unchanged.

Every handler keeps the database invariant `Models.Db.Valid`, which says:

- a team never has more members than its `maxMembers`;
- no user is on two teams of one league;
- rosters agree with `draftedBy`;
- an invite's `uses` stays within `maxUses`, and a single-use invite is
  used at most once;
- week numbers are unique within a league and lie in 1..100;
- league limits stay in the schema's ranges;
- every id in use was handed out before the `nextId` counter.

Lemmas beside each handler prove the following:

- the if-and-only-if conditions under which each request succeeds;
- that each successful request keeps the invariant;
- the properties the routes promise, among them:
  - snake-order picks;
  - that a delete undoes an add;
  - that single-use invites are used only once;
  - that finalizing a week is idempotent;
  - that a settings patch touches only the fields supplied.

Randomness is an injected function `rand: nat -> nat` (the k-th draw), the
clock is an integer `now`, and the signed-in user is a `uid` parameter.

Modules, one per source file:

| module | file | source |
|---|---|---|
| `Outcomes` | outcomes.dfy | result types shared by all modules |
| `Text` | text.dfy | the JavaScript string operations the code relies on: `trim`, `length` in UTF-16 code units, `split`, and `toUpperCase` on the Latin, Greek and Cyrillic letters that `Text.UpperChar` lists (not on all of Unicode) |
| `Ordering` | ordering.dfy | the sorts the queries ask the database for, and filters; the model sorts the creation-order listing with a stable insertion sort, so it breaks ties by creation order |
| `Models` | models.dfy | the schemas of server/src/models, the database, its invariant and its queries |
| `Utils` | utils.dfy | server/src/lib/utils.js |
| `Validation` | validation.dfy | server/src/lib/validation.js |
| `Authorize` | authorize.dfy | server/src/middleware/authorize.js |
| `Draft` | draft.dfy | server/src/routes/draft.js |
| `Invites` | invites.dfy | server/src/routes/invites.js |
| `Teams` | teams.dfy | server/src/routes/teams.js |
| `Leagues` | leagues.dfy | server/src/routes/leagues.js |
| `Players` | players.dfy | server/src/routes/players.js |
| `Scoring` | scoring.dfy | server/src/routes/scoring.js |
| `Weeks` | weeks.dfy | server/src/routes/weeks.js |
| `DraftBoard` | draftboard.dfy | web/src/components/DraftBoard.jsx |
| `AdminImport` | adminimport.dfy | web/src/pages/AdminPanel.jsx |

## Model

| member | source | states |
|---|---|---|
| Utils.SnakeIndex | server/src/lib/utils.js:33-43 | for a pick number of at least 1 and at least one team, the team index lies in [0, totalTeams) |
| Utils.SnakeInRound | server/src/lib/utils.js:34-42 | position j of round r goes to team j when r is even and to team n-1-j when r is odd |
| Utils.SnakeFirstRound | server/src/lib/utils.js:34-40 | picks 1..n go to teams 0..n-1 in order |
| Utils.SnakeSecondRound | server/src/lib/utils.js:37-42 | the second round runs backward: pick p in n+1..2n goes to team 2n-p, so pick n+1 goes to n-1 and pick 2n to 0 |
| Utils.SnakeOddRound | server/src/lib/utils.js:37-42 | every odd (0-based) round runs backward |
| Utils.SnakeRoundIsPermutation | server/src/lib/utils.js:34-42 | the n picks of a round go to n different teams and every team has a slot in the round: each team picks exactly once per round |
| Utils.SnakeTurnaround | server/src/lib/utils.js:37-42 | the last pick of a round and the first of the next go to the same team: snake(k·n) = snake(k·n+1) for k ≥ 1 |
| Utils.SnakePeriodic | server/src/lib/utils.js:34-38 | the pick order repeats with period 2n |
| Utils.PicksAfterRounds | server/src/lib/utils.js:33-43 | after r complete rounds every team has made exactly r picks |
| Utils.PicksWithinRound | server/src/lib/utils.js:33-43 | the first m picks of round r give team t one more pick exactly when t's slot in that round is below m |
| Utils.PicksDuringRound | server/src/lib/utils.js:33-43 | part-way through a round, a team has the completed rounds' picks plus one if its turn in this round has passed |
| Utils.SnakeFairness | server/src/lib/utils.js:33-43 | at any point of the draft two teams' pick counts differ by at most one, and after k = r·n picks every team has k/n |
| Utils.ShuffleArray | server/src/lib/utils.js:18-25 | the shuffle returns a fresh array of the same length holding the same multiset of elements; the input array is outside its frame, so it does not change |
| Utils.CodeAlphabetChars | server/src/lib/utils.js:7 | the alphabet has 36 characters, all of them in A–Z0–9 |
| Utils.DrawnCode | server/src/lib/utils.js:6-13 | a generated code has exactly `length` characters, all in A–Z0–9 |
| Utils.DrawnCodeChars | server/src/lib/utils.js:9-11 | character k of the code is the alphabet's entry at the k-th draw modulo 36 |
| Utils.GenerateInviteCode | server/src/lib/utils.js:6-13 | the appending loop builds exactly the drawn code; the length defaults to 8 |
| Authorize.RequireLeagueAdmin | server/src/middleware/authorize.js:6-32 | a missing league id gives 400 and an unknown league 404; the request passes, with the league attached, exactly for the owner (even if absent from `admins`) or a uid in `admins`; anyone else gets 403 "Admin access required" |
| Validation.ValidateNameWith | server/src/lib/validation.js:5-42 | a name passes iff it is non-empty, its trimmed length reaches the minimum and its raw length is at most the maximum; the result is the trimmed name, within both bounds; each failure carries its own message |
| Validation.ValidateLeagueName | server/src/lib/validation.js:5-16 | accepts iff trimmed length ≥ 3 and raw length ≤ 100; returns the trimmed name |
| Validation.ValidateTeamName | server/src/lib/validation.js:18-29 | accepts iff trimmed length ≥ 2 and raw length ≤ 50; returns the trimmed name |
| Validation.ValidatePlayerName | server/src/lib/validation.js:31-42 | accepts iff trimmed length ≥ 1 and raw length ≤ 100; returns the trimmed name |
| Validation.NameValidationIdempotent | server/src/lib/validation.js:5-42 | a validated name passes its validator again and comes back unchanged |
| Validation.ValidateNumber | server/src/lib/validation.js:44-56 | the value comes back unchanged iff min ≤ v ≤ max; a non-number, a value below min and a value above max each get their message |
| Validation.ValidateEnum | server/src/lib/validation.js:58-63 | the value comes back iff it is one of the allowed values |
| Validation.ValidateObjectId | server/src/lib/validation.js:65-70 | accepts exactly the strings of 24 hexadecimal digits |
| Validation.ValidateScoringRules | server/src/lib/validation.js:72-87 | the loop rejects a non-object, and otherwise fails with the message of the first bad entry or returns the normalised rules; it agrees with `RulesChecked` |
| Validation.RulesChecked | server/src/lib/validation.js:72-87 | the rules pass iff the input is an object whose every entry has a non-blank key and points in [-100, 100]; the result is then the normalised map |
| Validation.NoProblemMeansAllValid | server/src/lib/validation.js:78-84 | the validator finds no problem exactly when every entry is valid, so one bad entry rejects the whole object |
| Validation.BlankKeyFails | server/src/lib/validation.js:79-81 | a blank key at the first unchecked entry is the first problem, reported as "Scoring rule keys must be non-empty strings" |
| Validation.BadPointsFail | server/src/lib/validation.js:82 | an out-of-range or missing value at the first unchecked entry is the first problem, with `validateNumber`'s message |
| Validation.RulesFromKeys | server/src/lib/validation.js:83 | the keys of the result are exactly the upper-cased input keys |
| Validation.RulesFromLastWins | server/src/lib/validation.js:83 | each key of the result holds the points of the last entry whose upper-cased key it is, so among keys equal up to case the last one wins |
| Validation.RulesFromInRange | server/src/lib/validation.js:82 | when every entry is valid, every value of the result lies in [-100, 100] |
| Validation.ValidateInviteCode | server/src/lib/validation.js:89-98 | accepts iff the code is non-empty and its trimmed, upper-cased form is 6–12 characters of A–Z0–9; returns that form |
| Validation.CodeCharsAccepted | server/src/lib/validation.js:93-97 | a code of 6–12 characters of A–Z0–9 is accepted as it is |
| Validation.InviteCodeIdempotent | server/src/lib/validation.js:93-97 | normalising an accepted code again gives the same result |
| Models.StatusNamed | server/src/models/League.js:75-79 | each status name of the enum names the status it maps to |
| Models.TeamsInLeague | server/src/routes/draft.js:28 | exactly the league's teams, in increasing id (creation) order |
| Models.PlayersInLeague | server/src/routes/draft.js:174 | exactly the league's players, in creation order |
| Models.DraftedInLeague | server/src/routes/draft.js:104 | exactly the league's players whose `draftedBy` is set |
| Models.TeamsByDraftOrder | server/src/routes/teams.js:108-111 | the team list: each of the league's teams exactly once, sorted by `draftOrder` ascending with null first |
| Models.SameDraftOrdersListing | server/src/routes/draft.js:103 | a team update that keeps every team's league and draft order leaves the league's team listing and its draft-order listing, and so the turn order, unchanged |
| Models.WithMember | server/src/routes/teams.js:74 | appending a member changes only that team's member list |
| Models.UseInvite | server/src/routes/invites.js:138 | one more use of that invite and no change to any other |
| Models.RostersKeepValid | server/src/routes/draft.js:114-118 | a roster update that keeps rosters in agreement with `draftedBy` keeps every invariant |
| Models.LeagueKeepsValid | server/src/routes/leagues.js:113-117 | rewriting a league with settings in range keeps every invariant |
| Models.LeagueAddedKeepsValid | server/src/routes/leagues.js:20-33 | adding a league with settings in range under a new id keeps every invariant |
| Models.DraftedCountOneMore | server/src/routes/draft.js:104 | drafting one undrafted player raises the league's drafted count by exactly one |
| Models.PointsKeepValid | server/src/routes/scoring.js:59-74 | changing only points and names, with every event id below the counter, keeps every invariant; leagues, members, rosters and drafting teams stay as they were |
| Models.EventAddedKeepsValid | server/src/routes/scoring.js:49-56 | storing an event under a new id keeps every invariant |
| Models.EventRemovedKeepsValid | server/src/routes/scoring.js:138 | removing an event keeps every invariant |
| Models.MemberAddedKeepsValid | server/src/routes/teams.js:60-75 | adding a user with no team in the league to a team that is not full keeps every invariant, among them `maxMembers` and one team per user |
| Models.TeamAddedKeepsValid | server/src/routes/teams.js:27-43 | a new one-member team, whose member is on no team of the league, keeps every invariant |
| Models.InviteAddedKeepsValid | server/src/routes/invites.js:49-58 | storing an invite that meets the invite invariant keeps every invariant |
| Models.InviteUsedKeepsValid | server/src/routes/invites.js:88-94 | one more use of an invite that passed the usage checks never takes `uses` past `maxUses`, nor a single-use invite past one |
| Models.TeamAddedCounted | server/src/routes/teams.js:33 | a team stored under a new id is listed last and raises the league's team count by one |
| Draft.OneTo | server/src/routes/draft.js:35 | the numbers 1..n in order |
| Draft.StartCheck | server/src/routes/draft.js:14-32 | a non-admin gets the middleware's refusal |
| Draft.StartAccepted | server/src/routes/draft.js:23-32 | a start goes ahead iff the caller is an admin of an existing league in setup with at least one team |
| Draft.DraftNumbers | server/src/routes/draft.js:35 | a fresh array holding 1..n |
| Draft.DraftOrder | server/src/routes/draft.js:35-39 | n draft orders forming a permutation of 1..n, equal to 1..n in order when `randomizedOrder` is off |
| Draft.PermutationOfOneTo | server/src/routes/draft.js:35-39 | a permutation of 1..n holds each of 1..n exactly once |
| Draft.OneToDistinct | server/src/routes/draft.js:35 | no number occurs twice in 1..n |
| Draft.AssignDraftOrders | server/src/routes/draft.js:42-46 | the loop gives team `ids[k]` draft order `order[k]` and changes nothing else |
| Draft.DraftOrdersKeepValid | server/src/routes/draft.js:42-46 | assigning draft orders keeps every invariant |
| Draft.StartKeepsValid | server/src/routes/draft.js:42-50 | assigning draft orders and moving the league to draft keeps every invariant |
| Draft.Start | server/src/routes/draft.js:14-60 | a refused start changes nothing; an accepted one gives the league's teams, in creation order, a permutation of 1..N (1..N itself when not randomized), sets status `draft` and answers with the order |
| Draft.StartAssignsPermutation | server/src/routes/draft.js:35-46 | after a start every team of the league holds a distinct draft order in 1..N, and teams of other leagues keep theirs |
| Draft.PickCheck | server/src/routes/draft.js:65-111 | an unknown league is 404 "League not found"; a passing pick names an undrafted player and a team of the same league |
| Draft.PickAccepted | server/src/routes/draft.js:72-111 | a pick goes ahead iff the league is in draft, the player is an undrafted player of the league, the team is in the league, the caller is a member, and the team is at index `calculateSnakeDraftOrder(drafted + 1, n)` of the teams sorted by draft order |
| Draft.PickKeepsRosters | server/src/routes/draft.js:114-118 | after a pick every team's roster is still exactly the players whose `draftedBy` is that team |
| Draft.PickKeepsValid | server/src/routes/draft.js:114-118 | a pick keeps every invariant |
| Draft.PickCountsOne | server/src/routes/draft.js:104-118 | a pick raises the league's drafted count by exactly one |
| Draft.PickKeepsTurnOrder | server/src/routes/draft.js:103-111 | a pick leaves the draft-order listing as it was, so the next accepted team is the snake index of the next pick number: picks arrive in snake order |
| Draft.Pick | server/src/routes/draft.js:65-128 | the answer is the first failing guard with no change, or on success the player drafted by the team and appended to its roster |
| Draft.ResetKeepsRosters | server/src/routes/draft.js:138-147 | clearing a league's rosters and `draftedBy` keeps them in agreement |
| Draft.ResetKeepsValid | server/src/routes/draft.js:138-150 | a reset keeps every invariant |
| Draft.ResetClears | server/src/routes/draft.js:138-150 | after a reset, from any status, the league has no drafted player, every team of it has an empty roster and no draft order, its status is setup with `draftCompleted` false, and other leagues are untouched |
| Draft.Reset | server/src/routes/draft.js:133-156 | a non-admin gets the middleware's refusal and no change; an admin's reset applies the clearing above |
| Draft.Status | server/src/routes/draft.js:161-193 | 404 iff no such league; the report holds the teams by draft order and the player counts (drafted ≤ total); a current team exists iff the league is in draft, players remain and there are teams, and it is the team at the snake index of the next pick |
| Draft.StatusAgreesWithPick | server/src/routes/draft.js:174-181 | while a draft runs with players left, the team the status reports is exactly the team whose pick passes the turn check |
| Invites.ValidInviteType | server/src/routes/invites.js:21 | the type passes iff it is 'league' or 'team', mapping to the matching invite type |
| Invites.CreateCheck | server/src/routes/invites.js:15-33 | a non-admin gets the middleware's refusal; a team invite passes only with a team id of a team in this league |
| Invites.CreateCheckAccepted | server/src/routes/invites.js:21-33 | the guards pass iff the caller is an admin and the type is 'league', or 'team' with a team of this league |
| Invites.FirstFree | server/src/routes/invites.js:36-43 | the first attempt from `a` whose code is free; every earlier attempt collided |
| Invites.CodeSearch | server/src/routes/invites.js:36-47 | no code iff all ten drawn codes collide; otherwise the first free drawn code |
| Invites.FindUniqueCode | server/src/routes/invites.js:36-47 | the do/while retry loop finds what `CodeSearch` specifies |
| Invites.CodeFound | server/src/routes/invites.js:36-47 | a code is found iff one of the ten draws is free: failure needs ten consecutive collisions |
| Invites.MaxUsesOf | server/src/routes/invites.js:55 | `maxUses` is null when none (or 0) is given, and otherwise must be an integer in 1..1000 |
| Invites.CreateOutcome | server/src/routes/invites.js:15-58 | guard refusals are forwarded, ten collisions give 500 "Failed to generate unique code", and success builds the invite from the stages' values |
| Invites.CreateAccepted | server/src/routes/invites.js:15-58 | a create succeeds iff the caller is an admin, the type rules hold, a free code is drawn within ten attempts and `maxUses` is absent or in 1..1000 |
| Invites.CreatedCode | server/src/routes/invites.js:36-49 | the new code is unused, is the first free draw, has 8 characters of A–Z0–9 and passes `validateInviteCode` unchanged |
| Invites.CreatedFields | server/src/routes/invites.js:49-58 | the invite belongs to the league and its creator, starts with 0 uses, and is multi-use unless `multiUse` was explicitly false |
| Invites.CreatedTeam | server/src/routes/invites.js:21-52 | a league invite stores no team; a team invite stores the requested team, which is in the league |
| Invites.CreatedMaxUses | server/src/routes/invites.js:55 | `maxUses` is null iff none was given, and otherwise the given value, in 1..1000 |
| Invites.GeneratedCodeAccepted | server/src/routes/invites.js:39 | every default generated code passes `validateInviteCode` unchanged |
| Invites.CreateKeepsValid | server/src/routes/invites.js:49-58 | storing the created invite keeps every invariant |
| Invites.CreateInvite | server/src/routes/invites.js:15-64 | the answer is the create outcome; only a success stores the invite, under its code |
| Invites.StoreInvite | server/src/routes/invites.js:49 | the invite is stored under its code |
| Invites.UsableCheck | server/src/routes/invites.js:83-94 | the invite is usable iff it has not expired at `now`, is not a used single-use invite, and has not reached a non-zero `maxUses` |
| Invites.ChangeCheck | server/src/routes/invites.js:97-131 | passes iff the user has no team in the league, and either a league invite has a non-blank team name and its league exists, or a team invite's team exists and is not full; a league invite yields a new team with members [uid] and `maxMembers` = `membersPerTeam` |
| Invites.RedeemCheck | server/src/routes/invites.js:69-135 | a redemption that passes names a stored invite and a team change that `RedeemApplied` can carry out without breaking the invariant |
| Invites.RedeemAccepted | server/src/routes/invites.js:74-135 | a redemption goes ahead iff the normalised code names a stored invite that has not expired and is not used up, the user has no team in its league, and the league-invite or team-invite conditions hold |
| Invites.RedeemIgnoresMaxTeams | server/src/routes/invites.js:104-120 | whether a redemption goes ahead does not depend on the league's `maxTeams`, so a league invite creates a team even in a full league |
| Invites.RedeemKeepsValid | server/src/routes/invites.js:88-139 | an accepted redemption keeps every invariant |
| Invites.RedeemCountsOneUse | server/src/routes/invites.js:138-139 | a redemption raises that invite's `uses` by exactly one and changes no other invite |
| Invites.LeagueInviteAddsTeam | server/src/routes/invites.js:115-120 | a league invite's redemption adds exactly one team to its league |
| Invites.SingleUseRedeemedOnce | server/src/routes/invites.js:88-90 | after one redemption of a single-use invite, every later attempt with that code is refused |
| Invites.UsedUpRefused | server/src/routes/invites.js:92-94 | an invite whose `uses` has reached `maxUses` is refused |
| Invites.ApplyRedemption | server/src/routes/invites.js:115-139 | the team is created or joined, one use is counted, and the saved team is returned |
| Invites.Redeem | server/src/routes/invites.js:69-149 | a refused redemption changes nothing; an accepted one applies the team change and the use, and answers with the team |
| Teams.CreateCheck | server/src/routes/teams.js:12-43 | a passing create is in an existing league where the user has no team, and yields a team with members [uid] and an empty roster |
| Teams.CreateAccepted | server/src/routes/teams.js:18-36 | a create goes ahead iff the name is valid, the league exists, the user has no team in it, and its team count is below `maxTeams` |
| Teams.CreatedTeam | server/src/routes/teams.js:38-43 | the team has the trimmed valid name of 2–50 code units, `maxMembers` = `membersPerTeam`, no draft order and no points |
| Teams.CreateKeepsValid | server/src/routes/teams.js:38-43 | a create keeps every invariant |
| Teams.CreateAddsOneTeam | server/src/routes/teams.js:38-43 | a create adds exactly one team to the league |
| Teams.CreateWithinMaxTeams | server/src/routes/teams.js:33-36 | a create never takes the league past `maxTeams` |
| Teams.AddedTeamCounted | server/src/routes/teams.js:33 | the new team raises the league's team count by one |
| Teams.CreateTeam | server/src/routes/teams.js:12-49 | the answer is the create check; only a success stores the team, under the next id |
| Teams.StoreTeam | server/src/routes/teams.js:38-43 | the team is stored under the next id |
| Teams.JoinCheck | server/src/routes/teams.js:59-72 | a passing join names a team of this league |
| Teams.JoinAccepted | server/src/routes/teams.js:60-72 | a join goes ahead iff the user has no team in the league and the team is in the league and not full |
| Teams.JoinKeepsValid | server/src/routes/teams.js:74-75 | a join keeps every invariant |
| Teams.JoinWithinMaxMembers | server/src/routes/teams.js:70-75 | a join appends the user, and the team is still within `maxMembers` |
| Teams.OneTeamPerUser | server/src/routes/teams.js:27-30 | after a create or a join the user is on exactly one team of the league |
| Teams.JoinTeam | server/src/routes/teams.js:54-81 | a refused join changes nothing; an accepted one appends the user and answers with the saved team |
| Teams.Leaderboard | server/src/routes/teams.js:90-93 | each of the league's teams exactly once, sorted by `totalPoints` descending |
| Teams.LeaderboardRanks | server/src/routes/teams.js:92 | every team on the leaderboard has at least the points of every team below it, and each team appears once |
| Leagues.NumberOrDefault | server/src/routes/leagues.js:27-28 | the default when the value is absent or 0, otherwise `validateNumber`'s verdict |
| Leagues.NewLeague | server/src/routes/leagues.js:18-33 | an invalid name fails first, with the validator's message |
| Leagues.NewLeagueAccepted | server/src/routes/leagues.js:18-31 | a create is accepted iff the name is valid and each supplied `maxTeams` (2..20), `membersPerTeam` (1..10) and scoring-rule object is valid |
| Leagues.CreatedLeague | server/src/routes/leagues.js:18-23 | the creator is the owner and the sole admin; the name is the trimmed input of 3–100 code units; the league starts in setup |
| Leagues.CreatedSettings | server/src/routes/leagues.js:25-31 | the defaults are `Survivor`, `S1`, 8 teams, 2 members, the schema's draft and invite defaults and no rules, each replaced by a truthy supplied value; the limits lie in range |
| Leagues.DefaultLeagueSettings | server/src/routes/leagues.js:25-31 | a request without settings gets every default |
| Leagues.StoreLeague | server/src/routes/leagues.js:20 | the league is stored under the next id |
| Leagues.CreateLeague | server/src/routes/leagues.js:13-39 | a refused create changes nothing; an accepted one stores the league under the next id and answers with it |
| Leagues.Mine | server/src/routes/leagues.js:49-58 | exactly the leagues the user owns, administers or has a team in, newest first |
| Leagues.CreatedLeagueFirst | server/src/routes/leagues.js:58 | a league the user just created heads the listing, followed by the listing as it was |
| Leagues.NumberIfSupplied | server/src/routes/leagues.js:101-106 | a number supplied (even 0) must pass the validator and is then set; an absent one is not touched |
| Leagues.PatchCheck | server/src/routes/leagues.js:88-111 | a non-admin gets the middleware's refusal; a passing patch is for an existing league |
| Leagues.PatchAccepted | server/src/routes/leagues.js:93-111 | a patch is accepted iff the caller is an admin, a settings object is sent, and every supplied limit and rule object is valid: one bad value rejects the whole patch |
| Leagues.PatchedFields | server/src/routes/leagues.js:97-117 | exactly the supplied fields change (`show` and `seasonLabel` when truthy, numbers and sub-objects when present); every other setting stays |
| Leagues.PatchedSettingsOk | server/src/routes/leagues.js:101-106 | a patch keeps the limits in range |
| Leagues.PatchIdempotent | server/src/routes/leagues.js:113-117 | applying the same patch twice equals applying it once |
| Leagues.EmptyPatchChangesNothing | server/src/routes/leagues.js:97-117 | a settings object with no field set changes nothing |
| Leagues.PatchKeepsValid | server/src/routes/leagues.js:113-117 | an accepted patch keeps every invariant |
| Leagues.PatchSettings | server/src/routes/leagues.js:88-123 | a refused patch changes nothing; an accepted one updates only that league's settings and answers with the league |
| Leagues.StatusCheck | server/src/routes/leagues.js:128-139 | a non-admin gets the middleware's refusal; a passing update is for an existing league |
| Leagues.StatusAnyJump | server/src/routes/leagues.js:133-139 | for an admin, any of setup/draft/active/final is accepted from any current status, and anything else is refused with the enum message |
| Leagues.UpdateStatus | server/src/routes/leagues.js:128-145 | a refused update changes nothing; an accepted one sets only that league's status |
| Players.PlayerList | server/src/routes/players.js:17-19 | each of the league's players exactly once, sorted by name |
| Players.PlayerListByName | server/src/routes/players.js:19 | names along the list never decrease |
| Players.FirstTruthy | server/src/routes/players.js:57-58 | the first truthy of the two values, else the fallback |
| Players.ValidatedPlayer | server/src/routes/players.js:47-60 | an entry without a name fails with "Each player must have a name"; otherwise the name validator decides |
| Players.ImportedPlayer | server/src/routes/players.js:52-59 | the record has the league, the trimmed name, the photo or '', tribe from `tribe`, then `meta.tribe`, then '', status from `status`, then `meta.status`, then `active`; it is undrafted with no points |
| Players.ValidatedPlayers | server/src/routes/players.js:47-61 | a passing batch has one record per entry |
| Players.ValidatedPlayersPointwise | server/src/routes/players.js:47-61 | the batch passes iff every entry does, and record k is entry k's |
| Players.FirstBadEntryWins | server/src/routes/players.js:47-50 | the first bad entry decides the error, whatever follows it |
| Players.FirstBadStatus | server/src/routes/players.js:64 | no record is flagged iff every record's status is one the schema's enum allows |
| Players.BatchCheck | server/src/routes/players.js:47-64 | a passing batch has one record per entry |
| Players.BatchAccepted | server/src/routes/players.js:47-64 | a batch passes iff every entry has a valid name and an allowed status; record k is then an undrafted player of the league built from entry k |
| Players.ImportCheck | server/src/routes/players.js:31-64 | a non-admin gets the middleware's refusal; a non-array or empty array is 400 "Players array required" |
| Players.ImportAccepted | server/src/routes/players.js:36-64 | an import is accepted iff the caller is an admin and sends a non-empty array that the batch checks accept |
| Players.InsertedAt | server/src/routes/players.js:64 | record k goes under id `start + k`, and nothing below `start` changes |
| Players.IdRange | server/src/routes/players.js:64 | the new ids are start, start+1, …, one per record, in input order |
| Players.ImportKeepsValid | server/src/routes/players.js:64 | inserting undrafted players under new ids keeps every invariant |
| Players.StorePlayers | server/src/routes/players.js:64 | all the records are inserted under consecutive new ids |
| Players.ImportPlayers | server/src/routes/players.js:31-73 | all or nothing: a refused batch inserts nothing; an accepted one inserts every record and answers with the new ids in order |
| Players.PatchCheck | server/src/routes/players.js:78-96 | a non-admin gets the middleware's refusal; a player outside the league is 404 "Player not found" |
| Players.PatchAccepted | server/src/routes/players.js:83-96 | a patch is accepted iff the caller is an admin, a given name is valid, a given meta has an allowed status, and the player is in the league |
| Players.PatchedPlayer | server/src/routes/players.js:83-91 | only the supplied fields change (trimmed name, photo, meta); league, drafting team and points stay |
| Players.PlayerPatchIdempotent | server/src/routes/players.js:88-92 | applying the same patch twice equals applying it once |
| Players.PatchPlayer | server/src/routes/players.js:78-102 | a refused patch changes nothing; an accepted one updates only that player and answers with it |
| Players.UpdatePlayer | server/src/routes/players.js:88-92 | the player record is replaced with its patched form |
| Players.DeleteCheck | server/src/routes/players.js:111-115 | a delete passes iff the caller is an admin and the player is in the league; otherwise 404 "Player not found" |
| Players.DeleteKeepsValid | server/src/routes/players.js:111 | removing a player keeps every invariant |
| Players.DeletedNotListed | server/src/routes/players.js:111 | a deleted player is no longer listed, and every other player of the league still is |
| Players.DeletePlayer | server/src/routes/players.js:107-121 | a refused delete changes nothing; an accepted one removes only that player |
| Players.RemovePlayer | server/src/routes/players.js:111 | the player is removed from the store |
| Scoring.Credit | server/src/routes/scoring.js:60-61 | crediting adds the week key and keeps every other key |
| Scoring.CreditShifts | server/src/routes/scoring.js:59-62 | crediting moves the week's entry by exactly the points, an absent entry counting as 0, and leaves every other week entry as it was |
| Scoring.CreditAdditive | server/src/routes/scoring.js:60-61 | two credits under one key add up to one |
| Scoring.ApplyPointsAdditive | server/src/routes/scoring.js:59-74 | two credits for the same player and week equal one credit of their sum |
| Scoring.ApplyPointsKeepsValid | server/src/routes/scoring.js:59-74 | crediting points keeps every invariant |
| Scoring.AddCheck | server/src/routes/scoring.js:15-56 | a non-admin gets the middleware's refusal; a passing event names a player of the league and belongs to the league |
| Scoring.AddAccepted | server/src/routes/scoring.js:21-56 | an event is added iff the caller is an admin, the week is in 1..100, the player and type are present and the type's upper case has a rule, and the player is in the league; the event carries the upper-cased type and that rule's points |
| Scoring.AddIgnoresCase | server/src/routes/scoring.js:33-34 | a request and the same request with the type upper-cased create the same event |
| Scoring.AddKeepsValid | server/src/routes/scoring.js:49-74 | adding an event with its credit keeps every invariant |
| Scoring.RecordEvent | server/src/routes/scoring.js:49-74 | the event is stored under the next id and the player and its team are credited |
| Scoring.AddEvent | server/src/routes/scoring.js:15-84 | a refused add changes nothing; an accepted one stores the event and credits it, and answers with the event's id |
| Scoring.EventsOfWeek | server/src/routes/scoring.js:95-97 | exactly this league's events of that week, in creation order |
| Scoring.WeekEvents | server/src/routes/scoring.js:89-103 | a week in 1..100 lists that week's events; any other week is a 500 |
| Scoring.NewEventListedLast | server/src/routes/scoring.js:95-97 | a stored event comes last in its week's listing and leaves every other listing unchanged |
| Scoring.AddListedLast | server/src/routes/scoring.js:95-97 | an added event is listed last among its week's events |
| Scoring.DeleteCheck | server/src/routes/scoring.js:112-115 | a delete passes iff the caller is an admin and the event is in the league; otherwise 404 "Scoring event not found" |
| Scoring.DeleteKeepsValid | server/src/routes/scoring.js:118-138 | a delete with its reversed credit keeps every invariant |
| Scoring.DeleteUndoesAdd | server/src/routes/scoring.js:118-138 | deleting the event just added restores every event, total and week entry; only the used id and zero-valued week entries remain |
| Scoring.RemoveStoredEvent | server/src/routes/scoring.js:118-138 | the credit is reversed and the event removed |
| Scoring.DeleteEvent | server/src/routes/scoring.js:108-144 | a refused delete changes nothing; an accepted one reverses the credit and removes the event |
| Weeks.WeeksInLeague | server/src/routes/weeks.js:17 | exactly the league's weeks, in creation order |
| Weeks.FindWeek | server/src/routes/weeks.js:36 | a week of the league with that number whenever one exists below the bound, and nothing otherwise |
| Weeks.FindWeekTaken | server/src/routes/weeks.js:36 | the lookup finds a week iff the league has one with that number |
| Weeks.FindWeekUnique | server/src/models/Week.js:36 | under the unique index, the lookup finds the one week with that number |
| Weeks.WeekList | server/src/routes/weeks.js:17 | each of the league's weeks exactly once, sorted by week number |
| Weeks.WeekListStrictlyIncreasing | server/src/routes/weeks.js:17 | week numbers strictly increase along the list |
| Weeks.WeekListOnce | server/src/routes/weeks.js:17 | no week is listed twice |
| Weeks.NewWeek | server/src/routes/weeks.js:41-46 | a new week has `episodeDate` or null, `title` or "Week N", status open and scoring not finalized |
| Weeks.CreateCheck | server/src/routes/weeks.js:28-46 | a non-admin gets the middleware's refusal; a passing create yields the new week for the supplied number |
| Weeks.CreateAccepted | server/src/routes/weeks.js:33-39 | a week is created iff the caller is an admin and the number is in 1..100 and not yet taken in the league; a taken number is "Week already exists" |
| Weeks.WeekAddedKeepsValid | server/src/routes/weeks.js:41-46 | adding a week with a free number in range keeps every invariant |
| Weeks.CreateKeepsValid | server/src/routes/weeks.js:41-46 | an accepted create keeps every invariant |
| Weeks.CreateTwiceRefused | server/src/routes/weeks.js:36-39 | after a create, a second create of that number is refused with "Week already exists" |
| Weeks.CreateWeek | server/src/routes/weeks.js:28-52 | a refused create changes nothing; an accepted one stores the week under the next id |
| Weeks.StoreWeek | server/src/routes/weeks.js:41-46 | the week is stored under the next id |
| Weeks.FinalizeCheck | server/src/routes/weeks.js:57-67 | a non-admin gets the middleware's refusal; a passing finalize names a week of the league |
| Weeks.FinalizeAccepted | server/src/routes/weeks.js:61-67 | finalizing goes ahead iff the caller is an admin and the week number is in 1..100 and exists in the league; a valid number the league lacks is 404 |
| Weeks.Finalized | server/src/routes/weeks.js:69-70 | the week is closed and finalized, with league, number, date and title kept |
| Weeks.FinalizeKeepsValid | server/src/routes/weeks.js:69-71 | finalizing keeps every invariant |
| Weeks.FinalizeIdempotent | server/src/routes/weeks.js:69-71 | finalizing again finds the same week and leaves the same state |
| Weeks.FinalizeWeek | server/src/routes/weeks.js:57-77 | a refused finalize changes nothing; an accepted one finalizes only that week and answers with it |
| Weeks.SaveWeek | server/src/routes/weeks.js:71 | the finalized week is saved in place |
| Weeks.ValidatedWeeks | server/src/routes/weeks.js:91-96 | the batch passes iff every week number is in 1..100, and record k is then entry k's week |
| Weeks.BulkCheck | server/src/routes/weeks.js:82-96 | a non-admin gets the middleware's refusal; a non-array or empty array is 400 "Weeks array required" |
| Weeks.BulkAccepted | server/src/routes/weeks.js:87-96 | the batch reaches the insert iff the caller is an admin and sends a non-empty array whose every number is in 1..100; otherwise nothing is inserted |
| Weeks.BulkRecords | server/src/routes/weeks.js:91-96 | the records belong to the league and carry numbers in 1..100 |
| Weeks.BulkInsertedAt | server/src/routes/weeks.js:98 | the insert keeps old weeks, and the new keys are exactly the inserted ids, each holding its record |
| Weeks.BulkInsertedCovers | server/src/routes/weeks.js:98 | every record's league and number are present after the insert |
| Weeks.BulkInsertedUnique | server/src/routes/weeks.js:98 | the insert keeps week numbers unique per league |
| Weeks.BulkAllInserted | server/src/routes/weeks.js:98-103 | every record goes in iff none of their numbers is taken and no number repeats in the batch |
| Weeks.AllInsertedTaken | server/src/routes/weeks.js:98 | when every record went in, the league's numbers are the old ones plus the records' |
| Weeks.InsertWeeks | server/src/routes/weeks.js:98 | the store receives the records whose numbers are free |
| Weeks.BulkAnswer | server/src/routes/weeks.js:100-106 | success, carrying the inserted ids, iff every record went in; otherwise the duplicate-key refusal |
| Weeks.AcceptBatch | server/src/routes/weeks.js:98-103 | the free records are inserted and the answer follows from the ids inserted |
| Weeks.BulkCreate | server/src/routes/weeks.js:82-107 | a refused batch changes nothing; an accepted one inserts the records whose numbers are free and answers accordingly |
| Weeks.BulkCovers | server/src/routes/weeks.js:98 | after an accepted batch every number in it is a week of the league |
| Weeks.BulkCreatedIff | server/src/routes/weeks.js:98-103 | an accepted batch is answered 201 iff none of its numbers is taken and none repeats |
| DraftBoard.MaxPicks | web/src/components/DraftBoard.jsx:36 | at least every team's roster length, and 0 for no teams |
| DraftBoard.MaxPicksAttained | web/src/components/DraftBoard.jsx:36 | the maximum is some team's roster length |
| DraftBoard.OrderedTeams | web/src/components/DraftBoard.jsx:76-77 | the row's team order has as many teams as the report |
| DraftBoard.Cells | web/src/components/DraftBoard.jsx:82-104 | one cell per team of the row order, each the team's pick of that round |
| DraftBoard.Rows | web/src/components/DraftBoard.jsx:37 | rows 1..n, row i+1 at index i |
| DraftBoard.Board | web/src/components/DraftBoard.jsx:29-37 | nothing is rendered iff there is no report or no teams; otherwise one row per round |
| DraftBoard.RowCountIsLongestRoster | web/src/components/DraftBoard.jsx:36-37 | the row count is the longest roster length, or 1 when all rosters are empty |
| DraftBoard.RowIsPermutation | web/src/components/DraftBoard.jsx:76-77 | each row is a permutation of the teams, odd rows in the given order and even rows reversed, and the report's list itself is not reordered |
| DraftBoard.RowFollowsSnakeOrder | web/src/components/DraftBoard.jsx:75-77 | column j of row r is the team that `calculateSnakeDraftOrder((r-1)·n + j + 1, n)` picks |
| DraftBoard.CellShowsPick | web/src/components/DraftBoard.jsx:83-100 | the cell of team t in row r shows `t.players[r-1]`, or the placeholder when that entry is absent |
| DraftBoard.EveryPickShown | web/src/components/DraftBoard.jsx:74-104 | every player on a roster appears on the row of its round, in its team's column |
| AdminImport.TrimAll | web/src/pages/AdminPanel.jsx:276 | every field trimmed, none dropped |
| AdminImport.ParseLines | web/src/pages/AdminPanel.jsx:275-281 | one entry per line, entry k parsed from line k |
| AdminImport.ParseImportLines | web/src/pages/AdminPanel.jsx:274-284 | the trimmed text gives one entry per newline-separated line; the toast's count is the number of newlines plus one |
| AdminImport.ParseLineFields | web/src/pages/AdminPanel.jsx:276-279 | the name is the first comma-separated field trimmed; the tribe is the second field trimmed, or '' when there is none |
| AdminImport.ParseLineOfTwoFields | web/src/pages/AdminPanel.jsx:276-280 | a line is parsed from its first two fields alone |
| AdminImport.ExtraFieldsIgnored | web/src/pages/AdminPanel.jsx:276-280 | fields after the second do not change the entry |
| AdminImport.NameOnlyLine | web/src/pages/AdminPanel.jsx:279 | a line without a comma is a bare name with an empty tribe |
| AdminImport.BlankTextOneEntry | web/src/pages/AdminPanel.jsx:274-284 | an empty or all-blank textarea still yields one entry, with an empty name |
| AdminImport.FormatLines | web/src/pages/AdminPanel.jsx:297 | one `Name, Tribe` line per entry, in the format the panel documents |
| AdminImport.ParseFormatLine | web/src/pages/AdminPanel.jsx:276-279 | parsing a line written in the documented `Name, Tribe` format gives the entry back |
| AdminImport.ParseFormatImport | web/src/pages/AdminPanel.jsx:274-281 | parsing the text of expressible entries gives them back in order: the parse inverts the documented format |

## Left out

- HTTP plumbing is not modelled: Express routing, the JSON bodies of the responses beyond what the outcomes carry, and the fetch client. A handler's answer is its `Outcome`.
- Authentication (Firebase token checks) is not modelled. The signed-in user is the `uid` parameter.
- `Math.random` is not modelled. It becomes an injected `rand: nat -> nat`; a draw in [0, m) is `rand(k) % m`.
- `new Date()` in the expiry check is not modelled. It becomes the integer `now`, and `expiresAt` and `episodeDate` are integers: date parsing is not modelled.
- Concurrency is not modelled. Every request is atomic and sequential; this covers the read-then-write race between simultaneous picks and the `Promise.all` fan-out of the start handler.
- Timestamps are not modelled. Creation order is ascending id order, handed out from `nextId`.
- Models.TeamsByDraftOrder: breaks ties in `draftOrder` by creation order, and lists teams with a null `draftOrder` first. MongoDB does not promise an order among equal keys. Ties happen before a draft has started, or when `Leagues.UpdateStatus` moves a league straight to draft without draft orders. So the team the model's turn check names in such a league (`Draft.PickAccepted`, `Draft.Status`) is one possible answer of the source, not the only one.
- Teams.Leaderboard and Players.PlayerList: break ties in points or name by creation order for the same reason. MongoDB may return equal teams or players in another order.
- Ids are well-formed by construction: every id is a `nat`. A malformed id in the URL or the body makes the source's `findById` throw a CastError. That answers 500 "Authorization failed" in `requireLeagueAdmin` (authorize.js:29-31) and the handler's catch status elsewhere. Authorize.RequireLeagueAdmin and the handlers do not model this error path.
- Schema range validators beyond the routes' own checks are not modelled. `settings.draft.pickSeconds` must lie in 30..600 by the League schema (League.js:44-49). Mongoose refuses a create, or a patch (it runs with `runValidators`), whose `pickSeconds` is outside that range. The model stores any integer there. The schema's `maxTeams` and `membersPerTeam` ranges are the same as the routes' checks, so the model captures them.
- The `pickSeconds` timer is stored but never enforced by the server, so no timeout behaviour is modelled. The draft type `snake`, the only allowed value, is left out.
- `populate` is not modelled. Listings return ids. The draft board is modelled on its own input, the teams as the component receives them. Each roster entry is optional, because the component guards it with `team.players?.[pickIndex]` and a falsy test. The server's `populate` drops a roster entry whose player no longer exists, so the later picks of that team move up one row on the real board. The model does not capture this server-side shift.
- `Number()` coercion, NaN and non-integer numbers are not modelled. A number input is `Option<int>`, where `None` stands for NaN; a string such as "05" is not distinguished from 5.
- Weeks.ValidatedWeeks: the bulk title uses the validated week number. The source prints the raw `w.weekNumber`, which differs only for non-integer inputs.
- Weeks.InsertWeeks: `insertMany(..., { ordered: false })` is modelled as a sequential insert that skips records whose (league, number) is taken. The server's partial-failure report is not modelled.
- Weeks.BulkAnswer: the failure message is shortened to the `E11000 duplicate key error` prefix of MongoDB's message.
- Some texts of Mongoose and MongoDB validation errors are approximated:
  - `Invites.TeamNameMissing`, for a team name that is blank after the schema trims it;
  - the status message of the player schema's enum.
- String sorts compare code points lexicographically (`Ordering.StringLeq`, on Dafny characters), which is MongoDB's binary string order. Collation and locale order are not modelled.
- Letter case is mapped by `Text.ToUpper`, which covers these characters:
  - case pairs of Basic Latin, Latin-1, Latin Extended-A, Latin Extended Additional, Greek, basic Cyrillic and fullwidth Latin;
  - sharp s and the Latin ligatures;
  - dotless i and long s.

  Any other letter (Armenian, Georgian, Cherokee, Latin Extended-B, Cyrillic beyond U+045F, …), and the Greek letters with dialytika and tonos whose upper case is three characters, is left as it is, where JavaScript's `toUpperCase` maps it. The members that rest on the mapping are limited to the covered characters:
- Validation.ValidateScoringRules: normalises a rule key with `Text.ToUpper`, so a key with an uncovered lower-case letter is stored unchanged where the source stores its upper case.
- Validation.RulesChecked: states the normalised map through `Text.ToUpper`, with the same limit for uncovered letters.
- Validation.RulesFromKeys: the stored keys are `Text.ToUpper` of the input keys; for uncovered letters they differ from `toUpperCase`.
- Validation.RulesFromLastWins: two keys that differ only in the case of an uncovered letter are kept apart, where the source merges them and keeps the last.
- Scoring.AddCheck: looks the event type up by `Text.ToUpper`. So a type with an uncovered lower-case letter is refused with 400 even when the rules hold its upper case, which the source accepts.
- Scoring.AddAccepted: the if-and-only-if is stated over `Text.ToUpper`, with the same limit.
- Scoring.AddIgnoresCase: case is ignored for the covered letters only.
- Invites.RedeemIgnoresMaxTeams: states that the redemption's success does not depend on `maxTeams`, not that the whole answer is equal.
- The invite list (`GET /api/leagues/:leagueId/invites`) is not modelled. It is a read-only query sorted by a timestamp that the model does not have.
- `GET /api/leagues/:leagueId` is not modelled. It is a single lookup answering the league or 404, which `Authorize.RequireLeagueAdmin` already covers as a lookup.
- Players.ImportCheck: the handler's second league lookup after the admin check cannot fail once the middleware has found the league, so that 404 is unreachable here.
- Scoring.AddCheck: the second league lookup likewise cannot fail after the admin check.
- Leagues.PatchSettings: a `maxTeams` below the league's current team count is allowed, as in the source. Lowering the limit does not remove teams.
- Partial sub-objects in a settings or meta patch are taken as whole values. Mongoose's casting of sub-fields is not modelled.
- The web client is not modelled beyond two parts: `handleImport`'s parse of the text, and the rows and cells of the draft board. Rendering, polling, toasts and the rest of the admin panel are left out.
