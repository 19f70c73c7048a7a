/** server/src/lib/validation.js: the input validators. Each either returns
    the (normalised) value or throws an Error with a message; here that is
    `Pass(value)` or `Fail(message)`. A missing or non-string name is
    modelled as the empty string, which every name validator rejects with
    the "required" message, as the source does for any falsy value. */
module Validation {
  import opened Outcomes
  import opened Text

  /** The decimal form of an integer, as template literals print it. */
  function IntString(i: int): string {
    if i < 0 then "-" + DecimalString(-i) else DecimalString(i)
  }

  /** The parameters of one name validator: a minimum trimmed length, a
      maximum raw length (both in UTF-16 code units) and its three
      messages. */
  datatype NameRules = NameRules(minTrimmed: nat, maxRaw: nat,
                                 requiredMessage: string, shortMessage: string, longMessage: string)

  const LeagueNameRules := NameRules(3, 100,
    "League name is required and must be a string",
    "League name must be at least 3 characters",
    "League name must be less than 100 characters")

  const TeamNameRules := NameRules(2, 50,
    "Team name is required and must be a string",
    "Team name must be at least 2 characters",
    "Team name must be less than 50 characters")

  const PlayerNameRules := NameRules(1, 100,
    "Player name is required and must be a string",
    "Player name cannot be empty",
    "Player name must be less than 100 characters")

  /** The shared shape of the three name validators: required, a minimum
      trimmed length, a maximum raw length, and the trimmed name as
      result. */
  function ValidateNameWith(name: string, rules: NameRules): (r: Checked<string>)
    ensures r.Pass? <==> name != "" && Utf16Length(Trim(name)) >= rules.minTrimmed && Utf16Length(name) <= rules.maxRaw
    ensures r.Pass? ==> r.value == Trim(name) && IsTrimmed(r.value)
    ensures r.Pass? ==> rules.minTrimmed <= Utf16Length(r.value) <= rules.maxRaw
    ensures name == "" ==> r == Fail(rules.requiredMessage)
    ensures name != "" && Utf16Length(Trim(name)) < rules.minTrimmed ==> r == Fail(rules.shortMessage)
    ensures name != "" && Utf16Length(Trim(name)) >= rules.minTrimmed && Utf16Length(name) > rules.maxRaw ==>
      r == Fail(rules.longMessage)
  {
    TrimIsSlice(name);
    if name == "" then Fail(rules.requiredMessage)
    else if Utf16Length(Trim(name)) < rules.minTrimmed then Fail(rules.shortMessage)
    else if Utf16Length(name) > rules.maxRaw then Fail(rules.longMessage)
    else Pass(Trim(name))
  }

  /** `validateLeagueName`: at least 3 code units after trimming, at most
      100 before; the result is the trimmed name. */
  function ValidateLeagueName(name: string): (r: Checked<string>)
    ensures r.Pass? <==> name != "" && Utf16Length(Trim(name)) >= 3 && Utf16Length(name) <= 100
    ensures r.Pass? ==> r.value == Trim(name) && IsTrimmed(r.value) && 3 <= Utf16Length(r.value) <= 100
  {
    ValidateNameWith(name, LeagueNameRules)
  }

  /** `validateTeamName`: at least 2 code units after trimming, at most 50
      before; the result is the trimmed name. */
  function ValidateTeamName(name: string): (r: Checked<string>)
    ensures r.Pass? <==> name != "" && Utf16Length(Trim(name)) >= 2 && Utf16Length(name) <= 50
    ensures r.Pass? ==> r.value == Trim(name) && IsTrimmed(r.value) && 2 <= Utf16Length(r.value) <= 50
  {
    ValidateNameWith(name, TeamNameRules)
  }

  /** `validatePlayerName`: at least 1 code unit after trimming, at most 100
      before; the result is the trimmed name. */
  function ValidatePlayerName(name: string): (r: Checked<string>)
    ensures r.Pass? <==> name != "" && Utf16Length(Trim(name)) >= 1 && Utf16Length(name) <= 100
    ensures r.Pass? ==> r.value == Trim(name) && IsTrimmed(r.value) && 1 <= Utf16Length(r.value) <= 100
  {
    ValidateNameWith(name, PlayerNameRules)
  }

  /** A name that passed a validator passes it again unchanged. */
  lemma NameValidationIdempotent(name: string)
    ensures ValidateLeagueName(name).Pass? ==> ValidateLeagueName(ValidateLeagueName(name).value) == ValidateLeagueName(name)
    ensures ValidateTeamName(name).Pass? ==> ValidateTeamName(ValidateTeamName(name).value) == ValidateTeamName(name)
    ensures ValidatePlayerName(name).Pass? ==> ValidatePlayerName(ValidatePlayerName(name).value) == ValidatePlayerName(name)
  {
    NameWithIdempotent(name, LeagueNameRules);
    NameWithIdempotent(name, TeamNameRules);
    NameWithIdempotent(name, PlayerNameRules);
  }

  /** A name that passed the shared validator passes it again unchanged;
      the minimum is at least 1, as for all three validators. */
  lemma NameWithIdempotent(name: string, rules: NameRules)
    requires rules.minTrimmed >= 1
    ensures ValidateNameWith(name, rules).Pass? ==>
      ValidateNameWith(ValidateNameWith(name, rules).value, rules) == ValidateNameWith(name, rules)
  {
    TrimIdempotent(name);
  }

  /** `validateNumber(value, min, max, fieldName)`. `value` is what
      `Number(value)` yields: `None` for NaN (a missing value or a string
      that is not a number), otherwise an integer. The result is the number
      itself when it lies in [min, max]. */
  function ValidateNumber(value: Option<int>, min: int, max: int, fieldName: string): (r: Checked<int>)
    ensures r.Pass? <==> value.Some? && min <= value.value <= max
    ensures r.Pass? ==> r.value == value.value
    ensures value.None? ==> r == Fail(fieldName + " must be a number")
    ensures value.Some? && value.value < min ==> r == Fail(fieldName + " must be at least " + IntString(min))
    ensures value.Some? && min <= value.value && value.value > max ==>
      r == Fail(fieldName + " must be at most " + IntString(max))
  {
    if value.None? then Fail(fieldName + " must be a number")
    else if value.value < min then Fail(fieldName + " must be at least " + IntString(min))
    else if value.value > max then Fail(fieldName + " must be at most " + IntString(max))
    else Pass(value.value)
  }

  /** `allowedValues.join(', ')`. */
  function JoinComma(values: seq<string>): string {
    if values == [] then "" else if |values| == 1 then values[0] else values[0] + ", " + JoinComma(values[1..])
  }

  /** `validateEnum(value, allowedValues, fieldName)`: the value itself when
      it is one of the allowed values. */
  function ValidateEnum(value: string, allowedValues: seq<string>, fieldName: string): (r: Checked<string>)
    ensures r.Pass? <==> value in allowedValues
    ensures r.Pass? ==> r.value == value
  {
    if value !in allowedValues then Fail(fieldName + " must be one of: " + JoinComma(allowedValues))
    else Pass(value)
  }

  /** `validateObjectId`: exactly 24 hexadecimal digits (`/^[0-9a-fA-F]{24}$/`). */
  function ValidateObjectId(id: string, fieldName: string := "ID"): (r: Checked<string>)
    ensures r.Pass? <==> |id| == 24 && forall k :: 0 <= k < |id| ==> IsHexDigit(id[k])
    ensures r.Pass? ==> r.value == id
  {
    if id == [] || |id| != 24 || exists k :: 0 <= k < |id| && !IsHexDigit(id[k]) then
      Fail(fieldName + " must be a valid ObjectId")
    else
      Pass(id)
  }

  /** One own enumerable property of the `scoringRules` object; `points` is
      `Number(value)`, `None` when that is NaN. */
  datatype RuleEntry = RuleEntry(key: string, points: Option<int>)

  /** The `rules` value given to the validator: an object's entries, in
      the order `Object.entries` lists them, or anything that is not an
      object (a string, a number, `null`). */
  datatype RulesInput = NotAnObject | Entries(entries: seq<RuleEntry>)

  /** The bounds every scoring-rule value must lie within. */
  const MinRulePoints: int := -100
  const MaxRulePoints: int := 100

  /** The message `validateNumber` throws for an out-of-range rule value. */
  function PointsMessage(key: string, points: int): string {
    if points < MinRulePoints then "Points for " + key + " must be at least -100"
    else "Points for " + key + " must be at most 100"
  }

  lemma PointsMessageAgrees(key: string, points: int)
    requires points < MinRulePoints || points > MaxRulePoints
    ensures ValidateNumber(Some(points), MinRulePoints, MaxRulePoints, "Points for " + key)
         == Fail(PointsMessage(key, points))
  {
    assert IntString(-100) == "-100";
    assert IntString(100) == "100";
  }

  /** What can be wrong with one entry. */
  datatype RuleProblem = EmptyKey | NotANumber(key: string) | PointsOutOfRange(key: string, points: int)

  /** The message thrown for a problem. */
  function ProblemMessage(p: RuleProblem): string {
    match p
    case EmptyKey => "Scoring rule keys must be non-empty strings"
    case NotANumber(key) => "Points for " + key + " must be a number"
    case PointsOutOfRange(key, points) => PointsMessage(key, points)
  }

  /** The problem with one entry, if any: a key that is empty after
      trimming (all whitespace), a value that is not a number, or one
      outside [-100, 100]. */
  function EntryProblem(e: RuleEntry): Option<RuleProblem> {
    if IsBlank(e.key) then Some(EmptyKey)
    else if e.points.None? then Some(NotANumber(e.key))
    else if e.points.value < MinRulePoints || e.points.value > MaxRulePoints then
      Some(PointsOutOfRange(e.key, e.points.value))
    else None
  }

  /** The first bad entry's problem, if there is one. */
  function FirstRuleProblem(entries: seq<RuleEntry>): Option<RuleProblem> {
    if entries == [] then None
    else if EntryProblem(entries[0]).Some? then EntryProblem(entries[0])
    else FirstRuleProblem(entries[1..])
  }

  /** The `validated` object built by the loop: each entry in turn sets the
      upper-cased key, so of keys equal up to case the later one wins. (It
      is only returned when every value is a number.) */
  function RulesFrom(entries: seq<RuleEntry>): map<string, int> {
    if entries == [] then map[]
    else
      var last := entries[|entries| - 1];
      RulesFrom(entries[..|entries| - 1])[ToUpper(last.key) := last.points.GetOr(0)]
  }

  lemma FirstProblemStep(entries: seq<RuleEntry>, i: nat)
    requires i < |entries|
    ensures FirstRuleProblem(entries[i..])
         == if EntryProblem(entries[i]).Some? then EntryProblem(entries[i]) else FirstRuleProblem(entries[i + 1..])
  {
    assert entries[i..][0] == entries[i] && entries[i..][1..] == entries[i + 1..];
  }

  lemma RulesFromStep(entries: seq<RuleEntry>, i: nat)
    requires i < |entries|
    ensures RulesFrom(entries[..i + 1]) == RulesFrom(entries[..i])[ToUpper(entries[i].key) := entries[i].points.GetOr(0)]
  {
    assert entries[..i + 1][..i] == entries[..i];
  }

  /** A blank key at the first unchecked entry is the first problem. */
  lemma BlankKeyFails(entries: seq<RuleEntry>, i: nat)
    requires i < |entries| && FirstRuleProblem(entries) == FirstRuleProblem(entries[i..])
    requires Utf16Length(Trim(entries[i].key)) == 0
    ensures FirstRuleProblem(entries) == Some(EmptyKey)
    ensures ProblemMessage(EmptyKey) == "Scoring rule keys must be non-empty strings"
  {
    FirstProblemStep(entries, i);
    TrimmedEmptyIffBlank(entries[i].key);
  }

  /** A value `validateNumber` rejects at the first unchecked entry (whose
      key is not blank) is the first problem, with the same message. */
  lemma BadPointsFail(entries: seq<RuleEntry>, i: nat)
    requires i < |entries| && FirstRuleProblem(entries) == FirstRuleProblem(entries[i..])
    requires Utf16Length(Trim(entries[i].key)) != 0
    requires ValidateNumber(entries[i].points, MinRulePoints, MaxRulePoints, "Points for " + entries[i].key).Fail?
    ensures FirstRuleProblem(entries).Some?
    ensures ProblemMessage(FirstRuleProblem(entries).value)
         == ValidateNumber(entries[i].points, MinRulePoints, MaxRulePoints, "Points for " + entries[i].key).message
  {
    var e := entries[i];
    FirstProblemStep(entries, i);
    TrimmedEmptyIffBlank(e.key);
    if e.points.Some? {
      PointsMessageAgrees(e.key, e.points.value);
      assert EntryProblem(e) == Some(PointsOutOfRange(e.key, e.points.value));
    } else {
      assert EntryProblem(e) == Some(NotANumber(e.key));
    }
  }

  /** An entry both checks accept is no problem: the search moves on. */
  lemma GoodEntryPasses(entries: seq<RuleEntry>, i: nat)
    requires i < |entries|
    requires Utf16Length(Trim(entries[i].key)) != 0
    requires ValidateNumber(entries[i].points, MinRulePoints, MaxRulePoints, "Points for " + entries[i].key).Pass?
    ensures FirstRuleProblem(entries[i..]) == FirstRuleProblem(entries[i + 1..])
  {
    FirstProblemStep(entries, i);
    TrimmedEmptyIffBlank(entries[i].key);
  }

  /** `validateScoringRules(rules)`. */
  method ValidateScoringRules(rules: RulesInput) returns (r: Checked<map<string, int>>)
    ensures rules.NotAnObject? ==> r == Fail("Scoring rules must be an object")
    ensures rules.Entries? && FirstRuleProblem(rules.entries).Some?
      ==> r == Fail(ProblemMessage(FirstRuleProblem(rules.entries).value))
    ensures rules.Entries? && FirstRuleProblem(rules.entries).None? ==> r == Pass(RulesFrom(rules.entries))
    ensures r == RulesChecked(rules)
  {
    if rules.NotAnObject? {
      return Fail("Scoring rules must be an object");
    }
    var entries := rules.entries;
    var validated: map<string, int> := map[];
    for i := 0 to |entries|
      invariant FirstRuleProblem(entries) == FirstRuleProblem(entries[i..])
      invariant validated == RulesFrom(entries[..i])
    {
      var e := entries[i];
      if Utf16Length(Trim(e.key)) == 0 {
        BlankKeyFails(entries, i);
        return Fail("Scoring rule keys must be non-empty strings");
      }
      var points := ValidateNumber(e.points, MinRulePoints, MaxRulePoints, "Points for " + e.key);
      if points.Fail? {
        BadPointsFail(entries, i);
        return Fail(points.message);
      }
      GoodEntryPasses(entries, i);
      RulesFromStep(entries, i);
      validated := validated[ToUpper(e.key) := points.value];
    }
    assert entries[..|entries|] == entries;
    return Pass(validated);
  }

  /** The result `validateScoringRules` computes, for use where a
      handler's outcome is stated as a function. */
  function RulesChecked(rules: RulesInput): (r: Checked<map<string, int>>)
    ensures r.Pass? <==> rules.Entries? && AllRulesValid(rules.entries)
    ensures r.Pass? ==> r.value == RulesFrom(rules.entries)
  {
    if rules.NotAnObject? then Fail("Scoring rules must be an object")
    else
      NoProblemMeansAllValid(rules.entries);
      var problem := FirstRuleProblem(rules.entries);
      if problem.Some? then Fail(ProblemMessage(problem.value)) else Pass(RulesFrom(rules.entries))
  }

  /** Every entry has a non-empty key and a value in range. */
  predicate AllRulesValid(entries: seq<RuleEntry>) {
    forall k :: 0 <= k < |entries| ==> EntryProblem(entries[k]).None?
  }

  /** The validator finds no problem exactly when every entry is valid. */
  lemma {:induction false} NoProblemMeansAllValid(entries: seq<RuleEntry>)
    ensures FirstRuleProblem(entries).None? <==> AllRulesValid(entries)
  {
    if entries != [] {
      var rest := entries[1..];
      NoProblemMeansAllValid(rest);
      if AllRulesValid(entries) {
        forall k | 0 <= k < |rest|
          ensures EntryProblem(rest[k]).None?
        {
          assert rest[k] == entries[k + 1];
        }
      }
      if EntryProblem(entries[0]).None? && AllRulesValid(rest) {
        forall k | 0 <= k < |entries|
          ensures EntryProblem(entries[k]).None?
        {
          if k > 0 {
            assert entries[k] == rest[k - 1];
          }
        }
      }
    }
  }

  /** The upper-cased keys of the entries. */
  function UpperKeys(entries: seq<RuleEntry>): set<string> {
    set k | 0 <= k < |entries| :: ToUpper(entries[k].key)
  }

  /** `key` is upper-cased from entry `k` and from no later entry. */
  predicate LastWithKey(entries: seq<RuleEntry>, k: int, key: string) {
    0 <= k < |entries| && ToUpper(entries[k].key) == key
    && forall k' :: k < k' < |entries| ==> ToUpper(entries[k'].key) != key
  }

  /** The keys of the validated rules are exactly the upper-cased input keys. */
  lemma {:induction false} RulesFromKeys(entries: seq<RuleEntry>)
    ensures RulesFrom(entries).Keys == UpperKeys(entries)
  {
    if entries != [] {
      var n := |entries|;
      var init := entries[..n - 1];
      RulesFromKeys(init);
      UpperKeysSnoc(entries);
    }
  }

  /** The upper-cased keys grow by the last entry's key. */
  lemma UpperKeysSnoc(entries: seq<RuleEntry>)
    requires entries != []
    ensures var n := |entries|;
      UpperKeys(entries) == UpperKeys(entries[..n - 1]) + {ToUpper(entries[n - 1].key)}
  {
    var n := |entries|;
    var init := entries[..n - 1];
    forall x | x in UpperKeys(entries)
      ensures x in UpperKeys(init) + {ToUpper(entries[n - 1].key)}
    {
      var k :| 0 <= k < n && ToUpper(entries[k].key) == x;
      if k < n - 1 {
        assert init[k] == entries[k];
      }
    }
    forall x | x in UpperKeys(init)
      ensures x in UpperKeys(entries)
    {
      var k :| 0 <= k < n - 1 && ToUpper(init[k].key) == x;
      assert entries[k] == init[k];
    }
  }

  /** Each key's value is that of the LAST entry whose key upper-cases to it. */
  lemma {:induction false} RulesFromLastWins(entries: seq<RuleEntry>)
    ensures forall key :: key in RulesFrom(entries) ==>
      exists k :: LastWithKey(entries, k, key) && RulesFrom(entries)[key] == entries[k].points.GetOr(0)
  {
    if entries != [] {
      var n := |entries|;
      var init := entries[..n - 1];
      RulesFromLastWins(init);
      var m := RulesFrom(entries);
      var last := ToUpper(entries[n - 1].key);
      assert m == RulesFrom(init)[last := entries[n - 1].points.GetOr(0)];
      forall key | key in m
        ensures exists k :: LastWithKey(entries, k, key) && m[key] == entries[k].points.GetOr(0)
      {
        if key == last {
          assert LastWithKey(entries, n - 1, key);
        } else {
          assert key in RulesFrom(init);
          var k :| LastWithKey(init, k, key) && RulesFrom(init)[key] == init[k].points.GetOr(0);
          LastWithKeyExtends(entries, k, key);
        }
      }
    }
  }

  /** An entry that is last with its key stays last after appending an
      entry with another key. */
  lemma LastWithKeyExtends(entries: seq<RuleEntry>, k: int, key: string)
    requires entries != [] && LastWithKey(entries[..|entries| - 1], k, key)
    requires ToUpper(entries[|entries| - 1].key) != key
    ensures LastWithKey(entries, k, key) && entries[k] == entries[..|entries| - 1][k]
  {
    var init := entries[..|entries| - 1];
    assert forall k' :: k < k' < |entries| - 1 ==> init[k'] == entries[k'];
  }

  /** When every entry is valid, every validated value lies in [-100, 100]. */
  lemma {:induction false} RulesFromInRange(entries: seq<RuleEntry>)
    requires AllRulesValid(entries)
    ensures forall key :: key in RulesFrom(entries) ==> MinRulePoints <= RulesFrom(entries)[key] <= MaxRulePoints
  {
    if entries != [] {
      var n := |entries|;
      var init := entries[..n - 1];
      assert AllRulesValid(init) by {
        forall k | 0 <= k < n - 1
          ensures EntryProblem(init[k]).None?
        {
          assert init[k] == entries[k];
        }
      }
      RulesFromInRange(init);
      assert EntryProblem(entries[n - 1]).None?;
    }
  }

  /** `validateInviteCode(code)`: the trimmed, upper-cased code, accepted
      when it is 6 to 12 characters of `[A-Z0-9]`. */
  function ValidateInviteCode(code: string): (r: Checked<string>)
    ensures r.Pass? <==> (code != "" && 6 <= |ToUpper(Trim(code))| <= 12 && AllCodeChars(ToUpper(Trim(code))))
    ensures r.Pass? ==> r.value == ToUpper(Trim(code))
    ensures code == "" ==> r == Fail("Invite code is required")
  {
    if code == "" then Fail("Invite code is required")
    else
      var cleaned := ToUpper(Trim(code));
      if !(6 <= |cleaned| <= 12 && AllCodeChars(cleaned)) then
        Fail("Invite code must be 6-12 alphanumeric characters")
      else Pass(cleaned)
  }

  /** A code of 6 to 12 characters of `[A-Z0-9]` is accepted as it is. */
  lemma CodeCharsAccepted(code: string)
    requires 6 <= |code| <= 12 && AllCodeChars(code)
    ensures ValidateInviteCode(code) == Pass(code)
  {
    CodeCharsShape(code);
    TrimOfTrimmed(code);
    ToUpperOfCodeChars(code);
  }

  /** Normalising an accepted code again gives the same code. */
  lemma InviteCodeIdempotent(code: string)
    requires ValidateInviteCode(code).Pass?
    ensures ValidateInviteCode(ValidateInviteCode(code).value) == ValidateInviteCode(code)
  {
    CodeCharsAccepted(ValidateInviteCode(code).value);
  }
}
