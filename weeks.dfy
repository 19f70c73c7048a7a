/** server/src/routes/weeks.js: the week list, creating one week,
    finalizing a week's scoring, and creating weeks in bulk. Everything but
    the list runs behind `requireLeagueAdmin`. The unique index on
    (leagueId, weekNumber) of server/src/models/Week.js is the invariant
    `Models.WeeksOk`. */
module Weeks {
  import opened Outcomes
  import opened Ordering
  import opened Models
  import opened Authorize
  import opened Validation

  // ---------------------------------------------------------------------
  // lookups

  /** `Week.find({ leagueId })`, in creation order. */
  function WeeksInLeague(weeks: map<Id, Week>, nextId: nat, leagueId: Id): (r: seq<Id>)
    ensures forall w :: w in r <==> w in weeks && weeks[w].leagueId == leagueId && w < nextId
    ensures Increasing(r)
  {
    var keep := (w: Id) => w in weeks && weeks[w].leagueId == leagueId;
    IdsBelowIncreasing(weeks.Keys, nextId);
    SelectIncreasing(IdsBelow(weeks.Keys, nextId), keep);
    Select(IdsBelow(weeks.Keys, nextId), keep)
  }

  /** The league already has a week with this number. */
  predicate Taken(weeks: map<Id, Week>, leagueId: Id, n: int) {
    exists w :: w in weeks && weeks[w].leagueId == leagueId && weeks[w].weekNumber == n
  }

  /** `Week.findOne({ leagueId, weekNumber: n })` among the ids below
      `bound`: the oldest such week, if any. */
  function FindWeek(weeks: map<Id, Week>, leagueId: Id, n: int, bound: nat): (r: Option<Id>)
    ensures r.Some? ==>
      r.value < bound && r.value in weeks && weeks[r.value].leagueId == leagueId && weeks[r.value].weekNumber == n
    ensures r.None? ==>
      forall w :: w in weeks && w < bound ==> !(weeks[w].leagueId == leagueId && weeks[w].weekNumber == n)
    decreases bound
  {
    if bound == 0 then None
    else
      var earlier := FindWeek(weeks, leagueId, n, bound - 1);
      if earlier.Some? then earlier
      else if bound - 1 in weeks && weeks[bound - 1].leagueId == leagueId && weeks[bound - 1].weekNumber == n then
        Some(bound - 1)
      else None
  }

  /** Over the whole store, the lookup finds a week exactly when the league
      has one with that number. */
  lemma FindWeekTaken(d: Db, leagueId: Id, n: int)
    requires IdsOk(d)
    ensures FindWeek(d.weeks, leagueId, n, d.nextId).Some? <==> Taken(d.weeks, leagueId, n)
  {
    if Taken(d.weeks, leagueId, n) {
      var w :| w in d.weeks && d.weeks[w].leagueId == leagueId && d.weeks[w].weekNumber == n;
      assert w < d.nextId;
    }
  }

  /** The week numbers of a league are unique, so the lookup finds the one
      week with that number, whichever it is. */
  lemma FindWeekUnique(d: Db, leagueId: Id, n: int, w: Id)
    requires d.Valid() && w in d.weeks && d.weeks[w].leagueId == leagueId && d.weeks[w].weekNumber == n
    ensures FindWeek(d.weeks, leagueId, n, d.nextId) == Some(w)
  {
    FindWeekTaken(d, leagueId, n);
  }

  // ---------------------------------------------------------------------
  // list

  function NumberOf(weeks: map<Id, Week>, w: Id): int {
    if w in weeks then weeks[w].weekNumber else 0
  }

  function ByWeekNumber(weeks: map<Id, Week>): (Id, Id) -> bool {
    (a: Id, b: Id) => NumberOf(weeks, a) <= NumberOf(weeks, b)
  }

  lemma ByWeekNumberPreorder(weeks: map<Id, Week>)
    ensures TotalPreorder(ByWeekNumber(weeks))
  {
  }

  /** `GET /api/leagues/:leagueId/weeks`: the league's weeks by week
      number. */
  function WeekList(d: Db, leagueId: Id): (r: seq<Id>)
    ensures multiset(r) == multiset(WeeksInLeague(d.weeks, d.nextId, leagueId))
    ensures forall w :: w in r <==> w in d.weeks && d.weeks[w].leagueId == leagueId && w < d.nextId
    ensures Sorted(r, ByWeekNumber(d.weeks))
  {
    ByWeekNumberPreorder(d.weeks);
    SortBySorted(WeeksInLeague(d.weeks, d.nextId, leagueId), ByWeekNumber(d.weeks));
    var r := SortBy(WeeksInLeague(d.weeks, d.nextId, leagueId), ByWeekNumber(d.weeks));
    assert forall w :: w in r <==> w in multiset(r);
    r
  }

  /** With the unique index, week numbers strictly increase along the list,
      so no week appears twice. */
  lemma WeekListStrictlyIncreasing(d: Db, leagueId: Id)
    requires d.Valid()
    ensures var r := WeekList(d, leagueId);
      forall i, j :: 0 <= i < j < |r| ==> d.weeks[r[i]].weekNumber < d.weeks[r[j]].weekNumber
  {
    var r := WeekList(d, leagueId);
    forall i, j | 0 <= i < j < |r|
      ensures d.weeks[r[i]].weekNumber < d.weeks[r[j]].weekNumber
    {
      assert ByWeekNumber(d.weeks)(r[i], r[j]);
      if r[i] == r[j] {
        WeekListOnce(d, leagueId, r[i]);
        RepeatCountsTwice(r, i, j);
        assert false;
      }
    }
  }

  /** Each listed week appears once. */
  lemma WeekListOnce(d: Db, leagueId: Id, w: Id)
    requires w in WeekList(d, leagueId)
    ensures multiset(WeekList(d, leagueId))[w] == 1
  {
    IncreasingCountsOnce(WeeksInLeague(d.weeks, d.nextId, leagueId), w);
  }

  // ---------------------------------------------------------------------
  // create

  /** The week `Week.create` stores: `episodeDate || null`, `title ||
      "Week N"`, open and not finalized (the schema's defaults). */
  function NewWeek(leagueId: Id, n: int, episodeDate: Option<int>, title: Option<string>): (r: Week)
    ensures r.leagueId == leagueId && r.weekNumber == n
    ensures r.episodeDate == (if NumberTruthy(episodeDate) then episodeDate else None)
    ensures r.title == (if Truthy(title) then title.value else "Week " + IntString(n))
    ensures r.status == Open && !r.scoringFinalized
  {
    Week(leagueId, n, if NumberTruthy(episodeDate) then episodeDate else None,
         if Truthy(title) then title.value else "Week " + IntString(n), Open, false)
  }

  /** The checks of `POST /api/leagues/:leagueId/weeks`: the admin
      middleware, a week number in 1..100, and no week of that number in
      the league yet; on success the week to create. */
  function CreateCheck(d: Db, uid: Uid, leagueId: Id, weekNumber: Option<int>,
                       episodeDate: Option<int>, title: Option<string>): (r: Outcome<Week>)
    ensures !RequireLeagueAdmin(d.leagues, Some(leagueId), uid).Ok?
      ==> r == RequireLeagueAdmin(d.leagues, Some(leagueId), uid).Forward()
    ensures r.Ok? ==> weekNumber.Some? && r.value == NewWeek(leagueId, weekNumber.value, episodeDate, title)
  {
    var auth := RequireLeagueAdmin(d.leagues, Some(leagueId), uid);
    if !auth.Ok? then auth.Forward()
    else
      var valid := ValidateNumber(weekNumber, 1, 100, "Week number");
      if valid.Fail? then BadRequest(valid.message)
      else if FindWeek(d.weeks, leagueId, valid.value, d.nextId).Some? then BadRequest("Week already exists")
      else Ok(NewWeek(leagueId, valid.value, episodeDate, title))
  }

  /** A week is created exactly for an admin, a number in 1..100 and a
      number the league does not have yet; a taken number is the
      "Week already exists" error. */
  lemma CreateAccepted(d: Db, uid: Uid, leagueId: Id, weekNumber: Option<int>,
                       episodeDate: Option<int>, title: Option<string>)
    requires IdsOk(d)
    ensures CreateCheck(d, uid, leagueId, weekNumber, episodeDate, title).Ok? <==>
      && leagueId in d.leagues && IsLeagueAdmin(d.leagues[leagueId], uid)
      && weekNumber.Some? && 1 <= weekNumber.value <= 100
      && !Taken(d.weeks, leagueId, weekNumber.value)
    ensures
      && leagueId in d.leagues && IsLeagueAdmin(d.leagues[leagueId], uid)
      && weekNumber.Some? && 1 <= weekNumber.value <= 100
      && Taken(d.weeks, leagueId, weekNumber.value)
      ==> CreateCheck(d, uid, leagueId, weekNumber, episodeDate, title) == BadRequest("Week already exists")
  {
    if weekNumber.Some? {
      FindWeekTaken(d, leagueId, weekNumber.value);
    }
  }

  /** The update of an accepted create. */
  function CreateApplied(d: Db, week: Week): Db {
    d.(weeks := d.weeks[d.nextId := week], nextId := d.nextId + 1)
  }

  /** Adding a week whose number is in range and free in its league keeps
      every invariant. */
  lemma WeekAddedKeepsValid(d: Db, week: Week)
    requires d.Valid() && 1 <= week.weekNumber <= 100 && !Taken(d.weeks, week.leagueId, week.weekNumber)
    ensures CreateApplied(d, week).Valid()
  {
    FreshIdKeepsValid(d);
  }

  lemma CreateKeepsValid(d: Db, uid: Uid, leagueId: Id, weekNumber: Option<int>,
                         episodeDate: Option<int>, title: Option<string>)
    requires d.Valid() && CreateCheck(d, uid, leagueId, weekNumber, episodeDate, title).Ok?
    ensures CreateApplied(d, CreateCheck(d, uid, leagueId, weekNumber, episodeDate, title).value).Valid()
  {
    CreateAccepted(d, uid, leagueId, weekNumber, episodeDate, title);
    WeekAddedKeepsValid(d, CreateCheck(d, uid, leagueId, weekNumber, episodeDate, title).value);
  }

  /** After a create the league has a week of that number, and a second
      create of the same number is refused. */
  lemma CreateTwiceRefused(d: Db, uid: Uid, leagueId: Id, weekNumber: Option<int>,
                           episodeDate: Option<int>, title: Option<string>,
                           episodeDate2: Option<int>, title2: Option<string>)
    requires d.Valid() && CreateCheck(d, uid, leagueId, weekNumber, episodeDate, title).Ok?
    ensures var d' := CreateApplied(d, CreateCheck(d, uid, leagueId, weekNumber, episodeDate, title).value);
      CreateCheck(d', uid, leagueId, weekNumber, episodeDate2, title2) == BadRequest("Week already exists")
  {
    var week := CreateCheck(d, uid, leagueId, weekNumber, episodeDate, title).value;
    var d' := CreateApplied(d, week);
    CreateAccepted(d, uid, leagueId, weekNumber, episodeDate, title);
    WeekAddedKeepsValid(d, week);
    assert d'.weeks[d.nextId] == week;
    CreateAccepted(d', uid, leagueId, weekNumber, episodeDate2, title2);
  }

  /** `POST /api/leagues/:leagueId/weeks`; on success the created week. */
  method CreateWeek(s: Store, uid: Uid, leagueId: Id, weekNumber: Option<int>,
                    episodeDate: Option<int>, title: Option<string>) returns (o: Outcome<Week>)
    requires s.Valid()
    modifies s
    ensures s.Valid()
    ensures o == CreateCheck(old(s.State()), uid, leagueId, weekNumber, episodeDate, title)
    ensures !o.Ok? ==> s.State() == old(s.State())
    ensures o.Ok? ==> s.State() == CreateApplied(old(s.State()), o.value)
  {
    o := CreateCheck(s.State(), uid, leagueId, weekNumber, episodeDate, title);
    if o.Ok? {
      CreateKeepsValid(s.State(), uid, leagueId, weekNumber, episodeDate, title);
      StoreWeek(s, o.value);
    }
  }

  /** `Week.create`: the week under the next id. */
  method StoreWeek(s: Store, week: Week)
    requires CreateApplied(s.State(), week).Valid()
    modifies s
    ensures s.Valid()
    ensures s.State() == CreateApplied(old(s.State()), week)
  {
    ghost var d := s.State();
    s.weeks := s.weeks[s.nextId := week];
    s.nextId := s.nextId + 1;
    assert s.State() == CreateApplied(d, week);
  }

  // ---------------------------------------------------------------------
  // finalize

  /** The checks of `PATCH /api/leagues/:leagueId/weeks/:week/finalize`:
      the admin middleware, a week number in 1..100, and that week of the
      league; on success its id. */
  function FinalizeCheck(d: Db, uid: Uid, leagueId: Id, week: Option<int>): (r: Outcome<Id>)
    ensures !RequireLeagueAdmin(d.leagues, Some(leagueId), uid).Ok?
      ==> r == RequireLeagueAdmin(d.leagues, Some(leagueId), uid).Forward()
    ensures r.Ok? ==>
      (week.Some? && r.value in d.weeks && d.weeks[r.value].leagueId == leagueId
       && d.weeks[r.value].weekNumber == week.value)
  {
    var auth := RequireLeagueAdmin(d.leagues, Some(leagueId), uid);
    if !auth.Ok? then auth.Forward()
    else
      var valid := ValidateNumber(week, 1, 100, "Week");
      if valid.Fail? then BadRequest(valid.message)
      else
        var found := FindWeek(d.weeks, leagueId, valid.value, d.nextId);
        if found.None? then NotFound("Week not found") else Ok(found.value)
  }

  /** Finalizing goes ahead exactly for an admin and a week number in
      1..100 that the league has; a valid number the league lacks is a
      404. */
  lemma FinalizeAccepted(d: Db, uid: Uid, leagueId: Id, week: Option<int>)
    requires IdsOk(d)
    ensures FinalizeCheck(d, uid, leagueId, week).Ok? <==>
      && leagueId in d.leagues && IsLeagueAdmin(d.leagues[leagueId], uid)
      && week.Some? && 1 <= week.value <= 100 && Taken(d.weeks, leagueId, week.value)
    ensures
      && leagueId in d.leagues && IsLeagueAdmin(d.leagues[leagueId], uid)
      && week.Some? && 1 <= week.value <= 100 && !Taken(d.weeks, leagueId, week.value)
      ==> FinalizeCheck(d, uid, leagueId, week) == NotFound("Week not found")
  {
    if week.Some? {
      FindWeekTaken(d, leagueId, week.value);
    }
  }

  /** `scoringFinalized = true; status = 'closed'`. */
  function Finalized(w: Week): (r: Week)
    ensures r.scoringFinalized && r.status == Closed
    ensures r.leagueId == w.leagueId && r.weekNumber == w.weekNumber
    ensures r.episodeDate == w.episodeDate && r.title == w.title
  {
    w.(scoringFinalized := true, status := Closed)
  }

  /** The update of an accepted finalize. */
  function FinalizeApplied(d: Db, w: Id): Db
    requires w in d.weeks
  {
    d.(weeks := d.weeks[w := Finalized(d.weeks[w])])
  }

  /** Finalizing keeps the week's league and number, so every invariant. */
  lemma FinalizeKeepsValid(d: Db, w: Id)
    requires d.Valid() && w in d.weeks
    ensures FinalizeApplied(d, w).Valid()
  {
  }

  /** Finalizing the same week again finds the same week and leaves the
      store as the first finalize did. */
  lemma FinalizeIdempotent(d: Db, uid: Uid, leagueId: Id, week: Option<int>)
    requires d.Valid() && FinalizeCheck(d, uid, leagueId, week).Ok?
    ensures var w := FinalizeCheck(d, uid, leagueId, week).value;
      && FinalizeCheck(FinalizeApplied(d, w), uid, leagueId, week) == Ok(w)
      && FinalizeApplied(FinalizeApplied(d, w), w) == FinalizeApplied(d, w)
  {
    var w := FinalizeCheck(d, uid, leagueId, week).value;
    var d' := FinalizeApplied(d, w);
    FinalizeKeepsValid(d, w);
    FinalizeAccepted(d, uid, leagueId, week);
    FindWeekUnique(d', leagueId, week.value, w);
  }

  /** `PATCH /api/leagues/:leagueId/weeks/:week/finalize`; on success the
      saved week. */
  method FinalizeWeek(s: Store, uid: Uid, leagueId: Id, week: Option<int>) returns (o: Outcome<Week>)
    requires s.Valid()
    modifies s
    ensures s.Valid()
    ensures var c := FinalizeCheck(old(s.State()), uid, leagueId, week);
      && (!c.Ok? ==> o == c.Forward() && s.State() == old(s.State()))
      && (c.Ok? ==> s.State() == FinalizeApplied(old(s.State()), c.value) && o == Ok(s.weeks[c.value]))
  {
    var check := FinalizeCheck(s.State(), uid, leagueId, week);
    if !check.Ok? {
      return check.Forward();
    }
    SaveWeek(s, check.value);
    return Ok(s.weeks[check.value]);
  }

  /** `weekDoc.save()` of the finalized week. */
  method SaveWeek(s: Store, w: Id)
    requires s.Valid() && w in s.weeks
    modifies s
    ensures s.Valid()
    ensures s.State() == FinalizeApplied(old(s.State()), w)
  {
    ghost var d := s.State();
    s.weeks := s.weeks[w := Finalized(s.weeks[w])];
    assert s.State() == FinalizeApplied(d, w);
    FinalizeKeepsValid(d, w);
  }

  // ---------------------------------------------------------------------
  // bulk

  /** One element of the `weeks` array; `None` is an absent field. */
  datatype WeekInput = WeekInput(weekNumber: Option<int>, episodeDate: Option<int>, title: Option<string>)

  /** `weeks.map(...)`: every element's number validated in order, so the
      first out-of-range number decides the message and nothing is
      inserted. */
  function ValidatedWeeks(leagueId: Id, inputs: seq<WeekInput>): (r: Checked<seq<Week>>)
    ensures r.Pass? ==> |r.value| == |inputs|
    ensures r.Pass? <==>
      forall k :: 0 <= k < |inputs| ==> ValidateNumber(inputs[k].weekNumber, 1, 100, "Week number").Pass?
    ensures r.Pass? ==> forall k :: 0 <= k < |inputs| ==>
      r.value[k] == NewWeek(leagueId, inputs[k].weekNumber.value, inputs[k].episodeDate, inputs[k].title)
    decreases |inputs|
  {
    if inputs == [] then Pass([])
    else
      var first := ValidateNumber(inputs[0].weekNumber, 1, 100, "Week number");
      if first.Fail? then Fail(first.message)
      else
        var rest := ValidatedWeeks(leagueId, inputs[1..]);
        assert forall k :: 1 <= k < |inputs| ==> inputs[k] == inputs[1..][k - 1];
        if rest.Fail? then Fail(rest.message)
        else Pass([NewWeek(leagueId, first.value, inputs[0].episodeDate, inputs[0].title)] + rest.value)
  }

  /** The checks of `POST /api/leagues/:leagueId/weeks/bulk` before the
      insert: the admin middleware, a non-empty array (`None`: not an
      array), and every week number in range; on success the records. */
  function BulkCheck(d: Db, uid: Uid, leagueId: Id, weeks: Option<seq<WeekInput>>): (r: Outcome<seq<Week>>)
    ensures !RequireLeagueAdmin(d.leagues, Some(leagueId), uid).Ok?
      ==> r == RequireLeagueAdmin(d.leagues, Some(leagueId), uid).Forward()
    ensures r.Ok? ==>
      (weeks.Some? && weeks.value != [] && ValidatedWeeks(leagueId, weeks.value).Pass?
       && r.value == ValidatedWeeks(leagueId, weeks.value).value)
  {
    var auth := RequireLeagueAdmin(d.leagues, Some(leagueId), uid);
    if !auth.Ok? then auth.Forward()
    else if weeks.None? || weeks.value == [] then BadRequest("Weeks array required")
    else
      var records := ValidatedWeeks(leagueId, weeks.value);
      if records.Fail? then BadRequest(records.message) else Ok(records.value)
  }

  /** The batch reaches the insert exactly for an admin sending a non-empty
      array whose every week number is in 1..100. */
  lemma BulkAccepted(d: Db, uid: Uid, leagueId: Id, weeks: Option<seq<WeekInput>>)
    ensures BulkCheck(d, uid, leagueId, weeks).Ok? <==>
      && leagueId in d.leagues && IsLeagueAdmin(d.leagues[leagueId], uid)
      && weeks.Some? && weeks.value != []
      && forall k :: 0 <= k < |weeks.value| ==>
           weeks.value[k].weekNumber.Some? && 1 <= weeks.value[k].weekNumber.value <= 100
  {
  }

  /** The records of an accepted batch belong to the league and carry
      numbers in 1..100. */
  lemma BulkRecords(d: Db, uid: Uid, leagueId: Id, weeks: Option<seq<WeekInput>>)
    requires BulkCheck(d, uid, leagueId, weeks).Ok?
    ensures var records := BulkCheck(d, uid, leagueId, weeks).value;
      forall k :: 0 <= k < |records| ==> records[k].leagueId == leagueId && 1 <= records[k].weekNumber <= 100
  {
  }

  /** `Week.insertMany(records, { ordered: false })`: record k goes under id
      `start + k` unless its (league, number) is already present, from the
      store or from an earlier record; the ids actually inserted, in order. */
  function BulkInserted(weeks: map<Id, Week>, start: nat, records: seq<Week>): (map<Id, Week>, seq<Id>)
    decreases |records|
  {
    if records == [] then (weeks, [])
    else
      var before := BulkInserted(weeks, start, records[..|records| - 1]);
      var last := records[|records| - 1];
      if Taken(before.0, last.leagueId, last.weekNumber) then before
      else (before.0[start + |records| - 1 := last], before.1 + [start + |records| - 1])
  }

  /** What the insert keeps and adds: old weeks stay, the new keys are
      exactly the inserted ids (all in [start, start + n)), each holding
      its record. */
  lemma {:induction false} BulkInsertedAt(weeks: map<Id, Week>, start: nat, records: seq<Week>)
    requires forall w :: w in weeks ==> w < start
    ensures forall w :: w in weeks ==>
      (w in BulkInserted(weeks, start, records).0 && BulkInserted(weeks, start, records).0[w] == weeks[w])
    ensures forall w :: w in BulkInserted(weeks, start, records).0 <==> w in weeks || w in BulkInserted(weeks, start, records).1
    ensures forall w :: w in BulkInserted(weeks, start, records).1 ==>
      start <= w < start + |records| && BulkInserted(weeks, start, records).0[w] == records[w - start]
    ensures |BulkInserted(weeks, start, records).1| <= |records|
    decreases |records|
  {
    if records != [] {
      var init := records[..|records| - 1];
      BulkInsertedAt(weeks, start, init);
      var before := BulkInserted(weeks, start, init);
      assert forall w :: w in before.1 ==> before.0[w] == init[w - start] == records[w - start];
    }
  }

  /** One more record only adds to what the insert stored. */
  lemma BulkInsertedGrows(weeks: map<Id, Week>, start: nat, records: seq<Week>)
    requires forall w :: w in weeks ==> w < start
    requires records != []
    ensures var before := BulkInserted(weeks, start, records[..|records| - 1]).0;
      forall w :: w in before ==>
        (w in BulkInserted(weeks, start, records).0 && BulkInserted(weeks, start, records).0[w] == before[w])
  {
    BulkInsertedAt(weeks, start, records[..|records| - 1]);
  }

  /** Every record's (league, number) is present after the insert. */
  lemma {:induction false} BulkInsertedCovers(weeks: map<Id, Week>, start: nat, records: seq<Week>)
    requires forall w :: w in weeks ==> w < start
    ensures forall k :: 0 <= k < |records| ==>
      Taken(BulkInserted(weeks, start, records).0, records[k].leagueId, records[k].weekNumber)
    decreases |records|
  {
    if records != [] {
      var init := records[..|records| - 1];
      BulkInsertedCovers(weeks, start, init);
      BulkInsertedGrows(weeks, start, records);
      var m0 := BulkInserted(weeks, start, init).0;
      var m := BulkInserted(weeks, start, records).0;
      var last := records[|records| - 1];
      forall k | 0 <= k < |records|
        ensures Taken(m, records[k].leagueId, records[k].weekNumber)
      {
        if k < |init| {
          assert records[k] == init[k];
          var w :| w in m0 && m0[w].leagueId == init[k].leagueId && m0[w].weekNumber == init[k].weekNumber;
          assert w in m && m[w] == m0[w];
        } else if Taken(m0, last.leagueId, last.weekNumber) {
          var w :| w in m0 && m0[w].leagueId == last.leagueId && m0[w].weekNumber == last.weekNumber;
          assert w in m && m[w] == m0[w];
        } else {
          assert m[start + |init|] == last;
        }
      }
    }
  }

  /** Inserting records whose numbers are all in range keeps every
      invariant: each record is inserted only where its number is free. */
  lemma {:induction false} BulkInsertedUnique(weeks: map<Id, Week>, start: nat, records: seq<Week>)
    requires WeeksOk(weeks)
    requires forall k :: 0 <= k < |records| ==> 1 <= records[k].weekNumber <= 100
    ensures WeeksOk(BulkInserted(weeks, start, records).0)
    decreases |records|
  {
    if records != [] {
      var init := records[..|records| - 1];
      assert forall k :: 0 <= k < |init| ==> init[k] == records[k];
      BulkInsertedUnique(weeks, start, init);
    }
  }

  /** The update of an insert that reached the store. */
  function BulkApplied(d: Db, records: seq<Week>): Db {
    d.(weeks := BulkInserted(d.weeks, d.nextId, records).0, nextId := d.nextId + |records|)
  }

  lemma BulkKeepsValid(d: Db, records: seq<Week>)
    requires d.Valid() && forall k :: 0 <= k < |records| ==> 1 <= records[k].weekNumber <= 100
    ensures BulkApplied(d, records).Valid()
  {
    var d' := BulkApplied(d, records);
    BulkInsertedAt(d.weeks, d.nextId, records);
    BulkInsertedUnique(d.weeks, d.nextId, records);
    assert forall w :: w in d'.weeks ==> w < d'.nextId;
    assert InvitesOk(d.invites, d.teams, d'.nextId) by {
      forall c | c in d.invites
        ensures InviteOk(c, d.invites[c], d.teams, d'.nextId)
      {
        assert InviteOk(c, d.invites[c], d.teams, d.nextId);
      }
    }
  }

  /** Every record is inserted exactly when none of the records' numbers is
      taken in the league already and no number repeats in the batch. */
  lemma {:induction false} BulkAllInserted(weeks: map<Id, Week>, start: nat, leagueId: Id, records: seq<Week>)
    requires forall w :: w in weeks ==> w < start
    requires forall k :: 0 <= k < |records| ==> records[k].leagueId == leagueId
    ensures |BulkInserted(weeks, start, records).1| == |records| <==>
      && (forall k :: 0 <= k < |records| ==> !Taken(weeks, leagueId, records[k].weekNumber))
      && (forall i, j :: 0 <= i < j < |records| ==> records[i].weekNumber != records[j].weekNumber)
    decreases |records|
  {
    if records != [] {
      var init := records[..|records| - 1];
      assert forall k :: 0 <= k < |init| ==> init[k] == records[k];
      BulkAllInserted(weeks, start, leagueId, init);
      BulkInsertedAt(weeks, start, init);
      var before := BulkInserted(weeks, start, init);
      var last := records[|records| - 1];
      assert last.leagueId == leagueId;
      if |before.1| == |init| {
        AllInsertedTaken(weeks, start, leagueId, init, last.weekNumber);
        assert Taken(before.0, leagueId, last.weekNumber) <==>
          Taken(weeks, leagueId, last.weekNumber) || exists k :: 0 <= k < |init| && init[k].weekNumber == last.weekNumber;
      }
    }
  }

  /** When every record went in, the league's numbers afterwards are the old
      ones and the records'. */
  lemma AllInsertedTaken(weeks: map<Id, Week>, start: nat, leagueId: Id, records: seq<Week>, n: int)
    requires forall w :: w in weeks ==> w < start
    requires forall k :: 0 <= k < |records| ==> records[k].leagueId == leagueId
    requires |BulkInserted(weeks, start, records).1| == |records|
    ensures Taken(BulkInserted(weeks, start, records).0, leagueId, n) <==>
      Taken(weeks, leagueId, n) || exists k :: 0 <= k < |records| && records[k].weekNumber == n
  {
    BulkInsertedAt(weeks, start, records);
    var m := BulkInserted(weeks, start, records).0;
    if Taken(m, leagueId, n) {
      var w :| w in m && m[w].leagueId == leagueId && m[w].weekNumber == n;
      if w !in weeks {
        assert records[w - start].weekNumber == n;
      }
    }
    if exists k :: 0 <= k < |records| && records[k].weekNumber == n {
      var k :| 0 <= k < |records| && records[k].weekNumber == n;
      BulkInsertedCovers(weeks, start, records);
      assert Taken(m, records[k].leagueId, records[k].weekNumber);
    }
  }

  /** The response of a bulk create: its message and the created weeks' ids. */
  datatype BulkReply = BulkReply(message: string, weeks: seq<Id>)

  /** The error `insertMany` raises once any record hit the unique index;
      the records without a clash are inserted all the same. */
  function DuplicateKeyMessage(): string {
    "E11000 duplicate key error"
  }

  /** `POST /api/leagues/:leagueId/weeks/bulk`: a refused batch changes
      nothing; an accepted one inserts every record whose number is free,
      answering 201 when all went in and 400 otherwise. */
  method BulkCreate(s: Store, uid: Uid, leagueId: Id, weeks: Option<seq<WeekInput>>) returns (o: Outcome<BulkReply>)
    requires s.Valid()
    modifies s
    ensures s.Valid()
    ensures var c := BulkCheck(old(s.State()), uid, leagueId, weeks);
      && (!c.Ok? ==> o == c.Forward() && s.State() == old(s.State()))
      && (c.Ok? ==> s.State() == BulkApplied(old(s.State()), c.value))
      && (c.Ok? ==> o == BulkAnswer(c.value, BulkInserted(old(s.weeks), old(s.nextId), c.value).1))
  {
    var check := BulkCheck(s.State(), uid, leagueId, weeks);
    if !check.Ok? {
      return check.Forward();
    }
    BulkRecords(s.State(), uid, leagueId, weeks);
    o := AcceptBatch(s, check.value);
  }

  /** The accepted path: the records go in and the answer follows. */
  method AcceptBatch(s: Store, records: seq<Week>) returns (o: Outcome<BulkReply>)
    requires s.Valid() && forall k :: 0 <= k < |records| ==> 1 <= records[k].weekNumber <= 100
    modifies s
    ensures s.Valid()
    ensures s.State() == BulkApplied(old(s.State()), records)
    ensures o == BulkAnswer(records, BulkInserted(old(s.weeks), old(s.nextId), records).1)
  {
    BulkKeepsValid(s.State(), records);
    var ids := InsertWeeks(s, records);
    o := BulkAnswer(records, ids);
  }

  /** The answer once `insertMany` is done: 201 with the count and the ids
      when every record went in, otherwise the duplicate-key error. */
  function BulkAnswer(records: seq<Week>, ids: seq<Id>): (o: Outcome<BulkReply>)
    ensures o.Ok? <==> |ids| == |records|
    ensures o.Ok? ==> o.value.weeks == ids
  {
    if |ids| == |records| then Ok(BulkReply(IntString(|ids|) + " weeks created", ids))
    else BadRequest(DuplicateKeyMessage())
  }

  /** `Week.insertMany(records, { ordered: false })`. */
  method InsertWeeks(s: Store, records: seq<Week>) returns (ids: seq<Id>)
    requires BulkApplied(s.State(), records).Valid()
    modifies s
    ensures s.Valid()
    ensures s.State() == BulkApplied(old(s.State()), records)
    ensures ids == BulkInserted(old(s.weeks), old(s.nextId), records).1
  {
    ghost var d := s.State();
    var inserted := BulkInserted(s.weeks, s.nextId, records);
    s.weeks := inserted.0;
    s.nextId := s.nextId + |records|;
    ids := inserted.1;
    assert s.State() == BulkApplied(d, records);
  }

  /** After an accepted batch every number in it is a week of the league,
      whether inserted now or present before. */
  lemma BulkCovers(d: Db, uid: Uid, leagueId: Id, weeks: Option<seq<WeekInput>>)
    requires d.Valid() && BulkCheck(d, uid, leagueId, weeks).Ok?
    ensures var records := BulkCheck(d, uid, leagueId, weeks).value;
      var d' := BulkApplied(d, records);
      forall k :: 0 <= k < |weeks.value| ==> Taken(d'.weeks, leagueId, weeks.value[k].weekNumber.value)
  {
    var records := BulkCheck(d, uid, leagueId, weeks).value;
    assert forall w :: w in d.weeks ==> w < d.nextId;
    BulkInsertedCovers(d.weeks, d.nextId, records);
  }

  /** An accepted batch is answered 201 exactly when none of its numbers is
      taken in the league and no number repeats. */
  lemma BulkCreatedIff(d: Db, uid: Uid, leagueId: Id, weeks: Option<seq<WeekInput>>)
    requires d.Valid() && BulkCheck(d, uid, leagueId, weeks).Ok?
    ensures var records := BulkCheck(d, uid, leagueId, weeks).value;
      |BulkInserted(d.weeks, d.nextId, records).1| == |records| <==>
        && (forall k :: 0 <= k < |weeks.value| ==> !Taken(d.weeks, leagueId, weeks.value[k].weekNumber.value))
        && (forall i, j :: 0 <= i < j < |weeks.value| ==>
              weeks.value[i].weekNumber.value != weeks.value[j].weekNumber.value)
  {
    var records := BulkCheck(d, uid, leagueId, weeks).value;
    BulkAllInserted(d.weeks, d.nextId, leagueId, records);
  }
}
