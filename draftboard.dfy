/** web/src/components/DraftBoard.jsx: the table the draft board renders
    from a draft status report. One column per team in the report's order;
    one row per round, as many rounds as the longest roster (at least one);
    odd rounds list the teams in order and even rounds reversed, the snake
    order of `calculateSnakeDraftOrder`; each cell shows the team's pick of
    that round or a placeholder. */
module DraftBoard {
  import opened Outcomes
  import opened Ordering
  import opened Models
  import opened Utils

  /** A team of the report: its id and, when present, its populated
      roster; a roster entry is `None` where the player no longer exists. */
  datatype BoardTeam = BoardTeam(id: Id, players: Option<seq<Option<Id>>>)

  /** A cell: the column's team and the player shown, `None` for the
      placeholder. */
  datatype BoardCell = BoardCell(team: Id, player: Option<Id>)

  /** A row: its 1-based round and one cell per team. */
  datatype BoardRow = BoardRow(round: nat, cells: seq<BoardCell>)

  /** `t.players?.length || 0`. */
  function RosterLength(t: BoardTeam): nat {
    if t.players.Some? then |t.players.value| else 0
  }

  /** `Math.max(...teams.map(t => t.players?.length || 0))` over a
      non-empty team list. */
  function MaxPicks(teams: seq<BoardTeam>): (r: nat)
    ensures forall k :: 0 <= k < |teams| ==> RosterLength(teams[k]) <= r
    ensures teams == [] ==> r == 0
  {
    if teams == [] then 0
    else
      var rest := MaxPicks(teams[1..]);
      assert forall k :: 1 <= k < |teams| ==> teams[k] == teams[1..][k - 1];
      if RosterLength(teams[0]) >= rest then RosterLength(teams[0]) else rest
  }

  /** The maximum is some team's roster length. */
  lemma {:induction false} MaxPicksAttained(teams: seq<BoardTeam>)
    requires teams != []
    ensures exists k :: 0 <= k < |teams| && RosterLength(teams[k]) == MaxPicks(teams)
  {
    if RosterLength(teams[0]) < MaxPicks(teams) {
      MaxPicksAttained(teams[1..]);
      var k :| 0 <= k < |teams[1..]| && RosterLength(teams[1..][k]) == MaxPicks(teams[1..]);
      assert RosterLength(teams[k + 1]) == MaxPicks(teams);
    }
  }

  /** `maxPicks || 1`: the number of rows. */
  function RoundCount(teams: seq<BoardTeam>): nat {
    var m := MaxPicks(teams);
    if m == 0 then 1 else m
  }

  /** `round % 2 === 0 ? [...teams].reverse() : teams`: a reversed copy,
      the report's list itself staying as it is. */
  function OrderedTeams(teams: seq<BoardTeam>, round: nat): (r: seq<BoardTeam>)
    ensures |r| == |teams|
  {
    if round % 2 == 0 then Reverse(teams) else teams
  }

  /** `team.players?.[round - 1]`, shown when truthy. */
  function CellOf(t: BoardTeam, round: nat): BoardCell
    requires round >= 1
  {
    BoardCell(t.id, if t.players.Some? && round - 1 < |t.players.value| then t.players.value[round - 1] else None)
  }

  /** One cell per team, in the given order. */
  function Cells(ordered: seq<BoardTeam>, round: nat): (r: seq<BoardCell>)
    requires round >= 1
    ensures |r| == |ordered|
    ensures forall k :: 0 <= k < |ordered| ==> r[k] == CellOf(ordered[k], round)
  {
    if ordered == [] then []
    else
      var rest := Cells(ordered[1..], round);
      assert forall k :: 1 <= k < |ordered| ==> ordered[k] == ordered[1..][k - 1];
      [CellOf(ordered[0], round)] + rest
  }

  function Row(teams: seq<BoardTeam>, round: nat): BoardRow
    requires round >= 1
  {
    BoardRow(round, Cells(OrderedTeams(teams, round), round))
  }

  /** `Array.from({ length: n }, (_, i) => i + 1).map(...)`: rows 1..n. */
  function Rows(teams: seq<BoardTeam>, n: nat): (r: seq<BoardRow>)
    ensures |r| == n
    ensures forall i :: 0 <= i < n ==> r[i] == Row(teams, i + 1)
  {
    if n == 0 then [] else Rows(teams, n - 1) + [Row(teams, n)]
  }

  /** What the board renders: nothing (`No draft data available`) without
      a report or without teams, otherwise its rows. */
  function Board(teams: Option<seq<BoardTeam>>): (r: Option<seq<BoardRow>>)
    ensures r.None? <==> teams.None? || teams.value == []
    ensures r.Some? ==> |r.value| == RoundCount(teams.value)
  {
    if teams.None? || teams.value == [] then None
    else Some(Rows(teams.value, RoundCount(teams.value)))
  }

  /** The row count is the longest roster's length, and 1 when every roster
      is empty: no roster entry is cut off and no row is wholly empty past
      the first. */
  lemma RowCountIsLongestRoster(teams: seq<BoardTeam>)
    requires teams != []
    ensures var n := |Board(Some(teams)).value|;
      && n >= 1
      && (forall k :: 0 <= k < |teams| ==> RosterLength(teams[k]) <= n)
      && ((forall k :: 0 <= k < |teams| ==> RosterLength(teams[k]) == 0) ==> n == 1)
      && ((exists k :: 0 <= k < |teams| && RosterLength(teams[k]) > 0) ==>
            exists k :: 0 <= k < |teams| && RosterLength(teams[k]) == n)
  {
    MaxPicksAttained(teams);
  }

  /** Each row lists every team exactly as often as the report does, odd
      rows in the report's order and even rows reversed. */
  lemma RowIsPermutation(teams: seq<BoardTeam>, round: nat)
    requires round >= 1
    ensures multiset(OrderedTeams(teams, round)) == multiset(teams)
    ensures var row := Row(teams, round).cells;
      forall j :: 0 <= j < |teams| ==>
        row[j].team == (if round % 2 == 1 then teams[j] else teams[|teams| - 1 - j]).id
  {
    ReverseMultiset(teams);
    if round % 2 == 0 {
      assert OrderedTeams(teams, round) == Reverse(teams);
    }
  }

  /** Column j of row r is team `calculateSnakeDraftOrder((r-1)*n + j + 1, n)`:
      the row shows round r's picks in the order they are made. */
  lemma RowFollowsSnakeOrder(teams: seq<BoardTeam>, round: nat, j: nat)
    requires round >= 1 && j < |teams|
    ensures Row(teams, round).cells[j].team == teams[RoundPick(round - 1, j, |teams|)].id
  {
    var n := |teams|;
    var t := SnakeColumn(round, j, n);
    assert OrderedTeams(teams, round)[j] == teams[t];
  }

  /** The team at column j of row `round`, in the report's order. */
  lemma SnakeColumn(round: nat, j: nat, n: nat) returns (t: nat)
    requires round >= 1 && j < n
    ensures t == (if round % 2 == 1 then j else n - 1 - j)
    ensures t == RoundPick(round - 1, j, n)
  {
    SnakeInRound(round - 1, j, n);
    t := if round % 2 == 1 then j else n - 1 - j;
    assert (round - 1) % 2 == 0 <==> round % 2 == 1;
  }

  /** The cell of team t in row r shows `t.players[r-1]`: the placeholder
      exactly where the roster has no such entry or the entry is gone. */
  lemma CellShowsPick(teams: seq<BoardTeam>, round: nat, j: nat)
    requires round >= 1 && j < |teams|
    ensures var t := OrderedTeams(teams, round)[j];
      var cell := Row(teams, round).cells[j];
      && cell.team == t.id
      && (cell.player.Some? <==>
            t.players.Some? && round - 1 < |t.players.value| && t.players.value[round - 1].Some?)
      && (cell.player.Some? ==> cell.player == t.players.value[round - 1])
  {
  }

  /** Every existing player on a roster shows up, on the row of its round,
      in its team's column. */
  lemma EveryPickShown(teams: seq<BoardTeam>, k: nat, i: nat)
    requires k < |teams| && teams[k].players.Some? && i < |teams[k].players.value|
    requires teams[k].players.value[i].Some?
    ensures var rows := Board(Some(teams)).value;
      && i < |rows|
      && exists j :: 0 <= j < |teams| && rows[i].cells[j] == BoardCell(teams[k].id, teams[k].players.value[i])
  {
    var n := RoundCount(teams);
    RoundOfPick(teams, k, i);
    var rows := Rows(teams, n);
    assert Board(Some(teams)).value == rows;
    var j := ColumnOf(teams, i + 1, k);
    assert rows[i].cells[j] == CellOf(teams[k], i + 1);
  }

  /** A roster entry's round is among the board's rows. */
  lemma RoundOfPick(teams: seq<BoardTeam>, k: nat, i: nat)
    requires k < |teams| && i < RosterLength(teams[k])
    ensures i < RoundCount(teams)
  {
  }

  /** Team k has a column in every row: its own in odd rows, the mirrored
      one in even rows. */
  lemma ColumnOf(teams: seq<BoardTeam>, round: nat, k: nat) returns (j: nat)
    requires round >= 1 && k < |teams|
    ensures j < |teams| && Row(teams, round).cells[j] == CellOf(teams[k], round)
  {
    var ordered := OrderedTeams(teams, round);
    if round % 2 == 1 {
      j := k;
    } else {
      j := |teams| - 1 - k;
      assert ordered == Reverse(teams);
    }
    assert ordered[j] == teams[k];
  }
}
