/** server/src/lib/utils.js: snake-draft arithmetic, the Fisher-Yates shuffle
    and invite-code generation. `Math.random` is replaced by an injected
    source `rand`: `rand(k)` is the k-th draw, and a draw used to pick an
    index in `[0, m)` is reduced to `rand(k) % m`, which is what
    `Math.floor(Math.random() * m)` yields. */
module Utils {
  import opened Text

  /** `calculateSnakeDraftOrder(pickNumber, totalTeams)`: the 0-based index,
      in the teams ordered by draft order, of the team that makes the
      1-based pick `pickNumber`. Even rounds run forward, odd rounds back. */
  function SnakeIndex(pickNumber: int, totalTeams: int): (index: int)
    requires pickNumber >= 1 && totalTeams >= 1
    ensures 0 <= index < totalTeams
  {
    var round := (pickNumber - 1) / totalTeams;
    var positionInRound := (pickNumber - 1) % totalTeams;
    if round % 2 == 0 then positionInRound else totalTeams - 1 - positionInRound
  }

  /** Euclidean division is determined by quotient and remainder. */
  lemma DivModUnique(a: int, n: int, q: int, m: int)
    requires n >= 1 && 0 <= m < n && a == q * n + m
    ensures a / n == q && a % n == m
  {
    var q', m' := a / n, a % n;
    assert q' * n + m' == a;
    MulDistance(q', q, n);
  }

  lemma {:induction false} MulAtLeast(d: int, n: int)
    requires d >= 1 && n >= 1
    ensures d * n >= n
  {
    if d > 1 {
      MulAtLeast(d - 1, n);
      assert d * n == (d - 1) * n + n;
    }
  }

  lemma MulDistance(x: int, y: int, n: int)
    requires n >= 1
    ensures x == y || x * n - y * n >= n || y * n - x * n >= n
  {
    if x > y {
      MulAtLeast(x - y, n);
      assert (x - y) * n == x * n - y * n;
    } else if x < y {
      MulAtLeast(y - x, n);
      assert (y - x) * n == y * n - x * n;
    }
  }

  /** The pick made at position `j` of round `r` (both 0-based). */
  lemma SnakeInRound(r: nat, j: nat, n: int)
    requires n >= 1 && j < n
    ensures SnakeIndex(r * n + j + 1, n) == if r % 2 == 0 then j else n - 1 - j
  {
    DivModUnique(r * n + j, n, r, j);
  }

  /** Round 0 runs forward: picks 1..n go to teams 0..n-1. */
  lemma SnakeFirstRound(p: int, n: int)
    requires n >= 1 && 1 <= p <= n
    ensures SnakeIndex(p, n) == p - 1
  {
    SnakeInRound(0, p - 1, n);
  }

  /** Round 1 runs backward: pick n+1 goes to team n-1, pick 2n to team 0. */
  lemma SnakeSecondRound(p: int, n: int)
    requires n >= 1 && n + 1 <= p <= 2 * n
    ensures SnakeIndex(p, n) == 2 * n - p
  {
    SnakeInRound(1, p - n - 1, n);
  }

  /** Every odd round runs backward. */
  lemma SnakeOddRound(r: nat, j: nat, n: int)
    requires n >= 1 && j < n && r % 2 == 1
    ensures SnakeIndex(r * n + j + 1, n) == n - 1 - j
  {
    SnakeInRound(r, j, n);
  }

  /** The team making the pick at position `j` (0-based) of round `r`. */
  function RoundPick(r: nat, j: nat, n: int): int
    requires n >= 1
  {
    SnakeIndex(r * n + j + 1, n)
  }

  /** The position in round `r` at which team `t` picks. */
  function RoundSlot(r: nat, t: int, n: int): nat
    requires 0 <= t < n
  {
    if r % 2 == 0 then t else n - 1 - t
  }

  /** Each round's n picks go to n different teams, and every team gets one
      (at `RoundSlot`): each team picks exactly once per round. */
  lemma SnakeRoundIsPermutation(r: nat, n: int)
    requires n >= 1
    ensures forall j: nat, k: nat :: j < k < n ==> RoundPick(r, j, n) != RoundPick(r, k, n)
    ensures forall t :: 0 <= t < n ==> RoundSlot(r, t, n) < n && RoundPick(r, RoundSlot(r, t, n), n) == t
  {
    forall j: nat, k: nat | j < k < n
      ensures RoundPick(r, j, n) != RoundPick(r, k, n)
    {
      SnakeInRound(r, j, n);
      SnakeInRound(r, k, n);
    }
    forall t | 0 <= t < n
      ensures RoundSlot(r, t, n) < n && RoundPick(r, RoundSlot(r, t, n), n) == t
    {
      SnakeInRound(r, RoundSlot(r, t, n), n);
    }
  }

  /** The team with the last pick of a round also has the first pick of the
      next one. */
  lemma SnakeTurnaround(k: int, n: int)
    requires n >= 1 && k >= 1
    ensures SnakeIndex(k * n, n) == SnakeIndex(k * n + 1, n)
  {
    SnakeInRound(k - 1, n - 1, n);
    SnakeInRound(k, 0, n);
    assert (k - 1) * n + (n - 1) + 1 == k * n;
  }

  /** The pick order repeats every two rounds. */
  lemma SnakePeriodic(p: int, n: int)
    requires n >= 1 && p >= 1
    ensures SnakeIndex(p + 2 * n, n) == SnakeIndex(p, n)
  {
    var r, j := (p - 1) / n, (p - 1) % n;
    DivModUnique(p - 1 + 2 * n, n, r + 2, j);
  }

  /** The number of the picks 1..k that go to team t. */
  function PicksOf(t: int, k: nat, n: int): nat
    requires n >= 1
  {
    if k == 0 then 0 else PicksOf(t, k - 1, n) + (if SnakeIndex(k, n) == t then 1 else 0)
  }

  /** Within round r, the first m picks give team t one more pick exactly
      when t picks at one of the first m positions of the round. */
  lemma {:induction false} PicksWithinRound(t: int, r: nat, m: nat, n: int)
    requires n >= 1 && 0 <= t < n && m <= n
    ensures PicksOf(t, r * n + m, n) == PicksOf(t, r * n, n) + (if RoundSlot(r, t, n) < m then 1 else 0)
  {
    if m > 0 {
      var b := r * n;
      assert r * n >= 0;
      PicksWithinRound(t, r, m - 1, n);
      SnakeInRound(r, m - 1, n);
      var idx := SnakeIndex(b + m, n);
      assert idx == if r % 2 == 0 then m - 1 else n - m;
      assert PicksOf(t, b + m, n) == PicksOf(t, b + m - 1, n) + (if idx == t then 1 else 0);
    }
  }

  /** After r complete rounds each team has made r picks. */
  lemma {:induction false} PicksAfterRounds(t: int, r: nat, n: int)
    requires n >= 1 && 0 <= t < n
    ensures PicksOf(t, r * n, n) == r
  {
    if r > 0 {
      PicksAfterRounds(t, r - 1, n);
      PicksWithinRound(t, r - 1, n, n);
      assert (r - 1) * n + n == r * n;
    }
  }

  /** Part-way through round r (m of its picks made), each team has r picks
      plus one if it has already picked in this round: the first m teams of
      a forward round, the last m of a backward one. */
  lemma PicksDuringRound(t: int, r: nat, m: nat, n: int)
    requires n >= 1 && 0 <= t < n && m <= n
    ensures PicksOf(t, r * n + m, n)
         == r + (if (if r % 2 == 0 then t < m else n - 1 - t < m) then 1 else 0)
  {
    PicksAfterRounds(t, r, n);
    PicksWithinRound(t, r, m, n);
  }

  /** Snake order is fair: at any point in the draft, any two teams have made
      numbers of picks that differ by at most one, and after r complete
      rounds every team has made exactly r. */
  lemma SnakeFairness(t1: int, t2: int, k: nat, n: int)
    requires n >= 1 && 0 <= t1 < n && 0 <= t2 < n
    ensures -1 <= PicksOf(t1, k, n) - PicksOf(t2, k, n) <= 1
    ensures k % n == 0 ==> PicksOf(t1, k, n) == k / n
  {
    var r, m := k / n, k % n;
    assert k == r * n + m;
    PicksDuringRound(t1, r, m, n);
    PicksDuringRound(t2, r, m, n);
  }

  /** `shuffleArray(array)`: Fisher-Yates over a copy of the input. For i from
      the last index down to 1, position i is swapped with an index drawn
      from [0, i]; the draw for index i is `rand(length - 1 - i)`. The input
      array is not modified (it is outside the method's frame). */
  method ShuffleArray<T>(items: array<T>, rand: nat -> nat) returns (shuffled: array<T>)
    ensures fresh(shuffled)
    ensures shuffled.Length == items.Length
    ensures multiset(shuffled[..]) == multiset(items[..])
  {
    shuffled := new T[items.Length](k reads items requires 0 <= k < items.Length => items[k]);
    assert shuffled[..] == items[..];
    var i := shuffled.Length - 1;
    while i > 0
      invariant -1 <= i < shuffled.Length
      invariant multiset(shuffled[..]) == multiset(items[..])
    {
      var j := rand(shuffled.Length - 1 - i) % (i + 1);
      shuffled[i], shuffled[j] := shuffled[j], shuffled[i];
      i := i - 1;
    }
  }

  /** `chars` in `generateInviteCode`. */
  const CodeAlphabet: string := "ABCDEFGHIJKLMNOPQRSTUVWXYZ0123456789"

  /** The default length of an invite code. */
  function DefaultCodeLength(): nat { 8 }

  lemma CodeAlphabetChars()
    ensures |CodeAlphabet| == 36
    ensures forall k :: 0 <= k < |CodeAlphabet| ==> IsCodeChar(CodeAlphabet[k])
  {
  }

  /** The code `generateInviteCode(length)` builds when the k-th random
      draw is `rand(k)`: character k is the alphabet's `rand(k) % 36`-th. */
  function DrawnCode(rand: nat -> nat, length: nat): (code: string)
    ensures |code| == length
    ensures AllCodeChars(code)
  {
    CodeAlphabetChars();
    if length == 0 then "" else DrawnCode(rand, length - 1) + [CodeAlphabet[rand(length - 1) % |CodeAlphabet|]]
  }

  /** Character k of a drawn code is chosen by the k-th draw alone. */
  lemma {:induction false} DrawnCodeChars(rand: nat -> nat, length: nat)
    ensures forall k :: 0 <= k < length ==> DrawnCode(rand, length)[k] == CodeAlphabet[rand(k) % |CodeAlphabet|]
  {
    if length > 0 {
      DrawnCodeChars(rand, length - 1);
      var prefix := DrawnCode(rand, length - 1);
      var c := CodeAlphabet[rand(length - 1) % |CodeAlphabet|];
      assert DrawnCode(rand, length) == prefix + [c];
      forall k | 0 <= k < length
        ensures DrawnCode(rand, length)[k] == CodeAlphabet[rand(k) % |CodeAlphabet|]
      {
        if k < length - 1 {
          assert DrawnCode(rand, length)[k] == prefix[k];
        }
      }
    }
  }

  /** `generateInviteCode(length)`: appends `length` drawn characters. */
  method GenerateInviteCode(rand: nat -> nat, length: nat := DefaultCodeLength()) returns (code: string)
    ensures code == DrawnCode(rand, length)
  {
    code := "";
    for i := 0 to length
      invariant code == DrawnCode(rand, i)
    {
      code := code + [CodeAlphabet[rand(i) % |CodeAlphabet|]];
    }
  }
}
