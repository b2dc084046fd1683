// Dice rolling, the readiness test, and the pure parts of persistence:
// the document `saveGame` writes and the filter `getUserLobbies` applies
// (src/lib/gameUtils.ts).

module GameUtils {
  import opened Types
  import opened Text

  // ---------------------------------------------------------------- readiness

  /** `party.every(p => p.isReady)` */
  function EveryReady(party: seq<Character>): (r: bool)
    ensures r <==> forall i :: 0 <= i < |party| ==> party[i].isReady
  {
    if |party| == 0 then true
    else party[0].isReady && EveryReady(party[1..])
  }

  /** `checkAllPlayersReady`: an empty party is never ready. */
  function CheckAllPlayersReady(party: seq<Character>): (r: bool)
    ensures r <==> |party| > 0 && forall i :: 0 <= i < |party| ==> party[i].isReady
  {
    if |party| == 0 then false else EveryReady(party)
  }

  // ---------------------------------------------------------------- dice

  /** The parts of a `/(\d+)d(\d+)([+-]\d+)?/` match, already passed through `parseInt`. */
  datatype DiceFormula = DiceFormula(count: nat, sides: nat, modifier: Option<int>) {
    /** `match[3] ? parseInt(match[3], 10) : 0` */
    function Modifier(): int {
      modifier.GetOr(0)
    }
  }

  /** End of the longest run of digits that starts at `i`. */
  function DigitsEnd(s: string, i: nat): (r: nat)
    requires i <= |s|
    ensures i <= r <= |s|
    ensures forall k :: i <= k < r ==> IsDigit(s[k])
    ensures r < |s| ==> !IsDigit(s[r])
    decreases |s| - i
  {
    if i < |s| && IsDigit(s[i]) then DigitsEnd(s, i + 1) else i
  }

  /**
   * The regular expression anchored at `i`. A shorter digit run never helps the
   * backtracking matcher (the next character would be a digit, not `d` or a
   * sign), so the greedy runs are the only candidates.
   */
  function MatchDiceAt(s: string, i: nat): Option<DiceFormula>
    requires i <= |s|
  {
    var e1 := DigitsEnd(s, i);
    if e1 == i || e1 == |s| || s[e1] != 'd' then None
    else
      var e2 := DigitsEnd(s, e1 + 1);
      if e2 == e1 + 1 then None
      else
        var count := ParseDigits(s[i..e1]);
        var sides := ParseDigits(s[e1 + 1..e2]);
        if e2 < |s| && (s[e2] == '+' || s[e2] == '-') && DigitsEnd(s, e2 + 1) > e2 + 1 then
          var m: int := ParseDigits(s[e2 + 1..DigitsEnd(s, e2 + 1)]);
          Some(DiceFormula(count, sides, Some(if s[e2] == '+' then m else -m)))
        else
          Some(DiceFormula(count, sides, None))
  }

  /** `dice.match(regex)`: the leftmost match at or after `i`. */
  function FindDice(s: string, i: nat): (r: Option<DiceFormula>)
    requires i <= |s|
    ensures r.None? ==> forall k :: i <= k <= |s| ==> MatchDiceAt(s, k).None?
    ensures r.Some? ==>
      exists k :: i <= k <= |s| && MatchDiceAt(s, k) == r && (forall j :: i <= j < k ==> MatchDiceAt(s, j).None?)
    decreases |s| - i
  {
    if MatchDiceAt(s, i).Some? then MatchDiceAt(s, i)
    else if i == |s| then None
    else FindDice(s, i + 1)
  }

  function ParseDice(s: string): Option<DiceFormula> {
    FindDice(s, 0)
  }

  /** One supplied draw per die, or one draw for the d20 fallback. */
  function DrawsNeeded(dice: string): nat {
    match ParseDice(dice)
    case None => 1
    case Some(f) => f.count
  }

  /** Sum of the draws, accumulated left to right. */
  function Sum(s: seq<int>): int {
    if |s| == 0 then 0 else Sum(s[..|s| - 1]) + s[|s| - 1]
  }

  function RollStrings(rolls: seq<int>): (r: seq<string>)
    ensures |r| == |rolls|
    ensures forall i :: 0 <= i < |rolls| ==> r[i] == IntToString(rolls[i])
  {
    seq(|rolls|, i requires 0 <= i < |rolls| => IntToString(rolls[i]))
  }

  /** The text after a non-zero modifier: `+M` when positive, `-M` when negative. */
  function ModifierSuffix(m: int): string {
    if m == 0 then "" else if m > 0 then "+" + IntToString(m) else IntToString(m)
  }

  /** `` `[${rolls.join('+')}]${suffix}` `` */
  function DetailStr(rolls: seq<int>, m: int): string {
    "[" + Join(RollStrings(rolls), "+") + "]" + ModifierSuffix(m)
  }

  /** The total `rollDice` returns for the supplied draws. */
  function RollTotal(dice: string, draws: seq<int>): int
    requires |draws| >= DrawsNeeded(dice)
  {
    match ParseDice(dice)
    case None => draws[0]
    case Some(f) => Sum(draws[..f.count]) + f.Modifier()
  }

  /** The details text `rollDice` returns for the supplied draws. */
  function RollDetails(dice: string, draws: seq<int>): string
    requires |draws| >= DrawsNeeded(dice)
  {
    match ParseDice(dice)
    case None => "d20 (" + IntToString(draws[0]) + ")"
    case Some(f) => dice + " -> " + DetailStr(draws[..f.count], f.Modifier())
  }

  /**
   * `rollDice(dice)`, with the i-th die's face taken from `draws[i]` in place
   * of `Math.floor(Math.random() * sides) + 1`.
   */
  method RollDice(dice: string, draws: seq<int>) returns (total: int, details: string)
    requires |draws| >= DrawsNeeded(dice)
    ensures total == RollTotal(dice, draws)
    ensures details == RollDetails(dice, draws)
  {
    var match_ := ParseDice(dice);
    if match_.None? {
      var val := draws[0];
      return val, "d20 (" + IntToString(val) + ")";
    }
    var count := match_.value.count;
    var modifier := match_.value.Modifier();
    total := 0;
    var rolls: seq<int> := [];
    var i := 0;
    while i < count
      invariant 0 <= i <= count
      invariant rolls == draws[..i]
      invariant total == Sum(rolls)
    {
      var roll := draws[i];
      rolls := rolls + [roll];
      total := total + roll;
      i := i + 1;
      assert rolls[..|rolls| - 1] == draws[..i - 1];
    }
    total := total + modifier;
    details := dice + " -> " + DetailStr(rolls, modifier);
  }

  lemma {:induction false} SumBounds(s: seq<int>, lo: int, hi: int)
    requires forall i :: 0 <= i < |s| ==> lo <= s[i] <= hi
    ensures |s| * lo <= Sum(s) <= |s| * hi
  {
    if |s| > 0 {
      SumBounds(s[..|s| - 1], lo, hi);
      assert (|s| - 1) * lo + lo == |s| * lo;
      assert (|s| - 1) * hi + hi == |s| * hi;
    }
  }

  /** With every face in [1, S], an `NdS±M` roll totals between N+M and N·S+M. */
  lemma RollWithinBounds(dice: string, draws: seq<int>)
    requires ParseDice(dice).Some?
    requires |draws| >= DrawsNeeded(dice)
    requires forall i :: 0 <= i < ParseDice(dice).value.count ==> 1 <= draws[i] <= ParseDice(dice).value.sides
    ensures var f := ParseDice(dice).value;
      f.count + f.Modifier() <= RollTotal(dice, draws) <= f.count * f.sides + f.Modifier()
  {
    var f := ParseDice(dice).value;
    SumBounds(draws[..f.count], 1, f.sides);
  }

  /** Without an `NdS` substring the roll is one d20 face, shown as `d20 (v)`. */
  lemma FallbackIsOneD20(dice: string, draws: seq<int>)
    requires ParseDice(dice).None?
    requires |draws| >= 1 && 1 <= draws[0] <= 20
    ensures 1 <= RollTotal(dice, draws) <= 20
    ensures RollDetails(dice, draws) == "d20 (" + IntToString(RollTotal(dice, draws)) + ")"
  {
  }

  lemma IntToStringHasNoPlus(i: int)
    ensures forall k :: 0 <= k < |IntToString(i)| ==> IntToString(i)[k] != '+'
  {
  }

  /** The bracketed list in the details splits back into exactly one number per die. */
  lemma DetailsListEveryDraw(rolls: seq<int>)
    requires |rolls| >= 1
    ensures Split(Join(RollStrings(rolls), "+"), '+') == RollStrings(rolls)
    ensures |Split(Join(RollStrings(rolls), "+"), '+')| == |rolls|
  {
    var xs := RollStrings(rolls);
    forall i | 0 <= i < |xs| ensures forall k :: 0 <= k < |xs[i]| ==> xs[i][k] != '+' {
      IntToStringHasNoPlus(rolls[i]);
    }
    assert "+" == ['+'];
    SplitJoin(xs, '+');
  }

  /** `rollDice("2d6+3")` totals between 5 and 15 whatever faces in [1, 6] come up. */
  lemma TwoD6PlusThree(draws: seq<int>)
    requires |draws| >= 2 && 1 <= draws[0] <= 6 && 1 <= draws[1] <= 6
    ensures ParseDice("2d6+3") == Some(DiceFormula(2, 6, Some(3)))
    ensures 5 <= RollTotal("2d6+3", draws) <= 15
  {
    var s := "2d6+3";
    assert DigitsEnd(s, 4) == 5;
    assert DigitsEnd(s, 3) == 3;
    assert DigitsEnd(s, 2) == 3;
    assert DigitsEnd(s, 0) == 1;
    assert s[0..1] == "2" && s[2..3] == "6" && s[4..5] == "3";
    assert MatchDiceAt(s, 0) == Some(DiceFormula(2, 6, Some(3)));
    RollWithinBounds(s, draws);
  }

  // ---------------------------------------------------------------- persistence

  /** Messages kept by every save. */
  const HistoryLimit: nat := 100

  /** `s.slice(-n)` for n > 0: the last min(n, |s|) elements. */
  function LastN(s: seq<Message>, n: nat): (r: seq<Message>)
    requires n > 0
    ensures |r| == if |s| < n then |s| else n
    ensures r == s[|s| - |r|..]
  {
    if |s| <= n then s else s[|s| - n..]
  }

  lemma LastNIdempotent(s: seq<Message>, n: nat)
    requires n > 0
    ensures LastN(LastN(s, n), n) == LastN(s, n)
  {
  }

  /** The stored `game_state` of a lobby. */
  datatype Document = Document(party: seq<Character>, messages: seq<Message>, timestamp: int)

  /** The document `saveGame` upserts; `now` stands for `Date.now()`. */
  function SaveDocument(party: seq<Character>, messages: seq<Message>, now: int): (d: Document)
    ensures d.party == party && d.timestamp == now
    ensures |d.messages| == if |messages| < HistoryLimit then |messages| else HistoryLimit
    ensures d.messages == messages[|messages| - |d.messages|..]
  {
    Document(party, LastN(messages, HistoryLimit), now)
  }

  /** Saving an already saved document again keeps the same messages. */
  lemma {:induction false} SaveDocumentStable(party: seq<Character>, messages: seq<Message>, now: int, later: int)
    ensures var d := SaveDocument(party, messages, now);
      SaveDocument(d.party, d.messages, later).messages == d.messages
  {
    LastNIdempotent(messages, HistoryLimit);
  }

  /** A lobby row as `getUserLobbies` selects it; `party` is None unless `game_state.party` is an array. */
  datatype LobbyRow = LobbyRow(id: string, party: Option<seq<Character>>, updatedAt: string)

  predicate IsUserLobby(row: LobbyRow, userEmail: string) {
    row.party.Some? && exists i :: 0 <= i < |row.party.value| && row.party.value[i].ownerEmail == userEmail
  }

  /** The client-side filter of `getUserLobbies`. */
  function UserLobbies(rows: seq<LobbyRow>, userEmail: string): (r: seq<LobbyRow>)
    ensures |r| <= |rows|
    ensures forall x :: x in r ==> x in rows && IsUserLobby(x, userEmail)
    ensures forall x :: x in rows && IsUserLobby(x, userEmail) ==> x in r
  {
    if |rows| == 0 then []
    else if IsUserLobby(rows[0], userEmail) then [rows[0]] + UserLobbies(rows[1..], userEmail)
    else UserLobbies(rows[1..], userEmail)
  }

  /** The filter keeps the original order: it distributes over concatenation. */
  lemma {:induction false} UserLobbiesAppend(a: seq<LobbyRow>, b: seq<LobbyRow>, userEmail: string)
    ensures UserLobbies(a + b, userEmail) == UserLobbies(a, userEmail) + UserLobbies(b, userEmail)
  {
    if |a| == 0 {
      assert a + b == b;
    } else {
      assert (a + b)[1..] == a[1..] + b;
      UserLobbiesAppend(a[1..], b, userEmail);
    }
  }
}
