// The point-buy character builder of src/components/CharacterCreator.tsx:
// the score cost table of the point-buy variant of the D&D 5e Player's
// Handbook (chapter 1), the guarded stat changes, the bounded randomiser and
// the character built on submit.

module PointBuy {
  import opened Types
  import opened Text

  const PointBuyTotal: int := 27
  const MinScore: int := 8
  const MaxScore: int := 15

  /** `SCORE_COSTS`: the price of the scores 8, 9, ..., 15. */
  const ScoreCosts: seq<int> := [0, 1, 2, 3, 4, 5, 7, 9]

  /** `SCORE_COSTS[v]`: defined for 8..15 only. */
  function CostTable(v: int): (r: Option<int>)
    ensures r.Some? <==> MinScore <= v <= MaxScore
    ensures r.Some? ==> 0 <= r.value <= 9
  {
    if MinScore <= v <= MaxScore then Some(ScoreCosts[v - MinScore]) else None
  }

  /** `SCORE_COSTS[val] || 0`: a score outside the table costs nothing. */
  function StatCost(v: int): int {
    CostTable(v).GetOr(0)
  }

  /** Within the table a higher score never costs less. */
  lemma CostMonotone(a: int, b: int)
    requires MinScore <= a <= b <= MaxScore
    ensures StatCost(a) <= StatCost(b)
  {
  }

  function SumCosts(vs: seq<int>): int {
    if |vs| == 0 then 0 else SumCosts(vs[..|vs| - 1]) + StatCost(vs[|vs| - 1])
  }

  /** `calculateCost`: the costs of the six scores, added up. */
  function Cost(stats: Stats): int {
    SumCosts(stats.Values())
  }

  function Remaining(stats: Stats): int {
    PointBuyTotal - Cost(stats)
  }

  /** The fold adds up the six table costs. */
  lemma CostExpanded(stats: Stats)
    ensures Cost(stats) == StatCost(stats.str) + StatCost(stats.dex) + StatCost(stats.con)
      + StatCost(stats.intel) + StatCost(stats.wis) + StatCost(stats.cha)
  {
    var Stats(a, b, c, d, e, f) := stats;
    assert SumCosts([a]) == StatCost(a) by { assert [a][..0] == []; }
    assert SumCosts([a, b]) == SumCosts([a]) + StatCost(b) by { assert [a, b][..1] == [a]; }
    assert SumCosts([a, b, c]) == SumCosts([a, b]) + StatCost(c) by { assert [a, b, c][..2] == [a, b]; }
    assert SumCosts([a, b, c, d]) == SumCosts([a, b, c]) + StatCost(d) by {
      assert [a, b, c, d][..3] == [a, b, c];
    }
    assert SumCosts([a, b, c, d, e]) == SumCosts([a, b, c, d]) + StatCost(e) by {
      assert [a, b, c, d, e][..4] == [a, b, c, d];
    }
    assert SumCosts([a, b, c, d, e, f]) == SumCosts([a, b, c, d, e]) + StatCost(f) by {
      assert [a, b, c, d, e, f][..5] == [a, b, c, d, e];
    }
  }

  /** Changing one score changes the cost by exactly the difference of its table entries. */
  lemma CostWith(stats: Stats, s: StatName, v: int)
    ensures Cost(stats.With(s, v)) == Cost(stats) - StatCost(stats.Get(s)) + StatCost(v)
  {
    CostExpanded(stats);
    CostExpanded(stats.With(s, v));
  }

  /** `calculateModifier(v) = Math.floor((v - 10) / 2)`. */
  function Modifier(v: int): (r: int)
    ensures 2 * r <= v - 10 < 2 * r + 2
  {
    (v - 10) / 2
  }

  predicate InRange(stats: Stats) {
    forall s: StatName :: MinScore <= stats.Get(s) <= MaxScore
  }

  /** The builder's invariant: every score in [8, 15] and the budget not overspent. */
  predicate Valid(stats: Stats) {
    InRange(stats) && Remaining(stats) >= 0
  }

  const InitialStats: Stats := Stats(8, 8, 8, 8, 8, 8)

  lemma InitialValid()
    ensures Valid(InitialStats) && Remaining(InitialStats) == PointBuyTotal
  {
    CostExpanded(InitialStats);
  }

  /**
   * `handleStatChange(stat, delta)`: a new score outside [8, 15] is refused, an
   * increase that costs more than what remains is refused, anything else sets
   * the score. A current score outside the table makes the cost difference NaN,
   * which no comparison refuses.
   */
  function StatChange(stats: Stats, stat: StatName, delta: int): (r: Stats)
    ensures var v := stats.Get(stat) + delta;
      !(MinScore <= v <= MaxScore) ==> r == stats
    ensures var v := stats.Get(stat) + delta;
      MinScore <= v <= MaxScore && delta <= 0 ==> r == stats.With(stat, v)
    ensures var v := stats.Get(stat) + delta;
      MinScore <= v <= MaxScore && CostTable(stats.Get(stat)).Some? && delta > 0 ==>
        (r == stats.With(stat, v) <==> Remaining(stats) >= StatCost(v) - StatCost(stats.Get(stat)))
    ensures r == stats || r == stats.With(stat, stats.Get(stat) + delta)
  {
    var current := stats.Get(stat);
    var v := current + delta;
    if v < MinScore || v > MaxScore then stats
    else match CostTable(current)
      case None => stats.With(stat, v)
      case Some(currentCost) =>
        if delta > 0 && Remaining(stats) < StatCost(v) - currentCost then stats
        else stats.With(stat, v)
  }

  /** Every accepted or refused change keeps a valid stat block valid. */
  lemma StatChangeKeepsValid(stats: Stats, stat: StatName, delta: int)
    requires Valid(stats)
    ensures Valid(StatChange(stats, stat, delta))
  {
    var current := stats.Get(stat);
    var v := current + delta;
    var r := StatChange(stats, stat, delta);
    if r != stats {
      CostWith(stats, stat, v);
      if delta <= 0 {
        CostMonotone(v, current);
      }
    }
  }

  /** The builder's history: the stat changes clicked so far, oldest first. */
  function ApplyChanges(stats: Stats, changes: seq<(StatName, int)>): Stats
    decreases |changes|
  {
    if |changes| == 0 then stats
    else ApplyChanges(StatChange(stats, changes[0].0, changes[0].1), changes[1..])
  }

  /** From all 8s, no sequence of clicks leaves [8, 15] or overspends the 27 points. */
  lemma {:induction false} ChangesKeepValid(stats: Stats, changes: seq<(StatName, int)>)
    requires Valid(stats)
    ensures Valid(ApplyChanges(stats, changes))
    decreases |changes|
  {
    if |changes| > 0 {
      StatChangeKeepsValid(stats, changes[0].0, changes[0].1);
      ChangesKeepValid(StatChange(stats, changes[0].0, changes[0].1), changes[1..]);
    }
  }

  lemma AnyClicksFromStartValid(changes: seq<(StatName, int)>)
    ensures Valid(ApplyChanges(InitialStats, changes))
  {
    InitialValid();
    ChangesKeepValid(InitialStats, changes);
  }

  // ---------------------------------------------------------------- randomiser

  const SafetyLimit: nat := 100

  /** One draw of the loop: the stat drawn is raised when it is below 15 and the raise is affordable. */
  function Draw(stats: Stats, remaining: int, s: StatName): (Stats, int) {
    var current := stats.Get(s);
    if current >= MaxScore then (stats, remaining)
    else
      var cost := StatCost(current + 1) - StatCost(current);
      if remaining >= cost then (stats.With(s, current + 1), remaining - cost)
      else (stats, remaining)
  }

  /**
   * The loop of `handleRandomizeStats` from iteration `safety` on, as a
   * function: `pick(i)` is the stat drawn on iteration `i`.
   */
  function RandomizeFrom(stats: Stats, remaining: int, safety: nat, pick: nat -> StatName): Stats
    decreases SafetyLimit - safety
  {
    if remaining <= 0 || safety >= SafetyLimit then stats
    else
      var next := Draw(stats, remaining, pick(safety));
      RandomizeFrom(next.0, next.1, safety + 1, pick)
  }

  lemma DrawStep(stats: Stats, remaining: int, safety: nat, pick: nat -> StatName)
    requires remaining > 0 && safety < SafetyLimit
    ensures var next := Draw(stats, remaining, pick(safety));
      RandomizeFrom(stats, remaining, safety, pick) == RandomizeFrom(next.0, next.1, safety + 1, pick)
  {
  }

  function Randomized(pick: nat -> StatName): Stats {
    RandomizeFrom(InitialStats, PointBuyTotal, 0, pick)
  }

  /** While the loop runs, the scores stay in range and what was spent plus what remains is 27. */
  lemma {:induction false} RandomizeFromValid(stats: Stats, remaining: int, safety: nat, pick: nat -> StatName)
    requires InRange(stats) && remaining >= 0 && Cost(stats) + remaining == PointBuyTotal
    ensures Valid(RandomizeFrom(stats, remaining, safety, pick))
    decreases SafetyLimit - safety
  {
    if remaining > 0 && safety < SafetyLimit {
      var s := pick(safety);
      var next := Draw(stats, remaining, s);
      if stats.Get(s) < MaxScore && remaining >= StatCost(stats.Get(s) + 1) - StatCost(stats.Get(s)) {
        RaiseKeepsBudget(stats, remaining, s);
      }
      RandomizeFromValid(next.0, next.1, safety + 1, pick);
    }
  }

  /** One bought raise: still in range, and spent plus remaining is still 27. */
  lemma RaiseKeepsBudget(stats: Stats, remaining: int, s: StatName)
    requires InRange(stats) && Cost(stats) + remaining == PointBuyTotal
    requires stats.Get(s) < MaxScore
    requires remaining >= StatCost(stats.Get(s) + 1) - StatCost(stats.Get(s))
    ensures var next := stats.With(s, stats.Get(s) + 1);
      InRange(next) && remaining - (StatCost(stats.Get(s) + 1) - StatCost(stats.Get(s))) >= 0
      && Cost(next) + remaining - (StatCost(stats.Get(s) + 1) - StatCost(stats.Get(s))) == PointBuyTotal
  {
    CostWith(stats, s, stats.Get(s) + 1);
  }

  lemma RandomizedValid(pick: nat -> StatName)
    ensures Valid(Randomized(pick))
  {
    InitialValid();
    RandomizeFromValid(InitialStats, PointBuyTotal, 0, pick);
  }

  /** The body of the loop for the drawn stat `s`; returning early is the source's `continue`. */
  method DrawOnce(stats: Stats, remaining: int, s: StatName) returns (next: Stats, left: int)
    ensures (next, left) == Draw(stats, remaining, s)
  {
    next, left := stats, remaining;
    var value := stats.Get(s);
    if value >= MaxScore {
      return;
    }
    var cost := StatCost(value + 1) - StatCost(value);
    if remaining >= cost {
      next := stats.With(s, value + 1);
      left := remaining - cost;
    }
  }

  /**
   * The loop of `handleRandomizeStats`: at most 100 draws from all 8s with 27
   * points; the result is the one `Randomized` describes.
   */
  method RandomStats(pick: nat -> StatName) returns (stats: Stats)
    ensures stats == Randomized(pick)
  {
    var current := InitialStats;
    var remaining := PointBuyTotal;
    var safety: nat := 0;
    while remaining > 0 && safety < SafetyLimit
      invariant safety <= SafetyLimit
      invariant RandomizeFrom(current, remaining, safety, pick) == Randomized(pick)
      decreases SafetyLimit - safety
    {
      var s := pick(safety);
      DrawStep(current, remaining, safety, pick);
      safety := safety + 1;
      current, remaining := DrawOnce(current, remaining, s);
    }
    stats := current;
  }

  // ---------------------------------------------------------------- submit

  function HitDie(c: ClassType): int {
    if c == Wizard then 6 else if c == Fighter then 10 else 8
  }

  /** `Math.max(1, hitDie + conMod)` */
  function MaxHp(c: ClassType, stats: Stats): (r: int)
    ensures r >= 1 && r >= HitDie(c) + Modifier(stats.con)
    ensures r == 1 || r == HitDie(c) + Modifier(stats.con)
  {
    if HitDie(c) + Modifier(stats.con) > 1 then HitDie(c) + Modifier(stats.con) else 1
  }

  /** Within the point-buy range the floor of 1 never applies: a CON of 8..15 gives -1..+2. */
  lemma MaxHpInRange(c: ClassType, stats: Stats)
    requires InRange(stats)
    ensures MaxHp(c, stats) == HitDie(c) + Modifier(stats.con)
    ensures HitDie(c) - 1 <= MaxHp(c, stats) <= HitDie(c) + 2
  {
    assert MinScore <= stats.Get(CON) <= MaxScore;
  }

  const DefaultName: string := "Unknown Hero"

  /** The character of `handleSubmit`, at full health, level 1, empty-handed and not ready. */
  function NewCharacter(name: string, ownerEmail: string, c: ClassType, stats: Stats, bio: string,
                        avatarUrl: Option<string>, now: int): (r: Character)
    ensures r.name == (if name == "" then DefaultName else name) && r.name != ""
    ensures r.ownerEmail == ownerEmail && r.classType == c && r.stats == stats && r.bio == bio
    ensures r.avatarUrl == avatarUrl
    ensures r.level == 1 && r.hp == r.maxHp == MaxHp(c, stats) && r.maxHp >= 1
    ensures r.inventory == [] && !r.isReady && r.pendingAction.None?
  {
    Character(IntToString(now), if name == "" then DefaultName else name, ownerEmail, c, 1,
      MaxHp(c, stats), MaxHp(c, stats), stats, bio, avatarUrl, [], false, None)
  }

  /** The form state of the creator dialog. */
  class Creator {
    const ownerEmail: string
    var name: string
    var classType: ClassType
    var stats: Stats
    var bio: string
    var avatarUrl: Option<string>

    constructor(ownerEmail: string)
      ensures this.ownerEmail == ownerEmail && name == "" && classType == Fighter
      ensures stats == InitialStats && bio == "" && avatarUrl.None?
      ensures Valid(stats)
    {
      this.ownerEmail := ownerEmail;
      name := "";
      classType := Fighter;
      stats := InitialStats;
      bio := "";
      avatarUrl := None;
      InitialValid();
    }

    /** `handleStatChange`; the stat block stays valid. */
    method HandleStatChange(stat: StatName, delta: int)
      modifies this
      ensures stats == StatChange(old(stats), stat, delta)
      ensures old(Valid(stats)) ==> Valid(stats)
      ensures name == old(name) && classType == old(classType) && bio == old(bio) && avatarUrl == old(avatarUrl)
    {
      if Valid(stats) {
        StatChangeKeepsValid(stats, stat, delta);
      }
      stats := StatChange(stats, stat, delta);
    }

    /** `resetStats` */
    method ResetStats()
      modifies this
      ensures stats == InitialStats && Valid(stats)
      ensures name == old(name) && classType == old(classType) && bio == old(bio) && avatarUrl == old(avatarUrl)
    {
      stats := InitialStats;
      InitialValid();
    }

    /** `handleRandomizeStats`: the stats become a fresh random valid block. */
    method HandleRandomizeStats(pick: nat -> StatName)
      modifies this
      ensures stats == Randomized(pick) && Valid(stats)
      ensures name == old(name) && classType == old(classType) && bio == old(bio) && avatarUrl == old(avatarUrl)
    {
      stats := RandomStats(pick);
      RandomizedValid(pick);
    }

    /** `remainingPoints < 0` disables the submit button. */
    predicate CanSubmit()
      reads this
    {
      Remaining(stats) >= 0
    }

    /** `handleSubmit`, reachable only while the button is enabled. */
    method Submit(now: int) returns (r: Option<Character>)
      ensures r.None? <==> !CanSubmit()
      ensures r.Some? ==> r.value == NewCharacter(name, ownerEmail, classType, stats, bio, avatarUrl, now)
    {
      if !CanSubmit() {
        return None;
      }
      return Some(NewCharacter(name, ownerEmail, classType, stats, bio, avatarUrl, now));
    }
  }
}
