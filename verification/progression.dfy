/** The integer formulas of the engine: attack power, combo, lucky events,
    experience and level-up. */
module Progression {
  import opened Wrappers
  import opened Geometry

  function Max(a: int, b: int): int {
    if a >= b then a else b
  }

  function Min(a: int, b: int): int {
    if a <= b then a else b
  }

  /** The combo part of the attack: four successive `if`s, the last one that applies wins. */
  function ComboBonus(combo: int): (bonus: int)
    ensures 0 <= bonus <= 4
  {
    var b1 := if combo >= 2 then 1 else 0;
    var b2 := if combo >= 4 then 2 else b1;
    var b3 := if combo >= 6 then 3 else b2;
    if combo >= 8 then 4 else b3
  }

  /** The bonus is one line for every two combo steps, capped at four. */
  lemma ComboBonusIsHalfCombo(combo: int)
    ensures ComboBonus(combo) == if combo < 2 then 0 else Min(combo / 2, 4)
  {
  }

  /** calculateAttackPower: lines beyond the first, one line per three levels
      (Math.floor, which Dafny's `/` by a positive divisor matches), and the combo bonus. */
  function AttackPower(linesCleared: int, level: int, combo: int): (power: int)
    ensures level >= 0 ==> power >= 0
    ensures power >= linesCleared - 1 + level / 3
  {
    Max(0, linesCleared - 1) + level / 3 + ComboBonus(combo)
  }

  /** Attack power never drops when any of its three arguments grows. */
  lemma AttackPowerMonotone(lines1: int, lines2: int, level1: int, level2: int, combo1: int, combo2: int)
    requires lines1 <= lines2 && level1 <= level2 && combo1 <= combo2
    ensures AttackPower(lines1, level1, combo1) <= AttackPower(lines2, level2, combo2)
  {
    assert level1 / 3 <= level2 / 3;
  }

  /** A tetris at level 5 on a combo of 6 sends 3 + 1 + 3 lines. */
  lemma AttackPowerExample()
    ensures AttackPower(4, 5, 6) == 7
  {
  }

  /** A JavaScript timestamp is truthy unless it is missing or zero. */
  predicate Truthy(t: Option<int>) {
    t.Some? && t.value != 0
  }

  /** updateCombo: the chain breaks only when a previous clear is on record and more
      than `timeout` has passed since; otherwise the previous combo (0 if unset) grows by one. */
  function UpdateCombo(combo: int, lastClearTime: Option<int>, now: int, timeout: int): (next: int)
    ensures Truthy(lastClearTime) && now - lastClearTime.value > timeout ==> next == 1
    ensures !(Truthy(lastClearTime) && now - lastClearTime.value > timeout) ==> next == combo + 1
  {
    if Truthy(lastClearTime) && now - lastClearTime.value > timeout then 1
    else combo + 1
  }

  /** Exactly `timeout` after the last clear the chain still continues. */
  lemma ComboTimeoutBoundary(combo: int, last: int, timeout: int)
    ensures UpdateCombo(combo, Some(last), last + timeout, timeout) == combo + 1
    ensures last != 0 ==> UpdateCombo(combo, Some(last), last + timeout + 1, timeout) == 1
  {
  }

  /** Without a truthy last clear time the chain never resets, however long ago. */
  lemma ComboNeverResetsWithoutClearTime(combo: int, last: Option<int>, now: int, timeout: int)
    requires !Truthy(last)
    ensures UpdateCombo(combo, last, now, timeout) == combo + 1
  {
  }

  /** A run of clearing ticks at the instants `times`: each clear updates the combo
      against the previous clear's instant and then records its own instant as the
      last clear time. Yields the combo and the last clear time after the run. */
  function ComboRun(combo: int, last: Option<int>, times: seq<int>, timeout: int): (after: (int, Option<int>))
    ensures after.1 == if |times| == 0 then last else Some(times[|times| - 1])
  {
    if |times| == 0 then (combo, last)
    else
      var before := ComboRun(combo, last, times[..|times| - 1], timeout);
      (UpdateCombo(before.0, before.1, times[|times| - 1], timeout), Some(times[|times| - 1]))
  }

  /** No gap of the run, including the one from the recorded last clear, exceeds the timeout. */
  predicate Steady(last: Option<int>, times: seq<int>, timeout: int) {
    && (|times| > 0 && Truthy(last) ==> times[0] - last.value <= timeout)
    && forall i :: 1 <= i < |times| ==> times[i] - times[i - 1] <= timeout
  }

  /** A run with no long gap extends the combo by one per clear. */
  lemma {:induction false} SteadyRunExtendsCombo(combo: int, last: Option<int>, times: seq<int>, timeout: int)
    requires Steady(last, times, timeout)
    ensures ComboRun(combo, last, times, timeout).0 == combo + |times|
  {
    if |times| > 0 {
      var pre := times[..|times| - 1];
      assert Steady(last, pre, timeout);
      SteadyRunExtendsCombo(combo, last, pre, timeout);
    }
  }

  /** After a gap longer than the timeout before clear `k` (the clear before it at a
      non-zero instant), and none after it, the combo counts the clears from `k` on. */
  lemma {:induction false} BrokenRunRestartsCombo(combo: int, last: Option<int>, times: seq<int>, timeout: int, k: int)
    requires 1 <= k < |times|
    requires times[k - 1] != 0 && times[k] - times[k - 1] > timeout
    requires forall i :: k < i < |times| ==> times[i] - times[i - 1] <= timeout
    ensures ComboRun(combo, last, times, timeout).0 == |times| - k
    decreases |times|
  {
    var pre := times[..|times| - 1];
    if |times| - 1 > k {
      BrokenRunRestartsCombo(combo, last, pre, timeout, k);
    }
  }

  /** Score of a clearing tick: 100 a line, plus 50 for each combo step beyond the first. */
  function ScoreGain(linesCleared: int, combo: int): (gain: int)
    ensures linesCleared >= 1 ==> gain >= 100 * linesCleared
    ensures combo > 1 ==> gain == 100 * linesCleared + 50 * (combo - 1)
    ensures combo <= 1 ==> gain == 100 * linesCleared
  {
    var bonus := if combo > 1 then (combo - 1) * 50 else 0;
    linesCleared * 100 + bonus
  }

  datatype LuckyKind = Diamond | Star | Gift

  /** Experience multipliers in halves: 3.0, 2.0 and 1.5. */
  function LuckyHalves(k: LuckyKind): nat {
    match k
    case Diamond => 6
    case Star => 4
    case Gift => 3
  }

  /** checkLuckyEvent: one draw, compared with the diamond, star and gift thresholds in
      that order; the first threshold above the draw decides the event. */
  function LuckyEventOf(cfg: Config, draw: real): (event: Option<LuckyKind>)
    ensures event == Some(Diamond) <==> draw < cfg.luckyDiamond
    ensures event == Some(Star) <==> cfg.luckyDiamond <= draw < cfg.luckyStar
    ensures event == Some(Gift) <==> cfg.luckyDiamond <= draw && cfg.luckyStar <= draw < cfg.luckyGift
    ensures event == None <==> cfg.luckyDiamond <= draw && cfg.luckyStar <= draw && cfg.luckyGift <= draw
  {
    if draw < cfg.luckyDiamond then Some(Diamond)
    else if draw < cfg.luckyStar then Some(Star)
    else if draw < cfg.luckyGift then Some(Gift)
    else None
  }

  /** How rare an event is: 0 for none up to 3 for a diamond. */
  function Rarity(event: Option<LuckyKind>): nat {
    match event
    case None => 0
    case Some(Gift) => 1
    case Some(Star) => 2
    case Some(Diamond) => 3
  }

  /** With ascending thresholds, a smaller draw never gives a more common event. */
  lemma LuckyEventOrdered(cfg: Config, draw1: real, draw2: real)
    requires cfg.luckyDiamond <= cfg.luckyStar <= cfg.luckyGift
    requires draw1 <= draw2
    ensures Rarity(LuckyEventOf(cfg, draw1)) >= Rarity(LuckyEventOf(cfg, draw2))
  {
  }

  /** The base experience table {1:100, 2:200, 3:300, 4:400}, falling back to 100 a line. */
  function BaseExp(linesCleared: int): (base: int)
    ensures base == 100 * linesCleared
  {
    if linesCleared == 1 then 100
    else if linesCleared == 2 then 200
    else if linesCleared == 3 then 300
    else if linesCleared == 4 then 400
    else linesCleared * 100
  }

  /** Combo multipliers in halves: 1.0, 1.5 from combo 2, 2.0 from combo 4. */
  function ComboHalves(combo: int): (halves: nat)
    ensures 2 <= halves <= 4
  {
    var m1 := if combo >= 2 then 3 else 2;
    if combo >= 4 then 4 else m1
  }

  /** Math.floor(amount * halves / 2): Dafny's `/` by 2 rounds down, negatives included. */
  function Scale(amount: int, halves: nat): (scaled: int)
    requires halves >= 2
    ensures amount >= 0 ==> amount <= scaled
    ensures scaled as real <= (amount * halves) as real / 2.0 < scaled as real + 1.0
  {
    amount * halves / 2
  }

  /** Math.floor(base * factor), with the factor drawn from [0.5, 1.5). */
  function RandomExp(base: int, factor: real): (r: int)
    ensures r as real <= base as real * factor < r as real + 1.0
  {
    (base as real * factor).Floor
  }

  datatype ExpGain = ExpGain(exp: int, luckyEvent: Option<LuckyKind>)

  /** calculateExp: the base scaled by the random factor, then by the combo multiplier,
      then by the lucky multiplier if an event fired, rounding down after each step. */
  function CalculateExp(cfg: Config, linesCleared: int, combo: int, factor: real, draw: real): (g: ExpGain)
    ensures g.luckyEvent == LuckyEventOf(cfg, draw)
    ensures RandomExp(BaseExp(linesCleared), factor) >= 0 ==> g.exp >= RandomExp(BaseExp(linesCleared), factor)
  {
    var randomExp := RandomExp(BaseExp(linesCleared), factor);
    var comboExp := Scale(randomExp, ComboHalves(combo));
    var lucky := LuckyEventOf(cfg, draw);
    match lucky
    case None => ExpGain(comboExp, None)
    case Some(k) => ExpGain(Scale(comboExp, LuckyHalves(k)), lucky)
  }

  lemma MulMonotone(a: real, b: real, c: real)
    requires a >= 0.0 && b <= c
    ensures a * b <= a * c
  {
    assert a * c - a * b == a * (c - b);
  }

  /** With a random factor in [0.5, 1.5) the random step lands in [50, 150] per line. */
  lemma RandomExpRange(linesCleared: int, factor: real)
    requires linesCleared >= 0
    requires 0.5 <= factor < 1.5
    ensures 50 * linesCleared <= RandomExp(BaseExp(linesCleared), factor) <= 150 * linesCleared
  {
    var b := (100 * linesCleared) as real;
    MulMonotone(b, 0.5, factor);
    MulMonotone(b, factor, 1.5);
    assert b * 0.5 == (50 * linesCleared) as real;
    assert b * 1.5 == (150 * linesCleared) as real;
  }

  /** A clear of `n` lines earns between 50n and 900n experience: 50n when every
      multiplier is at its least, below 150n * 2 * 3 when all are at their most. */
  lemma ExpBounds(cfg: Config, linesCleared: int, combo: int, factor: real, draw: real)
    requires linesCleared >= 1
    requires 0.5 <= factor < 1.5
    ensures 50 * linesCleared <= CalculateExp(cfg, linesCleared, combo, factor, draw).exp <= 900 * linesCleared
  {
    RandomExpRange(linesCleared, factor);
    var randomExp := RandomExp(BaseExp(linesCleared), factor);
    var comboExp := Scale(randomExp, ComboHalves(combo));
    assert comboExp <= 2 * randomExp;
    var lucky := LuckyEventOf(cfg, draw);
    if lucky.Some? {
      assert Scale(comboExp, LuckyHalves(lucky.value)) <= 3 * comboExp;
    }
  }

  /** The level reached by the level-up loop, starting from `level`. */
  function LevelFrom(level: nat, exp: int, thresholds: seq<int>): (reached: nat)
    ensures reached >= level
    ensures reached > level ==> reached <= |thresholds|
    ensures forall j :: level <= j < reached ==> j < |thresholds| && thresholds[j] <= exp
    ensures reached < |thresholds| ==> exp < thresholds[reached]
    decreases |thresholds| - level
  {
    if level < |thresholds| && exp >= thresholds[level] then LevelFrom(level + 1, exp, thresholds)
    else level
  }

  /** What the server reports after a level-up check. */
  datatype LevelResult = LevelResult(newLevel: nat, expToNextLevel: int, leveledUp: bool)

  /** The experience shown as "to next level" once every threshold is passed. */
  const MaxLevelSentinel: int := 999999

  /** checkLevelUp: climb while the next threshold is met, possibly several levels at once. */
  function CheckLevelUp(level: nat, exp: int, thresholds: seq<int>): (r: LevelResult)
    ensures r.newLevel >= level
    ensures r.leveledUp <==> r.newLevel > level
    ensures r.newLevel >= |thresholds| || exp < thresholds[r.newLevel]
    ensures forall j :: level <= j < r.newLevel ==> j < |thresholds| && thresholds[j] <= exp
    ensures r.expToNextLevel == if r.newLevel < |thresholds| then thresholds[r.newLevel] else MaxLevelSentinel
  {
    var reached := LevelFrom(level, exp, thresholds);
    LevelResult(reached, if reached < |thresholds| then thresholds[reached] else MaxLevelSentinel, reached > level)
  }

  predicate Ascending(s: seq<int>) {
    forall i, j :: 0 <= i < j < |s| ==> s[i] <= s[j]
  }

  /** Number of thresholds at or below `exp`. */
  function CountAtMost(s: seq<int>, exp: int): nat {
    if |s| == 0 then 0
    else CountAtMost(s[..|s| - 1], exp) + (if s[|s| - 1] <= exp then 1 else 0)
  }

  /** In an ascending table, a prefix of length k at or below `exp`, followed by a threshold
      above it, means exactly k thresholds are at or below `exp`. */
  lemma {:induction false} CountAtMostPrefix(s: seq<int>, exp: int, k: nat)
    requires Ascending(s)
    requires k <= |s|
    requires forall j :: 0 <= j < k ==> s[j] <= exp
    requires k == |s| || exp < s[k]
    ensures CountAtMost(s, exp) == k
  {
    if |s| > 0 {
      var pre := s[..|s| - 1];
      if k == |s| {
        CountAtMostPrefix(pre, exp, k - 1);
      } else {
        assert s[k] <= s[|s| - 1];
        CountAtMostPrefix(pre, exp, k);
      }
    }
  }

  /** For an ascending table and a level consistent with the experience, the new level is
      simply the number of thresholds the experience has reached. */
  lemma LevelUpCountsThresholds(level: nat, exp: int, thresholds: seq<int>)
    requires Ascending(thresholds)
    requires level <= |thresholds|
    requires forall j :: 0 <= j < level ==> thresholds[j] <= exp
    ensures CheckLevelUp(level, exp, thresholds).newLevel == CountAtMost(thresholds, exp)
  {
    var r := CheckLevelUp(level, exp, thresholds).newLevel;
    CountAtMostPrefix(thresholds, exp, r);
  }
}
