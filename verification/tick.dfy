/** processPlayerTick: one player's step on the shared clock. */
module Tick {
  import opened Wrappers
  import opened Geometry
  import opened Progression
  import opened Players
  import opened Board
  import opened Movement
  import opened LineClear

  /** What a tick would otherwise take from the piece generator, the clock and Math.random:
      the piece handed out on a lock, the two clock readings (the combo check and the new
      last-clear time read the clock separately), the experience factor in [0.5, 1.5) and
      the lucky-event draw in [0, 1). */
  datatype TickInputs = TickInputs(next: Piece, comboNow: int, clearNow: int, expFactor: real, luckyDraw: real)

  /** The clear pipeline: combo, experience, level, score and attack, in that order, on top
      of the player after gravity. */
  function ApplyClear(cfg: Config, p: Player, moved: Player, cleared: ClearResult, env: TickInputs): (r: Player)
    ensures r == moved.(ground := cleared.ground, level := r.level, score := r.score, exp := r.exp,
                        expToNextLevel := r.expToNextLevel, combo := r.combo,
                        lastClearTime := Some(env.clearNow), report := r.report)
    ensures r.combo == UpdateCombo(p.combo, p.lastClearTime, env.comboNow, cfg.comboTimeout)
    ensures r.score == moved.score + ScoreGain(cleared.linesCleared, r.combo)
    ensures var gain := CalculateExp(cfg, cleared.linesCleared, r.combo, env.expFactor, env.luckyDraw);
      && r.exp == moved.exp + gain.exp
      && r.report == Some(ClearReport(cleared.clearedLineNumbers,
                                      AttackPower(cleared.linesCleared, r.level, r.combo),
                                      cleared.linesCleared, gain.exp, gain.luckyEvent,
                                      r.level > moved.level))
    ensures var lv := CheckLevelUp(moved.level, r.exp, cfg.expThresholds);
      && r.level == lv.newLevel && r.expToNextLevel == lv.expToNextLevel
      && r.level >= moved.level
  {
    var combo := UpdateCombo(p.combo, p.lastClearTime, env.comboNow, cfg.comboTimeout);
    var gain := CalculateExp(cfg, cleared.linesCleared, combo, env.expFactor, env.luckyDraw);
    var totalExp := moved.exp + gain.exp;
    var lv := CheckLevelUp(moved.level, totalExp, cfg.expThresholds);
    var score := moved.score + ScoreGain(cleared.linesCleared, combo);
    var attack := AttackPower(cleared.linesCleared, lv.newLevel, combo);
    moved.(
      ground := cleared.ground,
      level := lv.newLevel,
      score := score,
      exp := totalExp,
      expToNextLevel := lv.expToNextLevel,
      combo := combo,
      lastClearTime := Some(env.clearNow),
      report := Some(ClearReport(cleared.clearedLineNumbers, attack, cleared.linesCleared,
                                 gain.exp, gain.luckyEvent, lv.leveledUp)))
  }

  /** processPlayerTick: a lost or eliminated player is left alone; a running countdown
      ticks down by one; otherwise gravity applies and, if rows are full, the clear pipeline
      runs. The tick never changes the player's state: it does not call the game-over test.
      A gravity tick that clears nothing hands back the player after gravity as it is, with
      the previous clear's report carried along. A clearing tick continues or restarts the
      combo, adds the score and experience gains, only ever raises the level, and reports
      the attack computed from the new level and combo. */
  function ProcessPlayerTick(cfg: Config, p: Player, env: TickInputs): (r: Player)
    ensures r.state == p.state
    ensures p.state != Game ==> r == p
    ensures p.state == Game && p.actionTime > 0 ==> r == p.(actionTime := p.actionTime - 1)
    ensures p.state == Game && p.actionTime <= 0 ==>
      var moved := MoveDown(cfg, p, env.next);
      && r.body == moved.body && r.preBody == moved.preBody
      && r.actionTime == cfg.actionInitTime
      && r.ground == ClearLines(cfg, moved.ground).ground
    ensures p.state == Game && p.actionTime <= 0 &&
            ClearLines(cfg, MoveDown(cfg, p, env.next).ground).linesCleared == 0 ==>
      && r == MoveDown(cfg, p, env.next)
      && r.report == p.report
      && r.score == p.score && r.exp == p.exp && r.level == p.level && r.combo == p.combo
    ensures p.state == Game && p.actionTime <= 0 &&
            ClearLines(cfg, MoveDown(cfg, p, env.next).ground).linesCleared > 0 ==>
      var cleared := ClearLines(cfg, MoveDown(cfg, p, env.next).ground);
      var gain := CalculateExp(cfg, cleared.linesCleared, r.combo, env.expFactor, env.luckyDraw);
      var lv := CheckLevelUp(p.level, r.exp, cfg.expThresholds);
      && r == MoveDown(cfg, p, env.next).(ground := r.ground, level := r.level, score := r.score,
                                          exp := r.exp, expToNextLevel := r.expToNextLevel,
                                          combo := r.combo, lastClearTime := r.lastClearTime,
                                          report := r.report)
      && r.combo == UpdateCombo(p.combo, p.lastClearTime, env.comboNow, cfg.comboTimeout)
      && r.score == p.score + ScoreGain(cleared.linesCleared, r.combo)
      && r.exp == p.exp + gain.exp
      && r.level == lv.newLevel && r.expToNextLevel == lv.expToNextLevel
      && r.level >= p.level
      && r.lastClearTime == Some(env.clearNow)
      && r.report == Some(ClearReport(cleared.clearedLineNumbers,
                                      AttackPower(cleared.linesCleared, r.level, r.combo),
                                      cleared.linesCleared, gain.exp, gain.luckyEvent,
                                      r.level > p.level))
  {
    if p.state != Game then p
    else if p.actionTime > 0 then p.(actionTime := p.actionTime - 1)
    else
      var moved := MoveDown(cfg, p, env.next);
      var cleared := ClearLines(cfg, moved.ground);
      if cleared.linesCleared == 0 then moved
      else ApplyClear(cfg, p, moved, cleared, env)
  }

  /** With the factor in its range, a clearing tick adds at least 100 points and at least 50
      experience per line. */
  lemma TickClearGains(cfg: Config, p: Player, env: TickInputs)
    requires p.state == Game && p.actionTime <= 0
    requires ClearLines(cfg, MoveDown(cfg, p, env.next).ground).linesCleared > 0
    requires 0.5 <= env.expFactor < 1.5
    ensures var r := ProcessPlayerTick(cfg, p, env);
      var lines := ClearLines(cfg, MoveDown(cfg, p, env.next).ground).linesCleared;
      && r.score >= p.score + 100 * lines
      && r.exp >= p.exp + 50 * lines
  {
    var r := ProcessPlayerTick(cfg, p, env);
    var lines := ClearLines(cfg, MoveDown(cfg, p, env.next).ground).linesCleared;
    ExpBounds(cfg, lines, r.combo, env.expFactor, env.luckyDraw);
  }

  /** A tick keeps the settled blocks on the board with no cell twice, provided the falling
      piece was legal. */
  lemma TickKeepsGroundOk(cfg: Config, p: Player, env: TickInputs)
    requires GroundOk(cfg, p.ground) && PieceLegal(cfg, p)
    ensures GroundOk(cfg, ProcessPlayerTick(cfg, p, env).ground)
  {
    if p.state == Game && p.actionTime <= 0 {
      var moved := MoveDown(cfg, p, env.next);
      MoveDownKeepsInvariant(cfg, p, env.next);
      ClearKeepsGroundOk(cfg, moved.ground);
    }
  }

  /** A tick also keeps the weaker invariant that garbage leaves behind, one tick at a time
      and only for a piece apart from the ground: neither the garbage arrival nor the lock's
      promotion of the held piece re-establishes that, so the invariant is not kept along an
      arbitrary run (the Play module shows both ways it breaks). With a legal piece the
      ground also stays in the columns. */
  lemma TickKeepsStackOk(cfg: Config, p: Player, env: TickInputs)
    requires StackOk(cfg, p.ground) && Apart(cfg, p.body, p.ground)
    ensures StackOk(cfg, ProcessPlayerTick(cfg, p, env).ground)
    ensures InColumns(cfg, p.ground) && PieceLegal(cfg, p) ==>
      InColumns(cfg, ProcessPlayerTick(cfg, p, env).ground)
  {
    if p.state == Game && p.actionTime <= 0 {
      var moved := MoveDown(cfg, p, env.next);
      MoveDownKeepsStackOk(cfg, p, env.next);
      ClearKeepsStackOk(cfg, moved.ground);
    }
  }

  /** A lock that puts a block into row 1 leaves the player in play: on a 2-wide, 2-high
      board a one-block piece in row 1 lands on a block in row 2. */
  lemma TickMissesGameOver()
    ensures var cfg := Config(2, 2, 5, 3000, 1, [], 0.01, 0.06, 0.16);
      var p := Player("a", "player", Game, [Block(1, 1)], "I", [Block(2, 1)], "O",
                      [Block(1, 2)], 0, 1, 0, 100, 0, 0, None, None);
      var r := ProcessPlayerTick(cfg, p, TickInputs(Piece([Block(1, 1)], "T"), 0, 0, 1.0, 0.5));
      && r.state == Game
      && IsGameOver(r.ground) == Lose
  {
    var cfg := Config(2, 2, 5, 3000, 1, [], 0.01, 0.06, 0.16);
    var p := Player("a", "player", Game, [Block(1, 1)], "I", [Block(2, 1)], "O",
                    [Block(1, 2)], 0, 1, 0, 100, 0, 0, None, None);
    var env := TickInputs(Piece([Block(1, 1)], "T"), 0, 0, 1.0, 0.5);
    var moved := MoveDown(cfg, p, env.next);
    assert Translate(p.body, 0, 1) == [Block(1, 2)];
    assert Blocked(cfg, Translate(p.body, 0, 1)[0], p.ground);
    assert moved.ground == [Block(1, 2), Block(1, 1)];
    assert RowCount(moved.ground, 1) == 1;
    assert RowCount(moved.ground, 2) == 1;
    assert FullRows(cfg, moved.ground) == [];
    assert moved.ground[1].y == 1;
  }
}
