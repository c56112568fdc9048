/** A player's game as a run of events: ticks of the shared clock interleaved with garbage
    sent by opponents. The engine computes the two through processPlayerTick and
    addGarbageLines; the room manager that interleaves them, and runs the game-over test
    after each, is not part of this model, so a run is any sequence of the two. The
    counterexamples below keep row 1 empty throughout, so that test would not stop them. */
module Play {
  import opened Wrappers
  import opened Geometry
  import opened Players
  import opened Board
  import opened Movement
  import opened LineClear
  import opened Garbage
  import opened Tick

  /** One thing that happens to a player: a tick, or `count` garbage rows with the holes
      drawn for each. */
  datatype Event = Gravity(env: TickInputs) | Attack(count: int, holes: seq<seq<int>>)

  /** What an event must carry: one hole draw per garbage row, and a generator piece with
      no cell twice. */
  predicate EventOk(e: Event) {
    match e
    case Gravity(env) => Distinct(env.next.blocks)
    case Attack(count, holes) => count <= |holes|
  }

  predicate EventsOk(es: seq<Event>) {
    forall i :: 0 <= i < |es| ==> EventOk(es[i])
  }

  /** Garbage as addGarbageLines computes it: it receives the settled blocks only, so the
      falling piece stays where it was while the stack rises around it. */
  function ReceiveGarbage(cfg: Config, p: Player, count: int, holes: seq<seq<int>>): (r: Player)
    requires count <= |holes|
    ensures r == p.(ground := r.ground)
    ensures count <= 0 ==> r == p
  {
    p.(ground := AddGarbageLines(cfg, p.ground, count, holes))
  }

  /** One event as processPlayerTick or addGarbageLines computes it. Neither changes the
      player's state. */
  function StepAsWritten(cfg: Config, p: Player, e: Event): (r: Player)
    requires EventOk(e)
    ensures r.state == p.state
  {
    match e
    case Gravity(env) => ProcessPlayerTick(cfg, p, env)
    case Attack(count, holes) => ReceiveGarbage(cfg, p, count, holes)
  }

  /** A run of events as processPlayerTick and addGarbageLines compute them, first event
      first, with no game-over test between them. */
  function RunAsWritten(cfg: Config, p: Player, es: seq<Event>): (r: Player)
    requires EventsOk(es)
    ensures r.state == p.state
    decreases |es|
  {
    if |es| == 0 then p else RunAsWritten(cfg, StepAsWritten(cfg, p, es[0]), es[1..])
  }

  /** Garbage that lifts the falling piece along with the stack, so the piece keeps its
      place relative to the settled blocks. */
  function LiftWithGarbage(cfg: Config, p: Player, count: int, holes: seq<seq<int>>): (r: Player)
    requires count <= |holes|
    ensures r == p.(ground := r.ground, body := r.body)
    ensures r.ground == ReceiveGarbage(cfg, p, count, holes).ground
    ensures |r.body| == |p.body|
    ensures count > 0 ==> forall i :: 0 <= i < |p.body| ==>
      r.body[i].x == p.body[i].x && r.body[i].y == p.body[i].y - count
    ensures count <= 0 ==> r == p
  {
    if count <= 0 then p
    else
      TranslateShifts(p.body, 0, -count);
      p.(ground := AddGarbageLines(cfg, p.ground, count, holes), body := Translate(p.body, 0, -count))
  }

  /** A tick followed by the spawn test: if the falling piece no longer fits after the tick,
      in particular when a lock promotes a held piece that overlaps the ground, the player
      loses. Otherwise the tick is exactly the server's. */
  function CheckedTick(cfg: Config, p: Player, env: TickInputs): (r: Player)
    ensures r == ProcessPlayerTick(cfg, p, env).(state := r.state)
    ensures r.state == Game ==> !Collides(cfg, r.body, r.ground)
    ensures r.state != p.state ==> p.state == Game && r.state == Lose
    ensures p.state == Game ==> (r.state == Game <==> !Collides(cfg, r.body, r.ground))
  {
    var t := ProcessPlayerTick(cfg, p, env);
    if t.state == Game && Collides(cfg, t.body, t.ground) then t.(state := Lose) else t
  }

  /** One event with both corrections. */
  function Step(cfg: Config, p: Player, e: Event): (r: Player)
    requires EventOk(e)
    ensures e.Gravity? ==> r == CheckedTick(cfg, p, e.env)
    ensures e.Attack? ==> r == LiftWithGarbage(cfg, p, e.count, e.holes)
  {
    match e
    case Gravity(env) => CheckedTick(cfg, p, env)
    case Attack(count, holes) => LiftWithGarbage(cfg, p, count, holes)
  }

  /** A run of events with both corrections, first event first. */
  function Run(cfg: Config, p: Player, es: seq<Event>): (r: Player)
    requires EventsOk(es)
    ensures p.state != Game ==> r.state == p.state
    ensures r.state != p.state ==> r.state == Lose
    decreases |es|
  {
    if |es| == 0 then p else Run(cfg, Step(cfg, p, es[0]), es[1..])
  }

  /** What a run keeps: the settled blocks repeat no cell and lie not below the bottom row,
      the held piece has no cell twice, and while the game is on the falling piece is apart
      from the ground. */
  predicate Inv(cfg: Config, p: Player) {
    && StackOk(cfg, p.ground)
    && Distinct(p.preBody)
    && (p.state == Game ==> Apart(cfg, p.body, p.ground))
  }

  /** The spawn test re-establishes the piece's part of the invariant. */
  lemma SpawnTestKeepsInv(cfg: Config, t: Player)
    requires StackOk(cfg, t.ground) && Distinct(t.preBody) && Distinct(t.body)
    ensures var r := if t.state == Game && Collides(cfg, t.body, t.ground) then t.(state := Lose) else t;
      Inv(cfg, r)
  {
    if t.state == Game && !Collides(cfg, t.body, t.ground) {
      FitsIsApart(cfg, t.body, t.ground);
    }
  }

  /** A checked tick keeps the invariant, whether it counts down, moves the piece, or locks
      it and promotes the held piece. */
  lemma CheckedTickKeepsInv(cfg: Config, p: Player, env: TickInputs)
    requires Inv(cfg, p) && Distinct(env.next.blocks)
    ensures Inv(cfg, CheckedTick(cfg, p, env))
  {
    if p.state == Game {
      var t := ProcessPlayerTick(cfg, p, env);
      if p.actionTime <= 0 {
        var moved := MoveDown(cfg, p, env.next);
        MoveDownKeepsStackOk(cfg, p, env.next);
        ClearKeepsStackOk(cfg, moved.ground);
        TranslateKeepsDistinct(p.body, 0, 1);
        assert StackOk(cfg, t.ground) && Distinct(t.preBody) && Distinct(t.body);
      }
      SpawnTestKeepsInv(cfg, t);
    }
  }

  /** Lifting the piece with the stack keeps it apart from the raised ground: a raised
      block meets the piece only where a settled block met it before, and the new garbage
      rows lie below every lifted cell. */
  lemma LiftKeepsApart(cfg: Config, p: Player, count: int, holes: seq<seq<int>>)
    requires count <= |holes| && Apart(cfg, p.body, p.ground)
    ensures Apart(cfg, LiftWithGarbage(cfg, p, count, holes).body, LiftWithGarbage(cfg, p, count, holes).ground)
  {
    if count > 0 {
      var r := LiftWithGarbage(cfg, p, count, holes);
      var garbage := GenerateGarbageLines(cfg, count, cfg.height, holes);
      assert r.ground == AddGarbageLines(cfg, p.ground, count, holes);
      GarbagePlacement(cfg, count, cfg.height, holes);
      TranslateKeepsDistinct(p.body, 0, -count);
      forall i | 0 <= i < |r.body|
        ensures r.body[i].y <= cfg.height && r.body[i] !in r.ground
      {
        forall k | 0 <= k < |r.ground|
          ensures r.ground[k] != r.body[i]
        {
          if k < |p.ground| {
            assert p.ground[k] in p.ground;
          } else {
            assert r.ground[k] == r.ground[|p.ground|..][k - |p.ground|];
            assert r.ground[k] == garbage[k - |p.ground|];
          }
        }
      }
    }
  }

  /** Garbage that lifts the piece keeps the invariant. */
  lemma LiftKeepsInv(cfg: Config, p: Player, count: int, holes: seq<seq<int>>)
    requires Inv(cfg, p) && count <= |holes|
    ensures Inv(cfg, LiftWithGarbage(cfg, p, count, holes))
  {
    AddGarbageKeepsDistinct(cfg, p.ground, count, holes);
    if p.state == Game {
      LiftKeepsApart(cfg, p, count, holes);
    }
  }

  /** Every run of ticks and garbage keeps the invariant, so with both corrections the
      settled blocks never hold a cell twice. */
  lemma {:induction false} RunKeepsInv(cfg: Config, p: Player, es: seq<Event>)
    requires Inv(cfg, p) && EventsOk(es)
    ensures Inv(cfg, Run(cfg, p, es))
    ensures Distinct(Run(cfg, p, es).ground)
    decreases |es|
  {
    if |es| > 0 {
      var q := Step(cfg, p, es[0]);
      assert EventOk(es[0]);
      if es[0].Gravity? {
        CheckedTickKeepsInv(cfg, p, es[0].env);
      } else {
        LiftKeepsInv(cfg, p, es[0].count, es[0].holes);
      }
      assert EventsOk(es[1..]) by {
        forall i | 0 <= i < |es| - 1
          ensures EventOk(es[1..][i])
        {
          assert es[1..][i] == es[i + 1];
        }
      }
      RunKeepsInv(cfg, q, es[1..]);
    }
  }

  /** From the opening ground, column 0 included, no run with both corrections ever
      settles a cell twice. */
  lemma RunFromStartNeverRepeats(cfg: Config, p: Player, bottom: HoleDraw, above: HoleDraw, es: seq<Event>)
    requires cfg.Valid() && p.ground == InitialGround(cfg, bottom, above)
    requires Distinct(p.preBody) && (p.state == Game ==> Apart(cfg, p.body, p.ground))
    requires EventsOk(es)
    ensures Distinct(Run(cfg, p, es).ground)
  {
    InitialGroundStackOk(cfg, bottom, above);
    RunKeepsInv(cfg, p, es);
  }

  /** A ground with no block in row 1 passes the game-over test. */
  lemma RowOneEmptyIsGame(g: seq<Block>)
    requires forall i :: 0 <= i < |g| ==> g[i].y != 1
    ensures IsGameOver(g) == Game
  {
  }

  /** As written, garbage can close around the falling piece: on a 3-wide, 3-high board
      one garbage row under a ground block at (1, 3) lifts it to (1, 2), where the piece
      already is. */
  lemma GarbageClosesOnPiece(cfg: Config)
    requires cfg.width == 3 && cfg.height == 3
    ensures AddGarbageLines(cfg, [Block(1, 3)], 1, [[2]]) == [Block(1, 2), Block(1, 3), Block(3, 3)]
  {
    assert RowWithHoles(3, 1, 3, [2]) == [Block(1, 3), Block(3, 3)];
    assert GenerateGarbageLines(cfg, 1, 3, [[2]]) == [Block(1, 3), Block(3, 3)];
  }

  /** A gravity tick locks a piece resting at (1, 2) onto the ground it overlaps. */
  lemma TickLocksOverlap(cfg: Config, q: Player, env: TickInputs)
    requires cfg.width == 3 && cfg.height == 3
    requires q.state == Game && q.actionTime == 0 && q.body == [Block(1, 2)]
    requires q.ground == [Block(1, 2), Block(1, 3), Block(3, 3)]
    ensures ProcessPlayerTick(cfg, q, env).ground == [Block(1, 2), Block(1, 3), Block(3, 3), Block(1, 2)]
  {
    var g := [Block(1, 2), Block(1, 3), Block(3, 3), Block(1, 2)];
    assert MoveDown(cfg, q, env.next).ground == g by {
      assert Translate(q.body, 0, 1) == [Block(1, 3)];
      assert Blocked(cfg, Translate(q.body, 0, 1)[0], q.ground);
    }
    assert FullRows(cfg, g) == [] by {
      assert g[..3] == [Block(1, 2), Block(1, 3), Block(3, 3)];
      assert g[..3][..2] == [Block(1, 2), Block(1, 3)];
      assert g[..3][..2][..1] == [Block(1, 2)];
      forall y | 0 <= y <= cfg.height
        ensures RowCount(g, y) < cfg.width
      {
        assert RowCount([Block(1, 2)], y) <= 1;
      }
      NoFullRows(cfg, g);
    }
  }

  /** The garbage counterexample's run as the engine computes it, after the garbage and
      after the tick. */
  lemma GarbageRunAsWritten(cfg: Config, p: Player, env: TickInputs)
    requires cfg.width == 3 && cfg.height == 3
    requires p.state == Game && p.actionTime == 0 && p.body == [Block(1, 2)]
    requires p.ground == [Block(1, 3)]
    requires Distinct(env.next.blocks)
    ensures EventsOk([Attack(1, [[2]]), Gravity(env)])
    ensures RunAsWritten(cfg, p, [Attack(1, [[2]])]).ground == [Block(1, 2), Block(1, 3), Block(3, 3)]
    ensures RunAsWritten(cfg, p, [Attack(1, [[2]]), Gravity(env)]).ground
            == [Block(1, 2), Block(1, 3), Block(3, 3), Block(1, 2)]
  {
    var es := [Attack(1, [[2]]), Gravity(env)];
    assert EventsOk(es);
    var q := p.(ground := [Block(1, 2), Block(1, 3), Block(3, 3)]);
    assert StepAsWritten(cfg, p, Attack(1, [[2]])) == q by {
      GarbageClosesOnPiece(cfg);
    }
    assert RunAsWritten(cfg, p, [Attack(1, [[2]])]) == RunAsWritten(cfg, q, []);
    assert RunAsWritten(cfg, p, es) == RunAsWritten(cfg, q, [Gravity(env)]) by {
      assert es[1..] == [Gravity(env)];
    }
    assert RunAsWritten(cfg, q, [Gravity(env)]).ground
        == [Block(1, 2), Block(1, 3), Block(3, 3), Block(1, 2)] by {
      TickLocksOverlap(cfg, q, env);
      assert RunAsWritten(cfg, q, [Gravity(env)]) == ProcessPlayerTick(cfg, q, env);
    }
  }

  /** A one-cell piece inside the board, over a one-block ground inside the board at
      another cell, is a legal start. */
  lemma OneBlockStartLegal(cfg: Config, p: Player, b: Block, c: Block)
    requires p.body == [b] && p.ground == [c]
    requires InBounds(cfg, b) && InBounds(cfg, c) && b != c
    ensures StackOk(cfg, p.ground) && InColumns(cfg, p.ground) && PieceLegal(cfg, p)
  {
    assert !Blocked(cfg, b, [c]);
    assert !Collides(cfg, [b][1..], [c]);
  }

  /** The as-written counterexample for garbage: a legal piece at (1, 2) over a ground
      block at (1, 3); one garbage row lifts the block into the piece's cell and the next
      tick settles that cell a second time. */
  lemma GarbageThenTickRepeatsCell(cfg: Config, p: Player, env: TickInputs)
    requires cfg.width == 3 && cfg.height == 3
    requires p.state == Game && p.actionTime == 0 && p.body == [Block(1, 2)]
    requires p.ground == [Block(1, 3)]
    requires env.next.blocks == [Block(2, 1)]
    ensures StackOk(cfg, p.ground) && InColumns(cfg, p.ground) && PieceLegal(cfg, p)
    ensures EventsOk([Attack(1, [[2]]), Gravity(env)])
    ensures !Distinct(RunAsWritten(cfg, p, [Attack(1, [[2]]), Gravity(env)]).ground)
  {
    OneBlockStartLegal(cfg, p, Block(1, 2), Block(1, 3));
    GarbageRunAsWritten(cfg, p, env);
    var g := [Block(1, 2), Block(1, 3), Block(3, 3), Block(1, 2)];
    assert g[0] == g[3];
  }

  /** Along the garbage counterexample no ground has a block in row 1, so the game-over
      test the caller runs after each step finds the player still in the game. */
  lemma GarbageRunStaysInGame(cfg: Config, p: Player, env: TickInputs)
    requires cfg.width == 3 && cfg.height == 3
    requires p.state == Game && p.actionTime == 0 && p.body == [Block(1, 2)]
    requires p.ground == [Block(1, 3)]
    requires Distinct(env.next.blocks)
    ensures IsGameOver(p.ground) == Game
    ensures IsGameOver(RunAsWritten(cfg, p, [Attack(1, [[2]])]).ground) == Game
    ensures IsGameOver(RunAsWritten(cfg, p, [Attack(1, [[2]]), Gravity(env)]).ground) == Game
  {
    GarbageRunAsWritten(cfg, p, env);
    RowOneEmptyIsGame([Block(1, 3)]);
    RowOneEmptyIsGame([Block(1, 2), Block(1, 3), Block(3, 3)]);
    RowOneEmptyIsGame([Block(1, 2), Block(1, 3), Block(3, 3), Block(1, 2)]);
  }

  /** A gravity tick locks a piece at (3, 3) on the bottom row next to a block at (1, 3)
      and promotes the held piece. */
  lemma TickLocksOnBottom(cfg: Config, q: Player, env: TickInputs)
    requires cfg.width == 4 && cfg.height == 3 && cfg.actionInitTime == 0
    requires q.state == Game && q.actionTime == 0 && q.body == [Block(3, 3)]
    requires q.ground == [Block(1, 3)]
    ensures var t := ProcessPlayerTick(cfg, q, env);
      t == q.(ground := [Block(1, 3), Block(3, 3)], body := q.preBody, kind := q.preKind,
              preBody := env.next.blocks, preKind := env.next.kind)
  {
    var g := [Block(1, 3), Block(3, 3)];
    assert MoveDown(cfg, q, env.next).ground == g by {
      assert Translate(q.body, 0, 1) == [Block(3, 4)];
      assert Blocked(cfg, Translate(q.body, 0, 1)[0], q.ground);
    }
    assert FullRows(cfg, g) == [] by {
      assert g[..1] == [Block(1, 3)];
      forall y | 0 <= y <= cfg.height
        ensures RowCount(g, y) < cfg.width
      {
      }
      NoFullRows(cfg, g);
    }
  }

  /** A gravity tick locks a piece at (1, 3) onto the block already there. */
  lemma TickLocksOntoBlock(cfg: Config, q: Player, env: TickInputs)
    requires cfg.width == 4 && cfg.height == 3
    requires q.state == Game && q.actionTime == 0 && q.body == [Block(1, 3)]
    requires q.ground == [Block(1, 3), Block(3, 3)]
    ensures ProcessPlayerTick(cfg, q, env).ground == [Block(1, 3), Block(3, 3), Block(1, 3)]
  {
    var g := [Block(1, 3), Block(3, 3), Block(1, 3)];
    assert MoveDown(cfg, q, env.next).ground == g by {
      assert Translate(q.body, 0, 1) == [Block(1, 4)];
      assert Blocked(cfg, Translate(q.body, 0, 1)[0], q.ground);
    }
    assert FullRows(cfg, g) == [] by {
      assert g[..2] == [Block(1, 3), Block(3, 3)];
      assert g[..2][..1] == [Block(1, 3)];
      forall y | 0 <= y <= cfg.height
        ensures RowCount(g, y) < cfg.width
      {
      }
      NoFullRows(cfg, g);
    }
  }

  /** The lock counterexample's two ticks as the engine computes them: the first promotes
      the held piece onto (1, 3) and the second locks it there again. */
  lemma LockRunAsWritten(cfg: Config, p: Player, env: TickInputs)
    requires cfg.width == 4 && cfg.height == 3 && cfg.actionInitTime == 0
    requires p.state == Game && p.actionTime == 0 && p.body == [Block(3, 3)]
    requires p.preBody == [Block(1, 3)] && p.ground == [Block(1, 3)]
    requires Distinct(env.next.blocks)
    ensures EventsOk([Gravity(env), Gravity(env)])
    ensures RunAsWritten(cfg, p, [Gravity(env)]).ground == [Block(1, 3), Block(3, 3)]
    ensures RunAsWritten(cfg, p, [Gravity(env), Gravity(env)]).ground
            == [Block(1, 3), Block(3, 3), Block(1, 3)]
  {
    var es := [Gravity(env), Gravity(env)];
    assert EventsOk(es);
    TickLocksOnBottom(cfg, p, env);
    var t1 := ProcessPlayerTick(cfg, p, env);
    assert RunAsWritten(cfg, p, [Gravity(env)]) == RunAsWritten(cfg, t1, []);
    assert es[1..] == [Gravity(env)];
    assert RunAsWritten(cfg, p, es) == RunAsWritten(cfg, t1, [Gravity(env)]);
    TickLocksOntoBlock(cfg, t1, env);
  }

  /** The same two ticks with the spawn test: the first one ends the game, and the ground
      keeps no cell twice. */
  lemma SpawnTestStopsLockExample(cfg: Config, p: Player, env: TickInputs)
    requires cfg.width == 4 && cfg.height == 3 && cfg.actionInitTime == 0
    requires p.state == Game && p.actionTime == 0 && p.body == [Block(3, 3)]
    requires p.preBody == [Block(1, 3)] && p.ground == [Block(1, 3)]
    requires Distinct(env.next.blocks)
    ensures EventsOk([Gravity(env), Gravity(env)])
    ensures Run(cfg, p, [Gravity(env), Gravity(env)]).state == Lose
    ensures Run(cfg, p, [Gravity(env), Gravity(env)]).ground == [Block(1, 3), Block(3, 3)]
    ensures Distinct(Run(cfg, p, [Gravity(env), Gravity(env)]).ground)
  {
    var es := [Gravity(env), Gravity(env)];
    assert EventsOk(es);
    TickLocksOnBottom(cfg, p, env);
    var t1 := ProcessPlayerTick(cfg, p, env);
    assert Blocked(cfg, t1.body[0], t1.ground);
    var c1 := CheckedTick(cfg, p, env);
    assert c1 == t1.(state := Lose);
    assert es[1..] == [Gravity(env)];
    assert Run(cfg, p, es) == Run(cfg, c1, [Gravity(env)]);
  }

  /** The as-written counterexample for the lock: on a 4-wide, 3-high board a legal piece
      at (3, 3) locks and the held piece at (1, 3), on a ground block, is promoted
      unchecked; the second tick locks that cell a second time. No ground along the way has
      a block in row 1, so a game-over test after each tick would not end the game. */
  lemma LockPromotesOverlappingPiece(cfg: Config, p: Player, env: TickInputs)
    requires cfg.width == 4 && cfg.height == 3 && cfg.actionInitTime == 0
    requires p.state == Game && p.actionTime == 0 && p.body == [Block(3, 3)]
    requires p.preBody == [Block(1, 3)] && p.ground == [Block(1, 3)]
    requires env.next.blocks == [Block(2, 1)]
    ensures StackOk(cfg, p.ground) && InColumns(cfg, p.ground) && PieceLegal(cfg, p)
    ensures EventsOk([Gravity(env), Gravity(env)])
    ensures IsGameOver(p.ground) == Game
    ensures IsGameOver(RunAsWritten(cfg, p, [Gravity(env)]).ground) == Game
    ensures IsGameOver(RunAsWritten(cfg, p, [Gravity(env), Gravity(env)]).ground) == Game
    ensures !Distinct(RunAsWritten(cfg, p, [Gravity(env), Gravity(env)]).ground)
  {
    OneBlockStartLegal(cfg, p, Block(3, 3), Block(1, 3));
    LockRunAsWritten(cfg, p, env);
    var g := [Block(1, 3), Block(3, 3), Block(1, 3)];
    assert g[0] == g[2];
    RowOneEmptyIsGame([Block(1, 3)]);
    RowOneEmptyIsGame([Block(1, 3), Block(3, 3)]);
    RowOneEmptyIsGame(g);
  }
}
