/** Player moves: lateral shifts, rotation, gravity with lock-and-promote, hard drop. */
module Movement {
  import opened Geometry
  import opened Players

  /** insertBlockToGround: the blocks are appended after the settled ones. */
  function InsertBlockToGround(ground: seq<Block>, blocks: seq<Block>): (merged: seq<Block>)
    ensures |merged| == |ground| + |blocks|
    ensures merged[..|ground|] == ground && merged[|ground|..] == blocks
    ensures forall b :: b in merged <==> b in ground || b in blocks
  {
    ground + blocks
  }

  /** Appending a piece that does not collide and has no cell twice keeps the ground
      on the board and free of repeated cells. */
  lemma InsertKeepsGroundOk(cfg: Config, ground: seq<Block>, blocks: seq<Block>)
    requires GroundOk(cfg, ground)
    requires !Collides(cfg, blocks, ground) && Distinct(blocks)
    ensures GroundOk(cfg, InsertBlockToGround(ground, blocks))
  {
    var m := InsertBlockToGround(ground, blocks);
    forall i, j | 0 <= i < j < |m|
      ensures m[i] != m[j]
    {
      if i < |ground| && j >= |ground| {
        assert m[j] == blocks[j - |ground|];
        assert !Blocked(cfg, blocks[j - |ground|], ground);
        assert m[i] in ground;
      }
    }
    forall i | 0 <= i < |m|
      ensures InBounds(cfg, m[i])
    {
      if i >= |ground| {
        assert m[i] == blocks[i - |ground|];
        assert !Blocked(cfg, blocks[i - |ground|], ground);
      }
    }
  }

  /** Appending a piece that is apart from the ground also keeps the weaker invariant that
      garbage leaves behind, and keeps the ground in the columns when the piece is. */
  lemma InsertKeepsStackOk(cfg: Config, ground: seq<Block>, blocks: seq<Block>)
    requires StackOk(cfg, ground) && Apart(cfg, blocks, ground)
    ensures StackOk(cfg, InsertBlockToGround(ground, blocks))
    ensures InColumns(cfg, ground) && InColumns(cfg, blocks) ==>
      InColumns(cfg, InsertBlockToGround(ground, blocks))
  {
    var m := InsertBlockToGround(ground, blocks);
    forall i, j | 0 <= i < j < |m|
      ensures m[i] != m[j]
    {
      if i < |ground| && j >= |ground| {
        assert m[j] == blocks[j - |ground|];
        assert m[i] in ground;
      }
    }
    forall i | 0 <= i < |m|
      ensures m[i].y <= cfg.height
      ensures InColumns(cfg, ground) && InColumns(cfg, blocks) ==> 1 <= m[i].x <= cfg.width
    {
      if i >= |ground| {
        assert m[i] == blocks[i - |ground|];
      }
    }
  }

  /** The lock step shared by gravity and hard drop: the falling piece joins the ground,
      the held piece becomes the falling one, the generator's piece is held next, and the
      countdown restarts. */
  function Lock(cfg: Config, p: Player, next: Piece): (r: Player)
    ensures r.ground == InsertBlockToGround(p.ground, p.body)
    ensures r.body == p.preBody && r.kind == p.preKind
    ensures r.preBody == next.blocks && r.preKind == next.kind
    ensures r.actionTime == cfg.actionInitTime
    ensures r == p.(ground := r.ground, body := r.body, kind := r.kind, preBody := r.preBody,
                    preKind := r.preKind, actionTime := r.actionTime)
  {
    p.(ground := InsertBlockToGround(p.ground, p.body),
       body := p.preBody, kind := p.preKind,
       preBody := next.blocks, preKind := next.kind,
       actionTime := cfg.actionInitTime)
  }

  /** moveBlockDown: one row down if the shifted piece fits, otherwise lock. Either way the
      countdown restarts. `next` is what the piece generator would hand out. */
  function MoveDown(cfg: Config, p: Player, next: Piece): (r: Player)
    ensures r.actionTime == cfg.actionInitTime
    ensures !Collides(cfg, Translate(p.body, 0, 1), p.ground) ==>
      r == p.(body := Translate(p.body, 0, 1), actionTime := cfg.actionInitTime)
    ensures Collides(cfg, Translate(p.body, 0, 1), p.ground) ==> r == Lock(cfg, p, next)
  {
    var down := Translate(p.body, 0, 1);
    if Collides(cfg, down, p.ground) then Lock(cfg, p, next)
    else p.(body := down, actionTime := cfg.actionInitTime)
  }

  /** Gravity keeps the ground valid, and when it does not lock it keeps the piece legal. */
  lemma MoveDownKeepsInvariant(cfg: Config, p: Player, next: Piece)
    requires GroundOk(cfg, p.ground) && PieceLegal(cfg, p)
    ensures GroundOk(cfg, MoveDown(cfg, p, next).ground)
    ensures MoveDown(cfg, p, next).ground == p.ground ==> PieceLegal(cfg, MoveDown(cfg, p, next))
  {
    if Collides(cfg, Translate(p.body, 0, 1), p.ground) {
      InsertKeepsGroundOk(cfg, p.ground, p.body);
    } else {
      TranslateKeepsDistinct(p.body, 0, 1);
    }
  }

  /** Gravity keeps the weaker invariant whenever the piece is apart from the ground, even
      above the top; with a legal piece it also keeps the ground in the columns. */
  lemma MoveDownKeepsStackOk(cfg: Config, p: Player, next: Piece)
    requires StackOk(cfg, p.ground) && Apart(cfg, p.body, p.ground)
    ensures StackOk(cfg, MoveDown(cfg, p, next).ground)
    ensures InColumns(cfg, p.ground) && PieceLegal(cfg, p) ==>
      InColumns(cfg, MoveDown(cfg, p, next).ground)
  {
    if PieceLegal(cfg, p) {
      FitsIsApart(cfg, p.body, p.ground);
    }
    if Collides(cfg, Translate(p.body, 0, 1), p.ground) {
      InsertKeepsStackOk(cfg, p.ground, p.body);
    }
  }

  /** moveBlockLeft: the piece shifts one column left if that fits; otherwise the player is
      returned as it was. Nothing but the piece's blocks can change. */
  function MoveLeft(cfg: Config, p: Player): (r: Player)
    ensures r == p.(body := r.body)
    ensures r.body == p.body || (r.body == Translate(p.body, -1, 0) && !Collides(cfg, r.body, p.ground))
    ensures Collides(cfg, Translate(p.body, -1, 0), p.ground) ==> r == p
    ensures !Collides(cfg, Translate(p.body, -1, 0), p.ground) ==> r == p.(body := Translate(p.body, -1, 0))
    ensures PieceLegal(cfg, p) ==> PieceLegal(cfg, r)
  {
    var moved := Translate(p.body, -1, 0);
    TranslateKeepsDistinct(p.body, -1, 0);
    if !Collides(cfg, moved, p.ground) then p.(body := moved) else p
  }

  /** moveBlockRight: as moveBlockLeft, one column to the right. */
  function MoveRight(cfg: Config, p: Player): (r: Player)
    ensures r == p.(body := r.body)
    ensures r.body == p.body || (r.body == Translate(p.body, 1, 0) && !Collides(cfg, r.body, p.ground))
    ensures Collides(cfg, Translate(p.body, 1, 0), p.ground) ==> r == p
    ensures !Collides(cfg, Translate(p.body, 1, 0), p.ground) ==> r == p.(body := Translate(p.body, 1, 0))
    ensures PieceLegal(cfg, p) ==> PieceLegal(cfg, r)
  {
    var moved := Translate(p.body, 1, 0);
    TranslateKeepsDistinct(p.body, 1, 0);
    if !Collides(cfg, moved, p.ground) then p.(body := moved) else p
  }

  /** A legal piece that moved left moves back right to exactly where it was. */
  lemma LeftThenRightRestores(cfg: Config, p: Player)
    requires !Collides(cfg, p.body, p.ground)
    requires !Collides(cfg, Translate(p.body, -1, 0), p.ground)
    ensures MoveRight(cfg, MoveLeft(cfg, p)) == p
  {
    TranslateCompose(p.body, -1, 0, 1, 0);
    assert Translate(p.body, 0, 0) == p.body;
  }

  /** rotateBlock: a quarter turn about block 0 if it fits; an empty piece or a rotation that
      collides leaves the player as it was. There is no wall kick. */
  function RotateBlock(cfg: Config, p: Player): (r: Player)
    ensures r == p.(body := r.body)
    ensures r.body == p.body || (r.body == Rotate(p.body) && !Collides(cfg, r.body, p.ground))
    ensures Collides(cfg, Rotate(p.body), p.ground) ==> r == p
    ensures |p.body| == 0 ==> r == p
    ensures |p.body| > 0 && !Collides(cfg, Rotate(p.body), p.ground) ==> r == p.(body := Rotate(p.body))
    ensures |p.body| > 0 ==> |r.body| == |p.body| && r.body[0] == p.body[0]
    ensures PieceLegal(cfg, p) ==> PieceLegal(cfg, r)
  {
    if |p.body| == 0 then p
    else
      var turned := Rotate(p.body);
      RotateKeepsDistinct(p.body);
      if !Collides(cfg, turned, p.ground) then p.(body := turned) else p
  }

  /** The loop of dropBlock: how many rows the piece can fall before the next row would
      collide. The source loops without bound; the loop ends because each step moves
      block 0 one row closer to the bottom, which needs a non-empty piece: on an empty
      one the shifted piece never collides and the source never returns. */
  method DropDistance(cfg: Config, body: seq<Block>, ground: seq<Block>) returns (steps: nat)
    requires |body| > 0
    ensures forall k :: 1 <= k <= steps ==> !Collides(cfg, Translate(body, 0, k), ground)
    ensures Collides(cfg, Translate(body, 0, steps + 1), ground)
  {
    var cur := body;
    steps := 0;
    assert Translate(body, 0, 0) == body;
    while true
      invariant cur == Translate(body, 0, steps)
      invariant forall k :: 1 <= k <= steps ==> !Collides(cfg, Translate(body, 0, k), ground)
      decreases cfg.height - cur[0].y
    {
      var down := Translate(cur, 0, 1);
      TranslateCompose(body, 0, steps, 0, 1);
      if Collides(cfg, down, ground) {
        return;
      }
      FitsStaysOnBoard(cfg, down, ground);
      cur := down;
      steps := steps + 1;
    }
  }

  /** dropBlock: the piece falls as far as it fits and then locks as under gravity. */
  method HardDrop(cfg: Config, p: Player, next: Piece) returns (r: Player, steps: nat)
    requires |p.body| > 0
    ensures forall k :: 1 <= k <= steps ==> !Collides(cfg, Translate(p.body, 0, k), p.ground)
    ensures Collides(cfg, Translate(p.body, 0, steps + 1), p.ground)
    ensures r == Lock(cfg, p.(body := Translate(p.body, 0, steps)), next)
    ensures r.ground == p.ground + Translate(p.body, 0, steps)
    ensures GroundOk(cfg, p.ground) && PieceLegal(cfg, p) ==> GroundOk(cfg, r.ground)
  {
    steps := DropDistance(cfg, p.body, p.ground);
    var landed := Translate(p.body, 0, steps);
    LockKeepsGroundOk(cfg, p, landed, steps, next);
    r := Lock(cfg, p.(body := landed), next);
  }

  lemma FitsStaysOnBoard(cfg: Config, body: seq<Block>, ground: seq<Block>)
    requires |body| > 0 && !Collides(cfg, body, ground)
    ensures body[0].y <= cfg.height
  {
    assert !Blocked(cfg, body[0], ground);
  }

  lemma LockKeepsGroundOk(cfg: Config, p: Player, body: seq<Block>, steps: nat, next: Piece)
    requires body == Translate(p.body, 0, steps)
    requires steps > 0 ==> !Collides(cfg, body, p.ground)
    ensures GroundOk(cfg, p.ground) && PieceLegal(cfg, p) ==> GroundOk(cfg, Lock(cfg, p.(body := body), next).ground)
  {
    if GroundOk(cfg, p.ground) && PieceLegal(cfg, p) {
      TranslateKeepsDistinct(p.body, 0, steps);
      if steps == 0 {
        assert body == p.body;
      }
      InsertKeepsGroundOk(cfg, p.ground, body);
    }
  }
}
