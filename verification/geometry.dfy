/** Board geometry of the falling-block server: cells, board constants, the collision
    test and the piece transforms it admits, and row counting. */
module Geometry {

  /** One cell of the board. Columns grow to the right and rows grow downwards:
      row 1 is the top row and row `height` the bottom one. */
  datatype Block = Block(x: int, y: int)

  /** The constants the server reads from its configuration module. */
  datatype Config = Config(
    width: int,
    height: int,
    actionInitTime: int,
    comboTimeout: int,
    garbageHoleCount: int,
    expThresholds: seq<int>,
    luckyDiamond: real,
    luckyStar: real,
    luckyGift: real)
  {
    /** What the rest of the model assumes of the configuration. */
    predicate Valid() {
      && width >= 1
      && height >= 1
      && 1 <= garbageHoleCount <= width
    }
  }

  predicate InBounds(cfg: Config, b: Block) {
    1 <= b.x <= cfg.width && 1 <= b.y <= cfg.height
  }

  predicate AllInBounds(cfg: Config, s: seq<Block>) {
    forall i :: 0 <= i < |s| ==> InBounds(cfg, s[i])
  }

  /** No two entries share a cell. */
  predicate Distinct(s: seq<Block>) {
    forall i, j :: 0 <= i < j < |s| ==> s[i] != s[j]
  }

  /** The invariant settled blocks are meant to keep: on the board, no cell twice. */
  predicate GroundOk(cfg: Config, g: seq<Block>) {
    Distinct(g) && AllInBounds(cfg, g)
  }

  /** The weaker invariant that survives garbage: not below the bottom row and no cell
      twice. Rows above the top are allowed, since garbage can push settled blocks there and
      the game-over test looks at row 1 only; columns are not constrained, since the opening
      rows use column 0. */
  predicate StackOk(cfg: Config, g: seq<Block>) {
    && Distinct(g)
    && forall i :: 0 <= i < |g| ==> g[i].y <= cfg.height
  }

  /** Every block lies in one of the board's columns 1..width. */
  predicate InColumns(cfg: Config, g: seq<Block>) {
    forall i :: 0 <= i < |g| ==> 1 <= g[i].x <= cfg.width
  }

  /** A piece that can still join `ground` without repeating a cell or landing below the
      bottom row: its own cells are distinct and none of them is settled already. */
  predicate Apart(cfg: Config, body: seq<Block>, ground: seq<Block>) {
    && Distinct(body)
    && forall i :: 0 <= i < |body| ==> body[i].y <= cfg.height && body[i] !in ground
  }

  /** A candidate block that the collision test rejects. */
  predicate Blocked(cfg: Config, b: Block, ground: seq<Block>) {
    !InBounds(cfg, b) || b in ground
  }

  /** The inner scan of the collision test: does `b` sit on a settled block? */
  function OnGround(b: Block, ground: seq<Block>): (hit: bool)
    ensures hit <==> b in ground
  {
    if |ground| == 0 then false
    else if b.x == ground[0].x && b.y == ground[0].y then true
    else OnGround(b, ground[1..])
  }

  /** checkCollision: the first block of the candidate that leaves the board or sits
      on a settled block makes it collide; an empty candidate never collides. */
  function Collides(cfg: Config, body: seq<Block>, ground: seq<Block>): (hit: bool)
    ensures hit <==> exists i :: 0 <= i < |body| && Blocked(cfg, body[i], ground)
  {
    if |body| == 0 then false
    else if !InBounds(cfg, body[0]) then true
    else if OnGround(body[0], ground) then true
    else Collides(cfg, body[1..], ground)
  }

  /** A piece that passes the collision test and has no cell twice is apart from the
      ground and inside the columns. */
  lemma FitsIsApart(cfg: Config, body: seq<Block>, ground: seq<Block>)
    requires !Collides(cfg, body, ground) && Distinct(body)
    ensures Apart(cfg, body, ground) && InColumns(cfg, body)
  {
    forall i | 0 <= i < |body|
      ensures InBounds(cfg, body[i]) && body[i] !in ground
    {
      assert !Blocked(cfg, body[i], ground);
    }
  }

  /** Every block shifted by (dx, dy). */
  function Translate(body: seq<Block>, dx: int, dy: int): (moved: seq<Block>)
    ensures |moved| == |body|
  {
    seq(|body|, i requires 0 <= i < |body| => Block(body[i].x + dx, body[i].y + dy))
  }

  /** Every block moves by exactly (dx, dy), and keeps its place in the piece. */
  lemma TranslateShifts(body: seq<Block>, dx: int, dy: int)
    ensures forall i :: 0 <= i < |body| ==>
      Translate(body, dx, dy)[i].x - body[i].x == dx && Translate(body, dx, dy)[i].y - body[i].y == dy
  {
  }

  lemma TranslateCompose(body: seq<Block>, dx1: int, dy1: int, dx2: int, dy2: int)
    ensures Translate(Translate(body, dx1, dy1), dx2, dy2) == Translate(body, dx1 + dx2, dy1 + dy2)
  {
  }

  lemma TranslateKeepsDistinct(body: seq<Block>, dx: int, dy: int)
    ensures Distinct(body) ==> Distinct(Translate(body, dx, dy))
  {
  }

  /** Two lists of distinct cells that share no cell join into one. */
  lemma DistinctAppend(a: seq<Block>, b: seq<Block>)
    requires Distinct(a) && Distinct(b)
    requires forall i, j :: 0 <= i < |a| && 0 <= j < |b| ==> a[i] != b[j]
    ensures Distinct(a + b)
  {
    var ab := a + b;
    forall i, j | 0 <= i < j < |ab|
      ensures ab[i] != ab[j]
    {
      if j >= |a| {
        assert ab[j] == b[j - |a|];
        if i >= |a| {
          assert ab[i] == b[i - |a|];
        }
      }
    }
  }

  /** Squared distance between two cells. */
  function Dist2(a: Block, b: Block): int {
    (b.x - a.x) * (b.x - a.x) + (b.y - a.y) * (b.y - a.y)
  }

  /** Quarter turn of `b` about the pivot `c`. */
  function RotateAbout(c: Block, b: Block): Block {
    Block(c.x - (b.y - c.y), c.y + (b.x - c.x))
  }

  /** rotateBlock's transform: every block turned about block 0; an empty body stays
      as it is. */
  function Rotate(body: seq<Block>): (turned: seq<Block>)
    ensures |turned| == |body|
    ensures |body| > 0 ==> turned[0] == body[0]
    ensures forall i :: 0 <= i < |body| ==> Dist2(body[0], turned[i]) == Dist2(body[0], body[i])
  {
    if |body| == 0 then body
    else seq(|body|, i requires 0 <= i < |body| => RotateAbout(body[0], body[i]))
  }

  /** Block 0 is the pivot and does not move. */
  lemma RotateKeepsPivot(body: seq<Block>)
    requires |body| > 0
    ensures Rotate(body)[0] == body[0]
  {
  }

  /** Four quarter turns bring a piece back to where it started. */
  lemma RotateFourTimes(body: seq<Block>)
    ensures Rotate(Rotate(Rotate(Rotate(body)))) == body
  {
    if |body| > 0 {
      var r1 := Rotate(body);
      var r2 := Rotate(r1);
      var r3 := Rotate(r2);
      var r4 := Rotate(r3);
      assert r1[0] == body[0] && r2[0] == body[0] && r3[0] == body[0];
      forall i | 0 <= i < |body|
        ensures r4[i] == body[i]
      {
        assert r4[i] == RotateAbout(body[0], RotateAbout(body[0], RotateAbout(body[0], RotateAbout(body[0], body[i]))));
      }
    }
  }

  lemma RotateKeepsDistinct(body: seq<Block>)
    ensures Distinct(body) ==> Distinct(Rotate(body))
  {
  }

  lemma MulStep(n: int, w: int)
    ensures (n + 1) * w == n * w + w
  {
  }

  /** Number of blocks of `s` that lie in row `y`. */
  function RowCount(s: seq<Block>, y: int): (n: nat)
    ensures n <= |s|
  {
    if |s| == 0 then 0
    else RowCount(s[..|s| - 1], y) + (if s[|s| - 1].y == y then 1 else 0)
  }

  lemma {:induction false} RowCountAppend(a: seq<Block>, b: seq<Block>, y: int)
    ensures RowCount(a + b, y) == RowCount(a, y) + RowCount(b, y)
    decreases |b|
  {
    if |b| == 0 {
      assert a + b == a;
    } else {
      assert (a + b)[..|a + b| - 1] == a + b[..|b| - 1];
      RowCountAppend(a, b[..|b| - 1], y);
    }
  }

  /** A sequence lying in a single row `y0` counts all its blocks there and none elsewhere. */
  lemma {:induction false} RowCountOfRow(s: seq<Block>, y0: int, y: int)
    requires forall i :: 0 <= i < |s| ==> s[i].y == y0
    ensures RowCount(s, y) == if y == y0 then |s| else 0
  {
    if |s| > 0 {
      RowCountOfRow(s[..|s| - 1], y0, y);
    }
  }

  /** The hole columns that fall in `lo..hi`. */
  function HoleSet(holes: seq<int>, lo: int, hi: int): set<int> {
    set h | h in holes && lo <= h <= hi
  }

  /** The blocks of row `y` in columns `lo..hi`, in ascending column order, leaving out
      the hole columns: the shape of both garbage rows and the initial rows. */
  function RowWithHoles(y: int, lo: int, hi: int, holes: seq<int>): (row: seq<Block>)
    ensures |row| <= if lo <= hi then hi - lo + 1 else 0
    decreases hi - lo + 1
  {
    if lo > hi then []
    else (if lo in holes then [] else [Block(lo, y)]) + RowWithHoles(y, lo + 1, hi, holes)
  }

  /** Every block of a row lies in row `y` and in columns `lo..hi`. */
  lemma {:induction false} RowWithHolesPlacement(y: int, lo: int, hi: int, holes: seq<int>)
    ensures forall i :: 0 <= i < |RowWithHoles(y, lo, hi, holes)| ==>
      RowWithHoles(y, lo, hi, holes)[i].y == y && lo <= RowWithHoles(y, lo, hi, holes)[i].x <= hi
    decreases hi - lo + 1
  {
    if lo <= hi {
      RowWithHolesPlacement(y, lo + 1, hi, holes);
      var rest := RowWithHoles(y, lo + 1, hi, holes);
      var head: seq<Block> := if lo in holes then [] else [Block(lo, y)];
      var row := head + rest;
      assert row == RowWithHoles(y, lo, hi, holes);
      forall i | 0 <= i < |row|
        ensures row[i].y == y && lo <= row[i].x <= hi
      {
        if i >= |head| {
          assert row[i] == rest[i - |head|];
        }
      }
    }
  }

  /** A row holds exactly the non-hole columns of `lo..hi`, all in row `y`. */
  lemma {:induction false} RowWithHolesMembers(y: int, lo: int, hi: int, holes: seq<int>)
    ensures forall b :: b in RowWithHoles(y, lo, hi, holes) <==> b.y == y && lo <= b.x <= hi && b.x !in holes
    decreases hi - lo + 1
  {
    if lo <= hi {
      RowWithHolesMembers(y, lo + 1, hi, holes);
      var rest := RowWithHoles(y, lo + 1, hi, holes);
      var head: seq<Block> := if lo in holes then [] else [Block(lo, y)];
      assert head + rest == RowWithHoles(y, lo, hi, holes);
    }
  }

  /** The blocks of a row come left to right. */
  lemma {:induction false} RowWithHolesAscending(y: int, lo: int, hi: int, holes: seq<int>)
    ensures forall i, j :: 0 <= i < j < |RowWithHoles(y, lo, hi, holes)| ==>
      RowWithHoles(y, lo, hi, holes)[i].x < RowWithHoles(y, lo, hi, holes)[j].x
    decreases hi - lo + 1
  {
    if lo <= hi {
      RowWithHolesAscending(y, lo + 1, hi, holes);
      RowWithHolesPlacement(y, lo + 1, hi, holes);
      var rest := RowWithHoles(y, lo + 1, hi, holes);
      var head: seq<Block> := if lo in holes then [] else [Block(lo, y)];
      var row := head + rest;
      assert row == RowWithHoles(y, lo, hi, holes);
      forall i, j | 0 <= i < j < |row|
        ensures row[i].x < row[j].x
      {
        if i >= |head| {
          assert row[i] == rest[i - |head|] && row[j] == rest[j - |head|];
        } else {
          assert row[j] == rest[j - |head|];
        }
      }
    }
  }

  /** A row holds exactly the non-hole columns of `lo..hi`, all in row `y`, left to right. */
  lemma RowWithHolesShape(y: int, lo: int, hi: int, holes: seq<int>)
    ensures forall b :: b in RowWithHoles(y, lo, hi, holes) <==> b.y == y && lo <= b.x <= hi && b.x !in holes
    ensures forall i :: 0 <= i < |RowWithHoles(y, lo, hi, holes)| ==>
      RowWithHoles(y, lo, hi, holes)[i].y == y && lo <= RowWithHoles(y, lo, hi, holes)[i].x <= hi
    ensures forall i, j :: 0 <= i < j < |RowWithHoles(y, lo, hi, holes)| ==>
      RowWithHoles(y, lo, hi, holes)[i].x < RowWithHoles(y, lo, hi, holes)[j].x
  {
    RowWithHolesMembers(y, lo, hi, holes);
    RowWithHolesPlacement(y, lo, hi, holes);
    RowWithHolesAscending(y, lo, hi, holes);
  }

  /** A row keeps every column of `lo..hi` except the holes that fall in that range. */
  lemma {:induction false} RowWithHolesSize(y: int, lo: int, hi: int, holes: seq<int>)
    requires lo <= hi + 1
    ensures |RowWithHoles(y, lo, hi, holes)| + |HoleSet(holes, lo, hi)| == hi - lo + 1
    decreases hi - lo + 1
  {
    if lo <= hi {
      RowWithHolesSize(y, lo + 1, hi, holes);
      var rest := HoleSet(holes, lo + 1, hi);
      assert lo !in rest;
      if lo in holes {
        assert HoleSet(holes, lo, hi) == rest + {lo};
      } else {
        assert HoleSet(holes, lo, hi) == rest;
      }
    } else {
      assert HoleSet(holes, lo, hi) == {};
    }
  }

  predicate DistinctInts(s: seq<int>) {
    forall i, j :: 0 <= i < j < |s| ==> s[i] != s[j]
  }

  /** Distinct holes, all inside `lo..hi`, remove exactly as many columns as there are holes. */
  lemma {:induction false} DistinctHolesSize(holes: seq<int>, lo: int, hi: int)
    requires DistinctInts(holes)
    requires forall i :: 0 <= i < |holes| ==> lo <= holes[i] <= hi
    ensures |HoleSet(holes, lo, hi)| == |holes|
  {
    if |holes| == 0 {
      assert HoleSet(holes, lo, hi) == {};
    } else {
      var pre := holes[..|holes| - 1];
      var last := holes[|holes| - 1];
      DistinctHolesSize(pre, lo, hi);
      assert last !in HoleSet(pre, lo, hi);
      assert HoleSet(holes, lo, hi) == HoleSet(pre, lo, hi) + {last};
    }
  }
}
