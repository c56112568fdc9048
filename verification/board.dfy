/** Start-of-game and end-of-game checks on the settled blocks. */
module Board {
  import opened Geometry
  import opened Players
  import opened LineClear

  /** isGameOver: the board is lost as soon as a settled block sits in row 1. The scan
      looks for row 1 only: a block pushed above the board (row 0 or less) is not seen. */
  function IsGameOver(ground: seq<Block>): (s: PlayState)
    ensures s == Game || s == Lose
    ensures s == Lose <==> exists i :: 0 <= i < |ground| && ground[i].y == 1
  {
    if |ground| == 0 then Game
    else if ground[0].y == 1 then Lose
    else IsGameOver(ground[1..])
  }

  /** A block above the top row does not end the game by itself. */
  lemma GameOverMissesBlocksAboveTop()
    ensures IsGameOver([Block(3, 0), Block(3, -1)]) == Game
  {
  }

  /** The three draws behind one row's holes: `floor(Date.now() * Math.random())` values,
      reduced modulo the width; the second is redrawn once if it equals the first. */
  datatype HoleDraw = HoleDraw(first: nat, second: nat, retry: nat)

  function InitialHoles(cfg: Config, d: HoleDraw): (holes: seq<int>)
    requires cfg.Valid()
    ensures |holes| == 2
    ensures forall i :: 0 <= i < 2 ==> 0 <= holes[i] < cfg.width
  {
    var r1 := d.first % cfg.width;
    var r2 := d.second % cfg.width;
    [r1, if r1 == r2 then d.retry % cfg.width else r2]
  }

  /** Row `ya` followed by row `yb`, both over columns `lo..hi` with their own holes. */
  function TwoRows(ya: int, yb: int, lo: int, hi: int, ha: seq<int>, hb: seq<int>): seq<Block> {
    RowWithHoles(ya, lo, hi, ha) + RowWithHoles(yb, lo, hi, hb)
  }

  /** getInitialGroundBlocks: the bottom two rows, each filled in columns 0..width-1
      except its one or two holes. These columns are shifted by one from the 1..width
      every other operation uses. */
  function InitialGround(cfg: Config, bottom: HoleDraw, above: HoleDraw): seq<Block>
    requires cfg.Valid()
  {
    TwoRows(cfg.height, cfg.height - 1, 0, cfg.width - 1, InitialHoles(cfg, bottom), InitialHoles(cfg, above))
  }

  /** The initial ground is rows height and height-1, each filled in columns 0..width-1
      except its holes. */
  lemma InitialGroundMembers(cfg: Config, bottom: HoleDraw, above: HoleDraw)
    requires cfg.Valid()
    ensures forall b :: b in InitialGround(cfg, bottom, above) <==>
      || (b.y == cfg.height && 0 <= b.x < cfg.width && b.x !in InitialHoles(cfg, bottom))
      || (b.y == cfg.height - 1 && 0 <= b.x < cfg.width && b.x !in InitialHoles(cfg, above))
  {
    RowWithHolesMembers(cfg.height, 0, cfg.width - 1, InitialHoles(cfg, bottom));
    RowWithHolesMembers(cfg.height - 1, 0, cfg.width - 1, InitialHoles(cfg, above));
  }

  /** A row whose first hole lies inside its column range misses at least that column. */
  lemma RowShortByHole(y: int, lo: int, hi: int, holes: seq<int>)
    requires |holes| > 0 && lo <= holes[0] <= hi
    ensures |RowWithHoles(y, lo, hi, holes)| <= hi - lo
  {
    RowWithHolesSize(y, lo, hi, holes);
    assert holes[0] in HoleSet(holes, lo, hi);
  }

  /** Such a row counts fewer than `hi - lo + 1` blocks in its own row and none elsewhere. */
  lemma HoledRowCount(y0: int, lo: int, hi: int, holes: seq<int>, y: int)
    requires |holes| > 0 && lo <= holes[0] <= hi
    ensures RowCount(RowWithHoles(y0, lo, hi, holes), y) <= hi - lo
    ensures y != y0 ==> RowCount(RowWithHoles(y0, lo, hi, holes), y) == 0
  {
    RowWithHolesPlacement(y0, lo, hi, holes);
    RowCountOfRow(RowWithHoles(y0, lo, hi, holes), y0, y);
    RowShortByHole(y0, lo, hi, holes);
  }

  /** Each initial row has at least one hole, so neither holds `width` blocks; every other
      row holds none. */
  lemma InitialRowsNotFull(cfg: Config, bottom: HoleDraw, above: HoleDraw, y: int)
    requires cfg.Valid()
    ensures RowCount(InitialGround(cfg, bottom, above), y) < cfg.width
  {
    var h1 := InitialHoles(cfg, bottom);
    var h2 := InitialHoles(cfg, above);
    var rows := TwoRows(cfg.height, cfg.height - 1, 0, cfg.width - 1, h1, h2);
    TwoHoledRowsNotFull(cfg.height, cfg.height - 1, 0, cfg.width - 1, h1, h2, y);
    assert RowCount(rows, y) < cfg.width;
    assert InitialGround(cfg, bottom, above) == rows;
  }

  /** Two different rows over columns `lo..hi`, each with a hole inside, hold fewer than
      `hi - lo + 1` blocks in every row. */
  lemma TwoHoledRowsNotFull(ya: int, yb: int, lo: int, hi: int, ha: seq<int>, hb: seq<int>, y: int)
    requires ya != yb
    requires |ha| > 0 && lo <= ha[0] <= hi
    requires |hb| > 0 && lo <= hb[0] <= hi
    ensures RowCount(TwoRows(ya, yb, lo, hi, ha, hb), y) < hi - lo + 1
  {
    var rowA := RowWithHoles(ya, lo, hi, ha);
    var rowB := RowWithHoles(yb, lo, hi, hb);
    RowCountAppend(rowA, rowB, y);
    HoledRowCount(ya, lo, hi, ha, y);
    HoledRowCount(yb, lo, hi, hb, y);
  }

  /** Unless a hole falls on column 0, the initial ground has a block off the left edge. */
  lemma InitialGroundUsesColumnZero(cfg: Config, bottom: HoleDraw, above: HoleDraw)
    requires cfg.Valid()
    requires 0 !in InitialHoles(cfg, bottom)
    ensures Block(0, cfg.height) in InitialGround(cfg, bottom, above)
    ensures !AllInBounds(cfg, InitialGround(cfg, bottom, above))
  {
    var g := InitialGround(cfg, bottom, above);
    InitialGroundMembers(cfg, bottom, above);
    assert Block(0, cfg.height) in g;
    var i :| 0 <= i < |g| && g[i] == Block(0, cfg.height);
    assert !InBounds(cfg, g[i]);
  }

  /** On a 3-wide board, draws that leave column 1 of the bottom row empty still let that
      row clear once a piece lands in column 3: the off-board block in column 0 makes up
      the count. */
  lemma InitialGroundClearsWithGap()
    ensures var cfg := Config(3, 3, 5, 3000, 1, [], 0.01, 0.06, 0.16);
      var g := InitialGround(cfg, HoleDraw(1, 1, 1), HoleDraw(0, 1, 0));
      var landed := g + [Block(3, 3)];
      && !GroundOk(cfg, g)
      && !Collides(cfg, [Block(3, 3)], g)
      && Block(1, 3) !in landed
      && RowCount(landed, 3) == cfg.width
      && 3 in FullRows(cfg, landed)
  {
    var cfg := Config(3, 3, 5, 3000, 1, [], 0.01, 0.06, 0.16);
    var g := InitialGround(cfg, HoleDraw(1, 1, 1), HoleDraw(0, 1, 0));
    assert InitialHoles(cfg, HoleDraw(1, 1, 1)) == [1, 1];
    assert InitialHoles(cfg, HoleDraw(0, 1, 0)) == [0, 1];
    assert RowWithHoles(3, 0, 2, [1, 1]) == [Block(0, 3), Block(2, 3)];
    assert RowWithHoles(2, 0, 2, [0, 1]) == [Block(2, 2)];
    assert g == [Block(0, 3), Block(2, 3), Block(2, 2)];
    assert !InBounds(cfg, g[0]);
    var landed := g + [Block(3, 3)];
    assert landed[..3] == g;
    assert g[..2] == [Block(0, 3), Block(2, 3)];
    assert g[..2][..1] == [Block(0, 3)];
    assert RowCount([Block(0, 3)], 3) == 1;
    assert RowCount(g[..2], 3) == 2;
    assert RowCount(g, 3) == 2;
  }

  /** The hole draws as board columns: draw `h` leaves column `h + 1` empty. */
  function OneBased(holes: seq<int>): (cols: seq<int>)
    ensures |cols| == |holes|
    ensures forall i :: 0 <= i < |holes| ==> cols[i] == holes[i] + 1
    ensures forall x :: x in cols <==> x - 1 in holes
  {
    var cols := seq(|holes|, i requires 0 <= i < |holes| => holes[i] + 1);
    assert forall x :: x - 1 in holes ==> x in cols by {
      forall x | x - 1 in holes
        ensures x in cols
      {
        var i :| 0 <= i < |holes| && holes[i] == x - 1;
        assert cols[i] == x;
      }
    }
    cols
  }

  /** The initial ground on the columns every other operation uses, 1..width: the two bottom
      rows, each missing the columns its draws pick. */
  function InitialGroundOnBoard(cfg: Config, bottom: HoleDraw, above: HoleDraw): seq<Block>
    requires cfg.Valid()
  {
    TwoRows(cfg.height, cfg.height - 1, 1, cfg.width,
            OneBased(InitialHoles(cfg, bottom)), OneBased(InitialHoles(cfg, above)))
  }

  /** The corrected initial ground is rows height and height-1, each filled in columns
      1..width except the columns its draws pick. */
  lemma InitialGroundOnBoardMembers(cfg: Config, bottom: HoleDraw, above: HoleDraw)
    requires cfg.Valid()
    ensures forall b :: b in InitialGroundOnBoard(cfg, bottom, above) <==>
      || (b.y == cfg.height && 1 <= b.x <= cfg.width && b.x - 1 !in InitialHoles(cfg, bottom))
      || (b.y == cfg.height - 1 && 1 <= b.x <= cfg.width && b.x - 1 !in InitialHoles(cfg, above))
  {
    RowWithHolesMembers(cfg.height, 1, cfg.width, OneBased(InitialHoles(cfg, bottom)));
    RowWithHolesMembers(cfg.height - 1, 1, cfg.width, OneBased(InitialHoles(cfg, above)));
  }

  /** On a board of at least two rows the corrected initial ground is on the board with no
      cell twice, so every later full row really has all of its columns filled. */
  lemma InitialGroundOnBoardOk(cfg: Config, bottom: HoleDraw, above: HoleDraw)
    requires cfg.Valid() && cfg.height >= 2
    ensures GroundOk(cfg, InitialGroundOnBoard(cfg, bottom, above))
  {
    var cb := OneBased(InitialHoles(cfg, bottom));
    var ca := OneBased(InitialHoles(cfg, above));
    var rows := TwoRows(cfg.height, cfg.height - 1, 1, cfg.width, cb, ca);
    TwoRowsGroundOk(cfg, cfg.height, cfg.height - 1, cb, ca);
    assert GroundOk(cfg, rows);
    assert InitialGroundOnBoard(cfg, bottom, above) == rows;
  }

  /** Two different rows not below the bottom share no cell, whatever their columns. */
  lemma TwoRowsStackOk(cfg: Config, ya: int, yb: int, lo: int, hi: int, ha: seq<int>, hb: seq<int>)
    requires ya != yb && ya <= cfg.height && yb <= cfg.height
    ensures StackOk(cfg, TwoRows(ya, yb, lo, hi, ha, hb))
  {
    var rowA := RowWithHoles(ya, lo, hi, ha);
    var rowB := RowWithHoles(yb, lo, hi, hb);
    RowWithHolesPlacement(ya, lo, hi, ha);
    RowWithHolesPlacement(yb, lo, hi, hb);
    RowWithHolesAscending(ya, lo, hi, ha);
    RowWithHolesAscending(yb, lo, hi, hb);
    assert forall i, j :: 0 <= i < |rowA| && 0 <= j < |rowB| ==> rowA[i].y != rowB[j].y;
    DistinctAppend(rowA, rowB);
    var g := rowA + rowB;
    forall i | 0 <= i < |g|
      ensures g[i].y <= cfg.height
    {
      if i >= |rowA| {
        assert g[i] == rowB[i - |rowA|];
      }
    }
  }

  /** The opening ground, column 0 and all, has no cell twice and nothing below the bottom
      row, so it satisfies the weaker invariant the rest of a game is checked against. */
  lemma InitialGroundStackOk(cfg: Config, bottom: HoleDraw, above: HoleDraw)
    requires cfg.Valid()
    ensures StackOk(cfg, InitialGround(cfg, bottom, above))
    ensures Distinct(InitialGround(cfg, bottom, above))
  {
    var rows := TwoRows(cfg.height, cfg.height - 1, 0, cfg.width - 1,
                        InitialHoles(cfg, bottom), InitialHoles(cfg, above));
    TwoRowsStackOk(cfg, cfg.height, cfg.height - 1, 0, cfg.width - 1,
                   InitialHoles(cfg, bottom), InitialHoles(cfg, above));
    assert StackOk(cfg, rows);
    assert InitialGround(cfg, bottom, above) == rows;
  }

  /** Two different on-board rows over columns 1..width share no cell and leave no board. */
  lemma TwoRowsGroundOk(cfg: Config, ya: int, yb: int, ha: seq<int>, hb: seq<int>)
    requires ya != yb && 1 <= ya <= cfg.height && 1 <= yb <= cfg.height
    ensures GroundOk(cfg, TwoRows(ya, yb, 1, cfg.width, ha, hb))
  {
    var rowA := RowWithHoles(ya, 1, cfg.width, ha);
    var rowB := RowWithHoles(yb, 1, cfg.width, hb);
    var g := rowA + rowB;
    RowWithHolesPlacement(ya, 1, cfg.width, ha);
    RowWithHolesPlacement(yb, 1, cfg.width, hb);
    RowWithHolesAscending(ya, 1, cfg.width, ha);
    RowWithHolesAscending(yb, 1, cfg.width, hb);
    forall i | 0 <= i < |g|
      ensures InBounds(cfg, g[i])
    {
      if i >= |rowA| {
        assert g[i] == rowB[i - |rowA|];
      }
    }
    forall i, j | 0 <= i < j < |g|
      ensures g[i] != g[j]
    {
      if j < |rowA| {
        assert g[i].x < g[j].x;
      } else if i >= |rowA| {
        assert g[i] == rowB[i - |rowA|] && g[j] == rowB[j - |rowA|];
      } else {
        assert g[j] == rowB[j - |rowA|];
      }
    }
  }

  /** The corrected initial ground has no full row either. */
  lemma InitialGroundOnBoardNotFull(cfg: Config, bottom: HoleDraw, above: HoleDraw, y: int)
    requires cfg.Valid()
    ensures RowCount(InitialGroundOnBoard(cfg, bottom, above), y) < cfg.width
  {
    var cb := OneBased(InitialHoles(cfg, bottom));
    var ca := OneBased(InitialHoles(cfg, above));
    var rows := TwoRows(cfg.height, cfg.height - 1, 1, cfg.width, cb, ca);
    TwoHoledRowsNotFull(cfg.height, cfg.height - 1, 1, cfg.width, cb, ca, y);
    assert RowCount(rows, y) < cfg.width;
    assert InitialGroundOnBoard(cfg, bottom, above) == rows;
  }
}
