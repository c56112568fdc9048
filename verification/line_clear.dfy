/** clearLines: finding the full rows, removing them, and letting the blocks above fall. */
module LineClear {
  import opened Geometry

  predicate StrictlyAscending(s: seq<int>) {
    forall i, j :: 0 <= i < j < |s| ==> s[i] < s[j]
  }

  /** The rows of `lo..height` that hold exactly `width` blocks, ascending. */
  function FullRowsFrom(cfg: Config, g: seq<Block>, lo: int): seq<int>
    decreases cfg.height - lo + 1
  {
    if lo > cfg.height then []
    else (if RowCount(g, lo) == cfg.width then [lo] else []) + FullRowsFrom(cfg, g, lo + 1)
  }

  lemma {:induction false} FullRowsFromSpec(cfg: Config, g: seq<Block>, lo: int)
    ensures forall r :: r in FullRowsFrom(cfg, g, lo) <==> lo <= r <= cfg.height && RowCount(g, r) == cfg.width
    ensures StrictlyAscending(FullRowsFrom(cfg, g, lo))
    decreases cfg.height - lo + 1
  {
    if lo <= cfg.height {
      var rest := FullRowsFrom(cfg, g, lo + 1);
      FullRowsFromSpec(cfg, g, lo + 1);
      assert forall i :: 0 <= i < |rest| ==> rest[i] in rest;
    }
  }

  /** The full rows among rows 0..height: exactly those holding `width` blocks, ascending. */
  function FullRows(cfg: Config, g: seq<Block>): (rows: seq<int>)
    ensures forall r :: r in rows <==> 0 <= r <= cfg.height && RowCount(g, r) == cfg.width
    ensures StrictlyAscending(rows)
  {
    FullRowsFromSpec(cfg, g, 0);
    FullRowsFrom(cfg, g, 0)
  }

  /** With no row of `lo..height` holding `width` blocks, none is reported full. */
  lemma {:induction false} NoFullRowsFrom(cfg: Config, g: seq<Block>, lo: int)
    requires forall y :: lo <= y <= cfg.height ==> RowCount(g, y) < cfg.width
    ensures FullRowsFrom(cfg, g, lo) == []
    decreases cfg.height - lo + 1
  {
    if lo <= cfg.height {
      NoFullRowsFrom(cfg, g, lo + 1);
    }
  }

  /** With no row holding `width` blocks there is nothing to clear. */
  lemma NoFullRows(cfg: Config, g: seq<Block>)
    requires forall y :: 0 <= y <= cfg.height ==> RowCount(g, y) < cfg.width
    ensures FullRows(cfg, g) == []
  {
    NoFullRowsFrom(cfg, g, 0);
  }

  /** The counting half of the source's detection: one counter per row 0..height, bumped
      once per block. A block outside rows 0..height bumps no counter (in JavaScript it
      writes past the counter array or under a negative key, and the entries it creates
      never equal the width). */
  method CountRows(cfg: Config, g: seq<Block>) returns (counts: seq<int>)
    requires cfg.height >= 0
    ensures |counts| == cfg.height + 1
    ensures forall r :: 0 <= r <= cfg.height ==> counts[r] == RowCount(g, r)
  {
    counts := seq(cfg.height + 1, _ => 0);
    var k := 0;
    while k < |g|
      invariant 0 <= k <= |g|
      invariant |counts| == cfg.height + 1
      invariant forall r :: 0 <= r <= cfg.height ==> counts[r] == RowCount(g[..k], r)
    {
      assert g[..k + 1][..k] == g[..k];
      var y := g[k].y;
      if 0 <= y <= cfg.height {
        counts := counts[y := counts[y] + 1];
      }
      k := k + 1;
    }
    assert g[..k] == g;
  }

  /** The source's detection: count, then collect the rows whose counter equals the width,
      in ascending order. It agrees with the row-by-row definition. */
  method DetectFullRows(cfg: Config, g: seq<Block>) returns (rows: seq<int>)
    requires cfg.height >= 0
    ensures rows == FullRows(cfg, g)
  {
    var counts := CountRows(cfg, g);
    rows := [];
    var i := 0;
    assert rows + FullRowsFrom(cfg, g, 0) == FullRowsFrom(cfg, g, 0);
    while i < |counts|
      invariant 0 <= i <= |counts|
      invariant rows + FullRowsFrom(cfg, g, i) == FullRowsFrom(cfg, g, 0)
    {
      var head := if RowCount(g, i) == cfg.width then [i] else [];
      assert FullRowsFrom(cfg, g, i) == head + FullRowsFrom(cfg, g, i + 1);
      assert rows + (head + FullRowsFrom(cfg, g, i + 1)) == (rows + head) + FullRowsFrom(cfg, g, i + 1);
      if counts[i] == cfg.width {
        rows := rows + [i];
      } else {
        assert rows + head == rows;
      }
      i := i + 1;
    }
    assert rows + [] == rows;
  }

  /** The blocks whose row is not among `rows`, in their original order. */
  function Survivors(g: seq<Block>, rows: seq<int>): (kept: seq<Block>)
    ensures |kept| <= |g|
    ensures forall b :: b in kept <==> b in g && b.y !in rows
  {
    if |g| == 0 then []
    else
      var pre := g[..|g| - 1];
      assert g == pre + [g[|g| - 1]];
      Survivors(pre, rows) + (if g[|g| - 1].y in rows then [] else [g[|g| - 1]])
  }

  lemma {:induction false} SurvivorsOfNoRows(g: seq<Block>)
    ensures Survivors(g, []) == g
  {
    if |g| > 0 {
      var pre := g[..|g| - 1];
      SurvivorsOfNoRows(pre);
      assert Survivors(g, []) == Survivors(pre, []) + [g[|g| - 1]];
      assert g == pre + [g[|g| - 1]];
    }
  }

  lemma {:induction false} SurvivorsKeepDistinct(g: seq<Block>, rows: seq<int>)
    requires Distinct(g)
    ensures Distinct(Survivors(g, rows))
  {
    if |g| > 0 {
      var pre := g[..|g| - 1];
      var last := g[|g| - 1];
      SurvivorsKeepDistinct(pre, rows);
      if last.y !in rows {
        var kept := Survivors(pre, rows);
        assert last !in pre;
        assert last !in kept;
        var all := kept + [last];
        forall i, j | 0 <= i < j < |all|
          ensures all[i] != all[j]
        {
          if j == |kept| {
            assert all[i] in kept;
          }
        }
      }
    }
  }

  /** A row that is not removed keeps all of its blocks. */
  lemma {:induction false} SurvivorsKeepRow(g: seq<Block>, rows: seq<int>, y: int)
    requires y !in rows
    ensures RowCount(Survivors(g, rows), y) == RowCount(g, y)
  {
    if |g| > 0 {
      var pre := g[..|g| - 1];
      var last := g[|g| - 1];
      SurvivorsKeepRow(pre, rows, y);
      if last.y !in rows {
        RowCountAppend(Survivors(pre, rows), [last], y);
      } else {
        assert Survivors(g, rows) == Survivors(pre, rows) + [];
        assert Survivors(pre, rows) + [] == Survivors(pre, rows);
      }
    }
  }

  /** How many entries of `rows` equal `v`. */
  function Occurrences(rows: seq<int>, v: int): nat {
    if |rows| == 0 then 0
    else Occurrences(rows[..|rows| - 1], v) + (if rows[|rows| - 1] == v then 1 else 0)
  }

  lemma {:induction false} OccurrencesOfDistinct(rows: seq<int>, v: int)
    requires DistinctInts(rows)
    ensures Occurrences(rows, v) == if v in rows then 1 else 0
  {
    if |rows| > 0 {
      var pre := rows[..|rows| - 1];
      OccurrencesOfDistinct(pre, v);
      assert rows == pre + [rows[|rows| - 1]];
    }
  }

  /** The number of blocks lying in any of `rows`, row by row. */
  function RowsCount(g: seq<Block>, rows: seq<int>): nat {
    if |rows| == 0 then 0
    else RowsCount(g, rows[..|rows| - 1]) + RowCount(g, rows[|rows| - 1])
  }

  lemma {:induction false} RowsCountSnoc(g: seq<Block>, b: Block, rows: seq<int>)
    ensures RowsCount(g + [b], rows) == RowsCount(g, rows) + Occurrences(rows, b.y)
  {
    if |rows| > 0 {
      var l := rows[|rows| - 1];
      RowsCountSnoc(g, b, rows[..|rows| - 1]);
      assert (g + [b])[..|g + [b]| - 1] == g;
    }
  }

  /** Removing the blocks of distinct rows removes exactly the blocks counted in them. */
  lemma {:induction false} SurvivorsSize(g: seq<Block>, rows: seq<int>)
    requires DistinctInts(rows)
    ensures |Survivors(g, rows)| + RowsCount(g, rows) == |g|
  {
    if |g| == 0 {
      RowsCountEmpty(rows);
    } else {
      var pre := g[..|g| - 1];
      var last := g[|g| - 1];
      SurvivorsSize(pre, rows);
      assert g == pre + [last];
      RowsCountSnoc(pre, last, rows);
      OccurrencesOfDistinct(rows, last.y);
    }
  }

  lemma {:induction false} RowsCountEmpty(rows: seq<int>)
    ensures RowsCount([], rows) == 0
  {
    if |rows| > 0 {
      RowsCountEmpty(rows[..|rows| - 1]);
    }
  }

  lemma {:induction false} RowsCountOfFullRows(cfg: Config, g: seq<Block>, rows: seq<int>)
    requires forall r :: r in rows ==> RowCount(g, r) == cfg.width
    ensures RowsCount(g, rows) == cfg.width * |rows|
  {
    if |rows| > 0 {
      var pre := rows[..|rows| - 1];
      assert forall r :: r in pre ==> r in rows;
      RowsCountOfFullRows(cfg, g, pre);
      assert rows[|rows| - 1] in rows;
      assert RowsCount(g, rows) == RowsCount(g, pre) + cfg.width;
      MulStep(|pre|, cfg.width);
      assert cfg.width * |rows| == |rows| * cfg.width;
    }
  }

  /** One pass of the compaction: a block above `line` falls one row. */
  function Lower(b: Block, line: int): Block {
    if b.y < line then Block(b.x, b.y + 1) else b
  }

  function ShiftDownAbove(board: seq<Block>, line: int): (moved: seq<Block>)
    ensures |moved| == |board|
  {
    seq(|board|, i requires 0 <= i < |board| => Lower(board[i], line))
  }

  /** The compaction loop: one pass per cleared row, in the order given. */
  function Compact(board: seq<Block>, lines: seq<int>): (settled: seq<Block>)
    ensures |settled| == |board|
    ensures forall i :: 0 <= i < |board| ==>
      settled[i].x == board[i].x && board[i].y <= settled[i].y <= board[i].y + |lines|
  {
    if |lines| == 0 then board
    else ShiftDownAbove(Compact(board, lines[..|lines| - 1]), lines[|lines| - 1])
  }

  /** Where row `y` ends up after the passes of `lines`. */
  function LandingRow(y: int, lines: seq<int>): int {
    if |lines| == 0 then y
    else
      var z := LandingRow(y, lines[..|lines| - 1]);
      if z < lines[|lines| - 1] then z + 1 else z
  }

  /** The passes move every block on its own: its column stays, its row lands. */
  lemma {:induction false} CompactPerBlock(board: seq<Block>, lines: seq<int>)
    ensures forall i :: 0 <= i < |board| ==>
      Compact(board, lines)[i] == Block(board[i].x, LandingRow(board[i].y, lines))
  {
    if |lines| > 0 {
      CompactPerBlock(board, lines[..|lines| - 1]);
    }
  }

  /** Number of entries of `lines` strictly below row `y` on screen, i.e. greater than `y`. */
  function CountAbove(lines: seq<int>, y: int): nat {
    if |lines| == 0 then 0
    else CountAbove(lines[..|lines| - 1], y) + (if lines[|lines| - 1] > y then 1 else 0)
  }

  lemma {:induction false} CountAboveNone(s: seq<int>, y: int)
    requires forall i :: 0 <= i < |s| ==> s[i] <= y
    ensures CountAbove(s, y) == 0
  {
    if |s| > 0 {
      CountAboveNone(s[..|s| - 1], y);
    }
  }

  /** Distinct ascending rows strictly between `y` and `l` number at most `l - 1 - y`. */
  lemma {:induction false} CountAboveBound(s: seq<int>, y: int, l: int)
    requires StrictlyAscending(s)
    requires forall i :: 0 <= i < |s| ==> s[i] < l
    requires y < l
    ensures CountAbove(s, y) <= l - 1 - y
  {
    if |s| > 0 {
      var pre := s[..|s| - 1];
      var e := s[|s| - 1];
      if e > y {
        CountAboveBound(pre, y, e);
      } else {
        CountAboveBound(pre, y, l);
      }
    }
  }

  /** Between two surviving rows a < b, at most b - a - 1 rows can be cleared. */
  lemma {:induction false} CountAboveGap(s: seq<int>, a: int, b: int)
    requires StrictlyAscending(s)
    requires a < b && b !in s
    ensures CountAbove(s, a) <= CountAbove(s, b) + (b - a - 1)
  {
    if |s| > 0 {
      var pre := s[..|s| - 1];
      var e := s[|s| - 1];
      if a < e < b {
        CountAboveNone(pre, b);
        CountAboveBound(pre, a, e);
      } else {
        assert e != b by { assert e in s; }
        CountAboveGap(pre, a, b);
      }
    }
  }

  /** Passing the cleared rows in ascending order moves a surviving row down by exactly the
      number of cleared rows beneath it, never more: the passes do not double-shift. */
  lemma {:induction false} LandingRowFormula(y: int, lines: seq<int>)
    requires StrictlyAscending(lines)
    requires y !in lines
    ensures LandingRow(y, lines) == y + CountAbove(lines, y)
  {
    if |lines| > 0 {
      var pre := lines[..|lines| - 1];
      var l := lines[|lines| - 1];
      LandingRowFormula(y, pre);
      if y < l {
        CountAboveBound(pre, y, l);
      } else {
        assert y != l by { assert l in lines; }
        CountAboveNone(pre, y);
      }
    }
  }

  /** Surviving rows keep their order and stay apart. */
  lemma LandingRowStrictlyIncreasing(a: int, b: int, lines: seq<int>)
    requires StrictlyAscending(lines)
    requires a < b && a !in lines && b !in lines
    ensures LandingRow(a, lines) < LandingRow(b, lines)
  {
    LandingRowFormula(a, lines);
    LandingRowFormula(b, lines);
    CountAboveGap(lines, a, b);
  }

  /** A surviving row on the board lands on the board when the cleared rows are rows 0..height. */
  lemma LandingRowOnBoard(cfg: Config, y: int, lines: seq<int>)
    requires StrictlyAscending(lines)
    requires forall i :: 0 <= i < |lines| ==> 0 <= lines[i] <= cfg.height
    requires 1 <= y <= cfg.height && y !in lines
    ensures y <= LandingRow(y, lines) <= cfg.height
  {
    LandingRowFormula(y, lines);
    CountAboveBound(lines, y, cfg.height + 1);
  }

  /** A surviving row not below the bottom does not fall below it either. */
  lemma LandingRowNotBelowBottom(cfg: Config, y: int, lines: seq<int>)
    requires StrictlyAscending(lines)
    requires forall i :: 0 <= i < |lines| ==> 0 <= lines[i] <= cfg.height
    requires y <= cfg.height && y !in lines
    ensures y <= LandingRow(y, lines) <= cfg.height
  {
    LandingRowFormula(y, lines);
    CountAboveBound(lines, y, cfg.height + 1);
  }

  datatype ClearResult = ClearResult(ground: seq<Block>, linesCleared: nat, clearedLineNumbers: seq<int>)

  /** clearLines: with no full row the ground comes back as it was; otherwise the full rows
      go, and the passes over the cleared rows let the blocks above them fall. */
  function ClearLines(cfg: Config, g: seq<Block>): (r: ClearResult)
    ensures r.clearedLineNumbers == FullRows(cfg, g)
    ensures r.linesCleared == |r.clearedLineNumbers|
    ensures r.linesCleared == 0 ==> r.ground == g
    ensures |r.ground| == |g| - cfg.width * r.linesCleared
  {
    var rows := FullRows(cfg, g);
    if |rows| == 0 then ClearResult(g, 0, [])
    else
      SurvivorsSize(g, rows);
      RowsCountOfFullRows(cfg, g, rows);
      ClearResult(Compact(Survivors(g, rows), rows), |rows|, rows)
  }

  /** The cleared ground is the surviving blocks, in order, each moved down by the number of
      cleared rows beneath it; no block of a cleared row survives. */
  lemma ClearMovesSurvivors(cfg: Config, g: seq<Block>)
    ensures var r := ClearLines(cfg, g);
            var kept := Survivors(g, r.clearedLineNumbers);
            && |r.ground| == |kept|
            && (forall b :: b in kept <==> b in g && b.y !in r.clearedLineNumbers)
            && forall i :: 0 <= i < |kept| ==>
                 r.ground[i] == Block(kept[i].x, kept[i].y + CountAbove(r.clearedLineNumbers, kept[i].y))
  {
    var r := ClearLines(cfg, g);
    var rows := r.clearedLineNumbers;
    var kept := Survivors(g, rows);
    if |rows| == 0 {
      SurvivorsOfNoRows(g);
    } else {
      CompactPerBlock(kept, rows);
      forall i | 0 <= i < |kept|
        ensures r.ground[i] == Block(kept[i].x, kept[i].y + CountAbove(rows, kept[i].y))
      {
        assert kept[i] in kept;
        LandingRowFormula(kept[i].y, rows);
      }
    }
  }

  /** Clearing keeps every block on the board and no cell twice. */
  lemma ClearKeepsGroundOk(cfg: Config, g: seq<Block>)
    requires GroundOk(cfg, g)
    ensures GroundOk(cfg, ClearLines(cfg, g).ground)
  {
    var r := ClearLines(cfg, g);
    var rows := r.clearedLineNumbers;
    var kept := Survivors(g, rows);
    ClearMovesSurvivors(cfg, g);
    SurvivorsKeepDistinct(g, rows);
    forall i | 0 <= i < |kept|
      ensures InBounds(cfg, kept[i]) && kept[i].y !in rows
    {
      assert kept[i] in kept;
      var j :| 0 <= j < |g| && g[j] == kept[i];
    }
    assert forall k :: 0 <= k < |rows| ==> 0 <= rows[k] <= cfg.height by {
      forall k | 0 <= k < |rows|
        ensures 0 <= rows[k] <= cfg.height
      {
        assert rows[k] in rows;
      }
    }
    forall i | 0 <= i < |kept|
      ensures InBounds(cfg, r.ground[i])
    {
      LandingRowOnBoard(cfg, kept[i].y, rows);
      LandingRowFormula(kept[i].y, rows);
    }
    forall i, j | 0 <= i < j < |kept|
      ensures r.ground[i] != r.ground[j]
    {
      LandingRowFormula(kept[i].y, rows);
      LandingRowFormula(kept[j].y, rows);
      if kept[i].y < kept[j].y {
        LandingRowStrictlyIncreasing(kept[i].y, kept[j].y, rows);
      } else if kept[j].y < kept[i].y {
        LandingRowStrictlyIncreasing(kept[j].y, kept[i].y, rows);
      }
    }
  }

  /** Clearing also keeps the weaker invariant that garbage leaves behind: blocks above the
      top row and outside the columns are moved like any other and no cell is repeated.
      Clearing never changes a column, so a ground in the columns stays there. */
  lemma ClearKeepsStackOk(cfg: Config, g: seq<Block>)
    requires StackOk(cfg, g)
    ensures StackOk(cfg, ClearLines(cfg, g).ground)
    ensures InColumns(cfg, g) ==> InColumns(cfg, ClearLines(cfg, g).ground)
  {
    var r := ClearLines(cfg, g);
    var rows := r.clearedLineNumbers;
    var kept := Survivors(g, rows);
    ClearMovesSurvivors(cfg, g);
    SurvivorsKeepDistinct(g, rows);
    forall i | 0 <= i < |kept|
      ensures kept[i].y <= cfg.height && kept[i].y !in rows
      ensures InColumns(cfg, g) ==> 1 <= kept[i].x <= cfg.width
    {
      assert kept[i] in kept;
      var j :| 0 <= j < |g| && g[j] == kept[i];
    }
    assert forall k :: 0 <= k < |rows| ==> 0 <= rows[k] <= cfg.height by {
      forall k | 0 <= k < |rows|
        ensures 0 <= rows[k] <= cfg.height
      {
        assert rows[k] in rows;
      }
    }
    forall i | 0 <= i < |kept|
      ensures r.ground[i].x == kept[i].x && r.ground[i].y <= cfg.height
    {
      LandingRowNotBelowBottom(cfg, kept[i].y, rows);
      LandingRowFormula(kept[i].y, rows);
    }
    forall i, j | 0 <= i < j < |kept|
      ensures r.ground[i] != r.ground[j]
    {
      LandingRowFormula(kept[i].y, rows);
      LandingRowFormula(kept[j].y, rows);
      if kept[i].y < kept[j].y {
        LandingRowStrictlyIncreasing(kept[i].y, kept[j].y, rows);
      } else if kept[j].y < kept[i].y {
        LandingRowStrictlyIncreasing(kept[j].y, kept[i].y, rows);
      }
    }
  }
}
