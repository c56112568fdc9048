/** Row occupancy as sets of cells: on a well-formed ground, a full row is one with every
    column occupied. */
module RowSets {
  import opened Geometry
  import opened LineClear

  /** The settled blocks of row `y`, as a set. */
  function RowSet(g: seq<Block>, y: int): set<Block> {
    set b | b in g && b.y == y
  }

  /** The cells of row `y` from column `lo` to column `hi`. */
  function Cells(y: int, lo: int, hi: int): set<Block> {
    set x | lo <= x <= hi :: Block(x, y)
  }

  lemma {:induction false} CellsSize(y: int, lo: int, hi: int)
    requires lo <= hi + 1
    ensures |Cells(y, lo, hi)| == hi - lo + 1
    decreases hi - lo
  {
    if lo <= hi {
      CellsSize(y, lo + 1, hi);
      assert Cells(y, lo, hi) == {Block(lo, y)} + Cells(y, lo + 1, hi);
    } else {
      assert Cells(y, lo, hi) == {};
    }
  }

  lemma {:induction false} RowCountIsRowSetSize(g: seq<Block>, y: int)
    requires Distinct(g)
    ensures RowCount(g, y) == |RowSet(g, y)|
  {
    if |g| == 0 {
      assert RowSet(g, y) == {};
    } else {
      var pre, last := g[..|g| - 1], g[|g| - 1];
      assert g == pre + [last];
      assert Distinct(pre);
      RowCountIsRowSetSize(pre, y);
      assert last !in pre;
      assert RowCount(g, y) == RowCount(pre, y) + (if last.y == y then 1 else 0);
      if last.y == y {
        assert last !in RowSet(pre, y);
        assert RowSet(g, y) == RowSet(pre, y) + {last};
      } else {
        assert RowSet(g, y) == RowSet(pre, y);
      }
    }
  }

  lemma SubsetOfSameSize<T>(a: set<T>, b: set<T>)
    requires a <= b && |a| == |b|
    ensures a == b
  {
    assert b == a + (b - a);
    assert |b| == |a| + |b - a|;
  }

  lemma SubsetSize<T>(a: set<T>, b: set<T>)
    requires a <= b
    ensures |a| <= |b|
  {
    assert b == a + (b - a);
  }

  /** On a ground with no cell twice and every block in the columns, a row is full exactly
      when every one of its columns holds a block; rows above the top count like any other. */
  lemma FullRowIffEveryColumn(cfg: Config, g: seq<Block>, y: int)
    requires cfg.Valid() && StackOk(cfg, g) && InColumns(cfg, g)
    ensures RowCount(g, y) == cfg.width <==> forall x :: 1 <= x <= cfg.width ==> Block(x, y) in g
  {
    RowCountIsRowSetSize(g, y);
    var row := RowSet(g, y);
    var cells := Cells(y, 1, cfg.width);
    CellsSize(y, 1, cfg.width);
    assert row <= cells by {
      forall b | b in row
        ensures b in cells
      {
        var i :| 0 <= i < |g| && g[i] == b;
        assert 1 <= g[i].x <= cfg.width;
      }
    }
    if RowCount(g, y) == cfg.width {
      SubsetOfSameSize(row, cells);
      forall x | 1 <= x <= cfg.width
        ensures Block(x, y) in g
      {
        assert Block(x, y) in cells;
      }
    }
    if forall x :: 1 <= x <= cfg.width ==> Block(x, y) in g {
      assert cells <= row;
      SubsetSize(cells, row);
      SubsetSize(row, cells);
    }
  }

  /** A row with an empty cell is never among the rows a clear removes. */
  lemma RowWithGapStays(cfg: Config, g: seq<Block>, x: int, y: int)
    requires cfg.Valid() && StackOk(cfg, g) && InColumns(cfg, g)
    requires 1 <= x <= cfg.width && Block(x, y) !in g
    ensures y !in FullRows(cfg, g)
  {
    FullRowIffEveryColumn(cfg, g, y);
  }
}
