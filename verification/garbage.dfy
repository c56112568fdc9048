/** Garbage rows: attack rows with holes, pushed in from the bottom of a board. */
module Garbage {
  import opened Geometry
  import opened Players
  import opened Board

  /** The hole columns drawn for one garbage row: `garbageHoleCount` distinct columns of
      1..width (the source redraws a column until it is new). */
  predicate HolesOk(cfg: Config, holes: seq<int>) {
    && |holes| == cfg.garbageHoleCount
    && DistinctInts(holes)
    && forall i :: 0 <= i < |holes| ==> 1 <= holes[i] <= cfg.width
  }

  /** generateGarbageLines: line `k` of `lineCount` is row `startY - k`, filled in columns
      1..width except the holes drawn for it, `holes[k]`. */
  function GenerateGarbageLines(cfg: Config, lineCount: int, startY: int, holes: seq<seq<int>>): (g: seq<Block>)
    requires lineCount <= |holes|
    ensures lineCount <= 0 ==> g == []
    decreases lineCount
  {
    if lineCount <= 0 then []
    else
      GenerateGarbageLines(cfg, lineCount - 1, startY, holes)
        + RowWithHoles(startY - (lineCount - 1), 1, cfg.width, holes[lineCount - 1])
  }

  /** Each line adds at most one block per column: `lineCount` lines of a board `width`
      wide hold at most `lineCount * width` blocks. */
  lemma {:induction false} GarbageSizeBound(cfg: Config, lineCount: int, startY: int, holes: seq<seq<int>>)
    requires lineCount <= |holes|
    ensures lineCount >= 0 && cfg.width >= 0 ==>
      |GenerateGarbageLines(cfg, lineCount, startY, holes)| <= lineCount * cfg.width
    decreases lineCount
  {
    if lineCount > 0 {
      GarbageSizeBound(cfg, lineCount - 1, startY, holes);
      MulStep(lineCount - 1, cfg.width);
    }
  }

  /** Every garbage block lies in one of the generated rows, inside the board's columns. */
  lemma {:induction false} GarbagePlacement(cfg: Config, lineCount: int, startY: int, holes: seq<seq<int>>)
    requires lineCount <= |holes|
    ensures forall i :: 0 <= i < |GenerateGarbageLines(cfg, lineCount, startY, holes)| ==>
      && startY - lineCount < GenerateGarbageLines(cfg, lineCount, startY, holes)[i].y <= startY
      && 1 <= GenerateGarbageLines(cfg, lineCount, startY, holes)[i].x <= cfg.width
    decreases lineCount
  {
    if lineCount > 0 {
      var n := lineCount - 1;
      var prev := GenerateGarbageLines(cfg, n, startY, holes);
      var row := RowWithHoles(startY - n, 1, cfg.width, holes[n]);
      GarbagePlacement(cfg, n, startY, holes);
      RowWithHolesPlacement(startY - n, 1, cfg.width, holes[n]);
      var all := prev + row;
      assert all == GenerateGarbageLines(cfg, lineCount, startY, holes);
      forall i | 0 <= i < |all|
        ensures startY - lineCount < all[i].y <= startY && 1 <= all[i].x <= cfg.width
      {
        if i >= |prev| {
          assert all[i] == row[i - |prev|];
        }
      }
    }
  }

  /** Cell `b` belongs to garbage line `line`: it is in row `startY - line`, in one of the
      columns 1..width, and not one of that line's holes. */
  predicate InGarbageLine(cfg: Config, startY: int, holes: seq<seq<int>>, line: int, b: Block) {
    0 <= line < |holes| && b.y == startY - line && 1 <= b.x <= cfg.width && b.x !in holes[line]
  }

  /** The garbage holds exactly, for each line `k`, the non-hole columns of row `startY - k`. */
  lemma {:induction false} GarbageMembers(cfg: Config, lineCount: int, startY: int, holes: seq<seq<int>>)
    requires lineCount <= |holes|
    ensures forall b :: b in GenerateGarbageLines(cfg, lineCount, startY, holes) <==>
      exists line :: 0 <= line < lineCount && InGarbageLine(cfg, startY, holes, line, b)
    decreases lineCount
  {
    if lineCount > 0 {
      var n := lineCount - 1;
      var prev := GenerateGarbageLines(cfg, n, startY, holes);
      var row := RowWithHoles(startY - n, 1, cfg.width, holes[n]);
      GarbageMembers(cfg, n, startY, holes);
      RowWithHolesMembers(startY - n, 1, cfg.width, holes[n]);
      var all := prev + row;
      assert all == GenerateGarbageLines(cfg, lineCount, startY, holes);
      forall b | b in all
        ensures exists line :: 0 <= line < lineCount && InGarbageLine(cfg, startY, holes, line, b)
      {
        if b in row {
          assert InGarbageLine(cfg, startY, holes, n, b);
        } else {
          var line :| 0 <= line < n && InGarbageLine(cfg, startY, holes, line, b);
          assert line < lineCount;
        }
      }
      forall b, line | 0 <= line < lineCount && InGarbageLine(cfg, startY, holes, line, b)
        ensures b in all
      {
        if line == n {
          assert b in row;
        } else {
          assert b in prev;
        }
      }
    }
  }

  lemma {:induction false} RowCountAbsent(s: seq<Block>, y: int)
    requires forall i :: 0 <= i < |s| ==> s[i].y != y
    ensures RowCount(s, y) == 0
  {
    if |s| > 0 {
      RowCountAbsent(s[..|s| - 1], y);
    }
  }

  /** With well-formed holes, each generated row holds `width - garbageHoleCount` blocks, so
      a garbage row is never full by itself, and the whole has that many blocks per line. */
  lemma {:induction false} GarbageRowCounts(cfg: Config, lineCount: int, startY: int, holes: seq<seq<int>>)
    requires cfg.Valid()
    requires 0 <= lineCount <= |holes|
    requires forall line :: 0 <= line < lineCount ==> HolesOk(cfg, holes[line])
    ensures var garbage := GenerateGarbageLines(cfg, lineCount, startY, holes);
      && |garbage| == lineCount * (cfg.width - cfg.garbageHoleCount)
      && forall y :: startY - lineCount < y <= startY ==>
           RowCount(garbage, y) == cfg.width - cfg.garbageHoleCount
    decreases lineCount
  {
    if lineCount > 0 {
      var n := lineCount - 1;
      var prev := GenerateGarbageLines(cfg, n, startY, holes);
      var row := RowWithHoles(startY - n, 1, cfg.width, holes[n]);
      var w := cfg.width - cfg.garbageHoleCount;
      GarbageRowCounts(cfg, n, startY, holes);
      GarbagePlacement(cfg, n, startY, holes);
      RowWithHolesSize(startY - n, 1, cfg.width, holes[n]);
      DistinctHolesSize(holes[n], 1, cfg.width);
      RowWithHolesShape(startY - n, 1, cfg.width, holes[n]);
      assert |row| == w;
      MulStep(n, w);
      assert prev + row == GenerateGarbageLines(cfg, lineCount, startY, holes);
      forall y | startY - lineCount < y <= startY
        ensures RowCount(prev + row, y) == w
      {
        RowCountAppend(prev, row, y);
        RowCountOfRow(row, startY - n, y);
        if y == startY - n {
          RowCountAbsent(prev, y);
        }
      }
    }
  }

  /** Generated garbage has no cell twice. */
  lemma {:induction false} GarbageDistinct(cfg: Config, lineCount: int, startY: int, holes: seq<seq<int>>)
    requires lineCount <= |holes|
    ensures Distinct(GenerateGarbageLines(cfg, lineCount, startY, holes))
    decreases lineCount
  {
    if lineCount > 0 {
      var n := lineCount - 1;
      var prev := GenerateGarbageLines(cfg, n, startY, holes);
      var row := RowWithHoles(startY - n, 1, cfg.width, holes[n]);
      GarbageDistinct(cfg, n, startY, holes);
      GarbagePlacement(cfg, n, startY, holes);
      RowWithHolesPlacement(startY - n, 1, cfg.width, holes[n]);
      RowWithHolesAscending(startY - n, 1, cfg.width, holes[n]);
      assert forall i, j :: 0 <= i < |prev| && 0 <= j < |row| ==> prev[i].y != row[j].y;
      DistinctAppend(prev, row);
      assert prev + row == GenerateGarbageLines(cfg, lineCount, startY, holes);
    }
  }

  /** addGarbageLines: nothing happens for a count of zero or less; otherwise every settled
      block moves up `count` rows and `count` garbage rows fill the bottom rows
      height, height-1, ..., height-count+1. */
  function AddGarbageLines(cfg: Config, ground: seq<Block>, count: int, holes: seq<seq<int>>): (raised: seq<Block>)
    requires count <= |holes|
    ensures count <= 0 ==> raised == ground
    ensures count > 0 ==> |raised| == |ground| + |GenerateGarbageLines(cfg, count, cfg.height, holes)|
    ensures count > 0 ==> forall i :: 0 <= i < |ground| ==> raised[i] == Block(ground[i].x, ground[i].y - count)
    ensures count > 0 ==> raised[|ground|..] == GenerateGarbageLines(cfg, count, cfg.height, holes)
  {
    if count <= 0 then ground
    else Translate(ground, 0, -count) + GenerateGarbageLines(cfg, count, cfg.height, holes)
  }

  /** A ground with no cell twice and nothing below the bottom row stays so after garbage
      arrives, whatever its columns: the raised blocks sit at or above row height - count and
      the garbage below it. A ground inside the columns stays inside them. Rows may now be
      above the top, which is not an error here. */
  lemma AddGarbageKeepsDistinct(cfg: Config, ground: seq<Block>, count: int, holes: seq<seq<int>>)
    requires count <= |holes|
    requires StackOk(cfg, ground)
    ensures StackOk(cfg, AddGarbageLines(cfg, ground, count, holes))
    ensures InColumns(cfg, ground) ==> InColumns(cfg, AddGarbageLines(cfg, ground, count, holes))
  {
    if count > 0 {
      var raised := AddGarbageLines(cfg, ground, count, holes);
      var garbage := GenerateGarbageLines(cfg, count, cfg.height, holes);
      GarbageDistinct(cfg, count, cfg.height, holes);
      GarbagePlacement(cfg, count, cfg.height, holes);
      forall i | |ground| <= i < |raised|
        ensures raised[i] == garbage[i - |ground|]
      {
        assert raised[|ground|..][i - |ground|] == raised[i];
      }
      forall i, j | 0 <= i < j < |raised|
        ensures raised[i] != raised[j]
      {
        if j < |ground| {
          assert ground[i] != ground[j];
        }
      }
    }
  }

  /** Garbage can push a settled block above the top row without the game-over test
      noticing: here a block goes from row 2 to row 0 of a 2-wide, 3-high board. */
  lemma GarbageHidesBlockAboveTop()
    ensures var cfg := Config(2, 3, 0, 0, 1, [], 0.0, 0.0, 0.0);
      var raised := AddGarbageLines(cfg, [Block(1, 2)], 2, [[1], [2]]);
      && raised == [Block(1, 0), Block(2, 3), Block(1, 2)]
      && !AllInBounds(cfg, raised)
      && IsGameOver(raised) == Game
  {
    var cfg := Config(2, 3, 0, 0, 1, [], 0.0, 0.0, 0.0);
    assert RowWithHoles(3, 1, 2, [1]) == [Block(2, 3)];
    assert RowWithHoles(2, 1, 2, [2]) == [Block(1, 2)];
    var raised := AddGarbageLines(cfg, [Block(1, 2)], 2, [[1], [2]]);
    assert raised[0] == Block(1, 0);
    assert !InBounds(cfg, raised[0]);
  }
}
