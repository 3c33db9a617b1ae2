/** The board operations of Situation (tetris_common.cc): occupancy
    metrics, fitting and placing a piece, and clearing full lines. */
module Board {
  import opened Bits
  import opened Tetris

  // ---------------------------------------------------------------------
  // Sequences of rows

  function Zeros(n: nat): (z: seq<Row>)
    ensures |z| == n && forall i :: 0 <= i < n ==> z[i] == 0
  {
    seq(n, _ => 0)
  }

  predicate IsFull(row: Row)
  {
    row == RowBitMask
  }

  /** The number of occupied cells of the rows. */
  function CellCount(rs: seq<Row>): nat
  {
    if |rs| == 0 then 0 else Popcnt(rs[0]) + CellCount(rs[1..])
  }

  lemma {:induction false} CellCountAppend(a: seq<Row>, b: seq<Row>)
    ensures CellCount(a + b) == CellCount(a) + CellCount(b)
  {
    if |a| == 0 {
      assert a + b == b;
    } else {
      CellCountAppend(a[1..], b);
      assert (a + b)[1..] == a[1..] + b;
    }
  }

  lemma {:induction false} CellCountZeros(n: nat)
    ensures CellCount(Zeros(n)) == 0
  {
    if n > 0 {
      CellCountZeros(n - 1);
      assert Zeros(n)[1..] == Zeros(n - 1);
    }
  }

  /** The index of the topmost non-empty row, |rs| when every row is empty. */
  function FirstNonEmpty(rs: seq<Row>): (r: nat)
    ensures r <= |rs|
    ensures forall i :: 0 <= i < r ==> rs[i] == 0
    ensures r < |rs| ==> rs[r] != 0
  {
    if |rs| == 0 then 0
    else if rs[0] != 0 then 0
    else 1 + FirstNonEmpty(rs[1..])
  }

  /** The first non-empty row is the non-empty row with only empty rows above it. */
  lemma FirstNonEmptyAt(rs: seq<Row>, k: nat)
    requires k < |rs| && rs[k] != 0
    requires forall i :: 0 <= i < k ==> rs[i] == 0
    ensures FirstNonEmpty(rs) == k
  {
  }

  // ---------------------------------------------------------------------
  // The 64-bit view row_4_: four consecutive rows read as one word

  /** Rows read as one little-endian word, 16 bits per row. */
  function Pack(rs: seq<Row>): nat
  {
    if |rs| == 0 then 0 else rs[0] + 0x1_0000 * Pack(rs[1..])
  }

  /** row_4_[i]: rows 4i to 4i+3. */
  function Group(rows: Rows, i: nat): nat
    requires i < 5
  {
    Pack(rows[4 * i..4 * i + 4])
  }

  /** popcnt of a packed word counts the cells of its rows. */
  lemma {:induction false} PackPopcnt(rs: seq<Row>)
    ensures Popcnt(Pack(rs)) == CellCount(rs)
  {
    if |rs| > 0 {
      Pow2Values();
      PackPopcnt(rs[1..]);
      PopcntConcat(rs[0], Pack(rs[1..]), 16);
    }
  }

  /** A packed word is zero exactly when all its rows are empty. */
  lemma {:induction false} PackZero(rs: seq<Row>)
    ensures (Pack(rs) == 0) == (forall i :: 0 <= i < |rs| ==> rs[i] == 0)
  {
    if |rs| > 0 {
      PackZero(rs[1..]);
      assert forall i :: 1 <= i < |rs| ==> rs[i] == rs[1..][i - 1];
    }
  }

  /** ctz of a non-zero packed word, divided by 16, is the index of its first
      non-empty row. */
  lemma {:induction false} PackCtz(rs: seq<Row>)
    requires Pack(rs) != 0
    ensures FirstNonEmpty(rs) < |rs|
    ensures Ctz(Pack(rs)) / 16 == FirstNonEmpty(rs)
  {
    Pow2Values();
    CtzConcat(rs[0], Pack(rs[1..]), 16);
    if rs[0] == 0 {
      PackCtz(rs[1..]);
    }
  }

  /** Two groups of equally many rows pack to the same word only if they are the same rows. */
  lemma {:induction false} PackInjective(rs: seq<Row>, ts: seq<Row>)
    requires |rs| == |ts|
    ensures (Pack(rs) == Pack(ts)) == (rs == ts)
  {
    if |rs| > 0 && Pack(rs) == Pack(ts) {
      var a, b, c, d := rs[0], Pack(rs[1..]), ts[0], Pack(ts[1..]);
      assert a + 0x1_0000 * b == c + 0x1_0000 * d;
      assert a == c && b == d;
      PackInjective(rs[1..], ts[1..]);
      assert rs == [rs[0]] + rs[1..] && ts == [ts[0]] + ts[1..];
    }
  }

  /** TotalOccupied: popcnt summed over the five 64-bit words. */
  method TotalOccupied(s: Situation) returns (r: nat)
    ensures r == CellCount(s.rows)
  {
    r := 0;
    for i := 0 to 5
      invariant r == CellCount(s.rows[..4 * i])
    {
      var bm4 := Group(s.rows, i);
      PackPopcnt(s.rows[4 * i..4 * i + 4]);
      CellCountAppend(s.rows[..4 * i], s.rows[4 * i..4 * i + 4]);
      assert s.rows[..4 * i] + s.rows[4 * i..4 * i + 4] == s.rows[..4 * i + 4];
      r := r + Popcnt(bm4);
    }
    assert s.rows[..4 * 5] == s.rows;
  }

  /** A group is zero exactly when its four rows are empty. */
  lemma GroupZero(rows: Rows, i: nat)
    requires i < 5
    ensures (Group(rows, i) == 0) == (forall y :: 4 * i <= y < 4 * i + 4 ==> rows[y] == 0)
  {
    var g := rows[4 * i..4 * i + 4];
    PackZero(g);
    assert forall y :: 4 * i <= y < 4 * i + 4 ==> rows[y] == g[y - 4 * i];
  }

  /** In the first non-zero group, ctz / 16 locates the first non-empty row. */
  lemma GroupCtz(rows: Rows, i: nat)
    requires i < 5 && Group(rows, i) != 0
    requires forall y :: 0 <= y < 4 * i ==> rows[y] == 0
    ensures Ctz(Group(rows, i)) / 16 + 4 * i == FirstNonEmpty(rows)
  {
    var g := rows[4 * i..4 * i + 4];
    PackCtz(g);
    var f := FirstNonEmpty(g);
    assert rows[4 * i + f] == g[f] != 0;
    assert forall y :: 4 * i <= y < 4 * i + f ==> rows[y] == g[y - 4 * i];
    FirstNonEmptyAt(rows, 4 * i + f);
  }

  /** OccupiedHeight: finds the first non-zero 64-bit word and the first
      non-empty row inside it with ctz; the result counts the rows from the
      topmost non-empty row down to the floor, 0 for an empty board. */
  method OccupiedHeight(s: Situation) returns (h: nat)
    ensures h == H - FirstNonEmpty(s.rows)
    ensures h == 0 <==> forall y :: 0 <= y < H ==> s.rows[y] == 0
  {
    for i := 0 to 5
      invariant forall y :: 0 <= y < 4 * i ==> s.rows[y] == 0
    {
      var bm4 := Group(s.rows, i);
      GroupZero(s.rows, i);
      if bm4 != 0 {
        GroupCtz(s.rows, i);
        return H - (Ctz(bm4) / 16 + i * 4);
      }
    }
    return 0;
  }

  // ---------------------------------------------------------------------
  // Full rows

  /** The bitmask with bit y set for every full row y. */
  function FullMask(rs: seq<Row>): (m: nat)
    ensures m < Pow2(|rs|)
  {
    if |rs| == 0 then 0
    else FullMask(rs[..|rs| - 1]) + (if IsFull(rs[|rs| - 1]) then Pow2(|rs| - 1) else 0)
  }

  /** Bit y of the mask is set exactly when row y is full. */
  lemma {:induction false} FullMaskBit(rs: seq<Row>, i: nat)
    ensures Bit(FullMask(rs), i) == (i < |rs| && IsFull(rs[i]))
  {
    if |rs| == 0 {
      BitZero(i);
    } else {
      var n := |rs| - 1;
      var p := rs[..n];
      var t: nat := if IsFull(rs[n]) then 1 else 0;
      assert FullMask(rs) == FullMask(p) + Pow2(n) * t;
      BitConcat(FullMask(p), t, n, i);
      if i < n {
        FullMaskBit(p, i);
      } else {
        Pow2Bit(0, i - n);
        if t == 0 { BitZero(i - n); }
      }
    }
  }

  /** The mask is zero exactly when no row is full. */
  lemma FullMaskZero(rs: seq<Row>)
    ensures (FullMask(rs) == 0) == (forall i :: 0 <= i < |rs| ==> !IsFull(rs[i]))
  {
    if FullMask(rs) == 0 {
      forall i | 0 <= i < |rs| ensures !IsFull(rs[i]) {
        FullMaskBit(rs, i);
        BitZero(i);
      }
    } else {
      var i := Ctz(FullMask(rs));
      FullMaskBit(rs, i);
    }
  }

  /** CollapsableBitmask: sets bit y for each full row y, one row at a time. */
  method CollapsableBitmask(s: Situation) returns (r: nat)
    ensures r == FullMask(s.rows)
  {
    r := 0;
    for i := 0 to H
      invariant r == FullMask(s.rows[..i])
    {
      assert s.rows[..i + 1][..i] == s.rows[..i];
      if s.rows[i] == RowBitMask {
        OrTop(r, i);
        r := Or(r, Pow2(i));
      }
    }
    assert s.rows[..H] == s.rows;
  }

  /** The rows that are not full, in their order. */
  function NonFull(rs: seq<Row>): (k: seq<Row>)
    ensures |k| <= |rs|
  {
    if |rs| == 0 then [] else (if IsFull(rs[0]) then [] else [rs[0]]) + NonFull(rs[1..])
  }

  /** No row kept is full. */
  lemma {:induction false} NonFullHasNoFullRow(rs: seq<Row>)
    ensures forall i :: 0 <= i < |NonFull(rs)| ==> !IsFull(NonFull(rs)[i])
  {
    if |rs| > 0 {
      NonFullHasNoFullRow(rs[1..]);
    }
  }

  lemma {:induction false} NonFullAppend(a: seq<Row>, b: seq<Row>)
    ensures NonFull(a + b) == NonFull(a) + NonFull(b)
  {
    if |a| == 0 {
      assert a + b == b;
    } else {
      var head := if IsFull(a[0]) then [] else [a[0]];
      NonFullAppend(a[1..], b);
      assert NonFull(a + b) == head + NonFull(a[1..] + b) by {
        assert (a + b)[0] == a[0] && (a + b)[1..] == a[1..] + b;
      }
      assert NonFull(a) == head + NonFull(a[1..]);
      assert head + (NonFull(a[1..]) + NonFull(b)) == (head + NonFull(a[1..])) + NonFull(b);
    }
  }

  /** Keeping every row keeps the rows themselves. */
  lemma {:induction false} NonFullKeepsAll(rs: seq<Row>)
    requires |NonFull(rs)| == |rs|
    ensures NonFull(rs) == rs
  {
    if |rs| > 0 {
      NonFullKeepsAll(rs[1..]);
    }
  }

  /** popcnt of the full-row mask is the number of full rows. */
  lemma {:induction false} FullMaskCount(rs: seq<Row>)
    ensures Popcnt(FullMask(rs)) == |rs| - |NonFull(rs)|
  {
    if |rs| > 0 {
      var n := |rs| - 1;
      var p := rs[..n];
      FullMaskCount(p);
      NonFullAppend(p, [rs[n]]);
      assert p + [rs[n]] == rs;
      assert NonFull([rs[n]]) == if IsFull(rs[n]) then [] else [rs[n]];
      if IsFull(rs[n]) {
        PopcntAddTop(FullMask(p), n);
      }
    }
  }

  /** Removing the full rows removes ten cells with each. */
  lemma {:induction false} NonFullCellCount(rs: seq<Row>)
    ensures CellCount(rs) == CellCount(NonFull(rs)) + W * (|rs| - |NonFull(rs)|)
  {
    if |rs| > 0 {
      NonFullCellCount(rs[1..]);
      var head := if IsFull(rs[0]) then [] else [rs[0]];
      CellCountAppend(head, NonFull(rs[1..]));
      if IsFull(rs[0]) {
        PopcntRowBitMask();
      }
    }
  }

  lemma PopcntRowBitMask()
    ensures Popcnt(RowBitMask) == W
  {
    assert Popcnt(1) == 1;
    assert Popcnt(3) == 2;
    assert Popcnt(7) == 3;
    assert Popcnt(15) == 4;
    assert Popcnt(31) == 5;
    assert Popcnt(63) == 6;
    assert Popcnt(127) == 7;
    assert Popcnt(255) == 8;
    assert Popcnt(511) == 9;
  }

  /** Window(n, lo): how many of the indices 0 .. n-1 lie in lo .. lo+3. */
  function Window(n: nat, lo: int): nat
  {
    var a := if lo < 0 then 0 else lo;
    var b := if lo + 4 < n then lo + 4 else n;
    if b <= a then 0 else b - a
  }

  /** When every full row lies within four consecutive positions, at most
      four rows are full. */
  lemma {:induction false} FullRowsInWindow(rs: seq<Row>, lo: int)
    requires forall i :: 0 <= i < |rs| && IsFull(rs[i]) ==> lo <= i < lo + 4
    ensures |rs| - |NonFull(rs)| <= Window(|rs|, lo) <= 4
  {
    if |rs| > 0 {
      forall i | 0 <= i < |rs| - 1 && IsFull(rs[1..][i]) ensures lo - 1 <= i < lo + 3 {
        assert rs[1..][i] == rs[i + 1];
      }
      FullRowsInWindow(rs[1..], lo - 1);
    }
  }

  // ---------------------------------------------------------------------
  // Clearing lines (CollapseInPlace)

  /** kMul: the score multiplier for clearing 1, 2, 3 or 4 lines at once. */
  function LineMultiplier(lines: nat): nat
    requires 1 <= lines <= 4
  {
    [1, 3, 6, 10][lines - 1]
  }

  /** kMul has four entries, so clearing lines needs at most four full rows. */
  predicate CanCollapse(s: Situation)
  {
    s.step + 1 < Steps ==> Popcnt(FullMask(s.rows)) <= 4
  }

  /** The rows after clearing: the non-full rows among rows 1 to 19, moved
      down to the floor in order, with empty rows above. Row 0 is never
      copied. */
  function CollapsedRows(rows: Rows): Rows
  {
    var k := NonFull(rows[1..]);
    Zeros(H - |k|) + k
  }

  /** The situation after CollapseInPlace: the step advances; unless that
      reaches kSteps, full rows are cleared, scored as kMul[lines-1] times
      the cells on the board before clearing, and counted. */
  function Collapsed(s: Situation): Situation
    requires CanCollapse(s)
  {
    var step := s.step + 1;
    if step >= Steps then s.(step := step)
    else
      var mask := FullMask(s.rows);
      if mask == 0 then s.(step := step)
      else
        PopcntZero(mask);
        var lines := Popcnt(mask);
        Situation(CollapsedRows(s.rows), step,
                  s.score + LineMultiplier(lines) * CellCount(s.rows),
                  s.collapseLines + lines, s.collapseCount + 1)
  }

  /** After clearing, no row is full (unless the last step was reached). */
  lemma CollapsedHasNoFullRow(s: Situation)
    requires CanCollapse(s) && s.step + 1 < Steps
    ensures FullMask(Collapsed(s).rows) == 0
  {
    var mask := FullMask(s.rows);
    if mask == 0 {
      FullMaskZero(s.rows);
    } else {
      NonFullHasNoFullRow(s.rows[1..]);
      FullMaskZero(Collapsed(s).rows);
    }
  }

  /** A placed and collapsed board keeps its top row empty, and has no full
      row while the game goes on. */
  lemma CollapsedTop(s: Situation)
    requires CanCollapse(s) && s.rows[0] == 0
    ensures Collapsed(s).rows[0] == 0
    ensures s.step + 1 < Steps ==> FullMask(Collapsed(s).rows) == 0
  {
    if s.step + 1 < Steps {
      CollapsedHasNoFullRow(s);
      var k := NonFull(s.rows[1..]);
      if FullMask(s.rows) != 0 {
        assert Collapsed(s).rows == Zeros(H - |k|) + k;
        assert Zeros(H - |k|)[0] == 0;
      }
    }
  }

  /** With an empty top row, clearing removes exactly the full rows, keeps
      the others in order, adds as many empty rows on top and counts the
      lines cleared. */
  lemma CollapsedRemovesFullRows(s: Situation)
    requires CanCollapse(s) && s.step + 1 < Steps && s.rows[0] == 0
    ensures var lines := H - |NonFull(s.rows)|;
      var c := Collapsed(s);
      c.rows == Zeros(lines) + NonFull(s.rows) &&
      c.step == s.step + 1 &&
      c.collapseLines == s.collapseLines + lines &&
      c.collapseCount == s.collapseCount + (if lines > 0 then 1 else 0) &&
      c.score == s.score + (if lines > 0 then LineMultiplier(lines) * CellCount(s.rows) else 0)
  {
    var rows := s.rows;
    var k := NonFull(rows[1..]);
    assert rows == [rows[0]] + rows[1..];
    NonFullAppend([rows[0]], rows[1..]);
    assert NonFull(rows) == [0] + k;
    FullMaskCount(rows);
    PopcntZero(FullMask(rows));
    if FullMask(rows) == 0 {
      NonFullKeepsAll(rows);
      assert Zeros(0) + NonFull(rows) == rows;
    } else {
      var lines := H - |NonFull(rows)|;
      assert Zeros(H - |k|) + k == Zeros(lines) + ([0] + k);
    }
  }

  /** With an empty top row, clearing n lines removes 10 n cells. */
  lemma CollapsedCellCount(s: Situation)
    requires CanCollapse(s) && s.step + 1 < Steps && s.rows[0] == 0
    ensures CellCount(Collapsed(s).rows) + W * (H - |NonFull(s.rows)|) == CellCount(s.rows)
  {
    CollapsedRemovesFullRows(s);
    var lines := H - |NonFull(s.rows)|;
    CellCountAppend(Zeros(lines), NonFull(s.rows));
    CellCountZeros(lines);
    NonFullCellCount(s.rows);
  }

  // ---------------------------------------------------------------------
  // Fitting and placing a piece

  /** The bounds test of Fits: the extent lies within the columns and the
      lowest row of the piece is on the board. */
  predicate BoundsFit(b: ShapeBound, st: BrickStatus)
  {
    0 <= st.x + b.minX && st.x + b.maxX < W && 0 <= st.y + b.maxY && st.y + b.maxY < H
  }

  /** Every cell lies within the columns and not below the floor. */
  predicate WithinWalls(cells: seq<Pos>, st: BrickStatus)
  {
    forall k :: 0 <= k < |cells| ==> 0 <= st.x + cells[k].x < W && st.y + cells[k].y < H
  }

  /** Some cell is at or below the top row. */
  predicate Visible(cells: seq<Pos>, st: BrickStatus)
  {
    exists k :: 0 <= k < |cells| && st.y + cells[k].y >= 0
  }

  /** No cell that lies on the board is occupied. */
  predicate CellsFree(rows: Rows, cells: seq<Pos>, st: BrickStatus)
  {
    forall k :: 0 <= k < |cells| ==>
      var x := st.x + cells[k].x;
      var y := st.y + cells[k].y;
      0 <= x && 0 <= y < H ==> !Bit(rows[y], x)
  }

  /** Fits: the bounds test, then no occupied cell under the piece (cells
      above the top row are allowed). */
  predicate PieceFits(rows: Rows, shp: ShapeId, st: BrickStatus)
    requires st.rot < 4
  {
    BoundsFit(Bounds(shp, st.rot), st) && CellsFree(rows, Cells(shp, st.rot), st)
  }

  /** The bounds test on four cells whose extent the bounds attain. */
  lemma {:induction false} BoundsFitMeaning(cells: seq<Pos>, b: ShapeBound, st: BrickStatus)
    requires |cells| == 4
    requires forall k :: 0 <= k < 4 ==> b.minX <= cells[k].x <= b.maxX && cells[k].y <= b.maxY
    requires exists k :: 0 <= k < 4 && cells[k].x == b.minX
    requires exists k :: 0 <= k < 4 && cells[k].x == b.maxX
    requires exists k :: 0 <= k < 4 && cells[k].y == b.maxY
    ensures BoundsFit(b, st) <==> WithinWalls(cells, st) && Visible(cells, st)
  {
    var k1 :| 0 <= k1 < 4 && cells[k1].x == b.minX;
    var k2 :| 0 <= k2 < 4 && cells[k2].x == b.maxX;
    var k3 :| 0 <= k3 < 4 && cells[k3].y == b.maxY;
    if WithinWalls(cells, st) && Visible(cells, st) {
      var k4 :| 0 <= k4 < 4 && st.y + cells[k4].y >= 0;
      assert st.y + cells[k4].y <= st.y + b.maxY;
      assert 0 <= st.x + cells[k1].x && st.x + cells[k2].x < W && st.y + cells[k3].y < H;
    }
    if BoundsFit(b, st) {
      assert st.y + cells[k3].y >= 0;
    }
  }

  /** Fits in terms of the cells alone: every cell lies within the columns
      and above the floor, some cell is on the board, and no cell on the
      board is occupied. */
  lemma FitsMeaning(rows: Rows, shp: ShapeId, st: BrickStatus)
    requires st.rot < 4
    ensures PieceFits(rows, shp, st) <==>
      WithinWalls(Cells(shp, st.rot), st) && Visible(Cells(shp, st.rot), st) &&
      CellsFree(rows, Cells(shp, st.rot), st)
  {
    BoundsContainCells(shp, st.rot);
    var cells := Cells(shp, st.rot);
    var b := Bounds(shp, st.rot);
    if st.rot >= RotCount(shp) {
      assert cells[0] == Pos(0, 0) && b == ShapeBound(0, 0, 0, 0);
    }
    BoundsFitMeaning(cells, b, st);
  }

  /** Fits: looks up the piece's cells and bounds and tests them. */
  method Fits(s: Situation, shp: ShapeId, st: BrickStatus) returns (ok: bool)
    requires st.rot < 4
    ensures ok == PieceFits(s.rows, shp, st)
  {
    BoundsContainCells(shp, st.rot);
    ok := FitsCells(s, Cells(shp, st.rot), Bounds(shp, st.rot), st);
  }

  /** The body of Fits: the bounds test first, then the cells that lie on
      the board, one at a time. */
  method FitsCells(s: Situation, pos: seq<Pos>, bounds: ShapeBound, st: BrickStatus) returns (ok: bool)
    requires |pos| == 4
    requires forall k :: 0 <= k < 4 ==> bounds.minX <= pos[k].x <= bounds.maxX && pos[k].y <= bounds.maxY
    ensures ok == (BoundsFit(bounds, st) && CellsFree(s.rows, pos, st))
  {
    if st.x + bounds.minX < 0 || st.x + bounds.maxX >= W {
      return false;
    }
    if st.y + bounds.maxY < 0 || st.y + bounds.maxY >= H {
      return false;
    }
    for k := 0 to 4
      invariant forall j :: 0 <= j < k ==> st.y + pos[j].y >= 0 ==> !Bit(s.rows[st.y + pos[j].y], st.x + pos[j].x)
    {
      var x := st.x + pos[k].x;
      var y := st.y + pos[k].y;
      if y >= 0 && Bit(s.rows[y], x) {
        return false;
      }
    }
    return true;
  }

  /** The rows after setting the board cells of the first n cells of a
      piece; cells outside the board are skipped. */
  function PlaceCells(rows: Rows, cells: seq<Pos>, st: BrickStatus, n: nat): Rows
    requires n <= |cells|
  {
    if n == 0 then rows
    else
      var r := PlaceCells(rows, cells, st, n - 1);
      var x := st.x + cells[n - 1].x;
      var y := st.y + cells[n - 1].y;
      if InRange(x, y) then r[y := WithBit(r[y], x, true)] else r
  }

  /** The situation PutCopy returns. */
  function Placed(s: Situation, shp: ShapeId, st: BrickStatus): Situation
    requires st.rot < 4
  {
    s.(rows := PlaceCells(s.rows, Cells(shp, st.rot), st, 4))
  }

  /** A cell is occupied after placing exactly when it was before or a cell
      of the piece lands on it within the columns. */
  lemma {:induction false} PlaceCellsBit(rows: Rows, cells: seq<Pos>, st: BrickStatus, n: nat, x: nat, y: nat)
    requires n <= |cells| && y < H
    ensures Bit(PlaceCells(rows, cells, st, n)[y], x) ==
      (Bit(rows[y], x) ||
       (x < W && exists k :: 0 <= k < n && st.x + cells[k].x == x && st.y + cells[k].y == y))
  {
    if n > 0 {
      PlaceCellsBit(rows, cells, st, n - 1, x, y);
      var cx := st.x + cells[n - 1].x;
      var cy := st.y + cells[n - 1].y;
      if cx == x && cy == y && x < W {
        assert 0 <= n - 1 < n && st.x + cells[n - 1].x == x && st.y + cells[n - 1].y == y;
      }
    }
  }

  /** The row moves of CollapseInPlace: the non-full rows among rows 19
      down to 1 are copied down to the floor, then the rows left above are
      zeroed. */
  method ClearFullRows(rows: array<Row>, mask: nat)
    requires rows.Length == H && mask == FullMask(rows[..])
    modifies rows
    ensures rows[..] == CollapsedRows(old(rows[..]))
  {
    ghost var s0 := rows[..];
    var wy := MoveNonFullDown(rows, mask);
    ZeroAbove(rows, wy, NonFull(s0[1..]));
  }

  /** The mask test of the row moves: bit y of the full-row mask is clear
      exactly for a row that is not full. */
  lemma MaskTest(rs: seq<Row>, mask: nat, y: nat)
    requires mask == FullMask(rs) && y < |rs|
    ensures (And(mask, Pow2(y)) == 0) == !IsFull(rs[y])
  {
    AndPow2(mask, y);
    FullMaskBit(rs, y);
  }

  lemma NonFullStep(rs: seq<Row>, y: nat)
    requires y < |rs|
    ensures NonFull(rs[y..]) == (if IsFull(rs[y]) then [] else [rs[y]]) + NonFull(rs[y + 1..])
  {
    assert rs[y..] == [rs[y]] + rs[y + 1..];
    NonFullAppend([rs[y]], rs[y + 1..]);
  }

  /** The first loop of the row moves; returns the last row not yet
      written, the non-full rows among 19 down to 1 being copied below it. */
  method MoveNonFullDown(rows: array<Row>, mask: nat) returns (wy: int)
    requires rows.Length == H && mask == FullMask(rows[..])
    modifies rows
    ensures wy == H - 1 - |NonFull(old(rows[..])[1..])|
    ensures forall j :: 0 <= j < H - 1 - wy ==> rows[wy + 1 + j] == NonFull(old(rows[..])[1..])[j]
  {
    ghost var s0 := rows[..];
    ghost var k: seq<Row> := [];
    wy := H - 1;
    var y := H - 1;
    while y > 0
      invariant 0 <= y <= wy <= H - 1
      invariant k == NonFull(s0[y + 1..]) && wy == H - 1 - |k|
      invariant forall i :: 0 <= i <= wy ==> rows[i] == s0[i]
      invariant forall j :: 0 <= j < |k| ==> rows[wy + 1 + j] == k[j]
      decreases y
    {
      wy, k := MoveStep(rows, mask, s0, y, wy, k);
      y := y - 1;
    }
  }

  /** One iteration of the first loop: row y is copied to row wy unless it
      is full. */
  method MoveStep(rows: array<Row>, mask: nat, ghost s0: Rows, y: int, wy: int, ghost k: seq<Row>)
    returns (wy': int, ghost k': seq<Row>)
    requires rows.Length == H && mask == FullMask(s0)
    requires 0 < y <= wy <= H - 1
    requires k == NonFull(s0[y + 1..]) && wy == H - 1 - |k|
    requires forall i :: 0 <= i <= wy ==> rows[i] == s0[i]
    requires forall j :: 0 <= j < |k| ==> rows[wy + 1 + j] == k[j]
    modifies rows
    ensures y - 1 <= wy' && k' == NonFull(s0[y..]) && wy' == H - 1 - |k'|
    ensures forall i :: 0 <= i <= wy' ==> rows[i] == s0[i]
    ensures forall j :: 0 <= j < |k'| ==> rows[wy' + 1 + j] == k'[j]
  {
    MaskTest(s0, mask, y);
    NonFullStep(s0, y);
    if And(mask, Pow2(y)) == 0 {
      assert rows[y] == s0[y];
      MoveRow(rows, y, wy, k);
      wy', k' := wy - 1, [s0[y]] + k;
    } else {
      wy', k' := wy, k;
    }
  }

  /** Copies row `from` down to row `to`, just below the rows k already
      moved; the rows under `to` are untouched. */
  method MoveRow(rows: array<Row>, from: int, to: int, ghost k: seq<Row>)
    requires 0 <= from <= to < rows.Length && to + 1 + |k| == rows.Length
    requires forall j :: 0 <= j < |k| ==> rows[to + 1 + j] == k[j]
    modifies rows
    ensures forall i :: 0 <= i < to ==> rows[i] == old(rows[i])
    ensures forall j :: 0 <= j < |k| + 1 ==> rows[to + j] == ([old(rows[from])] + k)[j]
  {
    rows[to] := rows[from];
  }

  /** The second loop of the row moves: zeroes rows wy down to 0. */
  method ZeroAbove(rows: array<Row>, wy0: int, ghost k: seq<Row>)
    requires rows.Length == H && |k| < H && wy0 == H - 1 - |k|
    requires forall j :: 0 <= j < |k| ==> rows[wy0 + 1 + j] == k[j]
    modifies rows
    ensures rows[..] == Zeros(H - |k|) + k
  {
    var wy := wy0;
    while wy != -1
      invariant -1 <= wy <= wy0
      invariant forall i :: wy < i <= wy0 ==> rows[i] == 0
      invariant forall j :: 0 <= j < |k| ==> rows[wy0 + 1 + j] == k[j]
      decreases wy
    {
      rows[wy] := 0;
      wy := wy - 1;
    }
    assert forall i :: 0 <= i < H ==> rows[..][i] == (Zeros(H - |k|) + k)[i];
  }

  // ---------------------------------------------------------------------
  // A situation changed in place

  /** A Situation whose rows and counters are updated in place. */
  class Board {
    var rows: array<Row>
    var step: nat
    var score: nat
    var collapseLines: nat
    var collapseCount: nat

    ghost predicate Valid()
      reads this
    {
      rows.Length == H
    }

    /** The value of the board as a Situation. */
    function Value(): Situation
      reads this, rows
      requires Valid()
    {
      Situation(rows[..], step, score, collapseLines, collapseCount)
    }

    /** Copying a Situation. */
    constructor (s: Situation)
      ensures Valid() && fresh(rows) && Value() == s
    {
      rows := new Row[H](i requires 0 <= i < H => s.rows[i]);
      step := s.step;
      score := s.score;
      collapseLines := s.collapseLines;
      collapseCount := s.collapseCount;
      new;
      assert rows[..] == s.rows;
    }

    /** BitRef::operator=: assigns v to bit x of row y; nothing else changes. */
    method Assign(x: nat, y: nat, v: bool)
      requires Valid() && x < 16 && y < H
      modifies rows
      ensures Valid()
      ensures Value() == old(Value()).(rows := old(Value()).rows[y := WithBit(old(rows[y]), x, v)])
    {
      var storage := rows[y];
      Pow2Values();
      if v {
        PowMonotone(x, 16);
        OrBound(storage, Pow2(x), 16);
        storage := Or(storage, Pow2(x));
      } else {
        AndNotBound(storage, Pow2(x), 16);
        storage := AndNot(storage, Pow2(x));
      }
      assert storage == WithBit(old(rows[y]), x, v);
      rows[y] := storage;
    }

    /** CollapseInPlace: advances the step and, unless that reaches kSteps,
        scores, counts and clears the full rows. */
    method CollapseInPlace()
      requires Valid() && CanCollapse(Value())
      modifies this, rows
      ensures Valid() && rows == old(rows)
      ensures Value() == Collapsed(old(Value()))
    {
      ghost var s0 := Value();
      step := step + 1;
      if step >= Steps {
        assert Value() == Collapsed(s0);
        return;
      }
      var mask := CollapsableBitmask(Value());
      if mask == 0 {
        assert Value() == Collapsed(s0);
      } else {
        PopcntZero(mask);
        var lines := Popcnt(mask);
        var total := TotalOccupied(Value());
        score := score + LineMultiplier(lines) * total;
        collapseLines := collapseLines + lines;
        collapseCount := collapseCount + 1;
        ClearFullRows(rows, mask);
        assert step == s0.step + 1 && score == s0.score + LineMultiplier(lines) * CellCount(s0.rows);
        assert collapseLines == s0.collapseLines + lines && collapseCount == s0.collapseCount + 1;
        assert Value() == Collapsed(s0);
      }
    }
  }

  /** PutCopy: copies the situation and sets the piece's cells that fall on the board. */
  method PutCopy(s: Situation, shp: ShapeId, st: BrickStatus) returns (r: Situation)
    requires st.rot < 4
    ensures r == Placed(s, shp, st)
  {
    var res := new Board(s);
    var pos := Cells(shp, st.rot);
    for k := 0 to 4
      invariant res.Valid() && fresh(res.rows)
      invariant res.Value() == s.(rows := PlaceCells(s.rows, pos, st, k))
    {
      var x := st.x + pos[k].x;
      var y := st.y + pos[k].y;
      if XInRange(x) && YInRange(y) {
        res.Assign(x, y, true);
      }
    }
    r := res.Value();
  }
}
