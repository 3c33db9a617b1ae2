/** How a situation is judged (tetris_common.cc): the heuristic Quality,
    the shape test IsOk, and the comparisons BricksEqual and BricksComp on
    the five 64-bit row groups. */
module Evaluation {
  import opened Bits
  import opened Tetris
  import opened Board

  // ---------------------------------------------------------------------
  // Quality

  /** The four penalty flags Quality reads. */
  datatype QualityFlags = QualityFlags(rowTransition: int, colTransition: int, empty: int, empty2: int)

  /** The flag defaults: row transitions 458, column transitions 0, empty
      cells 1080, empty cells above a gap 0. */
  const DefaultFlags := QualityFlags(458, 0, 1080, 0)

  /** (row ^ (row >> 1)) & (kRowBitMask >> 1). */
  function RowTransitions(row: Row): nat
  {
    And(Xor(row, row / 2), RowBitMask / 2)
  }

  /** Bit x of the transitions marks the neighbouring columns x and x + 1
      that differ, for x below 9. */
  lemma RowTransitionsBit(row: Row, x: nat)
    ensures Bit(RowTransitions(row), x) == (x < W - 1 && Bit(row, x) != Bit(row, x + 1))
  {
    AndBit(Xor(row, row / 2), RowBitMask / 2, x);
    XorBit(row, row / 2, x);
    assert Bit(row, x + 1) == Bit(row / 2, x);
    assert Pow2(9) - 1 == RowBitMask / 2;
    LowMaskBit(9, x);
  }

  /** top_rows after the rows rs: every column occupied in some row of rs. */
  function Covered(rs: seq<Row>): nat
  {
    if |rs| == 0 then 0 else Or(Covered(rs[..|rs| - 1]), rs[|rs| - 1])
  }

  lemma {:induction false} CoveredBit(rs: seq<Row>, x: nat)
    ensures Bit(Covered(rs), x) == exists i :: 0 <= i < |rs| && Bit(rs[i], x)
  {
    if |rs| == 0 {
      BitZero(x);
    } else {
      var p := rs[..|rs| - 1];
      CoveredBit(p, x);
      OrBit(Covered(p), rs[|rs| - 1], x);
      if exists i :: 0 <= i < |rs| && Bit(rs[i], x) {
        var i :| 0 <= i < |rs| && Bit(rs[i], x);
        if i < |rs| - 1 {
          assert p[i] == rs[i];
        }
      }
    }
  }

  /** The empty cells counted against a row: empty here, occupied in some
      row above. */
  lemma HoleBit(rows: Rows, y: nat, x: nat)
    requires y < H
    ensures Bit(AndNot(Covered(rows[..y]), rows[y]), x) ==
      (!Bit(rows[y], x) && exists i :: 0 <= i < y && Bit(rows[i], x))
  {
    AndNotBit(Covered(rows[..y]), rows[y], x);
    CoveredBit(rows[..y], x);
    if exists i :: 0 <= i < y && Bit(rows[i], x) {
      var i :| 0 <= i < y && Bit(rows[i], x);
      assert rows[..y][i] == rows[i];
    }
  }

  /** bottom_rows before the rows rs are visited bottom-up: the columns
      occupied in every row of rs (all ten columns when rs is empty). */
  function Supported(rs: seq<Row>): nat
  {
    if |rs| == 0 then RowBitMask else And(Supported(rs[1..]), rs[0])
  }

  lemma {:induction false} SupportedBit(rs: seq<Row>, x: nat)
    ensures Bit(Supported(rs), x) == (x < W && forall i :: 0 <= i < |rs| ==> Bit(rs[i], x))
  {
    if |rs| == 0 {
      RowBitMaskBits(x);
    } else {
      SupportedBit(rs[1..], x);
      AndBit(Supported(rs[1..]), rs[0], x);
      if x < W && Bit(rs[0], x) && forall i :: 0 <= i < |rs| - 1 ==> Bit(rs[1..][i], x) {
        forall i | 0 <= i < |rs| ensures Bit(rs[i], x) {
          if i > 0 { assert rs[1..][i - 1] == rs[i]; }
        }
      }
    }
  }

  /** The cells counted by the second pass: occupied here, with an empty
      cell somewhere below in the same column (columns past the tenth
      always count). */
  lemma OverhangBit(rows: Rows, y: nat, x: nat)
    requires y < H
    ensures Bit(AndNot(rows[y], Supported(rows[y + 1..])), x) ==
      (Bit(rows[y], x) && (x >= W || exists i :: y < i < H && !Bit(rows[i], x)))
  {
    AndNotBit(rows[y], Supported(rows[y + 1..]), x);
    SupportedBit(rows[y + 1..], x);
    if exists i :: y < i < H && !Bit(rows[i], x) {
      var i :| y < i < H && !Bit(rows[i], x);
      assert rows[y + 1..][i - y - 1] == rows[i];
    }
    if x < W && forall i :: y < i < H ==> Bit(rows[i], x) {
      assert forall i :: y < i < H ==> rows[y + 1..][i - y - 1] == rows[i];
    }
  }

  /** The first pass's change to r for one row, given the row above and
      the columns covered so far. */
  function TopTerm(f: QualityFlags, row: Row, last: nat, top: nat): int
  {
    600 * Popcnt(row)
    - f.rowTransition * Popcnt(RowTransitions(row))
    - f.colTransition * Popcnt(Xor(row, last))
    - (f.empty - f.empty2) * Popcnt(AndNot(top, row))
  }

  /** last_row after the rows rs. */
  function LastRow(rs: seq<Row>): nat
  {
    if |rs| == 0 then 0 else rs[|rs| - 1]
  }

  /** r after the first pass over the rows rs, top to bottom. */
  function TopPass(f: QualityFlags, rs: seq<Row>): int
  {
    if |rs| == 0 then 0
    else
      var p := rs[..|rs| - 1];
      TopPass(f, p) + TopTerm(f, rs[|rs| - 1], LastRow(p), Covered(p))
  }

  /** The second pass's change to r over the rows rs, bottom to top. */
  function BottomPass(f: QualityFlags, rs: seq<Row>): int
  {
    if |rs| == 0 then 0
    else BottomPass(f, rs[1..]) - f.empty2 * Popcnt(AndNot(rs[0], Supported(rs[1..])))
  }

  /** The value Quality returns. */
  function QualityOf(f: QualityFlags, rows: Rows): int
  {
    TopPass(f, rows) + BottomPass(f, rows)
  }

  /** Quality: a pass from the top row down, then one from the bottom row up. */
  method Quality(s: Situation, f: QualityFlags) returns (r: int)
    ensures r == QualityOf(f, s.rows)
  {
    r := TopRowsPass(s, f);
    r := BottomRowsPass(s, f, r);
  }

  /** The first loop of Quality: cells, transitions and covered gaps. */
  method TopRowsPass(s: Situation, f: QualityFlags) returns (r: int)
    ensures r == TopPass(f, s.rows)
  {
    r := 0;
    var topRows: nat := 0;
    var lastRow: nat := 0;
    for y := 0 to H
      invariant r == TopPass(f, s.rows[..y])
      invariant topRows == Covered(s.rows[..y]) && lastRow == LastRow(s.rows[..y])
    {
      var row := s.rows[y];
      assert s.rows[..y + 1][..y] == s.rows[..y];
      r := r + 600 * Popcnt(row);
      var alts := And(Xor(row, row / 2), RowBitMask / 2);
      r := r - f.rowTransition * Popcnt(alts);
      r := r - f.colTransition * Popcnt(Xor(row, lastRow));
      lastRow := row;
      var penalty := AndNot(topRows, row);
      r := r - (f.empty - f.empty2) * Popcnt(penalty);
      topRows := Or(topRows, row);
    }
    assert s.rows[..H] == s.rows;
  }

  /** The second loop of Quality: occupied cells above a gap. */
  method BottomRowsPass(s: Situation, f: QualityFlags, r0: int) returns (r: int)
    ensures r == r0 + BottomPass(f, s.rows)
  {
    r := r0;
    var bottomRows: nat := RowBitMask;
    var y := H - 1;
    while y >= 0
      invariant -1 <= y < H
      invariant r == r0 + BottomPass(f, s.rows[y + 1..])
      invariant bottomRows == Supported(s.rows[y + 1..])
      decreases y
    {
      var row := s.rows[y];
      assert s.rows[y..][1..] == s.rows[y + 1..];
      var penalty := AndNot(row, bottomRows);
      r := r - f.empty2 * Popcnt(penalty);
      bottomRows := And(bottomRows, row);
      y := y - 1;
    }
  }

  /** An empty board is worth nothing, whatever the flags. */
  lemma QualityEmpty(f: QualityFlags)
    ensures QualityOf(f, EmptyRows()) == 0
  {
    TopPassEmpty(f, H);
    BottomPassEmpty(f, H);
  }

  lemma {:induction false} TopPassEmpty(f: QualityFlags, n: nat)
    ensures TopPass(f, Zeros(n)) == 0 && Covered(Zeros(n)) == 0
  {
    if n > 0 {
      TopPassEmpty(f, n - 1);
      assert Zeros(n)[..n - 1] == Zeros(n - 1);
    }
  }

  lemma {:induction false} BottomPassEmpty(f: QualityFlags, n: nat)
    ensures BottomPass(f, Zeros(n)) == 0
  {
    if n > 0 {
      BottomPassEmpty(f, n - 1);
      assert Zeros(n)[1..] == Zeros(n - 1);
    }
  }

  /** With every penalty zero, Quality is 600 per occupied cell. */
  lemma QualityNoPenalty(rows: Rows)
    ensures QualityOf(QualityFlags(0, 0, 0, 0), rows) == 600 * CellCount(rows)
  {
    var f := QualityFlags(0, 0, 0, 0);
    TopPassNoPenalty(rows);
    BottomPassNoPenalty(rows);
  }

  lemma {:induction false} TopPassNoPenalty(rs: seq<Row>)
    ensures TopPass(QualityFlags(0, 0, 0, 0), rs) == 600 * CellCount(rs)
  {
    if |rs| > 0 {
      var f := QualityFlags(0, 0, 0, 0);
      var p, r := rs[..|rs| - 1], rs[|rs| - 1];
      TopPassNoPenalty(p);
      assert TopPass(f, rs) == TopPass(f, p) + TopTerm(f, r, LastRow(p), Covered(p));
      assert TopTerm(f, r, LastRow(p), Covered(p)) == 600 * Popcnt(r);
      CellCountAppend(p, [r]);
      assert CellCount([r]) == Popcnt(r) + CellCount([]);
      assert p + [r] == rs;
    }
  }

  lemma {:induction false} BottomPassNoPenalty(rs: seq<Row>)
    ensures BottomPass(QualityFlags(0, 0, 0, 0), rs) == 0
  {
    if |rs| > 0 {
      BottomPassNoPenalty(rs[1..]);
    }
  }

  // ---------------------------------------------------------------------
  // IsOk

  /** IsOk's verdict: the stack is under five rows tall, or one of its five
      topmost rows holds more than three cells. */
  predicate Ok(rows: Rows)
  {
    var top := FirstNonEmpty(rows);
    H - top < 5 || exists y :: top <= y < top + 5 && Popcnt(rows[y]) > 3
  }

  /** IsOk: rejects a stack that rises as a thin branch. */
  method IsOk(s: Situation) returns (ok: bool)
    ensures ok == Ok(s.rows)
  {
    var occupied := OccupiedHeight(s);
    if occupied >= 5 {
      var y := H - occupied;
      var max := 0;
      for i := 0 to 5
        invariant forall j :: y <= j < y + i ==> Popcnt(s.rows[j]) <= max
        invariant max == 0 || exists j :: y <= j < y + i && Popcnt(s.rows[j]) == max
      {
        var c := Popcnt(s.rows[y + i]);
        if c > max {
          max := c;
        }
      }
      if max <= 3 {
        return false;
      }
    }
    return true;
  }

  /** A board IsOk rejects is sparse at the top: its five topmost rows hold
      at most fifteen cells. */
  lemma NotOkSparse(rows: Rows)
    requires !Ok(rows)
    ensures var top := FirstNonEmpty(rows); CellCount(rows[top..top + 5]) <= 15
  {
    var top := FirstNonEmpty(rows);
    var t := rows[top..top + 5];
    assert forall i :: 0 <= i < 5 ==> t[i] == rows[top + i];
    CellCountAtMost(t, 3);
  }

  lemma {:induction false} CellCountAtMost(rs: seq<Row>, m: nat)
    requires forall i :: 0 <= i < |rs| ==> Popcnt(rs[i]) <= m
    ensures CellCount(rs) <= m * |rs|
  {
    if |rs| > 0 {
      assert forall i :: 0 <= i < |rs| - 1 ==> rs[1..][i] == rs[i + 1];
      CellCountAtMost(rs[1..], m);
      assert m * |rs| == m * (|rs| - 1) + m;
    }
  }

  // ---------------------------------------------------------------------
  // Comparing boards (BricksEqual, BricksComp)

  /** The five 64-bit words of row_4_. */
  function Groups(rows: Rows): (g: seq<nat>)
    ensures |g| == 5
  {
    [Group(rows, 0), Group(rows, 1), Group(rows, 2), Group(rows, 3), Group(rows, 4)]
  }

  /** Two boards have the same groups exactly when they have the same rows. */
  lemma GroupsInjective(r: Rows, t: Rows)
    ensures (Groups(r) == Groups(t)) == (r == t)
  {
    if Groups(r) == Groups(t) {
      forall i | 0 <= i < 5 ensures r[4 * i..4 * i + 4] == t[4 * i..4 * i + 4] {
        assert Groups(r)[i] == Groups(t)[i];
        PackInjective(r[4 * i..4 * i + 4], t[4 * i..4 * i + 4]);
      }
      forall y | 0 <= y < H ensures r[y] == t[y] {
        var i := y / 4;
        assert r[4 * i..4 * i + 4][y - 4 * i] == t[4 * i..4 * i + 4][y - 4 * i];
      }
    }
  }

  /** Lexicographic comparison of equally long word sequences: the sign of
      the first difference. */
  function LexCompare(a: seq<int>, b: seq<int>): (c: int)
    requires |a| == |b|
    ensures -1 <= c <= 1
  {
    if |a| == 0 then 0
    else if a[0] != b[0] then (if a[0] > b[0] then 1 else -1)
    else LexCompare(a[1..], b[1..])
  }

  lemma {:induction false} LexCompareZero(a: seq<int>, b: seq<int>)
    requires |a| == |b|
    ensures (LexCompare(a, b) == 0) == (a == b)
  {
    if |a| > 0 && a[0] == b[0] {
      LexCompareZero(a[1..], b[1..]);
      if a[1..] == b[1..] {
        assert a == [a[0]] + a[1..] && b == [b[0]] + b[1..];
      }
    }
  }

  lemma {:induction false} LexCompareAntisymmetric(a: seq<int>, b: seq<int>)
    requires |a| == |b|
    ensures LexCompare(a, b) == -LexCompare(b, a)
  {
    if |a| > 0 && a[0] == b[0] {
      LexCompareAntisymmetric(a[1..], b[1..]);
    }
  }

  lemma {:induction false} LexCompareTransitive(a: seq<int>, b: seq<int>, c: seq<int>)
    requires |a| == |b| == |c|
    requires LexCompare(a, b) > 0 && LexCompare(b, c) > 0
    ensures LexCompare(a, c) > 0
  {
    if a[0] == b[0] && b[0] == c[0] {
      LexCompareTransitive(a[1..], b[1..], c[1..]);
    }
  }

  /** "Not greater" is transitive too. */
  lemma LexCompareNotAbove(a: seq<int>, b: seq<int>, c: seq<int>)
    requires |a| == |b| == |c|
    requires LexCompare(a, b) <= 0 && LexCompare(b, c) <= 0
    ensures LexCompare(a, c) <= 0
  {
    LexCompareZero(a, b);
    LexCompareZero(b, c);
    if LexCompare(a, b) < 0 && LexCompare(b, c) < 0 {
      LexCompareAntisymmetric(a, b);
      LexCompareAntisymmetric(b, c);
      LexCompareTransitive(c, b, a);
      LexCompareAntisymmetric(a, c);
    }
  }

  /** Comparing a + c with b + d, a and b of one length: a against b
      decides, and c against d only breaks a tie. */
  lemma {:induction false} LexCompareConcat(a: seq<int>, b: seq<int>, c: seq<int>, d: seq<int>)
    requires |a| == |b| && |c| == |d|
    ensures LexCompare(a + c, b + d) == if a == b then LexCompare(c, d) else LexCompare(a, b)
  {
    if |a| == 0 {
      assert a + c == c && b + d == d;
    } else {
      assert (a + c)[1..] == a[1..] + c && (b + d)[1..] == b[1..] + d;
      LexCompareConcat(a[1..], b[1..], c, d);
      if a[0] == b[0] && a[1..] == b[1..] {
        assert a == [a[0]] + a[1..] && b == [b[0]] + b[1..];
      }
    }
  }

  /** BricksEqual: the five words compared in turn. */
  method BricksEqual(s: Situation, t: Situation) returns (eq: bool)
    ensures eq == (s.rows == t.rows)
  {
    GroupsInjective(s.rows, t.rows);
    for i := 0 to 5
      invariant forall j :: 0 <= j < i ==> Groups(s.rows)[j] == Groups(t.rows)[j]
    {
      if Group(s.rows, i) != Group(t.rows, i) {
        return false;
      }
    }
    return true;
  }

  /** BricksComp: the sign of the first differing word, 0 for equal boards. */
  method BricksComp(s: Situation, t: Situation) returns (c: int)
    ensures c == LexCompare(Groups(s.rows), Groups(t.rows))
  {
    for i := 0 to 5
      invariant LexCompare(Groups(s.rows), Groups(t.rows)) ==
        LexCompare(Groups(s.rows)[i..], Groups(t.rows)[i..])
    {
      if Group(s.rows, i) != Group(t.rows, i) {
        return if Group(s.rows, i) > Group(t.rows, i) then 1 else -1;
      }
      assert Groups(s.rows)[i..][1..] == Groups(s.rows)[i + 1..];
      assert Groups(t.rows)[i..][1..] == Groups(t.rows)[i + 1..];
    }
    return 0;
  }

  /** BricksComp orders boards: it is 0 only on equal boards, swapping the
      arguments flips its sign, and "greater" is transitive. */
  lemma BricksCompOrder(r: Rows, t: Rows, u: Rows)
    ensures (LexCompare(Groups(r), Groups(t)) == 0) == (r == t)
    ensures LexCompare(Groups(r), Groups(t)) == -LexCompare(Groups(t), Groups(r))
    ensures LexCompare(Groups(r), Groups(t)) > 0 && LexCompare(Groups(t), Groups(u)) > 0 ==>
      LexCompare(Groups(r), Groups(u)) > 0
  {
    LexCompareZero(Groups(r), Groups(t));
    GroupsInjective(r, t);
    LexCompareAntisymmetric(Groups(r), Groups(t));
    if LexCompare(Groups(r), Groups(t)) > 0 && LexCompare(Groups(t), Groups(u)) > 0 {
      LexCompareTransitive(Groups(r), Groups(t), Groups(u));
    }
  }
}
