/** The board layout, piece tables and piece sequence of tetris_common.h. */
module Tetris {
  import opened Bits
  import Lcg

  /** Board height kH and width kW, and the length kSteps of the piece sequence. */
  const H: nat := 20
  const W: nat := 10
  const Steps: nat := 10000

  predicate XInRange(x: int) { 0 <= x < W }
  predicate YInRange(y: int) { 0 <= y < H }
  predicate InRange(x: int, y: int) { XInRange(x) && YInRange(y) }

  // ---------------------------------------------------------------------
  // Piece shapes

  /** enum Shape: I, L, J, T, O, S, Z. */
  type ShapeId = s: nat | s < 7

  /** A cell offset relative to the piece's reference cell. */
  datatype Pos = Pos(x: int, y: int)

  /** One row of kShapeDesc: the number of distinct rotations and, for each
      of the four rotation slots, the four cell offsets (slots at or above
      cnt are zero, as in the zero-initialised C++ array). */
  datatype ShapeDesc = ShapeDesc(cnt: nat, pos: seq<seq<Pos>>)

  const Zero4: seq<Pos> := [Pos(0, 0), Pos(0, 0), Pos(0, 0), Pos(0, 0)]

  const ShapeTable: seq<ShapeDesc> := [
    // I
    ShapeDesc(2, [[Pos(0, 0), Pos(0, -1), Pos(0, -2), Pos(0, 1)],
                  [Pos(0, 0), Pos(1, 0), Pos(2, 0), Pos(-1, 0)],
                  Zero4, Zero4]),
    // L
    ShapeDesc(4, [[Pos(0, 0), Pos(0, -1), Pos(0, -2), Pos(1, 0)],
                  [Pos(0, 0), Pos(1, 0), Pos(2, 0), Pos(0, 1)],
                  [Pos(0, 0), Pos(-1, 0), Pos(0, 1), Pos(0, 2)],
                  [Pos(0, 0), Pos(0, -1), Pos(-1, 0), Pos(-2, 0)]]),
    // J
    ShapeDesc(4, [[Pos(0, 0), Pos(0, -1), Pos(0, -2), Pos(-1, 0)],
                  [Pos(0, 0), Pos(0, -1), Pos(1, 0), Pos(2, 0)],
                  [Pos(0, 0), Pos(1, 0), Pos(0, 1), Pos(0, 2)],
                  [Pos(0, 0), Pos(-1, 0), Pos(-2, 0), Pos(0, 1)]]),
    // T
    ShapeDesc(4, [[Pos(0, 0), Pos(1, 0), Pos(0, 1), Pos(-1, 0)],
                  [Pos(0, 0), Pos(0, -1), Pos(0, 1), Pos(-1, 0)],
                  [Pos(0, 0), Pos(0, -1), Pos(1, 0), Pos(-1, 0)],
                  [Pos(0, 0), Pos(0, -1), Pos(1, 0), Pos(0, 1)]]),
    // O
    ShapeDesc(1, [[Pos(0, 0), Pos(0, -1), Pos(1, -1), Pos(1, 0)],
                  Zero4, Zero4, Zero4]),
    // S
    ShapeDesc(2, [[Pos(0, 0), Pos(0, -1), Pos(1, -1), Pos(-1, 0)],
                  [Pos(0, 0), Pos(-1, 0), Pos(-1, -1), Pos(0, 1)],
                  Zero4, Zero4]),
    // Z
    ShapeDesc(2, [[Pos(0, 0), Pos(0, -1), Pos(1, 0), Pos(-1, -1)],
                  [Pos(0, 0), Pos(0, -1), Pos(-1, 1), Pos(-1, 0)],
                  Zero4, Zero4])
  ]

  /** kShapeDesc[shp].cnt */
  function RotCount(shp: ShapeId): (cnt: nat)
    ensures cnt == 1 || cnt == 2 || cnt == 4
  {
    ShapeTable[shp].cnt
  }

  /** kShapeDesc[shp].pos[rot] */
  function Cells(shp: ShapeId, rot: nat): (cells: seq<Pos>)
    requires rot < 4
    ensures |cells| == 4
    ensures cells[0] == Pos(0, 0)
    ensures rot >= RotCount(shp) ==> cells == Zero4
    ensures forall k :: 0 <= k < 4 ==> -2 <= cells[k].x <= 2 && -2 <= cells[k].y <= 2
  {
    ShapeTable[shp].pos[rot]
  }

  /** The next rotation, (rot + 1) & (cnt - 1), as rotation and replay compute it. */
  function NextRot(shp: ShapeId, rot: nat): nat
  {
    And(rot + 1, RotCount(shp) - 1)
  }

  /** Because every rotation count is 1, 2 or 4, masking with cnt - 1 is
      reduction modulo cnt, so the next rotation stays below cnt. */
  lemma NextRotIsMod(shp: ShapeId, rot: nat)
    ensures NextRot(shp, rot) == (rot + 1) % RotCount(shp)
    ensures NextRot(shp, rot) < RotCount(shp)
  {
    AndLowMasks(rot + 1);
  }


  // ---------------------------------------------------------------------
  // Shape bounds (MakeShapeBounds)

  datatype ShapeBound = ShapeBound(minX: int, maxX: int, minY: int, maxY: int)

  function Min4(a: int, b: int, c: int, d: int): int
  {
    var ab := if a < b then a else b;
    var cd := if c < d then c else d;
    if ab < cd then ab else cd
  }

  function Max4(a: int, b: int, c: int, d: int): int
  {
    var ab := if a > b then a else b;
    var cd := if c > d then c else d;
    if ab > cd then ab else cd
  }

  /** The extent of four cells: each bound is attained by one of the cells
      and no cell lies outside the bounds. */
  function BoundsOf(pos: seq<Pos>): (b: ShapeBound)
    requires |pos| == 4
    ensures forall k :: 0 <= k < 4 ==> b.minX <= pos[k].x <= b.maxX && b.minY <= pos[k].y <= b.maxY
    ensures exists k :: 0 <= k < 4 && pos[k].x == b.minX
    ensures exists k :: 0 <= k < 4 && pos[k].x == b.maxX
    ensures exists k :: 0 <= k < 4 && pos[k].y == b.minY
    ensures exists k :: 0 <= k < 4 && pos[k].y == b.maxY
  {
    ShapeBound(Min4(pos[0].x, pos[1].x, pos[2].x, pos[3].x),
               Max4(pos[0].x, pos[1].x, pos[2].x, pos[3].x),
               Min4(pos[0].y, pos[1].y, pos[2].y, pos[3].y),
               Max4(pos[0].y, pos[1].y, pos[2].y, pos[3].y))
  }

  /** kShapeBounds[shp][rot]: the bounds of a real rotation, zero for the unused slots. */
  function Bounds(shp: ShapeId, rot: nat): (b: ShapeBound)
    requires rot < 4
    ensures rot >= RotCount(shp) ==> b == ShapeBound(0, 0, 0, 0)
    ensures b.minX <= 0 <= b.maxX && b.minY <= 0 <= b.maxY
    ensures -2 <= b.minX && b.maxX <= 2 && -2 <= b.minY && b.maxY <= 2
  {
    if rot < RotCount(shp) then BoundsOf(Cells(shp, rot)) else ShapeBound(0, 0, 0, 0)
  }

  /** Every cell of a rotation lies inside its bounds (the unused slots are
      all at the origin), and each bound spans at most four cells. */
  lemma BoundsContainCells(shp: ShapeId, rot: nat)
    requires rot < 4
    ensures var b := Bounds(shp, rot);
      b.maxX - b.minX <= 3 && b.maxY - b.minY <= 3 &&
      forall k :: 0 <= k < 4 ==>
        b.minX <= Cells(shp, rot)[k].x <= b.maxX && b.minY <= Cells(shp, rot)[k].y <= b.maxY
  {
  }

  /** A table laid out as kShapeDesc: seven shapes, at most four rotations
      each, four rotation slots of four cells. */
  predicate TableLayout(table: seq<ShapeDesc>)
  {
    |table| == 7 &&
    forall i :: 0 <= i < 7 ==>
      table[i].cnt <= 4 && |table[i].pos| == 4 &&
      forall j :: 0 <= j < 4 ==> |table[i].pos[j]| == 4
  }

  /** The bounds entry MakeShapeBounds computes from a table. */
  function BoundsEntry(table: seq<ShapeDesc>, i: nat, j: nat): ShapeBound
    requires TableLayout(table) && i < 7 && j < 4
  {
    if j < table[i].cnt then BoundsOf(table[i].pos[j]) else ShapeBound(0, 0, 0, 0)
  }

  /** On kShapeDesc, the computed entries are the shape bounds. */
  lemma ShapeTableBounds()
    ensures TableLayout(ShapeTable)
    ensures forall i, j :: 0 <= i < 7 && 0 <= j < 4 ==> BoundsEntry(ShapeTable, i, j) == Bounds(i, j)
  {
    forall i | 0 <= i < 7 ensures |ShapeTable[i].pos| == 4 {
      assert |Cells(i, 0)| == 4;
    }
    forall i, j | 0 <= i < 7 && 0 <= j < 4 ensures |ShapeTable[i].pos[j]| == 4 {
      assert |Cells(i, j)| == 4;
    }
  }

  /** MakeShapeBounds: fills the 7 x 4 table of bounds from kShapeDesc. */
  method MakeShapeBounds() returns (res: array2<ShapeBound>)
    ensures fresh(res) && res.Length0 == 7 && res.Length1 == 4
    ensures forall i, j :: 0 <= i < 7 && 0 <= j < 4 ==> res[i, j] == Bounds(i, j)
  {
    ShapeTableBounds();
    res := BoundsTable(ShapeTable);
  }

  /** The two loops of MakeShapeBounds over a table laid out as kShapeDesc:
      the bounds of each real rotation, zero in the unused slots. */
  method BoundsTable(table: seq<ShapeDesc>) returns (res: array2<ShapeBound>)
    requires TableLayout(table)
    ensures fresh(res) && res.Length0 == 7 && res.Length1 == 4
    ensures forall i, j :: 0 <= i < 7 && 0 <= j < 4 ==> res[i, j] == BoundsEntry(table, i, j)
  {
    res := new ShapeBound[7, 4]((i, j) => ShapeBound(0, 0, 0, 0));
    for i := 0 to 7
      invariant forall i', j :: 0 <= i' < i && 0 <= j < 4 ==> res[i', j] == BoundsEntry(table, i', j)
      invariant forall i', j :: i <= i' < 7 && 0 <= j < 4 ==> res[i', j] == ShapeBound(0, 0, 0, 0)
    {
      for j := 0 to table[i].cnt
        invariant forall i', j' :: 0 <= i' < i && 0 <= j' < 4 ==> res[i', j'] == BoundsEntry(table, i', j')
        invariant forall j' :: 0 <= j' < j ==> res[i, j'] == BoundsEntry(table, i, j')
        invariant forall i', j' :: i <= i' < 7 && 0 <= j' < 4 && (i' > i || j' >= j) ==> res[i', j'] == ShapeBound(0, 0, 0, 0)
      {
        res[i, j] := BoundsOf(table[i].pos[j]);
      }
    }
  }

  // ---------------------------------------------------------------------
  // Actions and piece positions

  /** ActionType, in the order of the letters "DLRCN". */
  datatype ActionType = Down | Left | Right | Rotate | New

  type U8 = b: nat | b < 256

  datatype Action = Action(kind: ActionType, amount: U8)

  /** BrickStatus: the position of the reference cell and the rotation. */
  datatype BrickStatus = BrickStatus(x: int, y: int, rot: nat)
  {
    function ReplaceX(newX: int): (r: BrickStatus)
      ensures r.x == newX && r.y == y && r.rot == rot
    {
      this.(x := newX)
    }

    function ReplaceY(newY: int): (r: BrickStatus)
      ensures r.x == x && r.y == newY && r.rot == rot
    {
      this.(y := newY)
    }

    function ReplaceRot(newRot: nat): (r: BrickStatus)
      ensures r.x == x && r.y == y && r.rot == newRot
    {
      this.(rot := newRot)
    }
  }

  // ---------------------------------------------------------------------
  // The piece sequence (GenBricks)

  datatype Brick = Brick(shape: ShapeId, st: BrickStatus)

  /** Sum of the weights 2, 3, 3, 4, 5, 6, 6 of the shapes before shape k. */
  function CumulativeWeight(k: nat): nat
    requires k <= 7
  {
    [0, 2, 5, 8, 12, 17, 23, 29][k]
  }

  /** The shape chosen for a weight index: shape k takes the indices from
      CumulativeWeight(k) up to CumulativeWeight(k + 1). */
  function ShapeForWeight(w: nat): (s: ShapeId)
    ensures w < 29 ==> CumulativeWeight(s) <= w < CumulativeWeight(s + 1)
  {
    if w >= 0 && w <= 1 then 0
    else if w > 1 && w <= 4 then 1
    else if w > 4 && w <= 7 then 2
    else if w > 7 && w <= 11 then 3
    else if w > 11 && w <= 16 then 4
    else if w > 16 && w <= 22 then 5
    else 6
  }

  /** Entry i of kBricks: the shape from the (i+1)-th generator state, the
      start position x = 4, y = 0 and the rotation (i mod 4) mod cnt. */
  function BrickAt(i: nat): (b: Brick)
    ensures b.st.x == 4 && b.st.y == 0 && b.st.rot < RotCount(b.shape)
    ensures b.shape == ShapeForWeight(Lcg.After(i + 1) % 29)
  {
    var shape := ShapeForWeight(Lcg.After(i + 1) % 29);
    Brick(shape, BrickStatus(4, 0, (i % 4) % RotCount(shape)))
  }

  /** GenBricks: the whole piece sequence, computed by stepping the generator. */
  method GenBricks() returns (bricks: seq<Brick>)
    ensures |bricks| == Steps
    ensures forall i :: 0 <= i < Steps ==> bricks[i] == BrickAt(i)
  {
    var res := new Brick[Steps](_ => Brick(0, BrickStatus(0, 0, 0)));
    var cur := Lcg.Seed;
    for i := 0 to Steps
      invariant cur == Lcg.After(i)
      invariant forall k :: 0 <= k < i ==> res[k] == BrickAt(k)
    {
      cur := (cur * Lcg.Multiplier + Lcg.Increment) % Lcg.Modulus;
      var weightIndex := cur % 29;
      var stateIndex := i % 4;
      var shapeIndex := ShapeForWeight(weightIndex);
      res[i] := Brick(shapeIndex, BrickStatus(4, 0, stateIndex % RotCount(shapeIndex)));
    }
    bricks := res[..];
  }

  // ---------------------------------------------------------------------
  // The board (Situation)

  /** A row bitmask (uint16_t); bit x is column x. */
  type Row = r: nat | r < 0x1_0000

  /** kRowBitMask: all kW columns occupied. */
  const RowBitMask: nat := 1023

  lemma RowBitMaskBits(x: nat)
    ensures Bit(RowBitMask, x) == (x < W)
    ensures RowBitMask == Pow2(W) - 1
  {
    assert Pow2(W) == 1024;
    var v: nat := RowBitMask;
    if x >= 10 {
      BitBelowPow2(v, 10, x);
    } else {
      var k := x;
      while k > 0
        invariant 0 <= k <= x
        invariant v == Pow2(10 - (x - k)) - 1
        invariant Bit(RowBitMask, x) == Bit(v, k)
        decreases k
      {
        v := v / 2;
        k := k - 1;
      }
    }
  }

  /** The 20 rows, index 0 at the top. */
  type Rows = r: seq<Row> | |r| == H witness seq(20, _ => 0)

  function EmptyRows(): Rows
  {
    seq(20, _ => 0)
  }

  /** Situation: the rows and the step, score and line-clear counters. */
  datatype Situation = Situation(rows: Rows, step: nat, score: nat, collapseLines: nat, collapseCount: nat)

  /** The zero-initialised board a search starts from. */
  function InitialSituation(): Situation
  {
    Situation(EmptyRows(), 0, 0, 0, 0)
  }

  /** operator()(x, y) const: whether cell (x, y) is occupied. */
  predicate Occupied(s: Situation, x: nat, y: nat)
    requires y < H
  {
    Bit(s.rows[y], x)
  }

  /** The value a row takes when BitRef assigns v to its bit x: exactly
      bit x becomes v, every other bit is kept. */
  function WithBit(row: Row, x: nat, v: bool): (r: Row)
    requires x < 16
    ensures forall i: nat :: Bit(r, i) == (if i == x then v else Bit(row, i))
  {
    Pow2Bit(x, x);
    Pow2Values();
    forall i: nat ensures Bit(Or(row, Pow2(x)), i) == (i == x || Bit(row, i))
      && Bit(AndNot(row, Pow2(x)), i) == (i != x && Bit(row, i)) {
      OrBit(row, Pow2(x), i);
      AndNotBit(row, Pow2(x), i);
      Pow2Bit(x, i);
    }
    if v then
      PowMonotone(x, 16);
      OrBound(row, Pow2(x), 16);
      Or(row, Pow2(x))
    else
      AndNotBound(row, Pow2(x), 16);
      AndNot(row, Pow2(x))
  }

  lemma PowMonotone(a: nat, b: nat)
    requires a < b
    ensures Pow2(a) < Pow2(b)
  {
  }

  /** A candidate move: the resting position, the board after the piece is
      placed and lines are cleared, and the actions that reach it. */
  datatype Candidate = Candidate(st: BrickStatus, situ: Situation, actions: seq<Action>)
}
