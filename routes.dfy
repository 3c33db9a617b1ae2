/** Moving a piece (tetris_common.cc): the replay rules of ReplayAndVerify,
    the route search of AppendRoute and its helpers, and the enumeration of
    resting positions in FindAllMoves. An ActionVector that a route function
    appends to is passed in as a value and handed back, so "res->resize(size)"
    after a failed attempt is simply returning the value passed in.

    The replay rules are stated over an arbitrary fit test `fit`; the methods
    take the fit test as a ghost parameter tied to Fits by FitLink, so that
    their proofs never look inside the shape tables. */
module Routes {
  import opened Bits
  import opened Tetris
  import opened Board
  import opened Evaluation
  import opened Decimal

  // ---------------------------------------------------------------------
  // The fit test

  /** The fit test of a board and a piece, as a function of the position:
      Fits, which only ever sees the four rotation slots. */
  function FitTest(rows: Rows, shp: ShapeId): BrickStatus -> bool
  {
    (st: BrickStatus) => st.rot < 4 && PieceFits(rows, shp, st)
  }

  /** fit agrees with Fits on rows and shp at every position Fits accepts. */
  ghost predicate FitLink(rows: Rows, shp: ShapeId, fit: BrickStatus -> bool)
  {
    forall p: BrickStatus {:trigger PieceFits(rows, shp, p)} :: p.rot < 4 ==> (fit(p) <==> PieceFits(rows, shp, p))
  }

  lemma FitTestLinked(rows: Rows, shp: ShapeId)
    ensures FitLink(rows, shp, FitTest(rows, shp))
  {
  }

  /** Where the piece fits, its origin cell is on the board or, for a piece
      whose cells reach below its origin, up to two rows above the top. */
  predicate InBoard(p: BrickStatus)
  {
    0 <= p.x < W && -2 <= p.y < H
  }

  lemma FitInBoard(rows: Rows, shp: ShapeId, p: BrickStatus)
    requires p.rot < 4 && PieceFits(rows, shp, p)
    ensures InBoard(p)
  {
  }

  /** Fits, seen through a linked fit test. */
  method FitsAt(s: Situation, shp: ShapeId, ghost fit: BrickStatus -> bool, st: BrickStatus) returns (ok: bool)
    requires st.rot < 4 && FitLink(s.rows, shp, fit)
    ensures ok == fit(st)
    ensures ok ==> InBoard(st)
  {
    ok := Fits(s, shp, st);
    if ok {
      FitInBoard(s.rows, shp, st);
    }
  }

  /** A linked fit test only accepts positions on the board. */
  lemma LinkedInBoard(rows: Rows, shp: ShapeId, fit: BrickStatus -> bool, p: BrickStatus)
    requires FitLink(rows, shp, fit) && p.rot < 4 && fit(p)
    ensures InBoard(p)
  {
    assert PieceFits(rows, shp, p);
    FitInBoard(rows, shp, p);
  }

  // ---------------------------------------------------------------------
  // The replay rules

  /** The position, if the piece fits there. */
  function Check(fit: BrickStatus -> bool, st: BrickStatus): Option<BrickStatus>
  {
    if fit(st) then Some(st) else None
  }

  /** One unit of an action as ReplayAndVerify performs it: a turn to
      (rot + 1) & (cnt - 1); a move left, refused at x = 0; a move right,
      refused unless 0 <= x < kW - 1 (x is compared as unsigned); a move
      down, refused unless 0 <= y < kH - 1. The piece must fit afterwards. */
  function Step(fit: BrickStatus -> bool, shp: ShapeId, st: BrickStatus, kind: ActionType): (r: Option<BrickStatus>)
    requires kind != New
    ensures r.Some? ==> fit(r.value)
  {
    match kind
    case Rotate => Check(fit, st.ReplaceRot(NextRot(shp, st.rot)))
    case Left => if st.x == 0 then None else Check(fit, st.ReplaceX(st.x - 1))
    case Right => if st.x < 0 || st.x >= W - 1 then None else Check(fit, st.ReplaceX(st.x + 1))
    case Down => if st.y < 0 || st.y >= H - 1 then None else Check(fit, st.ReplaceY(st.y + 1))
  }

  /** n units of one kind of action, stopping at the first refusal. */
  function ApplyN(fit: BrickStatus -> bool, shp: ShapeId, st: BrickStatus, kind: ActionType, n: nat): (r: Option<BrickStatus>)
    requires kind != New
    ensures r.Some? && n > 0 ==> fit(r.value)
    ensures r.Some? && n == 0 ==> r.value == st
  {
    if n == 0 then Some(st)
    else match ApplyN(fit, shp, st, kind, n - 1)
      case None => None
      case Some(m) => Step(fit, shp, m, kind)
  }

  /** One action: kNew is refused outright, the other kinds take `amount` units. */
  function ApplyAction(fit: BrickStatus -> bool, shp: ShapeId, st: BrickStatus, a: Action): (r: Option<BrickStatus>)
    ensures r.Some? ==> r.value == st || fit(r.value)
  {
    if a.kind == New then None else ApplyN(fit, shp, st, a.kind, a.amount)
  }

  /** The position a sequence of actions leads to, None when the replay
      refuses one of them. */
  function Apply(fit: BrickStatus -> bool, shp: ShapeId, st: BrickStatus, actions: seq<Action>): (r: Option<BrickStatus>)
    ensures r.Some? ==> r.value == st || fit(r.value)
  {
    if |actions| == 0 then Some(st)
    else match Apply(fit, shp, st, actions[..|actions| - 1])
      case None => None
      case Some(m) => ApplyAction(fit, shp, m, actions[|actions| - 1])
  }

  /** Where n units of a move lead when none is refused. */
  function Moved(st: BrickStatus, kind: ActionType, n: nat): BrickStatus
  {
    match kind
    case Left => st.ReplaceX(st.x - n)
    case Right => st.ReplaceX(st.x + n)
    case Down => st.ReplaceY(st.y + n)
    case _ => st
  }

  /** A run of n + 1 units is the run of n units and one unit more. */
  lemma ApplyNNext(fit: BrickStatus -> bool, shp: ShapeId, st: BrickStatus, kind: ActionType, n: nat, m: BrickStatus)
    requires kind != New && ApplyN(fit, shp, st, kind, n) == Some(m)
    ensures ApplyN(fit, shp, st, kind, n + 1) == Step(fit, shp, m, kind)
  {
  }

  /** A move that is not refused shifts the piece by its amount. */
  lemma {:induction false} ApplyNMoved(fit: BrickStatus -> bool, shp: ShapeId, st: BrickStatus, kind: ActionType, n: nat)
    requires (kind == Left || kind == Right || kind == Down)
    ensures ApplyN(fit, shp, st, kind, n).Some? ==> ApplyN(fit, shp, st, kind, n).value == Moved(st, kind, n)
  {
    if n > 0 {
      ApplyNMoved(fit, shp, st, kind, n - 1);
    }
  }

  /** Once a unit is refused, every longer run is refused. */
  lemma {:induction false} ApplyNFailed(fit: BrickStatus -> bool, shp: ShapeId, st: BrickStatus, kind: ActionType, k: nat, n: nat)
    requires kind != New && k <= n && ApplyN(fit, shp, st, kind, k).None?
    ensures ApplyN(fit, shp, st, kind, n).None?
    decreases n
  {
    if n > k {
      ApplyNFailed(fit, shp, st, kind, k, n - 1);
    }
  }

  /** A run of n moves whose unit k + 1 is refused does not reach the
      position n units away, even when n is cut to its low eight bits. */
  lemma MissedWalk(fit: BrickStatus -> bool, shp: ShapeId, st: BrickStatus, kind: ActionType, k: nat, n: nat)
    requires (kind == Left || kind == Right || kind == Down)
    requires k < n && ApplyN(fit, shp, st, kind, k + 1).None?
    ensures ApplyN(fit, shp, st, kind, n % 256) != Some(Moved(st, kind, n))
  {
    if n % 256 > k {
      ApplyNFailed(fit, shp, st, kind, k + 1, n % 256);
    } else {
      ApplyNMoved(fit, shp, st, kind, n % 256);
    }
  }

  /** A distance below 256 survives the cast to uint8_t. */
  lemma SmallAmount(n: nat)
    requires n < 256
    ensures n % 256 == n
  {
  }

  lemma ApplyOne(fit: BrickStatus -> bool, shp: ShapeId, st: BrickStatus, a: Action)
    ensures Apply(fit, shp, st, [a]) == ApplyAction(fit, shp, st, a)
  {
    assert [a][..0] == [];
  }

  /** Replaying a + b is replaying a, then b from where a ends. */
  lemma {:induction false} ApplyAppend(fit: BrickStatus -> bool, shp: ShapeId, st: BrickStatus, a: seq<Action>, b: seq<Action>)
    ensures Apply(fit, shp, st, a + b) ==
      match Apply(fit, shp, st, a)
      case None => None
      case Some(m) => Apply(fit, shp, m, b)
    decreases |b|
  {
    if |b| == 0 {
      assert a + b == a;
    } else {
      ApplyAppend(fit, shp, st, a, b[..|b| - 1]);
      assert (a + b)[..|a + b| - 1] == a + b[..|b| - 1];
      assert (a + b)[|a + b| - 1] == b[|b| - 1];
    }
  }

  /** A replay refused on a prefix is refused on the whole sequence. */
  lemma ApplyPrefixFailed(fit: BrickStatus -> bool, shp: ShapeId, st: BrickStatus, actions: seq<Action>, i: nat)
    requires i <= |actions| && Apply(fit, shp, st, actions[..i]).None?
    ensures Apply(fit, shp, st, actions).None?
  {
    ApplyAppend(fit, shp, st, actions[..i], actions[i..]);
    assert actions[..i] + actions[i..] == actions;
  }

  /** A replay that succeeds holds no kNew: ApplyAction refuses it. */
  lemma {:induction false} ApplyNoNew(fit: BrickStatus -> bool, shp: ShapeId, st: BrickStatus, actions: seq<Action>)
    requires Apply(fit, shp, st, actions).Some?
    ensures forall a :: a in actions ==> a.kind != New
    decreases |actions|
  {
    if |actions| > 0 {
      var init := actions[..|actions| - 1];
      if Apply(fit, shp, st, init).None? {
        assert false;
      }
      ApplyNoNew(fit, shp, st, init);
      assert actions == init + [actions[|actions| - 1]];
    }
  }

  /** No unit of the replay moves the piece up. */
  lemma {:induction false} ApplyNDescends(fit: BrickStatus -> bool, shp: ShapeId, st: BrickStatus, kind: ActionType, n: nat)
    requires kind != New
    ensures ApplyN(fit, shp, st, kind, n).Some? ==> ApplyN(fit, shp, st, kind, n).value.y >= st.y
  {
    if n > 0 {
      ApplyNDescends(fit, shp, st, kind, n - 1);
    }
  }

  /** The piece never ends a replay higher than it started. */
  lemma {:induction false} ApplyDescends(fit: BrickStatus -> bool, shp: ShapeId, st: BrickStatus, actions: seq<Action>)
    ensures Apply(fit, shp, st, actions).Some? ==> Apply(fit, shp, st, actions).value.y >= st.y
    decreases |actions|
  {
    if |actions| > 0 {
      ApplyDescends(fit, shp, st, actions[..|actions| - 1]);
      var m := Apply(fit, shp, st, actions[..|actions| - 1]);
      var a := actions[|actions| - 1];
      if m.Some? && a.kind != New {
        ApplyNDescends(fit, shp, m.value, a.kind, a.amount);
      }
    }
  }

  // ---------------------------------------------------------------------
  // ReplayAndVerify

  /** One unit of the replay: the range check of its kind, then Fits. */
  method ReplayUnit(s: Situation, shp: ShapeId, ghost fit: BrickStatus -> bool, cur: BrickStatus, kind: ActionType)
    returns (r: Option<BrickStatus>)
    requires FitLink(s.rows, shp, fit) && kind != New && cur.rot < 4
    ensures r == Step(fit, shp, cur, kind)
    ensures r.Some? ==> r.value.rot < 4
  {
    var next := cur;
    match kind {
      case Rotate =>
        NextRotIsMod(shp, cur.rot);
        next := cur.ReplaceRot(NextRot(shp, cur.rot));
      case Left =>
        if cur.x == 0 {
          return None;
        }
        next := cur.ReplaceX(cur.x - 1);
      case Right =>
        if cur.x < 0 || cur.x >= W - 1 {
          return None;
        }
        next := cur.ReplaceX(cur.x + 1);
      case Down =>
        if cur.y < 0 || cur.y >= H - 1 {
          return None;
        }
        next := cur.ReplaceY(cur.y + 1);
    }
    var fits := FitsAt(s, shp, fit, next);
    r := if fits then Some(next) else None;
  }

  /** One action of the replay, unit by unit, with its checks. */
  method ReplayAction(s: Situation, shp: ShapeId, ghost fit: BrickStatus -> bool, st: BrickStatus, a: Action)
    returns (r: Option<BrickStatus>)
    requires FitLink(s.rows, shp, fit) && st.rot < 4
    ensures r == ApplyAction(fit, shp, st, a)
    ensures r.Some? ==> r.value.rot < 4
  {
    if a.kind == New {
      return None;
    }
    var cur := st;
    for k := 0 to a.amount
      invariant cur.rot < 4
      invariant ApplyN(fit, shp, st, a.kind, k) == Some(cur)
    {
      var next := ReplayUnit(s, shp, fit, cur, a.kind);
      ApplyNNext(fit, shp, st, a.kind, k, cur);
      if next.None? {
        ApplyNFailed(fit, shp, st, a.kind, k + 1, a.amount);
        return None;
      }
      cur := next.value;
    }
    return Some(cur);
  }

  /** On a board without full rows, placing a piece anywhere leaves at most
      four full rows: a row that becomes full holds a cell of the piece,
      and the piece spans at most four rows. */
  lemma PlacedCanCollapse(s: Situation, shp: ShapeId, st: BrickStatus)
    requires st.rot < 4 && FullMask(s.rows) == 0
    ensures CanCollapse(Placed(s, shp, st))
  {
    var cells := Cells(shp, st.rot);
    var b := Bounds(shp, st.rot);
    BoundsContainCells(shp, st.rot);
    FullMaskZero(s.rows);
    var rows := Placed(s, shp, st).rows;
    forall i | 0 <= i < |rows| && IsFull(rows[i]) ensures st.y + b.minY <= i < st.y + b.minY + 4 {
      if !exists k :: 0 <= k < 4 && st.y + cells[k].y == i {
        forall x: nat ensures Bit(rows[i], x) == Bit(s.rows[i], x) {
          PlaceCellsBit(s.rows, cells, st, 4, x, i);
        }
        BitsExt(rows[i], s.rows[i]);
      }
    }
    FullRowsInWindow(rows, st.y + b.minY);
    FullMaskCount(rows);
  }

  /** The board ReplayAndVerify rebuilds: the piece of this step, from the
      position kBricks gives it, follows the actions and is placed and the
      lines are cleared; None when a check of the replay fails. */
  function Replayed(s: Situation, actions: seq<Action>): Option<Situation>
    requires s.step < Steps && FullMask(s.rows) == 0
  {
    var b := BrickAt(s.step);
    if !PieceFits(s.rows, b.shape, b.st) then None
    else match Apply(FitTest(s.rows, b.shape), b.shape, b.st, actions)
      case None => None
      case Some(st) =>
        PlacedCanCollapse(s, b.shape, st);
        Some(Collapsed(Placed(s, b.shape, st)))
  }

  /** The loop of ReplayAndVerify over the actions, from position st. */
  method ReplayActions(s: Situation, shp: ShapeId, ghost fit: BrickStatus -> bool, st: BrickStatus, actions: seq<Action>)
    returns (r: Option<BrickStatus>)
    requires FitLink(s.rows, shp, fit) && st.rot < 4
    ensures r == Apply(fit, shp, st, actions)
    ensures r.Some? ==> r.value.rot < 4
  {
    var cur := st;
    for i := 0 to |actions|
      invariant cur.rot < 4
      invariant Apply(fit, shp, st, actions[..i]) == Some(cur)
    {
      assert actions[..i + 1][..i] == actions[..i];
      var next := ReplayAction(s, shp, fit, cur, actions[i]);
      if next.None? {
        ApplyPrefixFailed(fit, shp, st, actions, i + 1);
        return None;
      }
      cur := next.value;
    }
    assert actions[..|actions|] == actions;
    return Some(cur);
  }

  /** ReplayAndVerify: true exactly when the replay succeeds and ends on the
      rows of the target (only the rows are compared). */
  method ReplayAndVerify(s: Situation, actions: seq<Action>, target: Situation) returns (ok: bool)
    requires s.step < Steps && FullMask(s.rows) == 0
    ensures ok <==> Replayed(s, actions).Some? && Replayed(s, actions).value.rows == target.rows
  {
    var brick := BrickAt(s.step);
    var shp := brick.shape;
    var fits := Fits(s, shp, brick.st);
    if !fits {
      return false;
    }
    FitTestLinked(s.rows, shp);
    var r := ReplayActions(s, shp, FitTest(s.rows, shp), brick.st, actions);
    if r.None? {
      return false;
    }
    var st := r.value;
    PlacedCanCollapse(s, shp, st);
    var placed := PutCopy(s, shp, st);
    var board := new Board(placed);
    board.CollapseInPlace();
    ok := BricksEqual(board.Value(), target);
  }

  // ---------------------------------------------------------------------
  // Routes of one kind of move

  /** The outcome of a route search that appends to res: on success res is
      a prefix of the result and the actions after it, replayed from a
      start with non-negative coordinates, bring the piece from `from` to
      `to`; on failure res is handed back unchanged. */
  ghost predicate Appended(fit: BrickStatus -> bool, shp: ShapeId, from: BrickStatus, to: BrickStatus,
                     res: seq<Action>, ok: bool, res': seq<Action>)
  {
    if ok then
      |res| <= |res'| && res'[..|res|] == res &&
      (NonNegative(from) ==> Apply(fit, shp, from, res'[|res|..]) == Some(to))
    else res' == res
  }

  /** Both coordinates are non-negative: the unsigned comparisons of the
      replay then agree with the fit tests of the route search. */
  predicate NonNegative(st: BrickStatus)
  {
    0 <= st.x && 0 <= st.y
  }

  /** Appending one more action sequence that replays from `from` to `to`. */
  lemma AppendedOnce(fit: BrickStatus -> bool, shp: ShapeId, from: BrickStatus, to: BrickStatus,
                     res: seq<Action>, acts: seq<Action>)
    requires NonNegative(from) ==> Apply(fit, shp, from, acts) == Some(to)
    ensures Appended(fit, shp, from, to, res, true, res + acts)
  {
    assert (res + acts)[..|res|] == res;
    assert (res + acts)[|res|..] == acts;
  }

  /** Two legs appended one after the other make one route. */
  lemma JoinLegs(fit: BrickStatus -> bool, shp: ShapeId, from: BrickStatus, via: BrickStatus, to: BrickStatus,
                 res: seq<Action>, r1: seq<Action>, r2: seq<Action>)
    requires Appended(fit, shp, from, via, res, true, r1)
    requires |r1| <= |r2| && r2[..|r1|] == r1
    requires NonNegative(from) ==> Apply(fit, shp, via, r2[|r1|..]) == Some(to)
    ensures Appended(fit, shp, from, to, res, true, r2)
  {
    assert r2[..|res|] == res;
    assert r2[|res|..] == r1[|res|..] + r2[|r1|..];
    if NonNegative(from) {
      ApplyAppend(fit, shp, from, r1[|res|..], r2[|r1|..]);
    }
  }

  /** The number of turns from rotation a to rotation b. */
  function RotDistance(shp: ShapeId, a: nat, b: nat): (d: nat)
    requires a < RotCount(shp) && b < RotCount(shp)
    ensures d < RotCount(shp) && (d == 0 <==> a == b)
  {
    if a <= b then b - a else b + RotCount(shp) - a
  }

  /** A turn from the last rotation wraps to rotation 0. */
  lemma NextRotWraps(shp: ShapeId, rot: nat)
    requires rot < RotCount(shp)
    ensures NextRot(shp, rot) == if rot + 1 == RotCount(shp) then 0 else rot + 1
  {
    NextRotIsMod(shp, rot);
  }

  /** The actions RotateRouteAppend appends. */
  function RotateActions(shp: ShapeId, a: nat, b: nat): seq<Action>
    requires a < RotCount(shp) && b < RotCount(shp)
  {
    if a == b then [] else [Action(Rotate, RotDistance(shp, a, b))]
  }

  /** One turn of RotateRouteAppend: Fits at the next rotation, which is
      where the replay's next unit of kRotate leads. */
  method TurnUnit(s: Situation, shp: ShapeId, ghost fit: BrickStatus -> bool, from: BrickStatus, cnt: nat, rot: nat)
    returns (next: nat, fits: bool)
    requires FitLink(s.rows, shp, fit) && rot < RotCount(shp)
    requires ApplyN(fit, shp, from, Rotate, cnt) == Some(from.ReplaceRot(rot))
    ensures next == NextRot(shp, rot) && next < RotCount(shp)
    ensures ApplyN(fit, shp, from, Rotate, cnt + 1) == if fits then Some(from.ReplaceRot(next)) else None
  {
    NextRotIsMod(shp, rot);
    next := NextRot(shp, rot);
    fits := FitsAt(s, shp, fit, from.ReplaceRot(next));
    ApplyNNext(fit, shp, from, Rotate, cnt, from.ReplaceRot(rot));
    assert from.ReplaceRot(rot).ReplaceRot(next) == from.ReplaceRot(next);
  }

  /** RotateRouteAppend: turns in place until rotation toRot; succeeds exactly
      when the replay of the appended turn ends at toRot. */
  method RotateRouteAppend(s: Situation, shp: ShapeId, ghost fit: BrickStatus -> bool, from: BrickStatus, toRot: nat,
                           res: seq<Action>)
    returns (ok: bool, res': seq<Action>)
    requires FitLink(s.rows, shp, fit) && from.rot < RotCount(shp) && toRot < RotCount(shp)
    ensures res' == if ok then res + RotateActions(shp, from.rot, toRot) else res
    ensures ok <==> Apply(fit, shp, from, RotateActions(shp, from.rot, toRot)) == Some(from.ReplaceRot(toRot))
    ensures Appended(fit, shp, from, from.ReplaceRot(toRot), res, ok, res')
  {
    if from.rot == toRot {
      assert from.ReplaceRot(toRot) == from;
      AppendedOnce(fit, shp, from, from, res, []);
      assert res + [] == res;
      return true, res;
    }
    var d := RotDistance(shp, from.rot, toRot);
    var cnt: nat := 0;
    var rot: nat := from.rot;
    while rot != toRot
      invariant rot < RotCount(shp)
      invariant cnt + RotDistance(shp, rot, toRot) == d
      invariant ApplyN(fit, shp, from, Rotate, cnt) == Some(from.ReplaceRot(rot))
      decreases RotDistance(shp, rot, toRot)
    {
      NextRotWraps(shp, rot);
      var fits;
      rot, fits := TurnUnit(s, shp, fit, from, cnt, rot);
      cnt := cnt + 1;
      if !fits {
        ApplyNFailed(fit, shp, from, Rotate, cnt, d);
        ApplyOne(fit, shp, from, Action(Rotate, d));
        return false, res;
      }
    }
    ok := FitsAt(s, shp, fit, from.ReplaceRot(toRot));
    ApplyOne(fit, shp, from, Action(Rotate, d));
    res' := if ok && cnt > 0 then res + [Action(Rotate, cnt)] else res;
    if ok {
      AppendedOnce(fit, shp, from, from.ReplaceRot(toRot), res, [Action(Rotate, cnt)]);
    }
  }

  /** The unsigned check of the replay cannot refuse a move of this kind
      from st: moving right needs x >= 0 and moving down needs y >= 0
      (moving left needs x != 0, which a fitting target column implies). */
  predicate Unsigned(st: BrickStatus, kind: ActionType)
  {
    (kind == Right ==> 0 <= st.x) && (kind == Down ==> 0 <= st.y)
  }

  /** Where the unsigned check holds, one unit of a move succeeds exactly
      when the piece fits one unit further: the upper checks x < kW - 1 and
      y < kH - 1 and the lower check x != 0 only refuse positions where the
      piece would leave the board. */
  lemma StepMove(fit: BrickStatus -> bool, shp: ShapeId, p: BrickStatus, kind: ActionType)
    requires (kind == Left || kind == Right || kind == Down) && Unsigned(p, kind)
    requires fit(Moved(p, kind, 1)) ==> InBoard(Moved(p, kind, 1))
    ensures Step(fit, shp, p, kind) == Check(fit, Moved(p, kind, 1))
  {
  }

  /** Unit i + 1 of a walk: Fits at the next position, which is where the
      replay's unit leads when the unsigned check holds. */
  method WalkUnit(s: Situation, shp: ShapeId, ghost fit: BrickStatus -> bool, from: BrickStatus, kind: ActionType, i: nat)
    returns (fits: bool)
    requires FitLink(s.rows, shp, fit) && from.rot < 4 && (kind == Left || kind == Right || kind == Down)
    requires Unsigned(from, kind) ==> ApplyN(fit, shp, from, kind, i) == Some(Moved(from, kind, i))
    ensures Unsigned(from, kind) ==>
      ApplyN(fit, shp, from, kind, i + 1) == if fits then Some(Moved(from, kind, i + 1)) else None
    ensures fits ==> InBoard(Moved(from, kind, i + 1))
  {
    fits := FitsAt(s, shp, fit, Moved(from, kind, i + 1));
    if Unsigned(from, kind) {
      ApplyNNext(fit, shp, from, kind, i, Moved(from, kind, i));
      assert Moved(Moved(from, kind, i), kind, 1) == Moved(from, kind, i + 1);
      StepMove(fit, shp, Moved(from, kind, i), kind);
    }
  }

  /** The loop of Walk, without the cast: on success the run of n units
      reaches the position n units away, and n is below 256; on failure
      unit k + 1 is refused. */
  method WalkSteps(s: Situation, shp: ShapeId, ghost fit: BrickStatus -> bool, from: BrickStatus, kind: ActionType, n: nat)
    returns (ok: bool, ghost k: nat)
    requires FitLink(s.rows, shp, fit) && from.rot < 4 && (kind == Left || kind == Right || kind == Down)
    ensures ok ==> n < 256
    ensures ok && Unsigned(from, kind) ==> ApplyN(fit, shp, from, kind, n) == Some(Moved(from, kind, n))
    ensures !ok ==> k < n
    ensures !ok && Unsigned(from, kind) ==> ApplyN(fit, shp, from, kind, k + 1).None?
  {
    for i := 0 to n
      invariant Unsigned(from, kind) ==> ApplyN(fit, shp, from, kind, i) == Some(Moved(from, kind, i))
      invariant i > 0 ==> InBoard(Moved(from, kind, 1)) && InBoard(Moved(from, kind, i))
    {
      var fits := WalkUnit(s, shp, fit, from, kind, i);
      if !fits {
        return false, i;
      }
    }
    return true, 0;
  }

  /** The stepping loops of HorizontalRouteAppend and AppendRouteNaive: n
      unit moves of one kind, each checked with Fits, stopping at the first
      position where the piece does not fit. Where the unsigned check holds
      at the start, the loop succeeds exactly when the replay of one action
      of n units (n cast to uint8_t) ends n units away. */
  method Walk(s: Situation, shp: ShapeId, ghost fit: BrickStatus -> bool, from: BrickStatus, kind: ActionType, n: nat)
    returns (ok: bool)
    requires FitLink(s.rows, shp, fit) && from.rot < 4 && (kind == Left || kind == Right || kind == Down)
    ensures Unsigned(from, kind) ==>
      (ok <==> ApplyN(fit, shp, from, kind, n % 256) == Some(Moved(from, kind, n)))
  {
    ghost var k;
    ok, k := WalkSteps(s, shp, fit, from, kind, n);
    if ok {
      SmallAmount(n);
    } else if Unsigned(from, kind) {
      MissedWalk(fit, shp, from, kind, k, n);
    }
  }

  /** The actions HorizontalRouteAppend appends; the distance is cast to uint8_t. */
  function HorizontalActions(fromX: int, toX: int): seq<Action>
  {
    if toX == fromX then []
    else if toX > fromX then [Action(Right, (toX - fromX) % 256)]
    else [Action(Left, (fromX - toX) % 256)]
  }

  /** HorizontalRouteAppend: slides one column at a time to column toX; from
      a start at a non-negative column it succeeds exactly when the replay
      of the appended move reaches toX. */
  method HorizontalRouteAppend(s: Situation, shp: ShapeId, ghost fit: BrickStatus -> bool, from: BrickStatus, toX: int,
                               res: seq<Action>)
    returns (ok: bool, res': seq<Action>)
    requires FitLink(s.rows, shp, fit) && from.rot < 4
    ensures res' == if ok then res + HorizontalActions(from.x, toX) else res
    ensures 0 <= from.x ==>
      (ok <==> Apply(fit, shp, from, HorizontalActions(from.x, toX)) == Some(from.ReplaceX(toX)))
    ensures Appended(fit, shp, from, from.ReplaceX(toX), res, ok, res')
  {
    if from.x == toX {
      assert from.ReplaceX(toX) == from;
      AppendedOnce(fit, shp, from, from, res, []);
      assert res + [] == res;
      return true, res;
    } else if toX > from.x {
      ok := Walk(s, shp, fit, from, Right, toX - from.x);
      ApplyOne(fit, shp, from, Action(Right, (toX - from.x) % 256));
      assert Moved(from, Right, toX - from.x) == from.ReplaceX(toX);
    } else {
      ok := Walk(s, shp, fit, from, Left, from.x - toX);
      ApplyOne(fit, shp, from, Action(Left, (from.x - toX) % 256));
      assert Moved(from, Left, from.x - toX) == from.ReplaceX(toX);
    }
    res' := if ok then res + HorizontalActions(from.x, toX) else res;
    if ok {
      AppendedOnce(fit, shp, from, from.ReplaceX(toX), res, HorizontalActions(from.x, toX));
    }
  }

  /** The action the drop of AppendRouteNaive appends. */
  function DownActions(fromY: int, toY: int): seq<Action>
  {
    if toY > fromY then [Action(Down, (toY - fromY) % 256)] else []
  }

  /** The drop of AppendRouteNaive: row by row from `from` down to row toY,
      appending one kDown of the distance cast to uint8_t. From a start at a
      non-negative row it succeeds exactly when the replay of that action
      reaches row toY. */
  method DropRouteAppend(s: Situation, shp: ShapeId, ghost fit: BrickStatus -> bool, from: BrickStatus, toY: int,
                         res: seq<Action>)
    returns (ok: bool, res': seq<Action>)
    requires FitLink(s.rows, shp, fit) && from.rot < 4 && from.y <= toY
    ensures res' == if ok then res + DownActions(from.y, toY) else res
    ensures 0 <= from.y ==>
      (ok <==> Apply(fit, shp, from, DownActions(from.y, toY)) == Some(from.ReplaceY(toY)))
  {
    if toY == from.y {
      assert from.ReplaceY(toY) == from;
      assert res + [] == res;
      return true, res;
    }
    ok := Walk(s, shp, fit, from, Down, toY - from.y);
    ApplyOne(fit, shp, from, Action(Down, (toY - from.y) % 256));
    assert Moved(from, Down, toY - from.y) == from.ReplaceY(toY);
    res' := if ok then res + DownActions(from.y, toY) else res;
  }

  // ---------------------------------------------------------------------
  // Route search

  /** A leg appended as res + acts, seen as an Appended outcome. */
  lemma AppendedLeg(fit: BrickStatus -> bool, shp: ShapeId, from: BrickStatus, to: BrickStatus,
                    res: seq<Action>, acts: seq<Action>, r: seq<Action>)
    requires r == res + acts
    ensures |res| <= |r| && r[..|res|] == res && r[|res|..] == acts
  {
  }

  /** The naive route from `from` to `to` replays: at the start's row, the
      turn to the target's rotation and then the slide to its column, or
      else the slide and then the turn; then the drop to the target's row,
      which is not above the start. */
  ghost predicate NaiveOk(fit: BrickStatus -> bool, shp: ShapeId, from: BrickStatus, to: BrickStatus)
    requires from.rot < RotCount(shp) && to.rot < RotCount(shp)
  {
    var mid := from.(x := to.x, rot := to.rot);
    from.y <= to.y &&
    ((Apply(fit, shp, from, RotateActions(shp, from.rot, to.rot)) == Some(from.ReplaceRot(to.rot)) &&
      Apply(fit, shp, from.ReplaceRot(to.rot), HorizontalActions(from.x, to.x)) == Some(mid)) ||
     (Apply(fit, shp, from, HorizontalActions(from.x, to.x)) == Some(from.ReplaceX(to.x)) &&
      Apply(fit, shp, from.ReplaceX(to.x), RotateActions(shp, from.rot, to.rot)) == Some(mid))) &&
    Apply(fit, shp, mid, DownActions(from.y, to.y)) == Some(to)
  }

  /** AppendRouteNaive: turn then slide, or else slide then turn, then drop
      row by row to the target height. It refuses a target above the start,
      and from a start on the board it succeeds exactly when one of its two
      orders and the drop replay to the target. */
  method AppendRouteNaive(s: Situation, shp: ShapeId, ghost fit: BrickStatus -> bool, from: BrickStatus, to: BrickStatus,
                          res: seq<Action>)
    returns (ok: bool, res': seq<Action>)
    requires FitLink(s.rows, shp, fit) && from.rot < RotCount(shp) && to.rot < RotCount(shp)
    ensures Appended(fit, shp, from, to, res, ok, res')
    ensures to.y < from.y ==> !ok
    ensures NonNegative(from) ==> (ok <==> NaiveOk(fit, shp, from, to))
  {
    if to.y < from.y {
      return false, res;
    }
    var mid := from.(x := to.x, rot := to.rot);
    var ok1, r1 := RotateRouteAppend(s, shp, fit, from, to.rot, res);
    var ok2, r2 := false, res;
    if ok1 {
      ok2, r2 := HorizontalRouteAppend(s, shp, fit, from.ReplaceRot(to.rot), to.x, r1);
    }
    if ok1 && ok2 {
      assert from.ReplaceRot(to.rot).ReplaceX(to.x) == mid;
      AppendedLeg(fit, shp, from.ReplaceRot(to.rot), mid, r1, HorizontalActions(from.x, to.x), r2);
      JoinLegs(fit, shp, from, from.ReplaceRot(to.rot), mid, res, r1, r2);
    } else {
      ok1, r1 := HorizontalRouteAppend(s, shp, fit, from, to.x, res);
      ok2 := false;
      if ok1 {
        ok2, r2 := RotateRouteAppend(s, shp, fit, from.ReplaceX(to.x), to.rot, r1);
      }
      if !ok1 || !ok2 {
        return false, res;
      }
      assert from.ReplaceX(to.x).ReplaceRot(to.rot) == mid;
      AppendedLeg(fit, shp, from.ReplaceX(to.x), mid, r1, RotateActions(shp, from.rot, to.rot), r2);
      JoinLegs(fit, shp, from, from.ReplaceX(to.x), mid, res, r1, r2);
    }
    var ok3, r3 := DropRouteAppend(s, shp, fit, mid, to.y, r2);
    if !ok3 {
      return false, res;
    }
    assert mid.ReplaceY(to.y) == to;
    AppendedLeg(fit, shp, mid, to, r2, DownActions(mid.y, to.y), r3);
    JoinLegs(fit, shp, from, mid, to, res, r2, r3);
    return true, r3;
  }

  /** The option flags of AppendRoute: each detour is tried only when its
      flag is clear, and the recursive searches inside it set the flag. */
  const BottomLeftRight: nat := 1
  const TopLeftRight: nat := 2
  const TSpin: nat := 4
  const InitialSpin: nat := 8

  /** The number of the four flags still clear in options. */
  function Unset(options: nat): nat
  {
    (if Bit(options, 0) then 0 else 1) + (if Bit(options, 1) then 0 else 1) +
    (if Bit(options, 2) then 0 else 1) + (if Bit(options, 3) then 0 else 1)
  }

  /** Setting a clear flag leaves fewer flags clear. */
  lemma SetFlag(options: nat, i: nat)
    requires i < 4 && And(options, Pow2(i)) == 0
    ensures Unset(Or(options, Pow2(i))) < Unset(options)
  {
    AndPow2(options, i);
    forall j: nat | j < 4 ensures Bit(Or(options, Pow2(i)), j) == (Bit(options, j) || j == i) {
      OrBit(options, Pow2(i), j);
      Pow2Bit(i, j);
    }
  }

  lemma FlagValues()
    ensures Pow2(0) == BottomLeftRight && Pow2(1) == TopLeftRight && Pow2(2) == TSpin && Pow2(3) == InitialSpin
  {
  }

  /** The row of a target, as a measure for the drop detour. */
  function Height(st: BrickStatus): nat
  {
    if st.y < 0 then 0 else st.y
  }

  /** AppendRoute: the naive route, or else the detours in order: through a
      column beside the target, through a column beside the start, through
      the row above the target, through another rotation at the target, and
      through another rotation at the start. Whatever it appends replays
      from the start to the target, and it never routes upward. */
  method AppendRoute(s: Situation, shp: ShapeId, ghost fit: BrickStatus -> bool, from: BrickStatus, to: BrickStatus,
                     res: seq<Action>, options: nat)
    returns (ok: bool, res': seq<Action>)
    requires FitLink(s.rows, shp, fit) && from.rot < RotCount(shp) && to.rot < RotCount(shp)
    ensures Appended(fit, shp, from, to, res, ok, res')
    ensures to.y < from.y ==> !ok
    ensures NonNegative(from) && NaiveOk(fit, shp, from, to) ==> ok
    decreases Unset(options), Height(to), 1
  {
    ok, res' := AppendRouteNaive(s, shp, fit, from, to, res);
    if ok {
      return;
    }
    ok, res' := BottomDetours(s, shp, fit, from, to, res, options);
    if ok {
      return;
    }
    ok, res' := TopDetours(s, shp, fit, from, to, res, options);
    if ok {
      return;
    }
    ok, res' := DropDetour(s, shp, fit, from, to, res, options);
    if ok {
      return;
    }
    ok, res' := TSpinDetours(s, shp, fit, from, to, res, options);
    if ok {
      return;
    }
    ok, res' := InitialSpinDetours(s, shp, fit, from, to, res, options);
  }

  /** Up to five columns on each side of the target, nearest first, while
      the piece fits there: a route to that column, then a slide back. */
  method BottomDetours(s: Situation, shp: ShapeId, ghost fit: BrickStatus -> bool, from: BrickStatus, to: BrickStatus,
                       res: seq<Action>, options: nat)
    returns (ok: bool, res': seq<Action>)
    requires FitLink(s.rows, shp, fit) && from.rot < RotCount(shp) && to.rot < RotCount(shp)
    ensures Appended(fit, shp, from, to, res, ok, res')
    ensures to.y < from.y ==> !ok
    decreases Unset(options), Height(to), 0
  {
    if And(options, BottomLeftRight) != 0 {
      return false, res;
    }
    FlagValues();
    SetFlag(options, 0);
    for dir := 0 to 2 {
      for dx := 1 to 6 {
        var x := if dir == 0 then to.x + dx else to.x - dx;
        if !XInRange(x) {
          break;
        }
        var via := to.ReplaceX(x);
        var fits := FitsAt(s, shp, fit, via);
        if !fits {
          break;
        }
        var ok1, r1 := AppendRoute(s, shp, fit, from, via, res, Or(options, BottomLeftRight));
        if ok1 {
          var ok2, r2 := HorizontalRouteAppend(s, shp, fit, via, to.x, r1);
          if ok2 {
            assert via.ReplaceX(to.x) == to;
            AppendedLeg(fit, shp, via, to, r1, HorizontalActions(via.x, to.x), r2);
            JoinLegs(fit, shp, from, via, to, res, r1, r2);
            return true, r2;
          }
        }
      }
    }
    return false, res;
  }

  /** Up to five columns on each side of the start, nearest first, while
      the piece fits there: a slide to that column, then a route from it. */
  method TopDetours(s: Situation, shp: ShapeId, ghost fit: BrickStatus -> bool, from: BrickStatus, to: BrickStatus,
                    res: seq<Action>, options: nat)
    returns (ok: bool, res': seq<Action>)
    requires FitLink(s.rows, shp, fit) && from.rot < RotCount(shp) && to.rot < RotCount(shp)
    ensures Appended(fit, shp, from, to, res, ok, res')
    ensures to.y < from.y ==> !ok
    decreases Unset(options), Height(to), 0
  {
    if And(options, TopLeftRight) != 0 {
      return false, res;
    }
    FlagValues();
    SetFlag(options, 1);
    for dir := 0 to 2 {
      for dx := 1 to 6 {
        var x := if dir == 0 then from.x + dx else from.x - dx;
        if !XInRange(x) {
          break;
        }
        var via := from.ReplaceX(x);
        var fits := FitsAt(s, shp, fit, via);
        if !fits {
          break;
        }
        var ok1, r1 := HorizontalRouteAppend(s, shp, fit, from, x, res);
        if ok1 {
          var ok2, r2 := AppendRoute(s, shp, fit, via, to, r1, Or(options, TopLeftRight));
          if ok2 {
            JoinLegs(fit, shp, from, via, to, res, r1, r2);
            return true, r2;
          }
        }
      }
    }
    return false, res;
  }

  /** The row above the target, if the piece fits there: a route to it
      (with the same options), then the naive route one row down. */
  method DropDetour(s: Situation, shp: ShapeId, ghost fit: BrickStatus -> bool, from: BrickStatus, to: BrickStatus,
                    res: seq<Action>, options: nat)
    returns (ok: bool, res': seq<Action>)
    requires FitLink(s.rows, shp, fit) && from.rot < RotCount(shp) && to.rot < RotCount(shp)
    ensures Appended(fit, shp, from, to, res, ok, res')
    ensures to.y < from.y ==> !ok
    decreases Unset(options), Height(to), 0
  {
    if to.y > 1 {
      var via := to.ReplaceY(to.y - 1);
      var fits := FitsAt(s, shp, fit, via);
      if fits {
        var ok1, r1 := AppendRoute(s, shp, fit, from, via, res, options);
        if ok1 {
          var ok2, r2 := AppendRouteNaive(s, shp, fit, via, to, r1);
          if ok2 {
            JoinLegs(fit, shp, from, via, to, res, r1, r2);
            return true, r2;
          }
        }
      }
    }
    return false, res;
  }

  /** The rotation before rot, wrapping from 0 to cnt - 1. */
  function PrevRot(shp: ShapeId, rot: nat): (r: nat)
    requires rot < RotCount(shp)
    ensures r < RotCount(shp)
  {
    if rot > 0 then rot - 1 else RotCount(shp) - 1
  }

  /** Stepping one rotation back moves one turn further from the target
      rotation, until it comes round to it. */
  lemma PrevRotDistance(shp: ShapeId, rot: nat, target: nat)
    requires rot < RotCount(shp) && target < RotCount(shp) && PrevRot(shp, rot) != target
    ensures RotDistance(shp, PrevRot(shp, rot), target) == RotDistance(shp, rot, target) + 1
  {
  }

  /** The other rotations at the target, turning backwards, while the piece
      fits: a route to the target in that rotation, then turns to the target
      rotation (a t-spin). */
  method TSpinDetours(s: Situation, shp: ShapeId, ghost fit: BrickStatus -> bool, from: BrickStatus, to: BrickStatus,
                      res: seq<Action>, options: nat)
    returns (ok: bool, res': seq<Action>)
    requires FitLink(s.rows, shp, fit) && from.rot < RotCount(shp) && to.rot < RotCount(shp)
    ensures Appended(fit, shp, from, to, res, ok, res')
    ensures to.y < from.y ==> !ok
    decreases Unset(options), Height(to), 0
  {
    if And(options, TSpin) != 0 {
      return false, res;
    }
    FlagValues();
    SetFlag(options, 2);
    var rot: nat := to.rot;
    while true
      invariant rot < RotCount(shp)
      decreases RotCount(shp) - RotDistance(shp, rot, to.rot)
    {
      var prev := PrevRot(shp, rot);
      if prev == to.rot {
        break;
      }
      PrevRotDistance(shp, rot, to.rot);
      rot := prev;
      var via := to.ReplaceRot(rot);
      var fits := FitsAt(s, shp, fit, via);
      if !fits {
        break;
      }
      var ok1, r1 := AppendRoute(s, shp, fit, from, via, res, Or(options, TSpin));
      if ok1 {
        var ok2, r2 := RotateRouteAppend(s, shp, fit, via, to.rot, r1);
        if ok2 {
          assert via.ReplaceRot(to.rot) == to;
          AppendedLeg(fit, shp, via, to, r1, RotateActions(shp, via.rot, to.rot), r2);
          JoinLegs(fit, shp, from, via, to, res, r1, r2);
          return true, r2;
        }
      }
    }
    return false, res;
  }

  /** The other rotations at the start, turning forwards, while the piece
      fits: turns to that rotation, then a route from it. */
  method InitialSpinDetours(s: Situation, shp: ShapeId, ghost fit: BrickStatus -> bool, from: BrickStatus, to: BrickStatus,
                            res: seq<Action>, options: nat)
    returns (ok: bool, res': seq<Action>)
    requires FitLink(s.rows, shp, fit) && from.rot < RotCount(shp) && to.rot < RotCount(shp)
    ensures Appended(fit, shp, from, to, res, ok, res')
    ensures to.y < from.y ==> !ok
    decreases Unset(options), Height(to), 0
  {
    if And(options, InitialSpin) != 0 {
      return false, res;
    }
    FlagValues();
    SetFlag(options, 3);
    var rot: nat := from.rot;
    while true
      invariant rot < RotCount(shp)
      decreases RotCount(shp) - RotDistance(shp, from.rot, rot)
    {
      NextRotWraps(shp, rot);
      var next := NextRot(shp, rot);
      if next == from.rot {
        break;
      }
      rot := next;
      var via := from.ReplaceRot(rot);
      var fits := FitsAt(s, shp, fit, via);
      if !fits {
        break;
      }
      var ok1, r1 := RotateRouteAppend(s, shp, fit, from, rot, res);
      if ok1 {
        var ok2, r2 := AppendRoute(s, shp, fit, via, to, r1, Or(options, InitialSpin));
        if ok2 {
          JoinLegs(fit, shp, from, via, to, res, r1, r2);
          return true, r2;
        }
      }
    }
    return false, res;
  }

  // ---------------------------------------------------------------------
  // FindAllMoves

  /** A candidate FindAllMoves may report for the piece shp entering at
      initial: a resting position inside the board below the top row (it
      fits, and one row lower it does not), whose placement leaves the top
      row empty, with the board after placement and collapse, and actions
      that replay from the entry position to the resting position. */
  ghost predicate IsMove(s: Situation, shp: ShapeId, initial: BrickStatus, c: Candidate)
    requires FullMask(s.rows) == 0
  {
    c.st.rot < RotCount(shp) && 0 <= c.st.x < W && 0 < c.st.y < H &&
    PieceFits(s.rows, shp, c.st) && !PieceFits(s.rows, shp, c.st.ReplaceY(c.st.y + 1)) &&
    Placed(s, shp, c.st).rows[0] == 0 &&
    CanCollapse(Placed(s, shp, c.st)) && c.situ == Collapsed(Placed(s, shp, c.st)) &&
    initial.y <= c.st.y &&
    (NonNegative(initial) ==> Apply(FitTest(s.rows, shp), shp, initial, c.actions) == Some(c.st))
  }

  /** No two candidates share both rotation and column. */
  ghost predicate OnePerColumn(res: seq<Candidate>)
  {
    forall i, j :: 0 <= i < j < |res| ==> res[i].st.rot != res[j].st.rot || res[i].st.x != res[j].st.x
  }

  /** The candidates of rotation rot occupy only columns cleared from remaining. */
  ghost predicate Cleared(res: seq<Candidate>, rot: nat, remaining: nat)
  {
    forall c :: c in res && c.st.rot == rot && c.st.x >= 0 ==> !Bit(remaining, c.st.x)
  }

  /** A position where FindAllMoves asks for a route: a rotation of the
      piece, a column of the board and a row below the top one, where the
      piece fits, does not fit one row lower, and leaves the top row empty
      once placed. */
  ghost predicate Resting(s: Situation, shp: ShapeId, st: BrickStatus)
  {
    st.rot < RotCount(shp) && 0 <= st.x < W && 0 < st.y < H &&
    PieceFits(s.rows, shp, st) && !PieceFits(s.rows, shp, st.ReplaceY(st.y + 1)) &&
    Placed(s, shp, st).rows[0] == 0
  }

  /** The positions the route finder was asked about and gave up on are
      resting positions, and the naive route from an entry position on the
      board does not reach them. */
  ghost predicate Refusals(s: Situation, shp: ShapeId, initial: BrickStatus, refused: set<BrickStatus>)
  {
    forall st :: st in refused ==>
      Resting(s, shp, st) &&
      (NonNegative(initial) && initial.rot < RotCount(shp) ==> !NaiveOk(FitTest(s.rows, shp), shp, initial, st))
  }

  /** In column x of rotation rot, every resting position from row y down
      to the floor was refused a route. */
  ghost predicate OpenColumn(s: Situation, shp: ShapeId, refused: set<BrickStatus>, rot: nat, x: int, y: int)
  {
    forall yy :: y <= yy < H && Resting(s, shp, BrickStatus(x, yy, rot)) ==> BrickStatus(x, yy, rot) in refused
  }

  /** Each candidate is the lowest resting position of its rotation and
      column that was not refused a route. */
  ghost predicate Lowest(s: Situation, shp: ShapeId, res: seq<Candidate>, refused: set<BrickStatus>)
  {
    forall c, st :: c in res && Resting(s, shp, st) && st.rot == c.st.rot && st.x == c.st.x && st.y > c.st.y ==>
      st in refused
  }

  /** Every resting position of a rotation below rot that was not refused
      a route has a candidate in its rotation and column, at it or below. */
  ghost predicate Complete(s: Situation, shp: ShapeId, res: seq<Candidate>, refused: set<BrickStatus>, rot: nat)
  {
    forall st :: Resting(s, shp, st) && st.rot < rot && st !in refused ==>
      exists c :: c in res && c.st.rot == st.rot && c.st.x == st.x && c.st.y >= st.y
  }

  /** Every column cleared from remaining holds a candidate of rotation rot. */
  ghost predicate Claimed(res: seq<Candidate>, rot: nat, remaining: nat)
  {
    forall x: nat :: x < W && !Bit(remaining, x) ==> exists c :: c in res && c.st.rot == rot && c.st.x == x
  }

  /** What FindAllMoves reports for the piece shp entering at initial,
      refused being the resting positions the route finder gave up on:
      nothing when the piece does not fit at its entry position;
      otherwise moves of the piece, at most one per rotation and column,
      each the lowest resting position of its column not refused a route,
      and one in every column that has such a position. */
  ghost predicate Scanned(s: Situation, shp: ShapeId, initial: BrickStatus, res: seq<Candidate>,
                          refused: set<BrickStatus>)
    requires FullMask(s.rows) == 0 && initial.rot < RotCount(shp)
  {
    (!PieceFits(s.rows, shp, initial) ==> res == [] && refused == {}) &&
    (forall c :: c in res ==> IsMove(s, shp, initial, c)) && OnePerColumn(res) &&
    Refusals(s, shp, initial, refused) && Lowest(s, shp, res, refused) &&
    (PieceFits(s.rows, shp, initial) ==> Complete(s, shp, res, refused, RotCount(shp)))
  }

  /** An occupied cell is no resting position: the piece's first cell sits
      at its origin. */
  lemma OccupiedNotResting(s: Situation, shp: ShapeId, st: BrickStatus)
    requires 0 <= st.x && 0 <= st.y < H && Bit(s.rows[st.y], st.x)
    ensures !Resting(s, shp, st)
  {
    if st.rot < RotCount(shp) {
      assert Cells(shp, st.rot)[0] == Pos(0, 0);
    }
  }

  /** A column refused down to row y + 1 without a resting position in row
      y is refused down to row y. */
  lemma OpenBelow(s: Situation, shp: ShapeId, refused: set<BrickStatus>, rot: nat, x: int, y: int)
    requires OpenColumn(s, shp, refused, rot, x, y + 1)
    requires !Resting(s, shp, BrickStatus(x, y, rot)) || BrickStatus(x, y, rot) in refused
    ensures OpenColumn(s, shp, refused, rot, x, y)
  {
  }

  /** A candidate placed where its column was refused down to the row
      below it is the lowest unrefused resting position of that column. */
  lemma OpenLowest(s: Situation, shp: ShapeId, res: seq<Candidate>, refused: set<BrickStatus>, c: Candidate)
    requires Lowest(s, shp, res, refused)
    requires OpenColumn(s, shp, refused, c.st.rot, c.st.x, c.st.y + 1)
    ensures Lowest(s, shp, res + [c], refused)
  {
    forall d, st | d in res + [c] && Resting(s, shp, st) && st.rot == d.st.rot && st.x == d.st.x && st.y > d.st.y
      ensures st in refused
    {
      if d !in res {
        assert st == BrickStatus(c.st.x, st.y, c.st.rot);
      }
    }
  }

  /** Once every column of rotation rot is cleared or refused down to row
      1, completeness extends to rotation rot. */
  lemma RotationComplete(s: Situation, shp: ShapeId, res: seq<Candidate>, refused: set<BrickStatus>, rot: nat,
                         remaining: nat)
    requires Complete(s, shp, res, refused, rot) && Lowest(s, shp, res, refused) && Claimed(res, rot, remaining)
    requires forall x: nat :: x < W && Bit(remaining, x) ==> OpenColumn(s, shp, refused, rot, x, 1)
    ensures Complete(s, shp, res, refused, rot + 1)
  {
    forall st | Resting(s, shp, st) && st.rot < rot + 1 && st !in refused
      ensures exists c :: c in res && c.st.rot == st.rot && c.st.x == st.x && c.st.y >= st.y
    {
      if st.rot == rot {
        var x: nat := st.x;
        assert st == BrickStatus(x, st.y, rot);
        if Bit(remaining, x) {
          assert false;
        }
        var c :| c in res && c.st.rot == rot && c.st.x == x;
      }
    }
  }

  /** The body of the innermost loop of FindAllMoves at one position: the
      two fit tests, the placement, the top-row test, the route from the
      entry position, and the collapse. A resting position is reported
      exactly when the route finder finds a route to it; refused says it
      gave up. */
  method TryPosition(s: Situation, shp: ShapeId, initial: BrickStatus, st: BrickStatus)
    returns (found: bool, c: Candidate, ghost refused: bool)
    requires FullMask(s.rows) == 0 && initial.rot < RotCount(shp)
    requires st.rot < RotCount(shp) && 0 <= st.x < W && 0 < st.y < H
    ensures found ==> IsMove(s, shp, initial, c) && c.st == st
    ensures found ==> PieceFits(s.rows, shp, st) && !PieceFits(s.rows, shp, st.ReplaceY(st.y + 1))
    ensures found || refused <==> Resting(s, shp, st)
    ensures !(found && refused)
    ensures refused && NonNegative(initial) ==> !NaiveOk(FitTest(s.rows, shp), shp, initial, st)
  {
    refused := false;
    var none: seq<Action> := [];
    c := Candidate(st, s, none);
    var fits := Fits(s, shp, st);
    if !fits {
      return false, c, false;
    }
    var below := Fits(s, shp, st.ReplaceY(st.y + 1));
    if below {
      return false, c, false;
    }
    var placed := PutCopy(s, shp, st);
    if placed.rows[0] != 0 {
      return false, c, false;
    }
    assert Resting(s, shp, st);
    FitTestLinked(s.rows, shp);
    var ok, actions := AppendRoute(s, shp, FitTest(s.rows, shp), initial, st, none, 0);
    if !ok {
      return false, c, true;
    }
    assert actions[0..] == actions;
    PlacedCanCollapse(s, shp, st);
    var board := new Board(placed);
    board.CollapseInPlace();
    c := Candidate(st, board.Value(), actions);
    found := true;
  }

  /** The scan of one row y in rotation rot: every column still in
      remaining and empty in row y, in ascending order; a column that yields
      a candidate is cleared from remaining, one whose route is refused
      stays. */
  method RowMoves(s: Situation, shp: ShapeId, initial: BrickStatus, rot: nat, y: nat, remaining: nat,
                  res: seq<Candidate>, ghost refused: set<BrickStatus>)
    returns (remaining': nat, res': seq<Candidate>, ghost refused': set<BrickStatus>)
    requires FullMask(s.rows) == 0 && initial.rot < RotCount(shp) && rot < RotCount(shp) && 0 < y < H
    requires forall i: nat :: Bit(remaining, i) ==> i < W
    requires Found(s, shp, initial, rot, remaining, res, refused)
    requires forall i: nat :: i < W && Bit(remaining, i) ==> OpenColumn(s, shp, refused, rot, i, y + 1)
    ensures forall i: nat :: Bit(remaining', i) ==> Bit(remaining, i)
    ensures Found(s, shp, initial, rot, remaining', res', refused')
    ensures |res| <= |res'| && res'[..|res|] == res
    ensures forall i: nat :: i < W && Bit(remaining', i) ==> OpenColumn(s, shp, refused', rot, i, y)
  {
    remaining', res', refused' := remaining, res, refused;
    var it := new BitIterator(AndNot(remaining, s.rows[y]));
    forall i: nat ensures Bit(it.v, i) == (Bit(remaining, i) && !Bit(s.rows[y], i)) {
      AndNotBit(remaining, s.rows[y], i);
    }
    forall i: nat | i < W && Bit(remaining, i) && !Bit(it.v, i) ensures OpenColumn(s, shp, refused, rot, i, y) {
      OccupiedNotResting(s, shp, BrickStatus(i, y, rot));
      OpenBelow(s, shp, refused, rot, i, y);
    }
    while it.v != 0
      invariant Found(s, shp, initial, rot, remaining', res', refused') && |res| <= |res'| && res'[..|res|] == res
      invariant RowOpen(s, shp, rot, y, remaining, it.v, remaining', refused')
      decreases it.v
    {
      var x := it.Current();
      ghost var v := it.v;
      remaining', res', refused' := RowStep(s, shp, initial, rot, y, remaining, res, it.v, x, remaining', res', refused');
      BlsrPopcnt(v);
      it.Advance();
    }
    forall i: nat | i < W && Bit(remaining', i) ensures OpenColumn(s, shp, refused', rot, i, y) {
      BitZero(i);
    }
  }

  /** What the scan of rotation rot has found and refused so far: moves,
      one per rotation and column, the columns cleared from remaining
      claimed, each candidate the lowest position of its column not refused
      a route, and the earlier rotations complete. */
  ghost predicate Found(s: Situation, shp: ShapeId, initial: BrickStatus, rot: nat, remaining: nat,
                        res: seq<Candidate>, refused: set<BrickStatus>)
    requires FullMask(s.rows) == 0
  {
    (forall c :: c in res ==> IsMove(s, shp, initial, c) && c.st.rot <= rot) &&
    OnePerColumn(res) && Cleared(res, rot, remaining) && Claimed(res, rot, remaining) &&
    Refusals(s, shp, initial, refused) && Lowest(s, shp, res, refused) && Complete(s, shp, res, refused, rot)
  }

  /** The columns of the scan of row y, v holding those still to try:
      every column still in remaining is refused down to row y + 1, and
      down to row y once tried. */
  ghost predicate RowOpen(s: Situation, shp: ShapeId, rot: nat, y: int, remaining0: nat, v: nat,
                          remaining: nat, refused: set<BrickStatus>)
  {
    (forall i: nat :: Bit(v, i) ==> Bit(remaining, i)) &&
    (forall i: nat :: Bit(remaining, i) ==> Bit(remaining0, i)) &&
    (forall i: nat :: i < W && Bit(remaining, i) ==> OpenColumn(s, shp, refused, rot, i, y + 1)) &&
    (forall i: nat :: i < W && Bit(remaining, i) && !Bit(v, i) ==> OpenColumn(s, shp, refused, rot, i, y))
  }

  /** Trying column x, the lowest of v, keeps the columns of the row scan
      in order for the rest of v. */
  lemma RowOpenStep(s: Situation, shp: ShapeId, rot: nat, y: int, remaining0: nat, v: nat, x: nat,
                    remaining: nat, refused: set<BrickStatus>, remaining': nat, refused': set<BrickStatus>)
    requires v != 0 && Bit(v, x) && forall i: nat :: Bit(Blsr(v), i) == (Bit(v, i) && i != x)
    requires RowOpen(s, shp, rot, y, remaining0, v, remaining, refused)
    requires forall i: nat :: Bit(remaining', i) ==> Bit(remaining, i)
    requires forall i: nat :: i != x ==> Bit(remaining', i) == Bit(remaining, i)
    requires refused <= refused'
    requires forall i: nat :: i < W && Bit(remaining', i) ==> OpenColumn(s, shp, refused', rot, i, y + 1)
    requires Bit(remaining', x) ==> OpenColumn(s, shp, refused', rot, x, y)
    ensures RowOpen(s, shp, rot, y, remaining0, Blsr(v), remaining', refused')
  {
    forall i: nat | i < W && Bit(remaining', i) && !Bit(Blsr(v), i) ensures OpenColumn(s, shp, refused', rot, i, y) {
      if i != x {
        OpenMore(s, shp, refused, refused', rot, i, y);
      }
    }
  }

  /** One turn of the row scan: the lowest column x still to try. */
  method RowStep(s: Situation, shp: ShapeId, initial: BrickStatus, rot: nat, y: nat, remaining0: nat,
                 res0: seq<Candidate>, v: nat, x: nat, remaining: nat, res: seq<Candidate>,
                 ghost refused: set<BrickStatus>)
    returns (remaining': nat, res': seq<Candidate>, ghost refused': set<BrickStatus>)
    requires FullMask(s.rows) == 0 && initial.rot < RotCount(shp) && rot < RotCount(shp) && 0 < y < H
    requires forall i: nat :: Bit(remaining0, i) ==> i < W
    requires v != 0 && x == SetBits(v)[0]
    requires Found(s, shp, initial, rot, remaining, res, refused) && |res0| <= |res| && res[..|res0|] == res0
    requires RowOpen(s, shp, rot, y, remaining0, v, remaining, refused)
    ensures Found(s, shp, initial, rot, remaining', res', refused') && |res0| <= |res'| && res'[..|res0|] == res0
    ensures RowOpen(s, shp, rot, y, remaining0, Blsr(v), remaining', refused')
  {
    SetBitsSpec(v);
    assert x in SetBits(v);
    remaining', res', refused' := ColumnMove(s, shp, initial, rot, y, x, remaining, res, refused);
    forall i: nat ensures Bit(Blsr(v), i) == (Bit(v, i) && i != x) {
      BlsrBit(v, i);
    }
    RowOpenStep(s, shp, rot, y, remaining0, v, x, remaining, refused, remaining', refused');
  }

  /** Refusing more positions keeps a column refused. */
  lemma OpenMore(s: Situation, shp: ShapeId, refused: set<BrickStatus>, refused': set<BrickStatus>,
                 rot: nat, x: int, y: int)
    requires OpenColumn(s, shp, refused, rot, x, y) && refused <= refused'
    ensures OpenColumn(s, shp, refused', rot, x, y)
  {
  }

  /** One column x of the row scan: a candidate found there is appended
      and x is cleared from remaining; a refused route leaves x in
      remaining and records the position as refused. */
  method ColumnMove(s: Situation, shp: ShapeId, initial: BrickStatus, rot: nat, y: nat, x: nat, remaining: nat,
                    res: seq<Candidate>, ghost refused: set<BrickStatus>)
    returns (remaining': nat, res': seq<Candidate>, ghost refused': set<BrickStatus>)
    requires FullMask(s.rows) == 0 && initial.rot < RotCount(shp) && rot < RotCount(shp) && 0 < y < H
    requires Bit(remaining, x) && x < W
    requires Found(s, shp, initial, rot, remaining, res, refused)
    requires forall i: nat :: i < W && Bit(remaining, i) ==> OpenColumn(s, shp, refused, rot, i, y + 1)
    ensures forall i: nat :: Bit(remaining', i) ==> Bit(remaining, i)
    ensures forall i: nat :: i != x ==> Bit(remaining', i) == Bit(remaining, i)
    ensures Found(s, shp, initial, rot, remaining', res', refused')
    ensures |res| <= |res'| && res'[..|res|] == res
    ensures refused <= refused'
    ensures forall i: nat :: i < W && Bit(remaining', i) ==> OpenColumn(s, shp, refused', rot, i, y + 1)
    ensures Bit(remaining', x) ==> OpenColumn(s, shp, refused', rot, x, y)
  {
    var st := BrickStatus(x, y, rot);
    var found, c, no := TryPosition(s, shp, initial, st);
    if !found {
      refused' := if no then refused + {st} else refused;
      forall i: nat | i < W && Bit(remaining, i) ensures OpenColumn(s, shp, refused', rot, i, y + 1) {
        OpenMore(s, shp, refused, refused', rot, i, y + 1);
      }
      OpenBelow(s, shp, refused', rot, x, y);
      return remaining, res, refused';
    }
    refused' := refused;
    forall i: nat ensures Bit(AndNot(remaining, Pow2(x)), i) == (Bit(remaining, i) && i != x) {
      AndNotBit(remaining, Pow2(x), i);
      Pow2Bit(x, i);
    }
    remaining' := AndNot(remaining, Pow2(x));
    ExtendColumns(res, c, rot, remaining, remaining');
    ExtendMoves(s, shp, initial, rot, res, c);
    OpenLowest(s, shp, res, refused, c);
    res' := res + [c];
  }

  /** A candidate in a column still in remaining keeps one candidate per
      column once that column is cleared. */
  lemma ExtendColumns(res: seq<Candidate>, c: Candidate, rot: nat, remaining: nat, remaining': nat)
    requires OnePerColumn(res) && Cleared(res, rot, remaining)
    requires c.st.rot == rot && c.st.x >= 0 && Bit(remaining, c.st.x)
    requires forall i: nat :: Bit(remaining', i) == (Bit(remaining, i) && i != c.st.x)
    ensures OnePerColumn(res + [c]) && Cleared(res + [c], rot, remaining')
  {
    forall i | 0 <= i < |res| ensures res[i].st.rot != c.st.rot || res[i].st.x != c.st.x {
      assert res[i] in res;
    }
  }

  lemma ExtendMoves(s: Situation, shp: ShapeId, initial: BrickStatus, rot: nat, res: seq<Candidate>, c: Candidate)
    requires FullMask(s.rows) == 0
    requires forall c :: c in res ==> IsMove(s, shp, initial, c) && c.st.rot <= rot
    requires IsMove(s, shp, initial, c) && c.st.rot <= rot
    ensures forall c' :: c' in res + [c] ==> IsMove(s, shp, initial, c') && c'.st.rot <= rot
  {
  }

  /** FindAllMoves: for each rotation, the rows from the bottom up to row 1,
      each column at most once per rotation. Every candidate is a move of
      the piece from its entry position, none is reported when the piece
      does not fit at its entry position, and every column of every
      rotation with a resting position the route finder reaches gets the
      lowest such position. */
  method FindAllMoves(s: Situation, shp: ShapeId, initial: BrickStatus)
    returns (res: seq<Candidate>, ghost refused: set<BrickStatus>)
    requires FullMask(s.rows) == 0 && initial.rot < RotCount(shp)
    ensures Scanned(s, shp, initial, res, refused)
  {
    res, refused := [], {};
    var fits := Fits(s, shp, initial);
    if !fits {
      return;
    }
    for rot := 0 to RotCount(shp)
      invariant forall c :: c in res ==> IsMove(s, shp, initial, c) && c.st.rot < rot
      invariant OnePerColumn(res)
      invariant Refusals(s, shp, initial, refused) && Lowest(s, shp, res, refused) && Complete(s, shp, res, refused, rot)
    {
      var remaining: nat := RowBitMask;
      forall i: nat ensures Bit(remaining, i) == (i < W) {
        RowBitMaskBits(i);
      }
      for y := H downto 1
        invariant forall i: nat :: Bit(remaining, i) ==> i < W
        invariant Found(s, shp, initial, rot, remaining, res, refused)
        invariant forall i: nat :: i < W && Bit(remaining, i) ==> OpenColumn(s, shp, refused, rot, i, y)
      {
        if remaining == 0 {
          break;
        }
        remaining, res, refused := RowMoves(s, shp, initial, rot, y, remaining, res, refused);
      }
      forall i: nat | i < W && Bit(remaining, i) ensures OpenColumn(s, shp, refused, rot, i, 1) {
        if remaining == 0 {
          BitZero(i);
        }
      }
      RotationComplete(s, shp, res, refused, rot, remaining);
    }
  }

  /** A resting position that the naive route reaches from an entry
      position on the board is never left without a move: its column gets a
      candidate at that position or below it. */
  lemma ScannedReachesNaive(s: Situation, shp: ShapeId, initial: BrickStatus, res: seq<Candidate>,
                            refused: set<BrickStatus>, st: BrickStatus)
    requires FullMask(s.rows) == 0 && initial.rot < RotCount(shp) && NonNegative(initial)
    requires Scanned(s, shp, initial, res, refused) && PieceFits(s.rows, shp, initial)
    requires Resting(s, shp, st) && NaiveOk(FitTest(s.rows, shp), shp, initial, st)
    ensures exists c :: c in res && c.st.rot == st.rot && c.st.x == st.x && c.st.y >= st.y
  {
    assert st !in refused;
  }

  /** A move found for the current piece from its entry position replays,
      through ReplayAndVerify's reading of the actions, to the candidate's
      board: the search's replay check cannot fail on it. That board is one
      step on, its top row is empty, and it has no full row while the game
      goes on. */
  lemma MoveReplays(s: Situation, c: Candidate)
    requires s.step < Steps && FullMask(s.rows) == 0
    requires IsMove(s, BrickAt(s.step).shape, BrickAt(s.step).st, c)
    requires PieceFits(s.rows, BrickAt(s.step).shape, BrickAt(s.step).st)
    ensures Replayed(s, c.actions) == Some(c.situ)
    ensures c.situ.step == s.step + 1 && c.situ.rows[0] == 0
    ensures c.situ.step < Steps ==> FullMask(c.situ.rows) == 0
  {
    CollapsedTop(Placed(s, BrickAt(s.step).shape, c.st));
  }
}
