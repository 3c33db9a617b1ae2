/** The beam search (search.cc): the abort thresholds read from a flag,
    the search nodes and their parent chains, the collector that keeps one
    node per board, the expansion of a node, the selection of the next
    layer, the running global best and the reconstruction of the actions.
    The thread pool is replaced by a sequential loop; the shared pointers
    of the source are node values, a parent being the node itself. */
module Search {
  import opened Bits
  import opened Tetris
  import opened Board
  import opened Evaluation
  import opened Decimal
  import opened Routes

  // ---------------------------------------------------------------------
  // Abort thresholds (PrepareFlags)

  /** The threshold of step k: part k of the flag, read as an unsigned
      32-bit number; 0 for a part that does not read as one and for a step
      beyond the parts given. */
  function ThresholdOf(parts: seq<string>, k: nat): nat
  {
    if k < |parts| then
      match ParseU32(parts[k])
      case Some(v) => v
      case None => 0
    else 0
  }

  /** The part of PrepareFlags that fills g_abort_threshold: one part of
      the comma-separated flag per step, at most kSteps of them. */
  method PrepareAbortThreshold(flag: string) returns (t: array<nat>)
    ensures fresh(t) && t.Length == Steps
    ensures forall k :: 0 <= k < Steps ==> t[k] == ThresholdOf(Split(flag, ','), k)
    ensures t[..] == AbortThresholds(flag)
  {
    t := new nat[Steps](_ => 0);
    var parts := Split(flag, ',');
    for i := 0 to |parts|
      invariant i < Steps
      invariant forall k :: 0 <= k < i ==> t[k] == ThresholdOf(parts, k)
      invariant forall k :: i <= k < Steps ==> t[k] == 0
    {
      var v := ParseU32(parts[i]);
      t[i] := if v.Some? then v.value else 0;
      if i + 1 >= Steps {
        return;
      }
    }
  }

  /** g_abort_threshold as a whole: the threshold of every step. */
  function AbortThresholds(flag: string): (ts: seq<nat>)
    ensures |ts| == Steps && forall k :: 0 <= k < Steps ==> ts[k] == ThresholdOf(Split(flag, ','), k)
  {
    seq(Steps, k requires 0 <= k < Steps => ThresholdOf(Split(flag, ','), k))
  }

  /** The text of a list of thresholds. */
  function ThresholdText(ns: seq<nat>): (parts: seq<string>)
    ensures |parts| == |ns|
  {
    seq(|ns|, k requires 0 <= k < |ns| => NatToString(ns[k]))
  }

  /** Writing thresholds out comma-separated and reading them back gives
      them again, step by step, and 0 after the last one. */
  lemma ThresholdsRoundTrip(ns: seq<nat>, k: nat)
    requires |ns| >= 1 && forall j :: 0 <= j < |ns| ==> ns[j] < 0x1_0000_0000
    ensures ThresholdOf(Split(Join(ThresholdText(ns), ','), ','), k) == if k < |ns| then ns[k] else 0
  {
    var parts := ThresholdText(ns);
    forall j | 0 <= j < |parts| ensures ',' !in parts[j] {
      NoSepInNumber(ns[j], ',');
    }
    SplitJoin(parts, ',');
    if k < |ns| {
      ParseNatToString(ns[k]);
    }
  }

  // ---------------------------------------------------------------------
  // Search nodes

  /** State: a board, its cached Quality and OccupiedHeight, the node it
      was reached from (none for the root) and the actions of that move. */
  datatype State = State(situ: Situation, quality: int, height: nat, parent: Option<State>, actions: seq<Action>)

  /** A node whose caches hold what they cache, whose top row is empty and
      whose board has no full row while the game goes on. */
  ghost predicate Sound(f: QualityFlags, st: State)
  {
    st.quality == QualityOf(f, st.situ.rows) &&
    st.height == H - FirstNonEmpty(st.situ.rows) &&
    st.situ.rows[0] == 0 &&
    (st.situ.step < Steps ==> FullMask(st.situ.rows) == 0)
  }

  /** The root node: the initial board, its quality and height, no parent
      and no actions. */
  function RootState(f: QualityFlags): State
  {
    State(InitialSituation(), QualityOf(f, InitialSituation().rows), H - FirstNonEmpty(InitialSituation().rows), None, [])
  }

  /** The root: `new State` on the initial board. */
  method Root(f: QualityFlags) returns (st: State)
    ensures Sound(f, st) && st.situ == InitialSituation() && st.parent == None && st.actions == []
    ensures st == RootState(f)
  {
    var situ := InitialSituation();
    var q := Quality(situ, f);
    var h := OccupiedHeight(situ);
    FullMaskZero(situ.rows);
    st := State(situ, q, h, None, []);
  }

  /** A node of the layer after st: its parent is st, its board is one
      step on, and its actions replay from st's board to its own. */
  ghost predicate IsChild(f: QualityFlags, st: State, c: State)
  {
    c.parent == Some(st) && Sound(f, c) && c.situ.step == st.situ.step + 1 &&
    st.situ.step < Steps && FullMask(st.situ.rows) == 0 &&
    Replayed(st.situ, c.actions) == Some(c.situ)
  }

  // ---------------------------------------------------------------------
  // StateCollector

  /** better_than: a higher score, or the same score with fewer clearing moves. */
  predicate BetterThan(a: Situation, b: Situation)
  {
    a.score > b.score || (a.score == b.score && a.collapseCount < b.collapseCount)
  }

  /** "Not better than" is transitive: a node that is no better than one
      that is itself no better than a third is no better than the third. */
  lemma NotBetterTransitive(a: Situation, b: Situation, c: Situation)
    requires !BetterThan(a, b) && !BetterThan(b, c)
    ensures !BetterThan(a, c)
  {
  }

  /** The collector after Add(st): st is stored under its board unless a
      node at least as good is already stored there. */
  function Inserted(m: map<Rows, State>, st: State): map<Rows, State>
  {
    if st.situ.rows in m && !BetterThan(st.situ, m[st.situ.rows].situ) then m
    else m[st.situ.rows := st]
  }

  /** The collector after adding sts in order. */
  function InsertAll(m: map<Rows, State>, sts: seq<State>): map<Rows, State>
  {
    if |sts| == 0 then m else Inserted(InsertAll(m, sts[..|sts| - 1]), sts[|sts| - 1])
  }

  /** Each node is stored under its own board. */
  ghost predicate Keyed(m: map<Rows, State>)
  {
    forall k :: k in m ==> m[k].situ.rows == k
  }

  /** Adding nodes keeps each node under its own board. */
  lemma {:induction false} InsertAllKeyed(m: map<Rows, State>, sts: seq<State>)
    requires Keyed(m)
    ensures Keyed(InsertAll(m, sts))
  {
    if |sts| > 0 {
      InsertAllKeyed(m, sts[..|sts| - 1]);
    }
  }

  /** Adding nodes keeps every board and adds the boards of the nodes. */
  lemma {:induction false} InsertAllKeys(m: map<Rows, State>, sts: seq<State>)
    ensures InsertAll(m, sts).Keys == m.Keys + set st | st in sts :: st.situ.rows
  {
    if |sts| > 0 {
      var init := sts[..|sts| - 1];
      InsertAllKeys(m, init);
      assert sts == init + [sts[|sts| - 1]];
    }
  }

  /** What is stored under a board never gets worse. */
  lemma {:induction false} InsertAllMonotone(m: map<Rows, State>, sts: seq<State>, k: Rows)
    requires k in m
    ensures k in InsertAll(m, sts) && !BetterThan(m[k].situ, InsertAll(m, sts)[k].situ)
  {
    if |sts| > 0 {
      var init := sts[..|sts| - 1];
      InsertAllMonotone(m, init, k);
      var r := InsertAll(m, init);
      if InsertAll(m, sts)[k] != r[k] {
        NotBetterTransitive(m[k].situ, r[k].situ, InsertAll(m, sts)[k].situ);
      }
    }
  }

  /** Every stored node is the old one or one of the nodes added. */
  lemma {:induction false} InsertAllFrom(m: map<Rows, State>, sts: seq<State>, k: Rows)
    requires k in InsertAll(m, sts)
    ensures (k in m && InsertAll(m, sts)[k] == m[k]) || InsertAll(m, sts)[k] in sts
  {
    if |sts| > 0 {
      var init := sts[..|sts| - 1];
      var r := InsertAll(m, init);
      if InsertAll(m, sts)[k] != sts[|sts| - 1] {
        InsertAllFrom(m, init, k);
      }
    }
  }

  /** For every node added, what is finally stored under its board is at
      least as good as it: the collector keeps the best node of each board,
      whatever the order of the additions. */
  lemma {:induction false} InsertAllBest(m: map<Rows, State>, sts: seq<State>, st: State)
    requires st in sts
    ensures st.situ.rows in InsertAll(m, sts)
    ensures !BetterThan(st.situ, InsertAll(m, sts)[st.situ.rows].situ)
  {
    var init := sts[..|sts| - 1];
    var last := sts[|sts| - 1];
    assert sts == init + [last];
    var r := InsertAll(m, init);
    if st in init {
      InsertAllBest(m, init, st);
      if st.situ.rows == last.situ.rows && InsertAll(m, sts)[st.situ.rows] == last {
        NotBetterTransitive(st.situ, r[st.situ.rows].situ, last.situ);
      }
    }
  }

  /** StateCollector: the children of one layer, one per distinct board. */
  class StateCollector {
    var states: map<Rows, State>

    ghost predicate Valid()
      reads this
    {
      Keyed(states)
    }

    constructor ()
      ensures Valid() && states == map[]
    {
      states := map[];
    }

    /** Add: store st under its board, replacing the node there only when
        st is better than it. */
    method Add(st: State)
      requires Valid()
      modifies this
      ensures Valid() && states == Inserted(old(states), st)
    {
      var rows := st.situ.rows;
      if rows !in states {
        states := states[rows := st];
      } else if BetterThan(st.situ, states[rows].situ) {
        states := states[rows := st];
      }
    }

    /** MoveTo: append every stored node to res, in no particular order,
        and empty the collector. */
    method MoveTo(res: seq<State>) returns (res': seq<State>)
      requires Valid()
      modifies this
      ensures Valid() && states == map[]
      ensures |res| <= |res'| && res'[..|res|] == res
      ensures Listed(old(states), res'[|res|..])
    {
      var out := Drain(states);
      states := map[];
      res' := res + out;
      assert res'[|res|..] == out;
    }
  }

  /** out lists the nodes of m: each stored node, and nothing else, with
      no board twice. */
  ghost predicate Listed(m: map<Rows, State>, out: seq<State>)
  {
    (forall st :: st in out <==> st in m.Values) &&
    (forall i, j :: 0 <= i < j < |out| ==> out[i].situ.rows != out[j].situ.rows)
  }

  /** MoveTo's walk over the stored nodes: each node once, and so one node
      per board. */
  method Drain(m: map<Rows, State>) returns (out: seq<State>)
    requires Keyed(m)
    ensures Listed(m, out)
  {
    var rest := m;
    out := [];
    while rest != map[]
      invariant Drained(m, rest, out)
      decreases |rest.Keys|
    {
      var k :| k in rest;
      DrainStep(m, rest, out, k);
      out := out + [rest[k]];
      rest := rest - {k};
    }
    forall st | st in m.Values ensures st in out {
      var k :| k in m && m[k] == st;
    }
  }

  /** The nodes of m not in rest have been taken, once each, into out. */
  ghost predicate Drained(m: map<Rows, State>, rest: map<Rows, State>, out: seq<State>)
  {
    Keyed(m) &&
    (forall k :: k in rest ==> k in m && rest[k] == m[k]) &&
    (forall i :: 0 <= i < |out| ==> out[i] in m.Values && out[i].situ.rows !in rest) &&
    (forall k :: k in m ==> k in rest || m[k] in out) &&
    (forall i, j :: 0 <= i < j < |out| ==> out[i].situ.rows != out[j].situ.rows)
  }

  lemma {:induction false} DrainStep(m: map<Rows, State>, rest: map<Rows, State>, out: seq<State>, k: Rows)
    requires Drained(m, rest, out) && k in rest
    ensures Drained(m, rest - {k}, out + [rest[k]])
  {
    var out' := out + [rest[k]];
    assert forall i :: 0 <= i < |out| ==> out'[i] == out[i];
  }

  // ---------------------------------------------------------------------
  // SearchFrom

  /** kThresholdHeight and kThresholdOccupied: the least height and the
      least number of cells a board needs before a move clearing 1, 2, 3 or
      4 lines is kept. */
  const ThresholdHeight: seq<nat> := [H - 4, H - 4, H - 3, H - 3]
  const ThresholdOccupied: seq<nat> := [(H - 6) * (W - 1), (H - 6) * (W - 1), (H - 5) * (W - 1), (H - 5) * (W - 1)]

  /** The gate on clearing: a move that cleared 1 to 4 lines from a board
      too low or too sparse is dropped. */
  predicate Gated(height: nat, occupied: nat, cleared: int)
  {
    1 <= cleared <= 4 &&
    (height < ThresholdHeight[cleared - 1] || occupied < ThresholdOccupied[cleared - 1])
  }

  /** What SearchFrom passes to the collector for one candidate: nothing
      if the gate or IsOk drops it, else the node of the candidate. */
  function KeptOne(f: QualityFlags, st: State, occupied: nat, c: Candidate): seq<State>
  {
    if Passes(st, occupied, c) then [Child(f, st, c)] else []
  }

  /** The candidate passes the gate on clearing and IsOk. */
  predicate Passes(st: State, occupied: nat, c: Candidate)
  {
    !Gated(st.height, occupied, c.situ.collapseLines - st.situ.collapseLines) && Ok(c.situ.rows)
  }

  /** The node SearchFrom builds for a candidate of st. */
  function Child(f: QualityFlags, st: State, c: Candidate): State
  {
    State(c.situ, QualityOf(f, c.situ.rows), H - FirstNonEmpty(c.situ.rows), Some(st), c.actions)
  }

  /** The candidates SearchFrom passes to the collector, as nodes. */
  function Kept(f: QualityFlags, st: State, occupied: nat, cands: seq<Candidate>): seq<State>
  {
    if |cands| == 0 then []
    else Kept(f, st, occupied, cands[..|cands| - 1]) + KeptOne(f, st, occupied, cands[|cands| - 1])
  }

  /** The node kept for a legal move of st's piece is a child of st. */
  lemma KeptChild(f: QualityFlags, st: State, occupied: nat, c: Candidate)
    requires Sound(f, st) && st.situ.step < Steps
    requires IsMove(st.situ, BrickAt(st.situ.step).shape, BrickAt(st.situ.step).st, c)
    requires PieceFits(st.situ.rows, BrickAt(st.situ.step).shape, BrickAt(st.situ.step).st)
    ensures forall x :: x in KeptOne(f, st, occupied, c) ==> IsChild(f, st, x)
  {
    MoveReplays(st.situ, c);
  }

  /** Every node SearchFrom keeps is a child of st. */
  lemma {:induction false} KeptChildren(f: QualityFlags, st: State, occupied: nat, cands: seq<Candidate>)
    requires Sound(f, st) && st.situ.step < Steps
    requires forall c :: c in cands ==> IsMove(st.situ, BrickAt(st.situ.step).shape, BrickAt(st.situ.step).st, c)
    requires cands != [] ==> PieceFits(st.situ.rows, BrickAt(st.situ.step).shape, BrickAt(st.situ.step).st)
    ensures forall x :: x in Kept(f, st, occupied, cands) ==> IsChild(f, st, x)
  {
    if |cands| > 0 {
      var c := cands[|cands| - 1];
      KeptChildren(f, st, occupied, cands[..|cands| - 1]);
      assert c in cands;
      KeptChild(f, st, occupied, c);
    }
  }

  /** Every node SearchFrom keeps passed IsOk and the gate on clearing: a
      kept move that cleared k lines, 1 <= k <= 4, came from a board at
      least ThresholdHeight[k-1] tall holding at least
      ThresholdOccupied[k-1] cells. */
  lemma {:induction false} KeptPassed(f: QualityFlags, st: State, occupied: nat, cands: seq<Candidate>)
    ensures forall x :: x in Kept(f, st, occupied, cands) ==>
      Ok(x.situ.rows) && x.parent == Some(st) &&
      var cleared := x.situ.collapseLines - st.situ.collapseLines;
      1 <= cleared <= 4 ==> st.height >= ThresholdHeight[cleared - 1] && occupied >= ThresholdOccupied[cleared - 1]
  {
    if |cands| > 0 {
      KeptPassed(f, st, occupied, cands[..|cands| - 1]);
    }
  }

  /** One iteration of SearchFrom's loop: the gate on clearing, IsOk, the
      replay check and Add. */
  method AddChild(f: QualityFlags, st: State, occupied: nat, c: Candidate, collector: StateCollector)
    requires st.situ.step < Steps && FullMask(st.situ.rows) == 0 && collector.Valid()
    requires Replayed(st.situ, c.actions) == Some(c.situ)
    modifies collector
    ensures collector.Valid()
    ensures collector.states == InsertAll(old(collector.states), KeptOne(f, st, occupied, c))
  {
    var kept := KeepChild(f, st, occupied, c);
    if kept != [] {
      collector.Add(kept[0]);
      assert kept[..0] == [];
    }
  }

  /** The gate on clearing, IsOk and the replay check for one candidate,
      and the node built for it when it passes. The replay check cannot
      fail, so the exit on a failed replay is unreachable. */
  method KeepChild(f: QualityFlags, st: State, occupied: nat, c: Candidate) returns (kept: seq<State>)
    requires st.situ.step < Steps && FullMask(st.situ.rows) == 0
    requires Replayed(st.situ, c.actions) == Some(c.situ)
    ensures kept == KeptOne(f, st, occupied, c)
  {
    var cleared := c.situ.collapseLines - st.situ.collapseLines;
    KeptOneCases(f, st, occupied, c);
    if Gated(st.height, occupied, cleared) {
      return [];
    }
    var ok := IsOk(c.situ);
    if !ok {
      return [];
    }
    var replayed := Replay(st.situ, c);
    if !replayed {
      assert false;
    }
    assert Passes(st, occupied, c);
    var child := BuildChild(f, st, c);
    kept := [child];
  }

  /** ReplayAndVerify on a candidate that FindAllMoves produced: the
      replay of its actions ends on its board. */
  method Replay(s: Situation, c: Candidate) returns (ok: bool)
    requires s.step < Steps && FullMask(s.rows) == 0
    requires Replayed(s, c.actions) == Some(c.situ)
    ensures ok
  {
    ok := ReplayAndVerify(s, c.actions, c.situ);
  }

  /** The node for a kept candidate: its Quality and height, st as its
      parent and the candidate's actions. */
  method BuildChild(f: QualityFlags, st: State, c: Candidate) returns (child: State)
    ensures child == Child(f, st, c)
  {
    var q := Quality(c.situ, f);
    var h := OccupiedHeight(c.situ);
    child := State(c.situ, q, h, Some(st), c.actions);
  }

  lemma {:induction false} KeptOneCases(f: QualityFlags, st: State, occupied: nat, c: Candidate)
    ensures Gated(st.height, occupied, c.situ.collapseLines - st.situ.collapseLines) ==> KeptOne(f, st, occupied, c) == []
    ensures !Ok(c.situ.rows) ==> KeptOne(f, st, occupied, c) == []
    ensures !Gated(st.height, occupied, c.situ.collapseLines - st.situ.collapseLines) && Ok(c.situ.rows) ==>
      KeptOne(f, st, occupied, c) == [Child(f, st, c)]
  {
  }

  /** The loop of SearchFrom over the candidates. */
  method AddChildren(f: QualityFlags, st: State, occupied: nat, cands: seq<Candidate>, collector: StateCollector)
    requires st.situ.step < Steps && FullMask(st.situ.rows) == 0 && collector.Valid()
    requires forall c :: c in cands ==> Replayed(st.situ, c.actions) == Some(c.situ)
    modifies collector
    ensures collector.Valid()
    ensures collector.states == InsertAll(old(collector.states), Kept(f, st, occupied, cands))
  {
    for i := 0 to |cands|
      invariant collector.Valid()
      invariant collector.states == InsertAll(old(collector.states), Kept(f, st, occupied, cands[..i]))
    {
      assert cands[i] in cands;
      AddChild(f, st, occupied, cands[i], collector);
      InsertAllAppend(old(collector.states), Kept(f, st, occupied, cands[..i]), KeptOne(f, st, occupied, cands[i]));
      assert cands[..i + 1][..i] == cands[..i];
    }
    assert cands[..|cands|] == cands;
  }

  /** Adding a + b is adding a, then b. */
  lemma {:induction false} InsertAllAppend(m: map<Rows, State>, a: seq<State>, b: seq<State>)
    ensures InsertAll(m, a + b) == InsertAll(InsertAll(m, a), b)
    decreases |b|
  {
    if |b| > 0 {
      assert (a + b)[..|a + b| - 1] == a + b[..|b| - 1];
      InsertAllAppend(m, a, b[..|b| - 1]);
    } else {
      assert a + b == a;
    }
  }

  /** What FindAllMoves reports for one node: the moves found, and the
      resting positions the route finder gave up on. */
  datatype MoveScan = MoveScan(cands: seq<Candidate>, refused: set<BrickStatus>)

  /** scan is a report of FindAllMoves for the piece of st's step on st's
      board. */
  ghost predicate ScanOf(st: State, scan: MoveScan)
  {
    st.situ.step < Steps && FullMask(st.situ.rows) == 0 &&
    Scanned(st.situ, BrickAt(st.situ.step).shape, BrickAt(st.situ.step).st, scan.cands, scan.refused)
  }

  /** A scan of st has a move whenever the piece fits at its entry position
      and the naive route reaches some resting position of st's board. */
  lemma ScanNotEmpty(st: State, scan: MoveScan, pos: BrickStatus)
    requires ScanOf(st, scan)
    requires PieceFits(st.situ.rows, BrickAt(st.situ.step).shape, BrickAt(st.situ.step).st)
    requires Resting(st.situ, BrickAt(st.situ.step).shape, pos)
    requires NaiveOk(FitTest(st.situ.rows, BrickAt(st.situ.step).shape), BrickAt(st.situ.step).shape,
                     BrickAt(st.situ.step).st, pos)
    ensures scan.cands != []
  {
    var b := BrickAt(st.situ.step);
    ScannedReachesNaive(st.situ, b.shape, b.st, scan.cands, scan.refused, pos);
  }

  /** A node SearchFrom may add for st: a child of st that passed IsOk and
      the gate on clearing, with occupied cells on st's board. */
  ghost predicate Admitted(f: QualityFlags, st: State, occupied: nat, x: State)
  {
    IsChild(f, st, x) && Ok(x.situ.rows) && !Gated(st.height, occupied, x.situ.collapseLines - st.situ.collapseLines)
  }

  /** SearchFrom: every legal move of the node's piece, filtered by the
      gate on clearing and IsOk, added to the collector in the order
      FindAllMoves reports them. Nothing stored gets worse, and whatever is
      new in the collector is a child of st that passed both filters. */
  method SearchFrom(f: QualityFlags, st: State, collector: StateCollector) returns (ghost scan: MoveScan)
    requires Sound(f, st) && st.situ.step < Steps && collector.Valid()
    modifies collector
    ensures collector.Valid() && ScanOf(st, scan)
    ensures collector.states == InsertAll(old(collector.states), Kept(f, st, CellCount(st.situ.rows), scan.cands))
    ensures forall k :: k in old(collector.states) ==>
      k in collector.states && !BetterThan(old(collector.states)[k].situ, collector.states[k].situ)
    ensures forall k :: k in collector.states ==>
      (k in old(collector.states) && collector.states[k] == old(collector.states)[k]) ||
      Admitted(f, st, CellCount(st.situ.rows), collector.states[k])
  {
    var cands: seq<Candidate>;
    cands, scan := MovesOf(st);
    var occupied := TotalOccupied(st.situ);
    ghost var m := collector.states;
    InsertAllKeeps(m, Kept(f, st, CellCount(st.situ.rows), cands));
    AddChildren(f, st, occupied, cands, collector);
    KeptInserted(f, st, CellCount(st.situ.rows), cands, m, collector.states);
  }

  /** The moves of the piece of st's step on st's board, as FindAllMoves
      reports them: each replays from st's board to its own board, and
      there is one only when the piece fits at its entry position. */
  method MovesOf(st: State) returns (cands: seq<Candidate>, ghost scan: MoveScan)
    requires st.situ.step < Steps && FullMask(st.situ.rows) == 0
    ensures ScanOf(st, scan) && scan.cands == cands
    ensures forall c :: c in cands ==>
      IsMove(st.situ, BrickAt(st.situ.step).shape, BrickAt(st.situ.step).st, c) &&
      Replayed(st.situ, c.actions) == Some(c.situ)
    ensures cands != [] ==> PieceFits(st.situ.rows, BrickAt(st.situ.step).shape, BrickAt(st.situ.step).st)
  {
    var b := BrickAt(st.situ.step);
    ghost var refused: set<BrickStatus>;
    cands, refused := FindAllMoves(st.situ, b.shape, b.st);
    scan := MoveScan(cands, refused);
    forall c | c in cands ensures Replayed(st.situ, c.actions) == Some(c.situ) {
      MoveReplays(st.situ, c);
    }
  }

  /** Adding nodes to m: no node stored in m gets worse. */
  lemma InsertAllKeeps(m: map<Rows, State>, sts: seq<State>)
    ensures forall k :: k in m ==> k in InsertAll(m, sts) && !BetterThan(m[k].situ, InsertAll(m, sts)[k].situ)
  {
    forall k | k in m ensures k in InsertAll(m, sts) && !BetterThan(m[k].situ, InsertAll(m, sts)[k].situ) {
      InsertAllMonotone(m, sts, k);
    }
  }

  /** Every node kept from moves of st's piece is a child of st that
      passed IsOk and the gate on clearing. */
  lemma KeptAdmitted(f: QualityFlags, st: State, occupied: nat, cands: seq<Candidate>)
    requires Sound(f, st) && st.situ.step < Steps
    requires forall c :: c in cands ==> IsMove(st.situ, BrickAt(st.situ.step).shape, BrickAt(st.situ.step).st, c)
    requires cands != [] ==> PieceFits(st.situ.rows, BrickAt(st.situ.step).shape, BrickAt(st.situ.step).st)
    ensures forall x :: x in Kept(f, st, occupied, cands) ==> Admitted(f, st, occupied, x)
  {
    KeptChildren(f, st, occupied, cands);
    KeptPassed(f, st, occupied, cands);
    forall x | x in Kept(f, st, occupied, cands) ensures Admitted(f, st, occupied, x) {
      assert IsChild(f, st, x) && Ok(x.situ.rows);
      assert !Gated(st.height, occupied, x.situ.collapseLines - st.situ.collapseLines);
    }
  }

  /** Adding the nodes kept from moves of st's piece to m: every node new
      in the result is a child of st that passed IsOk and the gate on
      clearing. */
  lemma KeptInserted(f: QualityFlags, st: State, occupied: nat, cands: seq<Candidate>, m: map<Rows, State>,
                      r: map<Rows, State>)
    requires Sound(f, st) && st.situ.step < Steps
    requires forall c :: c in cands ==> IsMove(st.situ, BrickAt(st.situ.step).shape, BrickAt(st.situ.step).st, c)
    requires cands != [] ==> PieceFits(st.situ.rows, BrickAt(st.situ.step).shape, BrickAt(st.situ.step).st)
    requires r == InsertAll(m, Kept(f, st, occupied, cands))
    ensures forall k :: k in r ==>
      (k in m && r[k] == m[k]) || Admitted(f, st, occupied, r[k])
  {
    var kept := Kept(f, st, occupied, cands);
    KeptAdmitted(f, st, occupied, cands);
    forall k | k in r
      ensures (k in m && r[k] == m[k]) || Admitted(f, st, occupied, r[k])
    {
      InsertAllFrom(m, kept, k);
    }
  }
}
