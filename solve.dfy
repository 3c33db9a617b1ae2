/** The main loop of the beam search (search.cc: Solve and MakeSolution):
    layer by layer, every kept node is expanded, the best node seen so far
    is tracked, the next layer is chosen, and the run gives up when the
    best score of a step is below that step's abort threshold. At the end
    the moves of the best node's ancestry are written out, each piece
    introduced by a kNew action. */
module Solve {
  import opened Decimal
  import opened Tetris
  import opened Board
  import opened Evaluation
  import opened Routes
  import opened Search
  import opened Selection

  // ---------------------------------------------------------------------
  // The global best

  /** global_best_key_func: score, then step, then quality. */
  function BestKey(st: State): (k: seq<int>)
    ensures |k| == 3 && k[0] == st.situ.score
  {
    [st.situ.score, st.situ.step, st.quality]
  }

  /** A node replaces the global best when its key is greater, or equal
      with a board that BricksComp puts after the best's. */
  predicate Outranks(a: State, b: State)
  {
    Ahead(BestKey(a), BestKey(b), a.situ.rows, b.situ.rows)
  }

  /** Outranking is a strict order that never lowers the score. */
  lemma OutranksOrder(a: State, b: State, c: State)
    ensures !Outranks(a, a)
    ensures Outranks(a, b) ==> !Outranks(b, a) && a.situ.score >= b.situ.score
    ensures Outranks(a, b) && Outranks(b, c) ==> Outranks(a, c)
  {
    AheadOrder(BestKey(a), BestKey(b), BestKey(c), a.situ.rows, b.situ.rows, c.situ.rows);
    assert LexCompare(BestKey(a), BestKey(b)) >= 0 ==> a.situ.score >= b.situ.score;
  }

  /** The loop over next_step_bests that updates global_best: the result
      is the old best or one of the new nodes, it outranks the old best
      unless it is the old best, and no new node outranks it. */
  method UpdateBest(best: State, next: seq<State>) returns (best': State)
    ensures Improved(best, next, best')
    ensures best'.situ.score >= best.situ.score
  {
    best' := best;
    for i := 0 to |next|
      invariant best' == best || best' in next[..i]
      invariant best' == best || Outranks(best', best)
      invariant forall j :: 0 <= j < i ==> !Outranks(next[j], best')
    {
      if Outranks(next[i], best') {
        forall j | 0 <= j < i ensures !Outranks(next[j], next[i]) {
          OutranksOrder(next[j], next[i], best');
        }
        if best' != best {
          OutranksOrder(next[i], best', best);
        }
        OutranksOrder(next[i], next[i], next[i]);
        best' := next[i];
      }
    }
    if best' != best {
      OutranksOrder(best', best, best);
    }
  }

  /** best' is the global best after a step whose collected nodes are
      next: the old best or a node of next that outranks it, and no node of
      next outranks it. */
  ghost predicate Improved(best: State, next: seq<State>, best': State)
  {
    (best' == best || best' in next) &&
    (best' == best || Outranks(best', best)) &&
    forall st :: st in next ==> !Outranks(st, best')
  }

  // ---------------------------------------------------------------------
  // The solution

  /** Solution: the actions of the whole game, the final board and the
      best score after every step. */
  datatype Solution = Solution(actions: seq<Action>, finalSitu: Situation, scoreByStep: seq<nat>)

  /** `return {}` and `return Solution()`: no actions, the initial board,
      no scores. */
  function NoSolution(): (sol: Solution)
    ensures sol.actions == [] && sol.scoreByStep == [] && sol.finalSitu == InitialSituation()
  {
    Solution([], InitialSituation(), [])
  }

  /** The actions of a chain of nodes, root first: for every node of step
      1 or more, a kNew action followed by the node's own actions. */
  function ChainOf(node: Option<State>): seq<Action>
    decreases node
  {
    match node
    case None => []
    case Some(st) =>
      if st.situ.step >= 1 then ChainOf(st.parent) + [Action(New, 0)] + st.actions else []
  }

  /** std::reverse. */
  function Reverse(s: seq<Action>): (r: seq<Action>)
    ensures |r| == |s|
    ensures forall i :: 0 <= i < |s| ==> r[i] == s[|s| - 1 - i]
  {
    if |s| == 0 then [] else Reverse(s[1..]) + [s[0]]
  }

  /** Reversing a concatenation reverses the order of its parts. */
  lemma ReverseAppend(a: seq<Action>, b: seq<Action>)
    ensures Reverse(a + b) == Reverse(b) + Reverse(a)
  {
    var l, r := Reverse(a + b), Reverse(b) + Reverse(a);
    assert |l| == |r|;
    forall i | 0 <= i < |l| ensures l[i] == r[i] {
      if i < |b| {
        assert r[i] == b[|b| - 1 - i];
      } else {
        assert r[i] == Reverse(a)[i - |b|];
      }
    }
  }

  /** Reversing twice gives the sequence back. */
  lemma ReverseReverse(s: seq<Action>)
    ensures Reverse(Reverse(s)) == s
  {
  }

  /** The loop of MakeSolution in terms of the chain: after appending the
      reversed actions of one more node and its kNew, what is left to walk
      followed by the reversal of what was gathered is still the whole
      chain. */
  lemma GatherStep(st: State, acc: seq<Action>)
    requires st.situ.step >= 1
    ensures ChainOf(Some(st)) + Reverse(acc) ==
            ChainOf(st.parent) + Reverse(acc + Reverse(st.actions) + [Action(New, 0)])
  {
    var a := Action(New, 0);
    var r := Reverse(st.actions);
    ReverseAppend(acc + r, [a]);
    ReverseAppend(acc, r);
    ReverseReverse(st.actions);
    assert Reverse([a]) == [a];
    calc {
      Reverse(acc + r + [a]);
      [a] + Reverse(acc + r);
      [a] + (st.actions + Reverse(acc));
    }
    var c, t := ChainOf(st.parent), Reverse(acc);
    assert ChainOf(Some(st)) == c + [a] + st.actions;
    Regroup(c, [a], st.actions, t);
  }

  /** Concatenating four sequences does not depend on the grouping. */
  lemma Regroup(p: seq<Action>, q: seq<Action>, r: seq<Action>, s: seq<Action>)
    ensures p + q + r + s == p + (q + (r + s))
  {
  }

  /** MakeSolution: walk from the node up its parents while the step is at
      least 1, gathering each node's actions backwards followed by a kNew,
      then reverse the lot. The actions are those of the node's chain. */
  method MakeSolution(st: State, scoreByStep: seq<nat>) returns (sol: Solution)
    ensures sol.finalSitu == st.situ && sol.scoreByStep == scoreByStep
    ensures sol.actions == ChainOf(Some(st))
  {
    var acc: seq<Action> := [];
    var cur: Option<State> := Some(st);
    while cur.Some? && cur.value.situ.step >= 1
      invariant ChainOf(Some(st)) == ChainOf(cur) + Reverse(acc)
      decreases cur
    {
      var node := cur.value;
      GatherStep(node, acc);
      acc := acc + Reverse(node.actions) + [Action(New, 0)];
      cur := node.parent;
    }
    assert ChainOf(cur) == [];
    sol := Solution(Reverse(acc), st.situ, scoreByStep);
  }

  // ---------------------------------------------------------------------
  // Playing a solution back

  /** The index of the last kNew action, if any. */
  function LastNew(acts: seq<Action>): (r: Option<nat>)
    ensures r.Some? ==> r.value < |acts| && acts[r.value].kind == New
    ensures forall i :: 0 <= i < |acts| && (r.None? || r.value < i) ==> acts[i].kind != New
  {
    if |acts| == 0 then None
    else if acts[|acts| - 1].kind == New then Some(|acts| - 1)
    else LastNew(acts[..|acts| - 1])
  }

  /** The board a whole solution leads to: every kNew brings in the next
      piece, which the actions after it move and which is then dropped and
      placed; actions before the first kNew, or a piece that cannot be
      replayed, give None. */
  function Play(s: Situation, acts: seq<Action>): Option<Situation>
    decreases |acts|
  {
    if |acts| == 0 then Some(s)
    else match LastNew(acts)
      case None => None
      case Some(i) => PlayNext(Play(s, acts[..i]), acts[i + 1..])
  }

  /** One piece of a solution: the piece of the board's step, moved by the
      actions and placed; None when there is no board or the game is over
      on it. */
  function PlayNext(board: Option<Situation>, actions: seq<Action>): Option<Situation>
  {
    match board
    case None => None
    case Some(m) => if m.step < Steps && FullMask(m.rows) == 0 then Replayed(m, actions) else None
  }

  /** The last kNew of one more piece's actions is the one that introduces
      it. */
  lemma LastNewOfPiece(before: seq<Action>, actions: seq<Action>)
    requires forall a :: a in actions ==> a.kind != New
    ensures LastNew(before + [Action(New, 0)] + actions) == Some(|before|)
    ensures (before + [Action(New, 0)] + actions)[..|before|] == before
    ensures (before + [Action(New, 0)] + actions)[|before| + 1..] == actions
  {
    var all := before + [Action(New, 0)] + actions;
    assert all[|before|].kind == New;
    forall i | |before| < i < |all| ensures all[i].kind != New {
      assert all[i] in actions;
    }
  }

  /** One more piece: a chain that plays back to a board, followed by a
      kNew and actions that replay from that board, plays back to where
      they lead. */
  lemma PlayPiece(before: seq<Action>, m: Situation, actions: seq<Action>, t: Situation)
    requires Play(InitialSituation(), before) == Some(m) && PlayNext(Some(m), actions) == Some(t)
    ensures Play(InitialSituation(), before + [Action(New, 0)] + actions) == Some(t)
  {
    ReplayedNoNew(m, actions);
    LastNewOfPiece(before, actions);
  }

  /** The actions of a piece that replays hold no kNew. */
  lemma ReplayedNoNew(m: Situation, actions: seq<Action>)
    requires PlayNext(Some(m), actions).Some?
    ensures forall a :: a in actions ==> a.kind != New
  {
    var b := BrickAt(m.step);
    assert Apply(FitTest(m.rows, b.shape), b.shape, b.st, actions).Some?;
    ApplyNoNew(FitTest(m.rows, b.shape), b.shape, b.st, actions);
  }

  /** A node of the search tree as Solve keeps it: sound, and the
      actions MakeSolution would write for it play back, from the initial
      board, to its board. */
  ghost predicate Reached(f: QualityFlags, st: State)
  {
    Sound(f, st) && Play(InitialSituation(), ChainOf(Some(st))) == Some(st.situ)
  }

  /** The root is reached: its chain is empty. */
  lemma RootReached(f: QualityFlags, st: State)
    requires Sound(f, st) && st.situ == InitialSituation()
    ensures Reached(f, st)
  {
  }

  /** A child of a reached node is reached, one step on: its chain is its
      parent's, a kNew and its own actions, which replay from the parent's
      board to its own. */
  lemma ChildReached(f: QualityFlags, st: State, c: State)
    requires Reached(f, st) && IsChild(f, st, c)
    ensures Reached(f, c) && c.situ.step == st.situ.step + 1
  {
    ChildChain(st, c);
    ChildPiece(f, st, c);
    PlayPiece(ChainOf(Some(st)), st.situ, c.actions, c.situ);
  }

  /** A child's chain is its parent's, a kNew and its own actions. */
  lemma ChildChain(st: State, c: State)
    requires c.parent == Some(st) && c.situ.step >= 1
    ensures ChainOf(Some(c)) == ChainOf(Some(st)) + [Action(New, 0)] + c.actions
  {
  }

  /** A child's actions, played as one piece from its parent's board, lead
      to its board. */
  lemma ChildPiece(f: QualityFlags, st: State, c: State)
    requires IsChild(f, st, c)
    ensures c.situ.step >= 1 && PlayNext(Some(st.situ), c.actions) == Some(c.situ)
  {
  }

  /** The cached height of a sound node is below the board's: its top row
      is empty. */
  lemma SoundHeight(f: QualityFlags, st: State)
    requires Sound(f, st)
    ensures st.height < H
  {
  }

  // ---------------------------------------------------------------------
  // The layers

  /** The check at the head of each step: every node of the layer is at
      this step. */
  method StepsMatch(layer: seq<State>, step: nat) returns (ok: bool)
    ensures ok <==> forall st :: st in layer ==> st.situ.step == step
  {
    for i := 0 to |layer|
      invariant forall j :: 0 <= j < i ==> layer[j].situ.step == step
    {
      if layer[i].situ.step != step {
        return false;
      }
    }
    return true;
  }

  /** SyncRunSpan over the layer: SearchFrom from each node, one after the
      other, into the same collector. Everything collected is a child of a
      node of the layer, one step on. */
  method Expand(f: QualityFlags, layer: seq<State>, step: nat, collector: StateCollector) returns (ghost scans: seq<MoveScan>)
    requires step < Steps && collector.Valid()
    requires forall st :: st in layer ==> Reached(f, st) && st.situ.step == step
    requires forall k :: k in collector.states ==> Reached(f, collector.states[k]) && collector.states[k].situ.step == step + 1
    modifies collector
    ensures collector.Valid()
    ensures forall k :: k in collector.states ==> Reached(f, collector.states[k]) && collector.states[k].situ.step == step + 1
    ensures Scans(layer, scans)
    ensures collector.states == InsertAll(old(collector.states), Expansion(f, layer, scans))
  {
    scans := [];
    for i := 0 to |layer|
      invariant collector.Valid()
      invariant forall k :: k in collector.states ==> Reached(f, collector.states[k]) && collector.states[k].situ.step == step + 1
      invariant Scans(layer[..i], scans)
      invariant collector.states == InsertAll(old(collector.states), Expansion(f, layer[..i], scans))
    {
      var st := layer[i];
      SoundHeight(f, st);
      ghost var scan: MoveScan;
      scan := SearchFrom(f, st, collector);
      forall k | k in collector.states
        ensures Reached(f, collector.states[k]) && collector.states[k].situ.step == step + 1
      {
        if IsChild(f, st, collector.states[k]) {
          ChildReached(f, st, collector.states[k]);
        }
      }
      ExpansionStep(f, layer, scans, scan, i, old(collector.states));
      scans := scans + [scan];
    }
    assert layer[..|layer|] == layer;
  }

  /** scans holds one report of FindAllMoves for each node of the layer,
      in order. */
  ghost predicate Scans(layer: seq<State>, scans: seq<MoveScan>)
  {
    |scans| == |layer| && forall i :: 0 <= i < |layer| ==> ScanOf(layer[i], scans[i])
  }

  /** The nodes Expand passes to the collector: for each node of the layer
      in turn, what SearchFrom keeps of its moves. */
  ghost function Expansion(f: QualityFlags, layer: seq<State>, scans: seq<MoveScan>): seq<State>
    requires |scans| == |layer|
  {
    if |layer| == 0 then []
    else
      var k := |layer| - 1;
      Expansion(f, layer[..k], scans[..k]) + Kept(f, layer[k], CellCount(layer[k].situ.rows), scans[k].cands)
  }

  /** One more node of the layer expanded: its report joins the scans and
      its kept children join the expansion. */
  lemma ExpansionStep(f: QualityFlags, layer: seq<State>, scans: seq<MoveScan>, scan: MoveScan, i: nat, m: map<Rows, State>)
    requires i < |layer| && Scans(layer[..i], scans) && ScanOf(layer[i], scan)
    ensures Scans(layer[..i + 1], scans + [scan])
    ensures InsertAll(m, Expansion(f, layer[..i + 1], scans + [scan])) ==
      InsertAll(InsertAll(m, Expansion(f, layer[..i], scans)), Kept(f, layer[i], CellCount(layer[i].situ.rows), scan.cands))
  {
    forall j | 0 <= j <= i ensures ScanOf(layer[..i + 1][j], (scans + [scan])[j]) {
      if j < i {
        assert layer[..i + 1][j] == layer[..i][j] && (scans + [scan])[j] == scans[j];
      }
    }
    assert layer[..i + 1][..i] == layer[..i];
    assert (scans + [scan])[..i] == scans;
    InsertAllAppend(m, Expansion(f, layer[..i], scans), Kept(f, layer[i], CellCount(layer[i].situ.rows), scan.cands));
  }

  /** next lists what the collector holds once SearchFrom has run from
      every node of the layer into an empty collector. */
  ghost predicate Expanded(f: QualityFlags, layer: seq<State>, next: seq<State>)
  {
    exists scans :: Scans(layer, scans) && Listed(InsertAll(map[], Expansion(f, layer, scans)), next)
  }

  // ---------------------------------------------------------------------
  // Solve

  /** One step of Solve: the step check, the expansion of the layer, the
      update of the global best, the choice of the next layer and the
      abort test. The run stops when a node of the layer is at another
      step or when the best score is below the step's threshold. */
  method Advance(f: QualityFlags, p: Params, layer: seq<State>, best: State, step: nat, threshold: nat, ghost run: Run)
    returns (stop: bool, layer': seq<State>, best': State, ghost next: seq<State>, ghost run': Run)
    requires step < Steps && Reached(f, best)
    requires forall st :: st in layer ==> Reached(f, st)
    requires Searched(f, p, run) && |run.nexts| == step && run.layers[step] == layer && run.bests[step] == best
    ensures Reached(f, best') && forall st :: st in layer' ==> Reached(f, st)
    ensures best'.situ.score >= best.situ.score
    ensures !stop ==> best'.situ.score >= threshold
    ensures stop <==> (exists st :: st in layer && st.situ.step != step) || best'.situ.score < threshold
    ensures (forall st :: st in layer ==> st.situ.step == step) ==> forall st :: st in layer' ==> st.situ.step == step + 1
    ensures run' == run.Then(layer', next, best')
    ensures (forall st :: st in layer ==> st.situ.step == step) ==> Searched(f, p, run') && Improved(best, next, best')
    ensures !(forall st :: st in layer ==> st.situ.step == step) ==> layer' == layer && best' == best
  {
    layer', best', next := layer, best, [];
    run' := run.Then(layer', next, best');
    var ok := StepsMatch(layer, step);
    if !ok {
      return true, layer', best', next, run';
    }
    var collector := new StateCollector();
    ghost var scans := Expand(f, layer, step, collector);
    var collected := collector.MoveTo([]);
    assert collected[0..] == collected;
    assert Listed(InsertAll(map[], Expansion(f, layer, scans)), collected);
    next := collected;
    best' := UpdateBest(best, collected);
    forall st | st in collected ensures Reached(f, st) && st.height < H {
      SoundHeight(f, st);
    }
    layer' := ChooseForNextStep(p, collected);
    stop := best'.situ.score < threshold;
    assert forall st :: st in layer' ==> st in collected;
    SearchedStep(f, p, run, next, layer', best');
    run' := run.Then(layer', next, best');
  }

  /** score_by_step as Solve builds it against the thresholds: each
      entry at least the step's threshold and at least the entry before. */
  ghost predicate ScoreLog(scores: seq<nat>, limits: seq<nat>)
    decreases |scores|
  {
    |scores| <= |limits| &&
    (|scores| > 0 ==>
      var k := |scores| - 1;
      ScoreLog(scores[..k], limits) && scores[k] >= limits[k] && (k > 0 ==> scores[k - 1] <= scores[k]))
  }

  /** A score log is non-decreasing and above the thresholds throughout. */
  lemma {:induction false} ScoreLogMeans(scores: seq<nat>, limits: seq<nat>)
    requires ScoreLog(scores, limits)
    ensures forall k :: 0 <= k < |scores| ==> scores[k] >= limits[k]
    ensures forall i, j :: 0 <= i <= j < |scores| ==> scores[i] <= scores[j]
    decreases |scores|
  {
    if |scores| > 0 {
      var k := |scores| - 1;
      ScoreLogMeans(scores[..k], limits);
      assert forall j :: 0 <= j < k ==> scores[..k][j] == scores[j];
    }
  }

  /** The step loop of Solve from the root: stopped, or a best score for
      every step, logged against the thresholds, the last being the score
      of a reached node. */
  method RunSteps(f: QualityFlags, p: Params, thresholds: array<nat>)
    returns (stop: bool, best: State, scores: seq<nat>, ghost run: Run)
    requires thresholds.Length == Steps
    ensures Reached(f, best)
    ensures !stop ==> |scores| == Steps && scores[Steps - 1] == best.situ.score && ScoreLog(scores, thresholds[..])
    ensures stop ==> |scores| < Steps && ScoreLog(scores, thresholds[..]) && best.situ.score < thresholds[|scores|]
    ensures Searched(f, p, run) && run.bests[|run.nexts|] == best && Unbeaten(f, best, run.nexts)
    ensures |run.nexts| == if stop then |scores| + 1 else Steps
  {
    var root := Root(f);
    var layer := [root];
    best := root;
    scores := [];
    run := Run([layer], [], [root]);
    ghost var limits := thresholds[..];
    RunningRoot(f, p, limits, root);
    for step := 0 to Steps
      invariant Running(f, p, limits, step, layer, best, scores, run)
    {
      stop, layer, best, scores, run := Stage(f, p, layer, best, scores, thresholds[step], limits, step, run);
      if stop {
        return;
      }
    }
    stop := false;
  }

  /** Step i of a run: the layer is at step i, next is its expansion and
      layer' is chosen from next. */
  ghost predicate Stepped(f: QualityFlags, p: Params, i: nat, layer: seq<State>, next: seq<State>, layer': seq<State>)
  {
    (forall st :: st in layer ==> st.situ.step == i) && Expanded(f, layer, next) && Chosen(p, next, layer')
  }

  /** The record of a run: the layer of each step, the nodes collected
      at each step and the global best after each step, the first best
      being the root. */
  datatype Run = Run(layers: seq<seq<State>>, nexts: seq<seq<State>>, bests: seq<State>)
  {
    /** The record of the first k steps. */
    function Prefix(k: nat): Run
      requires k < |layers| && k < |bests| && k <= |nexts|
    {
      Run(layers[..k + 1], nexts[..k], bests[..k + 1])
    }

    /** The record one step further. */
    function Then(layer: seq<State>, next: seq<State>, best: State): Run
    {
      Run(layers + [layer], nexts + [next], bests + [best])
    }
  }

  /** A run from the root: the root record, or a searched run taken one
      step further. */
  ghost predicate Searched(f: QualityFlags, p: Params, r: Run)
    decreases |r.nexts|, 1
  {
    |r.layers| == |r.nexts| + 1 == |r.bests| &&
    if |r.nexts| == 0 then r.layers[0] == [RootState(f)] && r.bests[0] == RootState(f)
    else Extends(f, p, r)
  }

  /** The last step of the run: its first steps are searched; at the last
      step k the layer is at step k, the nodes collected are its expansion,
      the next layer is chosen from them and the global best is updated
      over them. */
  ghost predicate Extends(f: QualityFlags, p: Params, r: Run)
    requires 0 < |r.nexts| && |r.layers| == |r.nexts| + 1 == |r.bests|
    decreases |r.nexts|, 0
  {
    var k := |r.nexts| - 1;
    Searched(f, p, r.Prefix(k)) &&
    Stepped(f, p, k, r.layers[k], r.nexts[k], r.layers[k + 1]) && Improved(r.bests[k], r.nexts[k], r.bests[k + 1])
  }

  /** A searched run starts from the root. */
  lemma {:induction false} SearchedRoot(f: QualityFlags, p: Params, r: Run)
    requires Searched(f, p, r)
    ensures r.layers[0] == [RootState(f)] && r.bests[0] == RootState(f)
    decreases |r.nexts|
  {
    if |r.nexts| > 0 {
      assert Extends(f, p, r);
      SearchedRoot(f, p, r.Prefix(|r.nexts| - 1));
    }
  }

  /** The last step of a searched run, spelled out: its first steps are
      searched, the layer of its last step was at that step, the nodes
      collected are that layer's expansion, the next layer is chosen from
      them and the best is updated over them. */
  lemma SearchedLast(f: QualityFlags, p: Params, r: Run)
    requires Searched(f, p, r) && 0 < |r.nexts|
    ensures Searched(f, p, r.Prefix(|r.nexts| - 1))
    ensures Stepped(f, p, |r.nexts| - 1, r.layers[|r.nexts| - 1], r.nexts[|r.nexts| - 1], r.layers[|r.nexts|])
    ensures Improved(r.bests[|r.nexts| - 1], r.nexts[|r.nexts| - 1], r.bests[|r.nexts|])
  {
    assert Extends(f, p, r);
  }

  /** One more step searched. */
  lemma SearchedStep(f: QualityFlags, p: Params, r: Run, next: seq<State>, layer: seq<State>, best: State)
    requires Searched(f, p, r)
    requires Stepped(f, p, |r.nexts|, r.layers[|r.nexts|], next, layer) && Improved(r.bests[|r.nexts|], next, best)
    ensures Searched(f, p, r.Then(layer, next, best))
  {
    assert r.Then(layer, next, best).Prefix(|r.nexts|) == r;
  }

  /** best is the global best of a run whose collected nodes are nexts:
      the root or a collected node, never below the root, and outranked by
      no collected node. */
  ghost predicate Unbeaten(f: QualityFlags, best: State, nexts: seq<seq<State>>)
  {
    (best == RootState(f) || Outranks(best, RootState(f))) &&
    (best == RootState(f) || exists i :: 0 <= i < |nexts| && best in nexts[i]) &&
    forall i, st :: 0 <= i < |nexts| && st in nexts[i] ==> !Outranks(st, best)
  }

  /** The global best stays unbeaten as a step's nodes are taken in. */
  lemma UnbeatenStep(f: QualityFlags, best: State, nexts: seq<seq<State>>, next: seq<State>, best': State)
    requires Unbeaten(f, best, nexts) && Improved(best, next, best')
    ensures Unbeaten(f, best', nexts + [next])
  {
    var nexts': seq<seq<State>> := nexts + [next];
    if best' != best {
      if best != RootState(f) {
        OutranksOrder(best', best, RootState(f));
      }
      assert best' in nexts'[|nexts|];
    } else if best != RootState(f) {
      var i :| 0 <= i < |nexts| && best in nexts[i];
      assert best in nexts'[i];
    }
    forall i, st | 0 <= i < |nexts'| && st in nexts'[i] ensures !Outranks(st, best') {
      if i < |nexts| {
        assert st in nexts[i];
        if best' != best {
          OutranksOrder(st, best', best);
        }
      }
    }
  }

  /** The step loop before step `step`: a score logged for each earlier
      step, the last being the best's; the best and the layer reached, the
      layer at `step`; the run so far searched, ending in this layer and
      this best, which no node collected so far outranks. */
  ghost predicate Running(f: QualityFlags, p: Params, limits: seq<nat>, step: nat, layer: seq<State>, best: State,
                          scores: seq<nat>, run: Run)
  {
    |scores| == step && ScoreLog(scores, limits) && (step > 0 ==> scores[step - 1] == best.situ.score) &&
    Reached(f, best) && (forall st :: st in layer ==> Reached(f, st) && st.situ.step == step) &&
    Searched(f, p, run) && |run.nexts| == step && run.layers[step] == layer && run.bests[step] == best &&
    Unbeaten(f, best, run.nexts)
  }

  /** The step loop starts from the root: no score, the root as best and
      as the only node of the layer, the record holding the root alone. */
  lemma RunningRoot(f: QualityFlags, p: Params, limits: seq<nat>, root: State)
    requires root == RootState(f) && Sound(f, root)
    ensures Running(f, p, limits, 0, [root], root, [], Run([[root]], [], [root]))
  {
    RootReached(f, root);
  }

  /** One pass of the step loop: Advance, then the push of the step's
      best score unless the run stops. The record of the run grows by the
      step's collected nodes, its chosen layer and the new best. */
  method Stage(f: QualityFlags, p: Params, layer: seq<State>, best: State, scores: seq<nat>, threshold: nat,
               ghost limits: seq<nat>, step: nat, ghost run: Run)
    returns (stop: bool, layer': seq<State>, best': State, scores': seq<nat>, ghost run': Run)
    requires step < Steps == |limits| && limits[step] == threshold
    requires Running(f, p, limits, step, layer, best, scores, run)
    ensures stop <==> best'.situ.score < threshold
    ensures !stop ==> Running(f, p, limits, step + 1, layer', best', scores', run')
    ensures stop ==>
      scores' == scores && Reached(f, best') && Searched(f, p, run') && |run'.nexts| == step + 1 &&
      run'.bests[step + 1] == best' && Unbeaten(f, best', run'.nexts)
  {
    ghost var next: seq<State>;
    stop, layer', best', next, run' := Advance(f, p, layer, best, step, threshold, run);
    UnbeatenStep(f, best, run.nexts, next, best');
    scores' := scores;
    if !stop {
      scores' := PushScore(scores, limits, best'.situ.score);
    }
  }

  /** score_by_step.push_back: the log grows by a score at least the
      step's threshold and at least the previous score. */
  function PushScore(scores: seq<nat>, ghost limits: seq<nat>, x: nat): (r: seq<nat>)
    requires ScoreLog(scores, limits) && |scores| < |limits| && x >= limits[|scores|]
    requires |scores| > 0 ==> scores[|scores| - 1] <= x
    ensures ScoreLog(r, limits) && |r| == |scores| + 1 && r[|scores|] == x
  {
    assert (scores + [x])[..|scores|] == scores;
    scores + [x]
  }

  /** What a run that is not given up delivers: a best score for every
      step, never lower than the step before and never below the step's
      abort threshold, and actions that play back from the initial board
      to the final board, whose score is the last of them. */
  ghost predicate Delivered(flag: string, sol: Solution)
  {
    |sol.scoreByStep| == Steps &&
    (forall i, j :: 0 <= i <= j < Steps ==> sol.scoreByStep[i] <= sol.scoreByStep[j]) &&
    (forall k :: 0 <= k < Steps ==> sol.scoreByStep[k] >= ThresholdOf(Split(flag, ','), k)) &&
    sol.finalSitu.score == sol.scoreByStep[Steps - 1] &&
    Play(InitialSituation(), sol.actions) == Some(sol.finalSitu)
  }

  /** The solution MakeSolution writes for a reached node and a full score
      log delivers. */
  lemma SolutionDelivered(f: QualityFlags, flag: string, best: State, scores: seq<nat>)
    requires Reached(f, best) && ScoreLog(scores, AbortThresholds(flag))
    requires |scores| == Steps && scores[Steps - 1] == best.situ.score
    ensures Delivered(flag, Solution(ChainOf(Some(best)), best.situ, scores))
  {
    ScoreLogMeans(scores, AbortThresholds(flag));
  }

  /** Solve: from the root, one layer per step; the run is given up, or
      it delivers. */
  method Solve(f: QualityFlags, p: Params, flag: string)
    returns (sol: Solution, ghost run: Run)
    ensures sol == NoSolution() || Delivered(flag, sol)
    ensures Delivered(flag, sol) <==> sol != NoSolution()
    ensures sol == NoSolution() ==> exists k :: 0 <= k < Steps && ThresholdOf(Split(flag, ','), k) > 0
    ensures Searched(f, p, run)
    ensures sol == NoSolution() ==>
      0 < |run.nexts| <= Steps && run.bests[|run.nexts|].situ.score < ThresholdOf(Split(flag, ','), |run.nexts| - 1)
    ensures sol != NoSolution() ==>
      |run.nexts| == Steps && Unbeaten(f, run.bests[|run.nexts|], run.nexts) &&
      sol.finalSitu == run.bests[|run.nexts|].situ && sol.actions == ChainOf(Some(run.bests[|run.nexts|]))
  {
    var thresholds := PrepareAbortThreshold(flag);
    var stop, top, scores;
    stop, top, scores, run := RunSteps(f, p, thresholds);
    if stop {
      assert ThresholdOf(Split(flag, ','), |run.nexts| - 1) > run.bests[|run.nexts|].situ.score;
      sol := NoSolution();
      assert !Delivered(flag, sol) by {
        assert |sol.scoreByStep| != Steps;
      }
      return;
    }
    SolutionDelivered(f, flag, top, scores);
    sol := MakeSolution(top, scores);
    assert sol != NoSolution() by {
      assert |sol.scoreByStep| == Steps;
    }
  }
}
