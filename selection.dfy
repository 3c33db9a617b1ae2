/** The choice of the next layer of the beam search (search.cc:
    MoveTopN and ChooseForNextStep): the children too far below the best
    score or height are pruned, then the best by average score per clear
    and the best by quality are taken, each subject to quotas per ancestor
    and per height. The keep counts, quota vectors and height maxima,
    which the source derives from floating-point flags, are integer
    parameters here. */
module Selection {
  import opened Tetris
  import opened Evaluation
  import opened Search

  // ---------------------------------------------------------------------
  // Keys and the comparator

  /** The two key functions ChooseForNextStep hands to MoveTopN. */
  datatype KeyKind = ByScore | ByQuality

  /** std::max<uint32_t>(collapse_count_, 1). */
  function AtLeastOne(n: nat): (r: nat)
    ensures r >= 1 && (n >= 1 ==> r == n)
  {
    if n == 0 then 1 else n
  }

  function KeyLength(kind: KeyKind): nat
  {
    if kind == ByScore then 3 else 2
  }

  /** ByScore: (score * 10000 / max(collapse_count, 1), score, quality);
      ByQuality: (quality, score). The 64-bit product cannot overflow, the
      score being a 32-bit number. */
  function Key(kind: KeyKind, st: State): (k: seq<int>)
    ensures |k| == KeyLength(kind)
  {
    match kind
    case ByScore => [st.situ.score * 10000 / AtLeastOne(st.situ.collapseCount), st.situ.score, st.quality]
    case ByQuality => [st.quality, st.situ.score]
  }

  /** The value-initialised key, which ParentQuotaInfo::value keeps. */
  function ZeroKey(kind: KeyKind): (k: seq<int>)
    ensures |k| == KeyLength(kind)
  {
    if kind == ByScore then [0, 0, 0] else [0, 0]
  }

  /** A comparator of the source's shape: a greater key first, and among
      equal keys the greater board under BricksComp. */
  predicate Ahead(ka: seq<int>, kb: seq<int>, a: Rows, b: Rows)
    requires |ka| == |kb|
  {
    var c := LexCompare(ka, kb);
    c > 0 || (c == 0 && LexCompare(Groups(a), Groups(b)) > 0)
  }

  /** Ahead is the lexicographic order of the key followed by the board's
      words. */
  lemma AheadRank(ka: seq<int>, kb: seq<int>, a: Rows, b: Rows)
    requires |ka| == |kb|
    ensures Ahead(ka, kb, a, b) <==> LexCompare(ka + Groups(a), kb + Groups(b)) > 0
  {
    LexCompareConcat(ka, kb, Groups(a), Groups(b));
    LexCompareZero(ka, kb);
  }

  /** Ahead is a strict order: irreflexive, asymmetric and transitive, and
      "not ahead" is transitive as well. */
  lemma AheadOrder(ka: seq<int>, kb: seq<int>, kc: seq<int>, a: Rows, b: Rows, c: Rows)
    requires |ka| == |kb| == |kc|
    ensures !Ahead(ka, ka, a, a)
    ensures Ahead(ka, kb, a, b) ==> !Ahead(kb, ka, b, a)
    ensures Ahead(ka, kb, a, b) && Ahead(kb, kc, b, c) ==> Ahead(ka, kc, a, c)
    ensures !Ahead(ka, kb, a, b) && !Ahead(kb, kc, b, c) ==> !Ahead(ka, kc, a, c)
  {
    var ra, rb, rc := ka + Groups(a), kb + Groups(b), kc + Groups(c);
    AheadRank(ka, ka, a, a);
    AheadRank(ka, kb, a, b);
    AheadRank(kb, ka, b, a);
    AheadRank(kb, kc, b, c);
    AheadRank(ka, kc, a, c);
    LexCompareZero(ra, ra);
    LexCompareAntisymmetric(ra, rb);
    if LexCompare(ra, rb) > 0 && LexCompare(rb, rc) > 0 {
      LexCompareTransitive(ra, rb, rc);
    }
    if LexCompare(ra, rb) <= 0 && LexCompare(rb, rc) <= 0 {
      LexCompareNotAbove(ra, rb, rc);
    }
  }

  /** The comparator of MoveTopN's std::sort. */
  predicate Before(kind: KeyKind, a: State, b: State)
  {
    Ahead(Key(kind, a), Key(kind, b), a.situ.rows, b.situ.rows)
  }

  /** Descending order under the comparator: no entry comes before an
      earlier one. */
  predicate Sorted(kind: KeyKind, s: seq<State>)
  {
    forall i, j {:trigger Before(kind, s[j], s[i])} :: 0 <= i < j < |s| ==> !Before(kind, s[j], s[i])
  }

  /** x put in front of the first entry it comes before. */
  function InsertByKey(kind: KeyKind, s: seq<State>, x: State): seq<State>
  {
    if |s| == 0 then [x]
    else if Before(kind, x, s[0]) then [x] + s
    else [s[0]] + InsertByKey(kind, s[1..], x)
  }

  /** Inserting adds x to the entries. */
  lemma {:induction false} InsertByKeyMultiset(kind: KeyKind, s: seq<State>, x: State)
    ensures multiset(InsertByKey(kind, s, x)) == multiset(s) + multiset{x}
  {
    if |s| > 0 {
      assert s == [s[0]] + s[1..];
      if !Before(kind, x, s[0]) {
        InsertByKeyMultiset(kind, s[1..], x);
      }
    }
  }

  /** An entry that comes before the first of a sorted sequence can head it. */
  lemma InsertFrontSorted(kind: KeyKind, s: seq<State>, x: State)
    requires Sorted(kind, s) && |s| > 0 && Before(kind, x, s[0])
    ensures Sorted(kind, [x] + s)
  {
    forall j | 0 <= j < |s| ensures !Before(kind, s[j], x) {
      if j > 0 {
        assert !Before(kind, s[j], s[0]);
      }
      AheadOrder(Key(kind, s[j]), Key(kind, s[0]), Key(kind, x), s[j].situ.rows, s[0].situ.rows, x.situ.rows);
      AheadOrder(Key(kind, x), Key(kind, s[0]), Key(kind, x), x.situ.rows, s[0].situ.rows, x.situ.rows);
    }
    forall a, b | 0 <= a < b < |s| + 1 ensures !Before(kind, ([x] + s)[b], ([x] + s)[a]) {
      if a > 0 {
        assert ([x] + s)[b] == s[b - 1] && ([x] + s)[a] == s[a - 1];
      }
    }
  }

  /** The head of a sorted sequence comes no later than anything inserted
      after it. */
  lemma HeadStaysFirst(kind: KeyKind, s: seq<State>, x: State, t: seq<State>)
    requires Sorted(kind, s) && |s| > 0 && !Before(kind, x, s[0])
    requires multiset(t) == multiset(s[1..]) + multiset{x}
    ensures forall e | e in t :: !Before(kind, e, s[0])
  {
    forall e | e in t ensures !Before(kind, e, s[0]) {
      assert e in multiset(t);
      if e != x {
        assert e in multiset(s[1..]);
        assert e in s[1..];
        var j :| 0 <= j < |s[1..]| && s[1..][j] == e;
        assert s[j + 1] == e;
      }
    }
  }

  /** A sorted sequence stays sorted under a head that comes no later than
      any of its entries. */
  lemma ConsSorted(kind: KeyKind, h: State, t: seq<State>)
    requires Sorted(kind, t) && forall e | e in t :: !Before(kind, e, h)
    ensures Sorted(kind, [h] + t)
  {
    forall a, b | 0 <= a < b < |t| + 1 ensures !Before(kind, ([h] + t)[b], ([h] + t)[a]) {
      if a == 0 {
        assert ([h] + t)[b] in t;
      } else {
        assert ([h] + t)[b] == t[b - 1] && ([h] + t)[a] == t[a - 1];
      }
    }
  }

  /** Inserting into a sorted sequence keeps it sorted. */
  lemma {:induction false} InsertByKeySorted(kind: KeyKind, s: seq<State>, x: State)
    requires Sorted(kind, s)
    ensures Sorted(kind, InsertByKey(kind, s, x))
  {
    if |s| == 0 {
    } else if Before(kind, x, s[0]) {
      InsertFrontSorted(kind, s, x);
    } else {
      var t := InsertByKey(kind, s[1..], x);
      InsertByKeySorted(kind, s[1..], x);
      InsertByKeyMultiset(kind, s[1..], x);
      HeadStaysFirst(kind, s, x, t);
      ConsSorted(kind, s[0], t);
    }
  }

  /** The entries of s in descending order under the comparator (the
      outcome of std::sort; the comparator orders states of distinct
      boards strictly, so the order is the same for any sorting method). */
  function SortedBy(kind: KeyKind, s: seq<State>): seq<State>
  {
    if |s| == 0 then [] else InsertByKey(kind, SortedBy(kind, s[..|s| - 1]), s[|s| - 1])
  }

  lemma {:induction false} SortedBySpec(kind: KeyKind, s: seq<State>)
    ensures multiset(SortedBy(kind, s)) == multiset(s)
    ensures Sorted(kind, SortedBy(kind, s))
  {
    if |s| > 0 {
      var p, x := s[..|s| - 1], s[|s| - 1];
      var r := SortedBy(kind, p);
      SortedBySpec(kind, p);
      assert SortedBy(kind, s) == InsertByKey(kind, r, x);
      InsertByKeyMultiset(kind, r, x);
      InsertByKeySorted(kind, r, x);
      assert s == p + [x];
      assert multiset(s) == multiset(p) + multiset{x};
    }
  }

  /** std::sort of MoveTopN's entries by the comparator. */
  method Sort(kind: KeyKind, from: seq<State>) returns (sorted: seq<State>)
    ensures multiset(sorted) == multiset(from) && Sorted(kind, sorted)
  {
    sorted := SortedBy(kind, from);
    SortedBySpec(kind, from);
  }

  // ---------------------------------------------------------------------
  // Quotas

  /** quota_check as written: below the maximum, or a key equal to
      ParentQuotaInfo::value, which is never assigned and so keeps the
      zero key. */
  predicate QuotaOk(kind: KeyKind, cnt: nat, max: nat, key: seq<int>)
  {
    cnt < max || key == ZeroKey(kind)
  }

  /** The counter of a node in quota_map: 0 for a node not yet in it. */
  function Count(quota: map<State, nat>, p: State): nat
  {
    if p in quota then quota[p] else 0
  }

  /** The first k ancestors of a node, nearest first. */
  function Ancestors(node: State, k: nat): (r: seq<State>)
    ensures |r| <= k
    decreases k
  {
    if k == 0 || node.parent.None? then []
    else [node.parent.value] + Ancestors(node.parent.value, k - 1)
  }

  /** The ancestor test of MoveTopN: walking up from the node, the i-th
      ancestor passes the quota test against maxes[i]. */
  function AncestorsOk(kind: KeyKind, quota: map<State, nat>, node: State, maxes: seq<nat>, key: seq<int>): bool
    decreases |maxes|
  {
    if |maxes| == 0 || node.parent.None? then true
    else
      QuotaOk(kind, Count(quota, node.parent.value), maxes[0], key) &&
      AncestorsOk(kind, quota, node.parent.value, maxes[1..], key)
  }

  /** The ancestor test holds exactly when each of the first |maxes|
      ancestors is within its own quota. */
  lemma {:induction false} AncestorsOkAll(kind: KeyKind, quota: map<State, nat>, node: State, maxes: seq<nat>, key: seq<int>)
    ensures AncestorsOk(kind, quota, node, maxes, key) <==>
      var anc := Ancestors(node, |maxes|);
      forall i :: 0 <= i < |anc| ==> QuotaOk(kind, Count(quota, anc[i]), maxes[i], key)
    decreases |maxes|
  {
    if |maxes| > 0 && node.parent.Some? {
      var p := node.parent.value;
      AncestorsOkAll(kind, quota, p, maxes[1..], key);
      var anc := Ancestors(node, |maxes|);
      assert anc == [p] + Ancestors(p, |maxes[1..]|);
      if forall i :: 0 <= i < |anc| ==> QuotaOk(kind, Count(quota, anc[i]), maxes[i], key) {
        forall i | 0 <= i < |anc| - 1 ensures QuotaOk(kind, Count(quota, anc[1..][i]), maxes[1..][i], key) {
          assert anc[1..][i] == anc[i + 1];
        }
      }
    }
  }

  /** The counters after a pick: one more for each of the first k
      ancestors of the node picked. */
  function Bumped(quota: map<State, nat>, node: State, k: nat): map<State, nat>
    decreases k
  {
    if k == 0 || node.parent.None? then quota
    else
      var p := node.parent.value;
      Bumped(quota[p := Count(quota, p) + 1], p, k - 1)
  }

  /** A pick adds to an ancestor's counter the number of times it appears
      among the pick's first k ancestors, and changes no other counter. */
  lemma {:induction false} BumpedCount(quota: map<State, nat>, node: State, k: nat, a: State)
    ensures Count(Bumped(quota, node, k), a) == Count(quota, a) + multiset(Ancestors(node, k))[a]
    decreases k
  {
    if k > 0 && node.parent.Some? {
      var p := node.parent.value;
      var q := quota[p := Count(quota, p) + 1];
      assert Bumped(quota, node, k) == Bumped(q, p, k - 1);
      BumpedCount(q, p, k - 1, a);
      assert multiset(Ancestors(node, k)) == multiset{p} + multiset(Ancestors(p, k - 1)) by {
        assert Ancestors(node, k) == [p] + Ancestors(p, k - 1);
      }
      if a == p {
        assert Count(q, a) == Count(quota, a) + 1;
      } else {
        assert Count(q, a) == Count(quota, a);
      }
    }
  }

  /** quota_map after the picks: the counters count picks only. */
  function QuotaOf(picks: seq<State>, k: nat): map<State, nat>
  {
    if |picks| == 0 then map[] else Bumped(QuotaOf(picks[..|picks| - 1], k), picks[|picks| - 1], k)
  }

  /** height_quota_map[h].cnt after the picks. */
  function CountAt(picks: seq<State>, h: nat): (c: nat)
    ensures c <= |picks|
  {
    if |picks| == 0 then 0
    else CountAt(picks[..|picks| - 1], h) + (if picks[|picks| - 1].height == h then 1 else 0)
  }

  /** Every pick passed both quota tests against the counters of the
      picks before it. */
  ghost predicate QuotasRespected(kind: KeyKind, picks: seq<State>, maxes: seq<nat>, hmax: nat)
  {
    |picks| == 0 ||
    var init, last := picks[..|picks| - 1], picks[|picks| - 1];
    QuotasRespected(kind, init, maxes, hmax) &&
    AncestorsOk(kind, QuotaOf(init, |maxes|), last, maxes, Key(kind, last)) &&
    QuotaOk(kind, CountAt(init, last.height), hmax, Key(kind, last))
  }

  /** The picks of one height with a key other than the zero key: each of
      them was taken while fewer than hmax picks had that height. */
  function CountKeyedAt(kind: KeyKind, picks: seq<State>, h: nat): nat
  {
    if |picks| == 0 then 0
    else
      CountKeyedAt(kind, picks[..|picks| - 1], h) +
      (if picks[|picks| - 1].height == h && Key(kind, picks[|picks| - 1]) != ZeroKey(kind) then 1 else 0)
  }

  /** The height quota: at most hmax picks of any one height, not counting
      picks whose key is the zero key (the exemption as written). */
  lemma {:induction false} HeightQuotaBound(kind: KeyKind, picks: seq<State>, maxes: seq<nat>, hmax: nat, h: nat)
    requires QuotasRespected(kind, picks, maxes, hmax)
    ensures CountKeyedAt(kind, picks, h) <= hmax
    ensures CountKeyedAt(kind, picks, h) <= CountAt(picks, h)
  {
    if |picks| > 0 {
      var init := picks[..|picks| - 1];
      HeightQuotaBound(kind, init, maxes, hmax, h);
    }
  }

  // ---------------------------------------------------------------------
  // MoveTopN

  /** The ancestor loop of MoveTopN (parent_quota_check on each ancestor
      in turn, up to |ancestor_max| of them). */
  method CheckAncestors(kind: KeyKind, quota: map<State, nat>, st: State, maxes: seq<nat>, key: seq<int>)
    returns (ok: bool)
    ensures ok == AncestorsOk(kind, quota, st, maxes, key)
  {
    var node := st;
    for i := 0 to |maxes|
      invariant AncestorsOk(kind, quota, st, maxes, key) == AncestorsOk(kind, quota, node, maxes[i..], key)
    {
      if node.parent.None? {
        return true;
      }
      var p := node.parent.value;
      if !QuotaOk(kind, Count(quota, p), maxes[i], key) {
        return false;
      }
      assert maxes[i..][1..] == maxes[i + 1..];
      node := p;
    }
    return true;
  }

  /** The counting loop of MoveTopN: quota_map[ancestor].cnt++ for the
      first k ancestors. */
  method BumpAncestors(quota: map<State, nat>, st: State, k: nat) returns (quota': map<State, nat>)
    ensures quota' == Bumped(quota, st, k)
  {
    quota' := quota;
    var node := st;
    for i := 0 to k
      invariant Bumped(quota, st, k) == Bumped(quota', node, k - i)
    {
      if node.parent.None? {
        return;
      }
      var p := node.parent.value;
      quota' := quota'[p := Count(quota', p) + 1];
      node := p;
    }
  }

  /** With no quota in the way the picks are the top entries: no entry
      left behind comes before a pick, at least n are picked unless none
      is left behind, and every entry left behind has a key below the last
      pick's, so that the entries tied with the last pick go with it. */
  ghost predicate TopWithTies(kind: KeyKind, picked: seq<State>, rest: seq<State>, n: nat)
  {
    (n <= |picked| || |rest| == 0) &&
    (forall x, y :: x in picked && y in rest ==> !Before(kind, y, x)) &&
    (|picked| > 0 ==> forall y :: y in rest ==> LexCompare(Key(kind, y), Key(kind, picked[|picked| - 1])) < 0)
  }

  /** What MoveTopN makes of the entries of from: picked, the entries
      moved out in the order they are appended, and rest, those left
      behind.
      - together they are from's entries;
      - the picks are in descending order;
      - after the n-th pick only entries with the key of the n-th pick are
        taken;
      - every pick passed the quota tests against the earlier picks;
      - with no ancestor quotas and a height maximum no pick can reach,
        the picks are the top n entries and those tied with the last. */
  ghost predicate Selected(kind: KeyKind, from: seq<State>, picked: seq<State>, rest: seq<State>,
                           n: nat, maxes: seq<nat>, hmax: nat)
    requires n > 0
  {
    multiset(picked) + multiset(rest) == multiset(from) &&
    Sorted(kind, picked) &&
    (forall j :: n <= j < |picked| ==> Key(kind, picked[j]) == Key(kind, picked[n - 1])) &&
    QuotasRespected(kind, picked, maxes, hmax) &&
    (|maxes| == 0 && |from| <= hmax ==> TopWithTies(kind, picked, rest, n))
  }

  /** A key no greater than one below a third is below the third. */
  lemma KeyBelow(kind: KeyKind, a: State, b: State, c: State)
    requires !Before(kind, a, b) && LexCompare(Key(kind, b), Key(kind, c)) < 0
    ensures LexCompare(Key(kind, a), Key(kind, c)) < 0
  {
    var ka, kb, kc := Key(kind, a), Key(kind, b), Key(kind, c);
    LexCompareNotAbove(ka, kb, kc);
    LexCompareZero(ka, kc);
    LexCompareAntisymmetric(kb, kc);
  }

  /** What the selection loop keeps after looking at the first i sorted
      entries, with n picks still to make. */
  ghost predicate SelectInv(kind: KeyKind, sorted: seq<State>, i: nat, picked: seq<State>, rest: seq<State>,
                            n: nat, n0: nat, quota: map<State, nat>, maxes: seq<nat>, hmax: nat)
  {
    i <= |sorted| && 0 < n0 &&
    multiset(picked) + multiset(rest) == multiset(sorted[..i]) &&
    (forall x :: x in picked ==> x in sorted[..i]) &&
    Sorted(kind, picked) &&
    (|picked| <= n0 ==> n == n0 - |picked|) &&
    (|picked| >= n0 ==> n == 0) &&
    (forall j :: n0 <= j < |picked| ==> Key(kind, picked[j]) == Key(kind, picked[n0 - 1])) &&
    quota == QuotaOf(picked, |maxes|) &&
    QuotasRespected(kind, picked, maxes, hmax) &&
    (|maxes| == 0 && |sorted| <= hmax ==> picked == sorted[..i] && rest == [])
  }

  /** An entry that fails a quota test stays behind. */
  lemma SkipStep(kind: KeyKind, sorted: seq<State>, i: nat, picked: seq<State>, rest: seq<State>,
                 n: nat, n0: nat, quota: map<State, nat>, maxes: seq<nat>, hmax: nat)
    requires SelectInv(kind, sorted, i, picked, rest, n, n0, quota, maxes, hmax) && i < |sorted|
    requires !AncestorsOk(kind, quota, sorted[i], maxes, Key(kind, sorted[i])) ||
      !QuotaOk(kind, CountAt(picked, sorted[i].height), hmax, Key(kind, sorted[i]))
    ensures SelectInv(kind, sorted, i + 1, picked, rest + [sorted[i]], n, n0, quota, maxes, hmax)
  {
    assert sorted[..i + 1] == sorted[..i] + [sorted[i]];
  }

  /** An entry that passes the quota tests, while picks remain or with the
      key of the last pick, is picked. */
  lemma PickStep(kind: KeyKind, sorted: seq<State>, i: nat, picked: seq<State>, rest: seq<State>,
                 n: nat, n0: nat, quota: map<State, nat>, maxes: seq<nat>, hmax: nat)
    requires SelectInv(kind, sorted, i, picked, rest, n, n0, quota, maxes, hmax) && i < |sorted|
    requires AncestorsOk(kind, quota, sorted[i], maxes, Key(kind, sorted[i]))
    requires QuotaOk(kind, CountAt(picked, sorted[i].height), hmax, Key(kind, sorted[i]))
    requires n > 0 || (|picked| > 0 && Key(kind, sorted[i]) == Key(kind, picked[|picked| - 1]))
    requires Sorted(kind, sorted)
    ensures SelectInv(kind, sorted, i + 1, picked + [sorted[i]], rest, if n > 0 then n - 1 else 0, n0,
                      Bumped(quota, sorted[i], |maxes|), maxes, hmax)
  {
    var y := sorted[i];
    TakeOneMore(sorted, i);
    Picking(kind, picked, y, maxes, hmax);
    PickSorted(kind, sorted, i, picked);
  }

  lemma TakeOneMore(s: seq<State>, i: nat)
    requires i < |s|
    ensures s[..i + 1] == s[..i] + [s[i]]
  {
  }

  /** Appending a pick: the quota facts the loop keeps about picked. */
  lemma Picking(kind: KeyKind, picked: seq<State>, y: State, maxes: seq<nat>, hmax: nat)
    requires QuotasRespected(kind, picked, maxes, hmax)
    requires AncestorsOk(kind, QuotaOf(picked, |maxes|), y, maxes, Key(kind, y))
    requires QuotaOk(kind, CountAt(picked, y.height), hmax, Key(kind, y))
    ensures QuotasRespected(kind, picked + [y], maxes, hmax)
    ensures QuotaOf(picked + [y], |maxes|) == Bumped(QuotaOf(picked, |maxes|), y, |maxes|)
  {
    assert (picked + [y])[..|picked|] == picked;
  }

  /** A pick taken from sorted after the earlier picks keeps picked sorted. */
  lemma PickSorted(kind: KeyKind, sorted: seq<State>, i: nat, picked: seq<State>)
    requires i < |sorted| && Sorted(kind, sorted) && Sorted(kind, picked)
    requires forall x :: x in picked ==> x in sorted[..i]
    ensures Sorted(kind, picked + [sorted[i]])
  {
    var picked' := picked + [sorted[i]];
    forall a, b | 0 <= a < b < |picked'| ensures !Before(kind, picked'[b], picked'[a]) {
      if b == |picked| {
        assert picked[a] in sorted[..i];
      }
    }
  }

  /** The loop stops at an entry once n picks are made and its key differs
      from the last pick's: the entries from there on stay behind. */
  lemma StopStep(kind: KeyKind, sorted: seq<State>, i: nat, picked: seq<State>, rest: seq<State>,
                 n: nat, n0: nat, quota: map<State, nat>, maxes: seq<nat>, hmax: nat)
    requires SelectInv(kind, sorted, i, picked, rest, n, n0, quota, maxes, hmax) && i < |sorted|
    requires n == 0 && (|picked| == 0 || Key(kind, sorted[i]) != Key(kind, picked[|picked| - 1]))
    requires Sorted(kind, sorted)
    ensures Selected(kind, sorted, picked, rest + sorted[i..], n0, maxes, hmax)
  {
    assert multiset(picked) + multiset(rest + sorted[i..]) == multiset(sorted) by {
      assert sorted[..i] + sorted[i..] == sorted;
      assert multiset(sorted) == multiset(sorted[..i]) + multiset(sorted[i..]);
    }
    if |maxes| == 0 && |sorted| <= hmax {
      StopTop(kind, sorted, i, n0);
    }
  }

  /** Stopping at entry i after taking every entry before it leaves the
      top entries and their ties picked. */
  lemma StopTop(kind: KeyKind, sorted: seq<State>, i: nat, n0: nat)
    requires i < |sorted| && Sorted(kind, sorted) && n0 <= i
    requires i == 0 || Key(kind, sorted[i]) != Key(kind, sorted[i - 1])
    ensures TopWithTies(kind, sorted[..i], sorted[i..], n0)
  {
    var picked, left := sorted[..i], sorted[i..];
    forall x, y | x in picked && y in left ensures !Before(kind, y, x) {
      var p :| 0 <= p < i && sorted[p] == x;
      var q :| i <= q < |sorted| && sorted[q] == y;
      assert !Before(kind, sorted[q], sorted[p]);
    }
    if i > 0 {
      var last := sorted[i - 1];
      assert !Before(kind, sorted[i], sorted[i - 1]);
      LexCompareZero(Key(kind, sorted[i]), Key(kind, last));
      forall y | y in left ensures LexCompare(Key(kind, y), Key(kind, last)) < 0 {
        var q :| i <= q < |sorted| && sorted[q] == y;
        if q > i {
          assert !Before(kind, sorted[q], sorted[i]);
          KeyBelow(kind, y, sorted[i], last);
        }
      }
    }
  }

  /** The loop ends having looked at every entry. */
  lemma EndStep(kind: KeyKind, sorted: seq<State>, picked: seq<State>, rest: seq<State>,
                n: nat, n0: nat, quota: map<State, nat>, maxes: seq<nat>, hmax: nat)
    requires SelectInv(kind, sorted, |sorted|, picked, rest, n, n0, quota, maxes, hmax)
    ensures Selected(kind, sorted, picked, rest, n0, maxes, hmax)
  {
    assert sorted[..|sorted|] == sorted;
  }

  /** Selected depends on the entries of from, not on their order. */
  lemma SelectedPermuted(kind: KeyKind, sorted: seq<State>, from: seq<State>, picked: seq<State>, rest: seq<State>,
                         n: nat, maxes: seq<nat>, hmax: nat)
    requires n > 0 && multiset(sorted) == multiset(from)
    requires Selected(kind, sorted, picked, rest, n, maxes, hmax)
    ensures Selected(kind, from, picked, rest, n, maxes, hmax)
    ensures forall st :: st in rest ==> st in from
  {
    assert |sorted| == |multiset(sorted)| == |from|;
    assert multiset(picked) + multiset(rest) == multiset(from);
    forall st | st in rest ensures st in from {
      assert multiset(rest)[st] > 0;
      assert st in multiset(from);
    }
  }

  /** The picks of the selection loop, in the order taken, and the
      entries it leaves in `from`, in sorted order. */
  datatype Taken = Taken(picked: seq<State>, rest: seq<State>)

  /** The selection loop as a reference, from entry i of the sorted
      entries on, with the picks and left-over entries so far and n picks
      still wanted: an entry that an ancestor quota or the height quota
      refuses, counted against the picks before it, stays behind; once no
      pick is wanted, the first entry that passes the quotas with a key
      other than the last pick's ends the loop, and it and every later
      entry stay behind; any other entry is picked. */
  function Greedy(kind: KeyKind, sorted: seq<State>, i: nat, picked: seq<State>, rest: seq<State>,
                  n: nat, maxes: seq<nat>, hmax: nat): Taken
    requires i <= |sorted|
    decreases |sorted| - i
  {
    if i == |sorted| then Taken(picked, rest)
    else
      var st := sorted[i];
      var key := Key(kind, st);
      if !AncestorsOk(kind, QuotaOf(picked, |maxes|), st, maxes, key) ||
         !QuotaOk(kind, CountAt(picked, st.height), hmax, key) then
        Greedy(kind, sorted, i + 1, picked, rest + [st], n, maxes, hmax)
      else if n == 0 && (|picked| == 0 || key != Key(kind, picked[|picked| - 1])) then
        Taken(picked, rest + sorted[i..])
      else
        Greedy(kind, sorted, i + 1, picked + [st], rest, if n > 0 then n - 1 else 0, maxes, hmax)
  }

  /** An entry that a quota refuses stays behind and the walk goes on. */
  lemma GreedySkip(kind: KeyKind, sorted: seq<State>, i: nat, picked: seq<State>, rest: seq<State>,
                   n: nat, maxes: seq<nat>, hmax: nat)
    requires i < |sorted|
    requires !AncestorsOk(kind, QuotaOf(picked, |maxes|), sorted[i], maxes, Key(kind, sorted[i])) ||
      !QuotaOk(kind, CountAt(picked, sorted[i].height), hmax, Key(kind, sorted[i]))
    ensures Greedy(kind, sorted, i, picked, rest, n, maxes, hmax) ==
      Greedy(kind, sorted, i + 1, picked, rest + [sorted[i]], n, maxes, hmax)
  {
  }

  /** An entry that passes the quotas, once no pick is wanted and with a
      key other than the last pick's, ends the walk. */
  lemma GreedyStop(kind: KeyKind, sorted: seq<State>, i: nat, picked: seq<State>, rest: seq<State>,
                   n: nat, maxes: seq<nat>, hmax: nat)
    requires i < |sorted|
    requires AncestorsOk(kind, QuotaOf(picked, |maxes|), sorted[i], maxes, Key(kind, sorted[i]))
    requires QuotaOk(kind, CountAt(picked, sorted[i].height), hmax, Key(kind, sorted[i]))
    requires n == 0 && (|picked| == 0 || Key(kind, sorted[i]) != Key(kind, picked[|picked| - 1]))
    ensures Greedy(kind, sorted, i, picked, rest, n, maxes, hmax) == Taken(picked, rest + sorted[i..])
  {
  }

  /** An entry that passes the quotas, while picks are wanted or with the
      last pick's key, is picked and the walk goes on. */
  lemma GreedyPick(kind: KeyKind, sorted: seq<State>, i: nat, picked: seq<State>, rest: seq<State>,
                   n: nat, maxes: seq<nat>, hmax: nat)
    requires i < |sorted|
    requires AncestorsOk(kind, QuotaOf(picked, |maxes|), sorted[i], maxes, Key(kind, sorted[i]))
    requires QuotaOk(kind, CountAt(picked, sorted[i].height), hmax, Key(kind, sorted[i]))
    requires n > 0 || (|picked| > 0 && Key(kind, sorted[i]) == Key(kind, picked[|picked| - 1]))
    ensures Greedy(kind, sorted, i, picked, rest, n, maxes, hmax) ==
      Greedy(kind, sorted, i + 1, picked + [sorted[i]], rest, if n > 0 then n - 1 else 0, maxes, hmax)
  {
  }

  /** From any point the loop can reach, the greedy walk ends in a
      selection. */
  lemma {:induction false} GreedySelectedFrom(kind: KeyKind, sorted: seq<State>, i: nat, picked: seq<State>,
                                              rest: seq<State>, n: nat, n0: nat, maxes: seq<nat>, hmax: nat)
    requires SelectInv(kind, sorted, i, picked, rest, n, n0, QuotaOf(picked, |maxes|), maxes, hmax)
    requires Sorted(kind, sorted)
    ensures var r := Greedy(kind, sorted, i, picked, rest, n, maxes, hmax);
      Selected(kind, sorted, r.picked, r.rest, n0, maxes, hmax)
    decreases |sorted| - i, 1
  {
    var quota := QuotaOf(picked, |maxes|);
    if i == |sorted| {
      EndStep(kind, sorted, picked, rest, n, n0, quota, maxes, hmax);
    } else {
      var st := sorted[i];
      var key := Key(kind, st);
      if !AncestorsOk(kind, quota, st, maxes, key) || !QuotaOk(kind, CountAt(picked, st.height), hmax, key) {
        SkipSelected(kind, sorted, i, picked, rest, n, n0, maxes, hmax);
      } else if n == 0 && (|picked| == 0 || key != Key(kind, picked[|picked| - 1])) {
        GreedyStop(kind, sorted, i, picked, rest, n, maxes, hmax);
        StopStep(kind, sorted, i, picked, rest, n, n0, quota, maxes, hmax);
      } else {
        PickSelected(kind, sorted, i, picked, rest, n, n0, maxes, hmax);
      }
    }
  }

  lemma {:induction false} SkipSelected(kind: KeyKind, sorted: seq<State>, i: nat, picked: seq<State>,
                                        rest: seq<State>, n: nat, n0: nat, maxes: seq<nat>, hmax: nat)
    requires SelectInv(kind, sorted, i, picked, rest, n, n0, QuotaOf(picked, |maxes|), maxes, hmax)
    requires Sorted(kind, sorted) && i < |sorted|
    requires !AncestorsOk(kind, QuotaOf(picked, |maxes|), sorted[i], maxes, Key(kind, sorted[i])) ||
      !QuotaOk(kind, CountAt(picked, sorted[i].height), hmax, Key(kind, sorted[i]))
    ensures var r := Greedy(kind, sorted, i, picked, rest, n, maxes, hmax);
      Selected(kind, sorted, r.picked, r.rest, n0, maxes, hmax)
    decreases |sorted| - i, 0
  {
    GreedySkip(kind, sorted, i, picked, rest, n, maxes, hmax);
    SkipStep(kind, sorted, i, picked, rest, n, n0, QuotaOf(picked, |maxes|), maxes, hmax);
    GreedySelectedFrom(kind, sorted, i + 1, picked, rest + [sorted[i]], n, n0, maxes, hmax);
  }

  lemma {:induction false} PickSelected(kind: KeyKind, sorted: seq<State>, i: nat, picked: seq<State>,
                                        rest: seq<State>, n: nat, n0: nat, maxes: seq<nat>, hmax: nat)
    requires SelectInv(kind, sorted, i, picked, rest, n, n0, QuotaOf(picked, |maxes|), maxes, hmax)
    requires Sorted(kind, sorted) && i < |sorted|
    requires AncestorsOk(kind, QuotaOf(picked, |maxes|), sorted[i], maxes, Key(kind, sorted[i]))
    requires QuotaOk(kind, CountAt(picked, sorted[i].height), hmax, Key(kind, sorted[i]))
    requires n > 0 || (|picked| > 0 && Key(kind, sorted[i]) == Key(kind, picked[|picked| - 1]))
    ensures var r := Greedy(kind, sorted, i, picked, rest, n, maxes, hmax);
      Selected(kind, sorted, r.picked, r.rest, n0, maxes, hmax)
    decreases |sorted| - i, 0
  {
    GreedyPick(kind, sorted, i, picked, rest, n, maxes, hmax);
    PickStep(kind, sorted, i, picked, rest, n, n0, QuotaOf(picked, |maxes|), maxes, hmax);
    GreedySelectedFrom(kind, sorted, i + 1, picked + [sorted[i]], rest, if n > 0 then n - 1 else 0, n0, maxes, hmax);
  }

  /** The greedy walk over sorted entries is a selection: the picks are a
      sorted sub-multiset within the quotas, n of them plus ties, and with
      no ancestor quotas and room under the height quota they are the top
      n with ties. */
  lemma GreedySelected(kind: KeyKind, sorted: seq<State>, n: nat, maxes: seq<nat>, hmax: nat)
    requires n > 0 && Sorted(kind, sorted)
    ensures Selected(kind, sorted, Greedy(kind, sorted, 0, [], [], n, maxes, hmax).picked,
                     Greedy(kind, sorted, 0, [], [], n, maxes, hmax).rest, n, maxes, hmax)
  {
    assert sorted[..0] == [];
    GreedySelectedFrom(kind, sorted, 0, [], [], n, n, maxes, hmax);
  }

  /** The walk never drops a pick it has made. */
  lemma {:induction false} GreedyKeepsPicks(kind: KeyKind, sorted: seq<State>, i: nat, picked: seq<State>,
                                            rest: seq<State>, n: nat, maxes: seq<nat>, hmax: nat)
    requires i <= |sorted|
    ensures |picked| <= |Greedy(kind, sorted, i, picked, rest, n, maxes, hmax).picked|
    ensures Greedy(kind, sorted, i, picked, rest, n, maxes, hmax).picked[..|picked|] == picked
    decreases |sorted| - i
  {
    if i < |sorted| {
      var st := sorted[i];
      var key := Key(kind, st);
      if !AncestorsOk(kind, QuotaOf(picked, |maxes|), st, maxes, key) ||
         !QuotaOk(kind, CountAt(picked, st.height), hmax, key) {
        GreedyKeepsPicks(kind, sorted, i + 1, picked, rest + [st], n, maxes, hmax);
      } else if n == 0 && (|picked| == 0 || key != Key(kind, picked[|picked| - 1])) {
      } else {
        var picked' := picked + [st];
        GreedyKeepsPicks(kind, sorted, i + 1, picked', rest, if n > 0 then n - 1 else 0, maxes, hmax);
        var r := Greedy(kind, sorted, i + 1, picked', rest, if n > 0 then n - 1 else 0, maxes, hmax).picked;
        assert r[..|picked|] == r[..|picked'|][..|picked|];
      }
    }
  }

  /** When no quota is zero the best entry is always picked first: the
      selection is never empty for a non-empty `from`. */
  lemma GreedyTakesBest(kind: KeyKind, sorted: seq<State>, n: nat, maxes: seq<nat>, hmax: nat)
    requires |sorted| > 0 && n > 0 && hmax > 0
    requires forall k :: 0 <= k < |maxes| ==> maxes[k] > 0
    ensures |Greedy(kind, sorted, 0, [], [], n, maxes, hmax).picked| > 0
    ensures Greedy(kind, sorted, 0, [], [], n, maxes, hmax).picked[0] == sorted[0]
  {
    var st := sorted[0];
    FreshAncestorsOk(kind, st, maxes, Key(kind, st));
    assert QuotaOf([], |maxes|) == map[];
    assert CountAt([], st.height) == 0;
    GreedyPick(kind, sorted, 0, [], [], n, maxes, hmax);
    GreedyKeepsPicks(kind, sorted, 1, [st], [], n - 1, maxes, hmax);
  }

  /** With no picks yet every ancestor count is zero, below any positive
      maximum. */
  lemma {:induction false} FreshAncestorsOk(kind: KeyKind, node: State, maxes: seq<nat>, key: seq<int>)
    requires forall k :: 0 <= k < |maxes| ==> maxes[k] > 0
    ensures AncestorsOk(kind, map[], node, maxes, key)
    decreases |maxes|
  {
    if |maxes| > 0 && node.parent.Some? {
      FreshAncestorsOk(kind, node.parent.value, maxes[1..], key);
    }
  }

  /** MoveTopN's selection from `from`: the greedy walk over an order of
      `from` sorted by the comparator (std::sort may leave states that
      compare equal in either order). */
  ghost predicate TopN(kind: KeyKind, from: seq<State>, picked: seq<State>, rest: seq<State>,
                       n: nat, maxes: seq<nat>, hmax: nat)
  {
    exists sorted :: multiset(sorted) == multiset(from) && Sorted(kind, sorted) &&
      Greedy(kind, sorted, 0, [], [], n, maxes, hmax) == Taken(picked, rest)
  }

  /** Every outcome of MoveTopN's selection is a selection of `from`. */
  lemma TopNSelected(kind: KeyKind, from: seq<State>, picked: seq<State>, rest: seq<State>,
                     n: nat, maxes: seq<nat>, hmax: nat)
    requires n > 0 && TopN(kind, from, picked, rest, n, maxes, hmax)
    ensures Selected(kind, from, picked, rest, n, maxes, hmax)
  {
    var sorted :| multiset(sorted) == multiset(from) && Sorted(kind, sorted) &&
      Greedy(kind, sorted, 0, [], [], n, maxes, hmax) == Taken(picked, rest);
    GreedySelected(kind, sorted, n, maxes, hmax);
    SelectedPermuted(kind, sorted, from, picked, rest, n, maxes, hmax);
  }

  /** What one MoveTopN call moves from `from` (picked) and leaves there
      (rest): nothing for n = 0, everything for a `from` of at most n
      entries, otherwise the greedy selection. */
  ghost predicate Moved(kind: KeyKind, from: seq<State>, picked: seq<State>, rest: seq<State>,
                        n: nat, maxes: seq<nat>, hmax: nat)
  {
    if n == 0 then picked == [] && rest == from
    else if |from| <= n then picked == from && rest == []
    else TopN(kind, from, picked, rest, n, maxes, hmax)
  }

  /** height_info.cnt++ for a pick. */
  method CountHeight(heights: array<nat>, ghost picked: seq<State>, y: State)
    requires heights.Length == H && y.height < H
    requires forall h :: 0 <= h < H ==> heights[h] == CountAt(picked, h)
    modifies heights
    ensures forall h :: 0 <= h < H ==> heights[h] == CountAt(picked + [y], h)
  {
    assert (picked + [y])[..|picked|] == picked;
    heights[y.height] := heights[y.height] + 1;
  }

  /** One iteration of the selection loop, on entry i: the ancestor
      quotas, the height quota, the stop once n picks are made and the key
      changes, then the pick with its counters. */
  method Consider(kind: KeyKind, sorted: seq<State>, i: nat, picked: seq<State>, rest: seq<State>,
                  n: nat, ghost n0: nat, quota: map<State, nat>, maxes: seq<nat>, hmax: nat, heights: array<nat>)
    returns (picked': seq<State>, rest': seq<State>, n': nat, quota': map<State, nat>, stop: bool)
    requires SelectInv(kind, sorted, i, picked, rest, n, n0, quota, maxes, hmax) && i < |sorted|
    requires Sorted(kind, sorted) && sorted[i].height < H
    requires heights.Length == H && forall h :: 0 <= h < H ==> heights[h] == CountAt(picked, h)
    modifies heights
    ensures stop ==> Selected(kind, sorted, picked', rest', n0, maxes, hmax)
    ensures !stop ==> SelectInv(kind, sorted, i + 1, picked', rest', n', n0, quota', maxes, hmax)
    ensures !stop ==> forall h :: 0 <= h < H ==> heights[h] == CountAt(picked', h)
    ensures stop ==> Greedy(kind, sorted, i, picked, rest, n, maxes, hmax) == Taken(picked', rest')
    ensures !stop ==> Greedy(kind, sorted, i + 1, picked', rest', n', maxes, hmax) ==
                      Greedy(kind, sorted, i, picked, rest, n, maxes, hmax)
  {
    var st := sorted[i];
    var key := Key(kind, st);
    picked', rest', n', quota', stop := picked, rest, n, quota, false;
    var ok := CheckAncestors(kind, quota, st, maxes, key);
    if !ok || !QuotaOk(kind, heights[st.height], hmax, key) {
      SkipStep(kind, sorted, i, picked, rest, n, n0, quota, maxes, hmax);
      rest' := rest + [st];
      return;
    }
    if n == 0 && (|picked| == 0 || key != Key(kind, picked[|picked| - 1])) {
      StopStep(kind, sorted, i, picked, rest, n, n0, quota, maxes, hmax);
      rest' := rest + sorted[i..];
      stop := true;
      return;
    }
    PickStep(kind, sorted, i, picked, rest, n, n0, quota, maxes, hmax);
    if n > 0 {
      n' := n - 1;
    }
    quota' := BumpAncestors(quota, st, |maxes|);
    CountHeight(heights, picked, st);
    picked' := picked + [st];
  }

  /** The selection loop of MoveTopN over the sorted entries. */
  method SelectTop(kind: KeyKind, sorted: seq<State>, n0: nat, maxes: seq<nat>, hmax: nat)
    returns (picked: seq<State>, rest: seq<State>)
    requires n0 > 0 && Sorted(kind, sorted)
    requires forall st :: st in sorted ==> st.height < H
    ensures Greedy(kind, sorted, 0, [], [], n0, maxes, hmax) == Taken(picked, rest)
    ensures Selected(kind, sorted, picked, rest, n0, maxes, hmax)
  {
    var n := n0;
    var quota: map<State, nat> := map[];
    var heights := new nat[H](_ => 0);
    picked, rest := [], [];
    var i := 0;
    while i < |sorted|
      invariant SelectInv(kind, sorted, i, picked, rest, n, n0, quota, maxes, hmax)
      invariant forall h :: 0 <= h < H ==> heights[h] == CountAt(picked, h)
      invariant Greedy(kind, sorted, i, picked, rest, n, maxes, hmax) == Greedy(kind, sorted, 0, [], [], n0, maxes, hmax)
      decreases |sorted| - i
    {
      var stop;
      picked, rest, n, quota, stop := Consider(kind, sorted, i, picked, rest, n, n0, quota, maxes, hmax, heights);
      if stop {
        return;
      }
      i := i + 1;
    }
    EndStep(kind, sorted, picked, rest, n, n0, quota, maxes, hmax);
  }

  /** MoveTopN with the branch for a short `from` appending to `to` (the
      branch as written overwrites `to`: see SmallCaseAsWritten). n = 0
      moves nothing; a `from` of at most n entries moves whole; otherwise
      the entries are sorted and the greedy selection's picks are
      appended to `to`, the entries it leaves staying in `from` in sorted
      order (TopNSelected: the picks form a selection of `from`). */
  method MoveTopN(kind: KeyKind, from: seq<State>, to: seq<State>, n: nat, maxes: seq<nat>, hmax: nat)
    returns (from': seq<State>, to': seq<State>)
    requires forall st :: st in from ==> st.height < H
    ensures n == 0 ==> from' == from && to' == to
    ensures 0 < n && |from| <= n ==> from' == [] && to' == to + from
    ensures |to| <= |to'| && to'[..|to|] == to
    ensures multiset(to'[|to|..]) + multiset(from') == multiset(from)
    ensures forall st :: st in from' ==> st in from
    ensures Moved(kind, from, to'[|to|..], from', n, maxes, hmax)
  {
    if n == 0 {
      return from, to;
    }
    if |from| <= n {
      assert (to + from)[|to|..] == from;
      return [], to + from;
    }
    var sorted := Sort(kind, from);
    forall st | st in sorted ensures st.height < H {
      assert st in multiset(sorted);
    }
    var picked, rest := SelectTop(kind, sorted, n, maxes, hmax);
    SelectedPermuted(kind, sorted, from, picked, rest, n, maxes, hmax);
    assert TopN(kind, from, picked, rest, n, maxes, hmax);
    from' := rest;
    to' := to + picked;
    assert to'[..|to|] == to && to'[|to|..] == picked;
  }

  /** MoveTopN as written on a `from` of at most n entries: n = 0 returns
      at once; otherwise `*to = std::move(from)`. */
  function SmallCaseAsWritten(from: seq<State>, to: seq<State>, n: nat): seq<State>
    requires |from| <= n
  {
    if n == 0 then to else from
  }

  /** As written, the short branch loses what `to` held (in
      ChooseForNextStep the second call's `to` holds the picks by score),
      where MoveTopN keeps it and appends `from`. */
  lemma AsWrittenLosesPicks(from: seq<State>, to: seq<State>, n: nat)
    requires to != [] && 0 < n && |from| <= n
    ensures multiset(SmallCaseAsWritten(from, to, n)) != multiset(to + from)
    ensures Moved(ByQuality, from, from, [], n, [], 0)
  {
    assert |multiset(to + from)| == |to| + |from|;
  }

  // ---------------------------------------------------------------------
  // ChooseForNextStep

  /** The parameters of the selection: g_score_keep_count,
      g_quality_keep_count, the two parent quota vectors, the two height
      maxima (keep count times height quota) and the two pruning
      thresholds. */
  datatype Params = Params(scoreKeep: nat, qualityKeep: nat,
                           scoreParentQuota: seq<nat>, qualityParentQuota: seq<nat>,
                           scoreHeightMax: nat, qualityHeightMax: nat,
                           ignoreScore: nat, ignoreHeight: nat)

  /** The greatest score of the nodes, 0 for none. */
  function MaxScore(sts: seq<State>): (m: nat)
    ensures forall st :: st in sts ==> st.situ.score <= m
    ensures |sts| > 0 ==> exists st :: st in sts && st.situ.score == m
    ensures |sts| == 0 ==> m == 0
  {
    if |sts| == 0 then 0
    else
      var m := MaxScore(sts[..|sts| - 1]);
      assert sts == sts[..|sts| - 1] + [sts[|sts| - 1]];
      if sts[|sts| - 1].situ.score > m then sts[|sts| - 1].situ.score else m
  }

  /** The greatest occupied height of the nodes, 0 for none. */
  function MaxHeight(sts: seq<State>): (m: nat)
    ensures forall st :: st in sts ==> st.height <= m
    ensures |sts| > 0 ==> exists st :: st in sts && st.height == m
    ensures |sts| == 0 ==> m == 0
  {
    if |sts| == 0 then 0
    else
      var m := MaxHeight(sts[..|sts| - 1]);
      assert sts == sts[..|sts| - 1] + [sts[|sts| - 1]];
      if sts[|sts| - 1].height > m then sts[|sts| - 1].height else m
  }

  /** The first loop of ChooseForNextStep. */
  method Maxima(orig: seq<State>) returns (maxScore: nat, maxHeight: nat)
    ensures maxScore == MaxScore(orig) && maxHeight == MaxHeight(orig)
  {
    maxScore, maxHeight := 0, 0;
    for i := 0 to |orig|
      invariant maxScore == MaxScore(orig[..i]) && maxHeight == MaxHeight(orig[..i])
    {
      assert orig[..i + 1][..i] == orig[..i];
      if orig[i].situ.score > maxScore {
        maxScore := orig[i].situ.score;
      }
      if orig[i].height > maxHeight {
        maxHeight := orig[i].height;
      }
    }
    assert orig[..|orig|] == orig;
  }

  /** The erase_if predicate: a score more than ignoreScore below the
      best, or a height more than ignoreHeight below the highest. */
  predicate Pruned(p: Params, maxScore: nat, maxHeight: nat, st: State)
  {
    st.situ.score + p.ignoreScore < maxScore || st.height + p.ignoreHeight < maxHeight
  }

  /** The nodes erase_if keeps, in their order. */
  function Survivors(p: Params, maxScore: nat, maxHeight: nat, sts: seq<State>): (r: seq<State>)
    ensures multiset(r) <= multiset(sts)
    ensures forall st :: st in r <==> st in sts && !Pruned(p, maxScore, maxHeight, st)
  {
    if |sts| == 0 then []
    else
      var init, last := sts[..|sts| - 1], sts[|sts| - 1];
      assert sts == init + [last];
      Survivors(p, maxScore, maxHeight, init) + if Pruned(p, maxScore, maxHeight, last) then [] else [last]
  }

  /** std::erase_if on the layer. */
  method EraseIf(p: Params, maxScore: nat, maxHeight: nat, orig: seq<State>) returns (r: seq<State>)
    ensures r == Survivors(p, maxScore, maxHeight, orig)
  {
    r := [];
    for i := 0 to |orig|
      invariant r == Survivors(p, maxScore, maxHeight, orig[..i])
    {
      assert orig[..i + 1][..i] == orig[..i];
      if !Pruned(p, maxScore, maxHeight, orig[i]) {
        r := r + [orig[i]];
      }
    }
    assert orig[..|orig|] == orig;
  }

  /** The survivors of the pruning of a layer. */
  function LayerSurvivors(p: Params, orig: seq<State>): seq<State>
  {
    Survivors(p, MaxScore(orig), MaxHeight(orig), orig)
  }

  /** ChooseForNextStep: an empty layer gives an empty choice; the nodes
      chosen are survivors of the pruning, each within ignoreScore of the
      best score and within ignoreHeight of the greatest height of the
      layer; when few enough survive, all of them are chosen. */
  method ChooseForNextStep(p: Params, orig: seq<State>) returns (res: seq<State>)
    requires forall st :: st in orig ==> st.height < H
    ensures |orig| == 0 ==> res == []
    ensures multiset(res) <= multiset(LayerSurvivors(p, orig))
    ensures forall st :: st in res ==>
      (st in orig && st.situ.score + p.ignoreScore >= MaxScore(orig) && st.height + p.ignoreHeight >= MaxHeight(orig))
    ensures Chosen(p, orig, res)
  {
    res := [];
    if |orig| == 0 {
      return;
    }
    var maxScore, maxHeight := Maxima(orig);
    var survivors := EraseIf(p, maxScore, maxHeight, orig);
    if |survivors| <= p.qualityKeep + p.scoreKeep {
      res := survivors;
    } else {
      res := TakeBest(p, survivors);
    }
    forall st | st in res ensures st in survivors {
      assert st in multiset(res);
    }
  }

  /** The layer ChooseForNextStep picks from orig: every survivor of the
      pruning when they fit within the two keep counts, otherwise the two
      passes over the survivors. */
  ghost predicate Chosen(p: Params, orig: seq<State>, res: seq<State>)
  {
    if |LayerSurvivors(p, orig)| <= p.qualityKeep + p.scoreKeep then res == LayerSurvivors(p, orig)
    else TwoPasses(p, LayerSurvivors(p, orig), res)
  }

  /** The two passes of ChooseForNextStep: res is what the pass by
      average score per clear moves out of the survivors, followed by what
      the pass by quality moves out of the entries the first pass left. */
  ghost predicate TwoPasses(p: Params, survivors: seq<State>, res: seq<State>)
  {
    exists byScore, rest ::
      Moved(ByScore, survivors, byScore, rest, p.scoreKeep, p.scoreParentQuota, p.scoreHeightMax) &&
      |byScore| <= |res| && res[..|byScore|] == byScore &&
      exists left :: Moved(ByQuality, rest, res[|byScore|..], left, p.qualityKeep, p.qualityParentQuota, p.qualityHeightMax)
  }

  /** The two MoveTopN calls of ChooseForNextStep: the best by average
      score per clear, then, from what is left, the best by quality. */
  method TakeBest(p: Params, survivors: seq<State>) returns (res: seq<State>)
    requires forall st :: st in survivors ==> st.height < H
    ensures TwoPasses(p, survivors, res)
    ensures multiset(res) <= multiset(survivors)
  {
    var rest, byScore := MoveTopN(ByScore, survivors, [], p.scoreKeep, p.scoreParentQuota, p.scoreHeightMax);
    assert byScore[0..] == byScore;
    var left, both := MoveTopN(ByQuality, rest, byScore, p.qualityKeep, p.qualityParentQuota, p.qualityHeightMax);
    res := both;
    BothPasses(p, survivors, byScore, rest, left, res);
    PassesKeepEntries(survivors, byScore, rest, left, res);
  }

  /** Two moves chained draw their picks from the entries of the first
      move's from, each at most once. */
  lemma PassesKeepEntries(from: seq<State>, first: seq<State>, rest: seq<State>, left: seq<State>, res: seq<State>)
    requires multiset(first) + multiset(rest) == multiset(from)
    requires |first| <= |res| && res[..|first|] == first
    requires multiset(res[|first|..]) + multiset(left) == multiset(rest)
    ensures multiset(res) <= multiset(from)
  {
    assert res == first + res[|first|..];
  }

  lemma BothPasses(p: Params, survivors: seq<State>, byScore: seq<State>, rest: seq<State>, left: seq<State>, res: seq<State>)
    requires Moved(ByScore, survivors, byScore, rest, p.scoreKeep, p.scoreParentQuota, p.scoreHeightMax)
    requires |byScore| <= |res| && res[..|byScore|] == byScore
    requires Moved(ByQuality, rest, res[|byScore|..], left, p.qualityKeep, p.qualityParentQuota, p.qualityHeightMax)
    ensures TwoPasses(p, survivors, res)
  {
  }

  /** A layer whose survivors all share one key by average score per
      clear, with no ancestor quotas and room under the height quota: the
      first pass takes every survivor (the ties with its last pick), so
      the second call's `from` is empty and, as written, its short branch
      leaves res empty where every survivor should be kept. */
  lemma TiedLayerAsWritten(p: Params, survivors: seq<State>, byScore: seq<State>, rest: seq<State>)
    requires 0 < p.scoreKeep < |survivors| && 0 < p.qualityKeep && |p.scoreParentQuota| == 0 && |survivors| <= p.scoreHeightMax
    requires forall x, y :: x in survivors && y in survivors ==> Key(ByScore, x) == Key(ByScore, y)
    requires Moved(ByScore, survivors, byScore, rest, p.scoreKeep, p.scoreParentQuota, p.scoreHeightMax)
    ensures rest == [] && multiset(byScore) == multiset(survivors)
    ensures SmallCaseAsWritten(rest, byScore, p.qualityKeep) == [] && |byScore + rest| == |survivors|
  {
    TopNSelected(ByScore, survivors, byScore, rest, p.scoreKeep, p.scoreParentQuota, p.scoreHeightMax);
    if rest != [] {
      var y := rest[0];
      assert y in multiset(survivors);
      assert |byScore| >= p.scoreKeep;
      var last := byScore[|byScore| - 1];
      assert last in multiset(survivors);
      LexCompareZero(Key(ByScore, y), Key(ByScore, last));
    }
  }
}
