/** The text form of a move list (Action::AppendTo and Action::Join in
    tetris_common.cc): one letter per action from "DLRCN", the amount in
    decimal after it (none for N), actions separated by commas, and runs
    of actions of the same kind merged into one. */
module ActionText {
  import opened Tetris
  import Decimal

  /** kActionChars[type]. */
  function KindChar(k: ActionType): char
  {
    match k
    case Down => 'D'
    case Left => 'L'
    case Right => 'R'
    case Rotate => 'C'
    case New => 'N'
  }

  /** The characters AppendTo writes for an amount: one digit below ten,
      otherwise '0' + amount / 10 and '0' + amount % 10 (not a digit
      from 100 on). */
  function AmountText(amount: U8): string
  {
    if amount < 10 then [('0' as int + amount) as char]
    else [('0' as int + amount / 10) as char, ('0' as int + amount % 10) as char]
  }

  /** The text of one action, without the separator. */
  function Text(a: Action): string
  {
    [KindChar(a.kind)] + (if a.kind == New then "" else AmountText(a.amount))
  }

  /** The texts of a list of actions. */
  function Texts(actions: seq<Action>): (t: seq<string>)
    ensures |t| == |actions|
  {
    seq(|actions|, i requires 0 <= i < |actions| => Text(actions[i]))
  }

  /** The string Join returns for actions that are already merged. */
  function JoinedText(merged: seq<Action>): string
  {
    Decimal.Join(Texts(merged), ',')
  }

  /** AppendTo: a comma unless the string is empty, then the action's text. */
  method AppendTo(s: string, a: Action) returns (r: string)
    ensures r == (if s == "" then "" else s + ",") + Text(a)
  {
    r := s;
    if r != "" {
      r := r + ",";
    }
    r := r + [KindChar(a.kind)];
    if a.kind != New {
      if a.amount < 10 {
        r := r + [('0' as int + a.amount) as char];
      } else {
        r := r + [('0' as int + a.amount / 10) as char];
        r := r + [('0' as int + a.amount % 10) as char];
      }
    }
  }

  // ---------------------------------------------------------------------
  // Merging runs

  /** The merge Join performs, with `hold` the action being accumulated:
      an action of the same kind adds its amount (uint8_t, so modulo 256),
      any other kind closes the run. */
  function MergeFrom(hold: Action, rest: seq<Action>): (m: seq<Action>)
    ensures |m| >= 1
    decreases |rest|
  {
    if |rest| == 0 then [hold]
    else if rest[0].kind == hold.kind then
      MergeFrom(Action(hold.kind, (hold.amount + rest[0].amount) % 256), rest[1..])
    else [hold] + MergeFrom(rest[0], rest[1..])
  }

  function Merge(actions: seq<Action>): seq<Action>
  {
    if |actions| == 0 then [] else MergeFrom(actions[0], actions[1..])
  }

  /** No two neighbours in a merged list have the same kind. */
  predicate Alternating(actions: seq<Action>)
  {
    forall i :: 0 < i < |actions| ==> actions[i - 1].kind != actions[i].kind
  }

  lemma {:induction false} MergeFromAlternates(hold: Action, rest: seq<Action>)
    ensures Alternating(MergeFrom(hold, rest))
    ensures MergeFrom(hold, rest)[0].kind == hold.kind
    decreases |rest|
  {
    if |rest| > 0 {
      if rest[0].kind == hold.kind {
        MergeFromAlternates(Action(hold.kind, (hold.amount + rest[0].amount) % 256), rest[1..]);
      } else {
        MergeFromAlternates(rest[0], rest[1..]);
      }
    }
  }

  /** A list that already alternates is left as it is. */
  lemma {:induction false} MergeFromKeeps(hold: Action, rest: seq<Action>)
    requires Alternating([hold] + rest)
    ensures MergeFrom(hold, rest) == [hold] + rest
    decreases |rest|
  {
    if |rest| > 0 {
      assert ([hold] + rest)[0] == hold && ([hold] + rest)[1] == rest[0];
      assert Alternating([rest[0]] + rest[1..]) by {
        assert [rest[0]] + rest[1..] == rest;
        forall i | 0 < i < |rest| ensures rest[i - 1].kind != rest[i].kind {
          assert ([hold] + rest)[i] == rest[i - 1] && ([hold] + rest)[i + 1] == rest[i];
        }
      }
      MergeFromKeeps(rest[0], rest[1..]);
      assert MergeFrom(hold, rest) == [hold] + MergeFrom(rest[0], rest[1..]);
      assert [rest[0]] + rest[1..] == rest;
    }
  }

  /** Merging gives an alternating list, and leaves an alternating list unchanged. */
  lemma MergeSpec(actions: seq<Action>)
    ensures Alternating(Merge(actions))
    ensures Alternating(actions) ==> Merge(actions) == actions
  {
    if |actions| > 0 {
      MergeFromAlternates(actions[0], actions[1..]);
      assert [actions[0]] + actions[1..] == actions;
      if Alternating(actions) {
        MergeFromKeeps(actions[0], actions[1..]);
      }
    }
  }

  // ---------------------------------------------------------------------
  // Join

  /** Appending one more text to a comma-joined list. */
  lemma {:induction false} JoinSnoc(parts: seq<string>, p: string)
    ensures Decimal.Join(parts + [p], ',') ==
      (if |parts| == 0 then "" else Decimal.Join(parts, ',') + ",") + p
  {
    if |parts| == 1 {
      assert (parts + [p])[1..] == [p];
    } else if |parts| > 1 {
      JoinSnoc(parts[1..], p);
      assert (parts + [p])[1..] == parts[1..] + [p];
    } else {
      assert parts + [p] == [p];
    }
  }

  /** Closing a run appends its text the way AppendTo does. */
  lemma CloseRun(done: seq<Action>, a: Action)
    ensures JoinedText(done + [a]) ==
      (if JoinedText(done) == "" then "" else JoinedText(done) + ",") + Text(a)
  {
    assert Texts(done + [a]) == Texts(done) + [Text(a)];
    JoinSnoc(Texts(done), Text(a));
    if |done| > 0 {
      JoinNonEmpty(Texts(done));
    }
  }

  /** One step of the merge at position i. */
  lemma MergeStep(hold: Action, actions: seq<Action>, i: nat)
    requires i < |actions|
    ensures MergeFrom(hold, actions[i..]) ==
      if actions[i].kind == hold.kind
      then MergeFrom(Action(hold.kind, (hold.amount + actions[i].amount) % 256), actions[i + 1..])
      else [hold] + MergeFrom(actions[i], actions[i + 1..])
  {
    assert actions[i..][0] == actions[i] && actions[i..][1..] == actions[i + 1..];
  }

  /** A change of kind at position i closes the run held so far: it joins
      the runs already closed, and the new run starts with actions[i]. */
  lemma RunCloses(actions: seq<Action>, i: nat, done: seq<Action>, hold: Action)
    requires i < |actions| && hold.kind != actions[i].kind
    requires Merge(actions) == done + MergeFrom(hold, actions[i..])
    ensures Merge(actions) == (done + [hold]) + MergeFrom(actions[i], actions[i + 1..])
  {
    MergeStep(hold, actions, i);
    assert done + ([hold] + MergeFrom(actions[i], actions[i + 1..])) ==
           (done + [hold]) + MergeFrom(actions[i], actions[i + 1..]);
  }

  /** Join: runs of one kind merged, then each run appended with AppendTo. */
  method Join(actions: seq<Action>) returns (res: string)
    ensures res == JoinedText(Merge(actions))
  {
    res := "";
    if |actions| > 0 {
      var hold := actions[0];
      ghost var done: seq<Action> := [];
      var i := 1;
      while i < |actions|
        invariant 1 <= i <= |actions|
        invariant Merge(actions) == done + MergeFrom(hold, actions[i..])
        invariant res == JoinedText(done)
      {
        if hold.kind == actions[i].kind {
          ghost var next := Action(hold.kind, (hold.amount + actions[i].amount) % 256);
          assert MergeFrom(hold, actions[i..]) == MergeFrom(next, actions[i + 1..]) by {
            MergeStep(hold, actions, i);
          }
          hold := Action(hold.kind, (hold.amount + actions[i].amount) % 256);
        } else {
          res := AppendTo(res, hold);
          assert res == JoinedText(done + [hold]) by {
            CloseRun(done, hold);
          }
          assert Merge(actions) == (done + [hold]) + MergeFrom(actions[i], actions[i + 1..]) by {
            RunCloses(actions, i, done, hold);
          }
          done := done + [hold];
          hold := actions[i];
        }
        i := i + 1;
      }
      res := AppendTo(res, hold);
      CloseRun(done, hold);
      assert Merge(actions) == done + [hold];
    }
  }

  // ---------------------------------------------------------------------
  // Reading the text back

  /** The kind a letter of "DLRCN" names. */
  function KindOf(c: char): Decimal.Option<ActionType>
  {
    if c == 'D' then Decimal.Some(Down)
    else if c == 'L' then Decimal.Some(Left)
    else if c == 'R' then Decimal.Some(Right)
    else if c == 'C' then Decimal.Some(Rotate)
    else if c == 'N' then Decimal.Some(New)
    else Decimal.None
  }

  /** Reads one action's text: a letter, then for every kind but N one or
      two digits. */
  function ParseAction(t: string): Decimal.Option<Action>
  {
    if |t| == 0 || KindOf(t[0]).None? then Decimal.None
    else
      var k := KindOf(t[0]).value;
      var digits := t[1..];
      if k == New then (if |digits| == 0 then Decimal.Some(Action(New, 0)) else Decimal.None)
      else if 1 <= |digits| <= 2 && Decimal.AllDigits(digits) then
        TwoDigitsBelow100(digits);
        Decimal.Some(Action(k, Decimal.DigitsValue(digits)))
      else Decimal.None
  }

  lemma TwoDigitsBelow100(digits: string)
    requires |digits| <= 2 && Decimal.AllDigits(digits)
    ensures Decimal.DigitsValue(digits) < 100
  {
    if |digits| > 0 {
      var p := digits[..|digits| - 1];
      assert Decimal.AllDigits(p);
      if |p| > 0 {
        assert p[..0] == [];
      }
    }
  }

  /** Reads each comma-separated piece. */
  function ParseAll(parts: seq<string>): Decimal.Option<seq<Action>>
  {
    if |parts| == 0 then Decimal.Some([])
    else
      match (ParseAction(parts[0]), ParseAll(parts[1..]))
      case (Some(a), Some(rest)) => Decimal.Some([a] + rest)
      case _ => Decimal.None
  }

  /** Reads a whole move list. */
  function ParseActions(s: string): Decimal.Option<seq<Action>>
  {
    if s == "" then Decimal.Some([]) else ParseAll(Decimal.Split(s, ','))
  }

  /** An action the text can represent: an amount below 100, and none on N. */
  predicate Printable(a: Action)
  {
    a.amount < 100 && (a.kind == New ==> a.amount == 0)
  }

  lemma ParseText(a: Action)
    requires Printable(a)
    ensures ParseAction(Text(a)) == Decimal.Some(a)
  {
    var t := Text(a);
    assert t[0] == KindChar(a.kind);
    if a.kind != New {
      var d := t[1..];
      assert d == AmountText(a.amount);
      if a.amount < 10 {
        assert Decimal.DigitsValue(d) == 10 * Decimal.DigitsValue(d[..0]) + a.amount;
      } else {
        assert d[..1] == [('0' as int + a.amount / 10) as char];
        assert Decimal.DigitsValue(d[..1]) == 10 * Decimal.DigitsValue(d[..0]) + a.amount / 10;
      }
    }
  }

  lemma {:induction false} ParseTexts(actions: seq<Action>)
    requires forall i :: 0 <= i < |actions| ==> Printable(actions[i])
    ensures ParseAll(Texts(actions)) == Decimal.Some(actions)
  {
    if |actions| > 0 {
      ParseText(actions[0]);
      assert Texts(actions)[1..] == Texts(actions[1..]);
      ParseTexts(actions[1..]);
      assert [actions[0]] + actions[1..] == actions;
    }
  }

  lemma NoCommaInText(a: Action)
    ensures ',' !in Text(a)
  {
  }

  /** Reading back the text of a merged list whose actions are printable
      gives the merged list. */
  lemma JoinRoundTrip(actions: seq<Action>)
    requires forall i :: 0 <= i < |Merge(actions)| ==> Printable(Merge(actions)[i])
    ensures ParseActions(JoinedText(Merge(actions))) == Decimal.Some(Merge(actions))
  {
    var m := Merge(actions);
    ParseTexts(m);
    if |m| > 0 {
      forall k | 0 <= k < |m| ensures ',' !in Texts(m)[k] {
        NoCommaInText(m[k]);
      }
      Decimal.SplitJoin(Texts(m), ',');
      assert Texts(m)[0] == Text(m[0]) && |Text(m[0])| >= 1;
      JoinNonEmpty(Texts(m));
    }
  }

  lemma JoinNonEmpty(parts: seq<string>)
    requires |parts| >= 1 && |parts[0]| >= 1
    ensures Decimal.Join(parts, ',') != ""
  {
  }
}
