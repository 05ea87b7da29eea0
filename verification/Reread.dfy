// The silver job over a log that repeats itself: records emitted again by the connector, or read again
// into bronze after a lost checkpoint.
module Reread {
  import opened Basics
  import opened Cdc
  import opened Merge
  import opened BatchSemantics
  import opened SilverJob
  import opened Replay

  // The record is a change of payment k.
  predicate IsOf(r: Record, k: int) {
    RouteOf(r).Processable? && Project(r).paymentId == Some(k)
  }

  // To payment k the two records are the same, wherever they stand in Kafka.
  predicate SameFor(r: Record, b: Record, k: int) {
    IsOf(r, k) == IsOf(b, k) && (IsOf(r, k) ==> Content(Project(r)) == Content(Project(b)))
  }

  // A log record is the base record at a position, or none of payment k's business.
  datatype Move = Skip | Take(at: nat)

  // Where in the base the log stands after n records.
  function Reached(moves: seq<Move>, n: nat): nat
    requires n <= |moves|
  {
    if n == 0 then 0
    else if moves[n - 1].Take? then moves[n - 1].at + 1
    else Reached(moves, n - 1)
  }

  ghost predicate Legal(base: seq<Record>, moves: seq<Move>, i: nat)
    requires i < |moves|
  {
    moves[i].Take? ==> moves[i].at < |base| && moves[i].at <= Reached(moves, i)
  }

  // The log is made from the base by appending its next record and by starting again from any earlier
  // position, any number of times; other payments' records may lie anywhere between.
  ghost predicate Rereads(log: seq<Record>, base: seq<Record>, moves: seq<Move>, k: int) {
    && |log| <= |moves|
    && forall i :: 0 <= i < |log| ==>
         && Legal(base, moves, i)
         && (if moves[i].Take? then SameFor(log[i], base[moves[i].at], k) else !IsOf(log[i], k))
  }

  lemma {:induction false} ReachedInBase(base: seq<Record>, moves: seq<Move>, n: nat)
    requires n <= |moves| && forall i :: 0 <= i < n ==> Legal(base, moves, i)
    ensures Reached(moves, n) <= |base|
  {
    if n > 0 {
      ReachedInBase(base, moves, n - 1);
      assert Legal(base, moves, n - 1);
    }
  }

  // Moving up goes one at a time, so whatever lies between two positions was taken on the way.
  lemma {:induction false} PathCovers(base: seq<Record>, moves: seq<Move>, i: nat, j: nat, y: nat)
    requires i <= j <= |moves| && (forall t :: i <= t < j ==> Legal(base, moves, t))
    requires Reached(moves, i) <= y < Reached(moves, j)
    ensures exists t :: i <= t < j && moves[t] == Take(y)
  {
    assert j > i;
    assert Legal(base, moves, j - 1);
    if moves[j - 1] != Take(y) {
      PathCovers(base, moves, i, j - 1, y);
    }
  }

  /******* What a batch comes down to *******/

  ghost predicate TakesOf(base: seq<Record>, moves: seq<Move>, i: nat, k: int) {
    i < |moves| && moves[i].Take? && moves[i].at < |base| && IsOf(base[moves[i].at], k)
  }

  // Record i of the batch [c, b) is at the highest position of payment k in it, and is what w says.
  ghost predicate IsHighest(base: seq<Record>, moves: seq<Move>, c: nat, b: nat, k: int, w: Change, i: nat) {
    && c <= i < b && TakesOf(base, moves, i, k) && Content(w) == Content(Project(base[moves[i].at]))
    && forall j :: c <= j < b && TakesOf(base, moves, j, k) ==> moves[j].at <= moves[i].at
  }

  lemma BaseAscends(base: seq<Record>, p: nat, q: nat, k: int)
    requires Sequenced(base) && p < q < |base| && IsOf(base[p], k) && IsOf(base[q], k)
    ensures Before(Project(base[p]), Project(base[q]))
  {
    assert Last(base, p + 1, q + 1, k) == Some(Project(base[q])) by {
      OneChange(base, q, k);
      LastSplits(base, p + 1, q, q + 1, k);
    }
    assert Last(base, p, p + 1, k) == Some(Project(base[p])) by {
      OneChange(base, p, k);
    }
    LastSplits(base, p, p + 1, q + 1, k);
  }

  lemma OneChange(base: seq<Record>, p: nat, k: int)
    requires p < |base| && IsOf(base[p], k)
    ensures Last(base, p, p + 1, k) == Some(Project(base[p]))
  {
    assert base[p..p + 1] == [] + [base[p]];
    WinnerGrows([], base[p], k);
  }

  // Ranks of two changes whose contents stand at base positions.
  lemma RankByPosition(base: seq<Record>, p: nat, q: nat, k: int, a: Change, b: Change)
    requires Sequenced(base) && p < |base| && q < |base| && IsOf(base[p], k) && IsOf(base[q], k)
    requires Content(a) == Content(Project(base[p])) && Content(b) == Content(Project(base[q]))
    ensures p < q ==> Outranks(b, a) && !Outranks(a, b)
  {
    if p < q {
      BaseAscends(base, p, q, k);
      assert a.lsn == Content(a).lsn == Project(base[p]).lsn && b.lsn == Content(b).lsn == Project(base[q]).lsn;
    }
  }

  ghost predicate HighestIs(base: seq<Record>, moves: seq<Move>, c: nat, b: nat, k: int, w: Option<Change>)
    requires b <= |moves|
  {
    if w.None? then forall i :: c <= i < b ==> !TakesOf(base, moves, i, k)
    else exists i: nat :: IsHighest(base, moves, c, b, k, w.value, i)
  }

  // One record more: of another payment, or a change at some position.
  lemma HighestStays(base: seq<Record>, moves: seq<Move>, c: nat, b: nat, k: int, w: Option<Change>)
    requires c <= b < |moves| && HighestIs(base, moves, c, b, k, w) && !TakesOf(base, moves, b, k)
    ensures HighestIs(base, moves, c, b + 1, k, w)
  {
    if w.Some? {
      var i: nat :| IsHighest(base, moves, c, b, k, w.value, i);
      assert IsHighest(base, moves, c, b + 1, k, w.value, i);
    }
  }

  lemma HighestGrows(base: seq<Record>, moves: seq<Move>, c: nat, b: nat, k: int, w: Option<Change>, d: Change)
    requires Sequenced(base) && c <= b < |moves| && HighestIs(base, moves, c, b, k, w)
    requires TakesOf(base, moves, b, k) && Content(d) == Content(Project(base[moves[b].at]))
    ensures HighestIs(base, moves, c, b + 1, k, if w.None? || Outranks(d, w.value) then Some(d) else w)
  {
    if w.None? {
      assert IsHighest(base, moves, c, b + 1, k, d, b);
    } else {
      var i: nat :| IsHighest(base, moves, c, b, k, w.value, i);
      var p, q := moves[i].at, moves[b].at;
      RankByPosition(base, p, q, k, w.value, d);
      RankByPosition(base, q, p, k, d, w.value);
      if Outranks(d, w.value) {
        assert IsHighest(base, moves, c, b + 1, k, d, b);
      } else {
        assert IsHighest(base, moves, c, b + 1, k, w.value, i);
      }
    }
  }

  lemma LastGrows(log: seq<Record>, c: nat, b: nat, k: int)
    requires c <= b < |log|
    ensures var w, r := Last(log, c, b, k), log[b];
            Last(log, c, b + 1, k) == if IsOf(r, k) && (w.None? || Outranks(Project(r), w.value)) then Some(Project(r)) else w
  {
    assert log[c..b + 1] == log[c..b] + [log[b]];
    WinnerGrows(log[c..b], log[b], k);
  }

  lemma BatchWinnerStep(log: seq<Record>, base: seq<Record>, moves: seq<Move>, k: int, c: nat, b: nat)
    requires Sequenced(base) && Rereads(log, base, moves, k) && c <= b < |log|
    requires HighestIs(base, moves, c, b, k, Last(log, c, b, k))
    ensures HighestIs(base, moves, c, b + 1, k, Last(log, c, b + 1, k))
  {
    var w := Last(log, c, b, k);
    LastGrows(log, c, b, k);
    assert Legal(base, moves, b) && TakesOf(base, moves, b, k) == IsOf(log[b], k);
    if IsOf(log[b], k) {
      HighestGrows(base, moves, c, b, k, w, Project(log[b]));
    } else {
      HighestStays(base, moves, c, b, k, w);
    }
  }

  lemma {:induction false} BatchWinner(log: seq<Record>, base: seq<Record>, moves: seq<Move>, k: int, c: nat, b: nat)
    requires Sequenced(base) && Rereads(log, base, moves, k) && c <= b <= |log|
    ensures HighestIs(base, moves, c, b, k, Last(log, c, b, k))
    decreases b
  {
    if c < b {
      BatchWinner(log, base, moves, k, c, b - 1);
      BatchWinnerStep(log, base, moves, k, c, b - 1);
    } else {
      assert log[c..b] == [];
    }
  }

  lemma WinnerGrows(init: seq<Record>, r: Record, k: int)
    ensures var w, w' := Winner(Projected(init), Some(k)), Winner(Projected(init + [r]), Some(k));
            w' == if IsOf(r, k) && (w.None? || Outranks(Project(r), w.value)) then Some(Project(r)) else w
  {
    assert (init + [r])[..|init|] == init;
    if RouteOf(r).Processable? {
      var p := Projected(init);
      assert (p + [Project(r)])[..|p|] == p;
    }
  }

  /******* Folds of base prefixes *******/

  function Fold(base: seq<Record>, m: nat, k: int): Option<Row> {
    if m <= |base| then KeyFold(base[..m], k) else KeyFold(base, k)
  }

  lemma {:induction false} FoldStays(base: seq<Record>, m: nat, n: nat, k: int)
    requires m <= n <= |base| && forall y :: m <= y < n ==> !IsOf(base[y], k)
    ensures Fold(base, m, k) == Fold(base, n, k)
    decreases n
  {
    if m < n {
      FoldStays(base, m, n - 1, k);
      assert base[..n][..n - 1] == base[..n - 1];
      var p := Projected(base[..n - 1]);
      if RouteOf(base[n - 1]).Processable? {
        assert (p + [Project(base[n - 1])])[..|p|] == p;
      }
    }
  }

  // A change at position x, applied to the fold of any prefix m: the fold up to x, or nothing new.
  lemma ActOn(base: seq<Record>, m: nat, x: nat, k: int)
    requires Sequenced(base) && m <= |base| && x < |base| && IsOf(base[x], k)
    ensures var row := ApplyChange(Fold(base, m, k), Project(base[x]));
            row == Fold(base, x + 1, k) || (x < m && row == Fold(base, m, k))
  {
    KeyFoldIsLast(base, m, k);
    KeyFoldIsLast(base, x + 1, k);
    OneChange(base, x, k);
    LastSplits(base, 0, x, x + 1, k);
    if m <= x {
      LastSplits(base, 0, m, x, k);
      if Last(base, 0, m, k).Some? {
        LastSplits(base, 0, m, x + 1, k);
        LastSplits(base, m, x, x + 1, k);
        NewerErasesOlder(None, Last(base, 0, m, k).value, Project(base[x]));
      }
    } else {
      LastSplits(base, 0, x + 1, m, k);
    }
  }

  lemma ContentActs(state: Option<Row>, c: Change, d: Change)
    requires Content(c) == Content(d)
    ensures ApplyChange(state, c) == ApplyChange(state, d)
  {
    assert c.op == Content(c).op && RowOf(c) == RowOf(Content(c)) && RowOf(d) == RowOf(Content(d));
  }

  /******* One batch *******/

  // Nothing of payment k lies between position m and where the log stands at b, because the way there
  // from i leads over it and found nothing above x.
  lemma NothingAbove(log: seq<Record>, base: seq<Record>, moves: seq<Move>, k: int, i: nat, b: nat, m: nat)
    requires Rereads(log, base, moves, k) && i <= b <= |log| && Reached(moves, i) <= m <= Reached(moves, b)
    requires forall j :: i <= j < b && TakesOf(base, moves, j, k) ==> moves[j].at < m
    ensures Reached(moves, b) <= |base| && Fold(base, m, k) == Fold(base, Reached(moves, b), k)
  {
    ReachedInBase(base, moves, b);
    forall y | m <= y < Reached(moves, b) ensures !IsOf(base[y], k) {
      PathCovers(base, moves, i, b, y);
      var t :| i <= t < b && moves[t] == Take(y);
      assert TakesOf(base, moves, t, k) == IsOf(base[y], k);
    }
    FoldStays(base, m, Reached(moves, b), k);
  }

  // The batch leaves the row alone: it is still the fold up to m, and if the log then stands past m there
  // was nothing of the payment on the way.
  lemma UnchangedSettles(log: seq<Record>, base: seq<Record>, moves: seq<Move>, k: int, b: nat, e: nat, j: nat)
    returns (e': nat, j': nat)
    requires Rereads(log, base, moves, k) && b <= |log| && e <= |log| && j <= |log| && Reached(moves, e) <= Reached(moves, j)
    requires forall i :: e <= i < b && TakesOf(base, moves, i, k) ==> moves[i].at < Reached(moves, j)
    ensures b <= e' <= Max(e, b) && j' <= Max(j, b) && Reached(moves, e') <= Reached(moves, j')
    ensures Fold(base, Reached(moves, j), k) == Fold(base, Reached(moves, j'), k)
  {
    if e >= b {
      e', j' := e, j;
    } else if Reached(moves, j) >= Reached(moves, b) {
      e', j' := b, j;
    } else {
      e', j' := b, b;
      NothingAbove(log, base, moves, k, e, b, Reached(moves, j));
    }
  }

  // The batch's highest change, taken at i, decides the row.
  lemma DecidedSettles(log: seq<Record>, base: seq<Record>, moves: seq<Move>, k: int, b: nat, i: nat)
    returns (j': nat)
    requires Rereads(log, base, moves, k) && i < b <= |log| && moves[i].Take?
    requires forall t :: i < t < b && TakesOf(base, moves, t, k) ==> moves[t].at <= moves[i].at
    ensures j' <= b && Reached(moves, b) <= Reached(moves, j')
    ensures Fold(base, moves[i].at + 1, k) == Fold(base, Reached(moves, j'), k)
  {
    if moves[i].at + 1 >= Reached(moves, b) {
      j' := i + 1;
    } else {
      j' := b;
      NothingAbove(log, base, moves, k, i + 1, b, moves[i].at + 1);
    }
  }

  // The batch [c, b) acts on a row that is the fold up to where the log stood at j, at or past where it
  // stands at e. Afterwards the same holds of some j' and of some e' that is at or past b.
  lemma BatchSettles(log: seq<Record>, base: seq<Record>, moves: seq<Move>, k: int, c: nat, b: nat, e: nat, j: nat)
    returns (e': nat, j': nat)
    requires Sequenced(base) && Rereads(log, base, moves, k)
    requires c <= b <= |log| && c <= e <= |log| && j <= |log| && Reached(moves, e) <= Reached(moves, j)
    ensures b <= e' <= Max(e, b) && j' <= Max(j, b) && Reached(moves, e') <= Reached(moves, j')
    ensures Applied(Fold(base, Reached(moves, j), k), Last(log, c, b, k)) == Fold(base, Reached(moves, j'), k)
  {
    var m, w := Reached(moves, j), Last(log, c, b, k);
    BatchWinner(log, base, moves, k, c, b);
    if w.None? {
      e', j' := UnchangedSettles(log, base, moves, k, b, e, j);
    } else {
      var i: nat :| IsHighest(base, moves, c, b, k, w.value, i);
      var x := moves[i].at;
      ReachedInBase(base, moves, j);
      ContentActs(Fold(base, m, k), w.value, Project(base[x]));
      ActOn(base, m, x, k);
      if ApplyChange(Fold(base, m, k), w.value) == Fold(base, x + 1, k) {
        e' := b;
        j' := DecidedSettles(log, base, moves, k, b, i);
      } else {
        e', j' := UnchangedSettles(log, base, moves, k, b, e, j);
      }
    }
  }

  /******* Runs *******/

  ghost predicate IsAt(s: State, base: seq<Record>, moves: seq<Move>, k: int, e: nat, j: nat) {
    && |s.log| <= |moves| && s.cursor <= e <= s.high <= |s.log| && j <= s.high
    && Reached(moves, e) <= Reached(moves, j)
    && Lookup(s.silver, k) == Fold(base, Reached(moves, j), k)
  }

  // The payment's row is the fold of a base prefix some delivered part of the log reached, at or past
  // where the log stands at some point from the cursor to the furthest delivered. After a rewind that
  // point may lie ahead of the cursor.
  ghost predicate Settled(s: State, base: seq<Record>, moves: seq<Move>, k: int) {
    exists e: nat, j: nat :: IsAt(s, base, moves, k, e, j)
  }

  lemma BatchKeepsSettled(s: State, n: nat, t: State, base: seq<Record>, moves: seq<Move>, k: int)
    requires Sequenced(base) && Rereads(s.log, base, moves, k) && Valid(s) && Settled(s, base, moves, k)
    requires s.cursor + n <= |s.log| && t.log == s.log && t.cursor <= s.cursor + n && t.high == Max(s.high, s.cursor + n)
    requires Lookup(t.silver, k) == Applied(Lookup(s.silver, k), Last(s.log, s.cursor, s.cursor + n, k))
    ensures Settled(t, base, moves, k)
  {
    var e: nat, j: nat :| IsAt(s, base, moves, k, e, j);
    var e', j' := BatchSettles(s.log, base, moves, k, s.cursor, s.cursor + n, e, j);
    assert IsAt(t, base, moves, k, e', j');
  }

  // Appending to the log, rewinding, and steps that are refused.
  lemma IdleKeepsSettled(s: State, t: State, base: seq<Record>, moves: seq<Move>, k: int)
    requires Settled(s, base, moves, k) && |s.log| <= |t.log| <= |moves|
    requires t.cursor <= s.cursor && t.high == s.high && t.silver == s.silver
    ensures Settled(t, base, moves, k)
  {
    var e: nat, j: nat :| IsAt(s, base, moves, k, e, j);
    assert IsAt(t, base, moves, k, e, j);
  }

  lemma PassKeepsSettled(s: State, n: nat, cursor: nat, base: seq<Record>, moves: seq<Move>, k: int)
    requires Sequenced(base) && Rereads(s.log, base, moves, k) && Valid(s) && UniqueIds(s.silver)
    requires Settled(s, base, moves, k) && Passes(s, n) && cursor <= s.cursor + n
    ensures Settled(Merged(s, n).(cursor := cursor), base, moves, k)
  {
    PassedBatchActs(s, n, k);
    BatchKeepsSettled(s, n, Merged(s, n).(cursor := cursor), base, moves, k);
  }

  lemma DeliverKeepsSettled(s: State, n: nat, base: seq<Record>, moves: seq<Move>, k: int)
    requires Sequenced(base) && Rereads(s.log, base, moves, k) && Valid(s) && UniqueIds(s.silver)
    requires Settled(s, base, moves, k)
    ensures Settled(Next(s, Deliver(n)), base, moves, k)
  {
    if Passes(s, n) {
      PassKeepsSettled(s, n, s.cursor + n, base, moves, k);
    } else {
      assert Next(s, Deliver(n)) == s;
    }
  }

  lemma CrashKeepsSettled(s: State, n: nat, base: seq<Record>, moves: seq<Move>, k: int)
    requires Sequenced(base) && Rereads(s.log, base, moves, k) && Valid(s) && UniqueIds(s.silver)
    requires Settled(s, base, moves, k)
    ensures Settled(Next(s, Crash(n)), base, moves, k)
  {
    if Passes(s, n) {
      PassKeepsSettled(s, n, s.cursor, base, moves, k);
      assert Merged(s, n).(cursor := s.cursor) == Merged(s, n);
    } else {
      assert Next(s, Crash(n)) == s;
    }
  }

  lemma StepKeepsSettled(s: State, step: Step, base: seq<Record>, moves: seq<Move>, k: int)
    requires Sequenced(base) && Rereads(s.log, base, moves, k) && Valid(s) && UniqueIds(s.silver)
    requires Settled(s, base, moves, k) && |Next(s, step).log| <= |moves|
    ensures Settled(Next(s, step), base, moves, k)
  {
    match step
    case Append(record) => IdleKeepsSettled(s, Next(s, step), base, moves, k);
    case Rewind(to) => IdleKeepsSettled(s, Next(s, step), base, moves, k);
    case Deliver(n) => DeliverKeepsSettled(s, n, base, moves, k);
    case Crash(n) => CrashKeepsSettled(s, n, base, moves, k);
  }

  lemma {:induction false} RunSettles(steps: seq<Step>, base: seq<Record>, moves: seq<Move>, k: int)
    requires Sequenced(base) && Rereads(Run(START, steps).log, base, moves, k)
    ensures Settled(Run(START, steps), base, moves, k)
  {
    if steps == [] {
      assert IsAt(START, base, moves, k, 0, 0);
    } else {
      var init, step := steps[..|steps| - 1], steps[|steps| - 1];
      var s, t := Run(START, init), Run(START, steps);
      assert forall i :: 0 <= i < |s.log| ==> s.log[i] == t.log[i];
      RunSettles(init, base, moves, k);
      RunIsValid(init);
      RunKeepsSilverClean(init);
      StepKeepsSettled(s, step, base, moves, k);
    }
  }

  // In every run over a log that repeats parts of a sequenced base, however often and wherever it is cut,
  // replayed or crashed: when the cursor is at the end of the log and the log has got to the end of the
  // base, the payment's row is the fold of the base. Repeats leave no trace.
  lemma RereadConverges(steps: seq<Step>, base: seq<Record>, moves: seq<Move>, k: int)
    requires Sequenced(base) && Rereads(Run(START, steps).log, base, moves, k)
    ensures var s := Run(START, steps);
            s.cursor == |s.log| && Reached(moves, |s.log|) == |base| ==> Lookup(s.silver, k) == KeyFold(base, k)
  {
    RunSettles(steps, base, moves, k);
    var s := Run(START, steps);
    if s.cursor == |s.log| && Reached(moves, |s.log|) == |base| {
      SettledAtTheEnd(s, base, moves, k);
    }
  }

  lemma ReachedWithin(log: seq<Record>, base: seq<Record>, moves: seq<Move>, k: int, n: nat)
    requires Rereads(log, base, moves, k) && n <= |log|
    ensures Reached(moves, n) <= |base|
  {
    ReachedInBase(base, moves, n);
  }

  lemma SettledAtTheEnd(s: State, base: seq<Record>, moves: seq<Move>, k: int)
    requires Rereads(s.log, base, moves, k) && Settled(s, base, moves, k)
    requires s.cursor == |s.log| && Reached(moves, |s.log|) == |base|
    ensures Lookup(s.silver, k) == KeyFold(base, k)
  {
    var e: nat, j: nat :| IsAt(s, base, moves, k, e, j);
    ReachedWithin(s.log, base, moves, k, j);
    EndsAtBase(s, base, moves, k, e, j);
    WholeFold(base, k);
  }

  lemma EndsAtBase(s: State, base: seq<Record>, moves: seq<Move>, k: int, e: nat, j: nat)
    requires IsAt(s, base, moves, k, e, j) && s.cursor == |s.log| && Reached(moves, |s.log|) == |base| && Reached(moves, j) <= |base|
    ensures Lookup(s.silver, k) == Fold(base, |base|, k)
  {
    assert e == |s.log| && Reached(moves, j) == |base|;
  }

  lemma WholeFold(base: seq<Record>, k: int)
    ensures Fold(base, |base|, k) == KeyFold(base, k)
  {
    assert base[..|base|] == base;
  }
}
