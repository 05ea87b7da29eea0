// Runs of the silver job over a growing bronze log: batches of any size, replays from any
// earlier point, batches that fail, and crashes between the MERGE and the checkpoint.
module Replay {
  import opened Basics
  import opened Cdc
  import opened Merge
  import opened BatchSemantics
  import opened DeadLetters
  import opened SilverJob

  // high is the furthest log position whose records have ever reached silver.
  datatype State = State(log: seq<Record>, silver: seq<Row>, cursor: nat, high: nat)

  const START := State([], [], 0, 0)

  datatype Step =
    | Append(record: Record)  // bronze grows
    | Deliver(n: nat)         // the next n records; the checkpoint moves unless validation fails
    | Crash(n: nat)           // the MERGE commits but the checkpoint does not move
    | Rewind(to: nat)         // the checkpoint is restored to an earlier position

  ghost predicate Valid(s: State) {
    s.cursor <= s.high <= |s.log|
  }

  // The next n records are there and validation does not reject them.
  predicate Passes(s: State, n: nat) {
    s.cursor + n <= |s.log| && !VerdictOn(s.log[s.cursor..s.cursor + n]).Failed?
  }

  // The MERGE of the next n records, before the checkpoint moves.
  function Merged(s: State, n: nat): State
    requires s.cursor + n <= |s.log|
  {
    s.(silver := SilverAfter(s.silver, s.log[s.cursor..s.cursor + n]), high := Max(s.high, s.cursor + n))
  }

  function Next(s: State, step: Step): State {
    match step
    case Append(record) => s.(log := s.log + [record])
    case Deliver(n) => if Passes(s, n) then Merged(s, n).(cursor := s.cursor + n) else s
    case Crash(n) => if Passes(s, n) then Merged(s, n) else s
    case Rewind(to) => if to <= s.cursor then s.(cursor := to) else s
  }

  function Run(s: State, steps: seq<Step>): State {
    if steps == [] then s else Next(Run(s, steps[..|steps| - 1]), steps[|steps| - 1])
  }

  lemma {:induction false} RunIsValid(steps: seq<Step>)
    ensures Valid(Run(START, steps))
  {
    if steps != [] {
      RunIsValid(steps[..|steps| - 1]);
    }
  }

  // Over any run and any log, silver holds one row per payment and only clean rows.
  lemma {:induction false} RunKeepsSilverClean(steps: seq<Step>)
    ensures CleanTable(Run(START, steps).silver)
  {
    if steps != [] {
      var init, step := steps[..|steps| - 1], steps[|steps| - 1];
      var s := Run(START, init);
      RunKeepsSilverClean(init);
      if (step.Deliver? || step.Crash?) && s.cursor + step.n <= |s.log| {
        BatchKeepsSilverClean(s.silver, s.log[s.cursor..s.cursor + step.n]);
      }
    }
  }

  /******* The fold of a log prefix *******/

  // The row a payment has after the whole log, applied one record at a time.
  function KeyFold(log: seq<Record>, k: int): Option<Row> {
    FoldKey(None, Projected(log), k)
  }

  // Per payment, LSNs strictly increase along the log.
  ghost predicate Sequenced(log: seq<Record>) {
    Ascending(Projected(log))
  }

  function Last(log: seq<Record>, i: nat, j: nat, k: int): Option<Change>
    requires i <= j <= |log|
  {
    Winner(Projected(log[i..j]), Some(k))
  }

  lemma PrefixSequenced(log: seq<Record>, j: nat)
    requires j <= |log| && Sequenced(log)
    ensures Sequenced(log[..j]) && Sequenced(log[j..])
  {
    assert log == log[..j] + log[j..];
    ProjectedConcat(log[..j], log[j..]);
    WinnerConcat(Projected(log[..j]), Projected(log[j..]), 0);
  }

  lemma SegmentSequenced(log: seq<Record>, i: nat, j: nat)
    requires i <= j <= |log| && Sequenced(log)
    ensures Sequenced(log[i..j])
  {
    PrefixSequenced(log, j);
    PrefixSequenced(log[..j], i);
    assert log[..j][i..] == log[i..j];
  }

  lemma LastSplits(log: seq<Record>, i: nat, j: nat, l: nat, k: int)
    requires i <= j <= l <= |log| && Sequenced(log)
    ensures Last(log, i, l, k) == if Last(log, j, l, k).Some? then Last(log, j, l, k) else Last(log, i, j, k)
    ensures Last(log, i, j, k).Some? && Last(log, j, l, k).Some? ==>
              Before(Last(log, i, j, k).value, Last(log, j, l, k).value)
  {
    SegmentSequenced(log, i, l);
    assert log[i..l] == log[i..j] + log[j..l];
    ProjectedConcat(log[i..j], log[j..l]);
    WinnerConcat(Projected(log[i..j]), Projected(log[j..l]), k);
  }

  lemma KeyFoldIsLast(log: seq<Record>, j: nat, k: int)
    requires j <= |log| && Sequenced(log)
    ensures KeyFold(log[..j], k) == Applied(None, Last(log, 0, j, k))
  {
    PrefixSequenced(log, j);
    assert log[0..j] == log[..j];
    FoldIsWinner(None, Projected(log[..j]), k);
  }

  // A batch that passes acts on each payment through its last record alone.
  lemma BatchActsByLast(silver: seq<Row>, batch: seq<Record>, k: int)
    requires UniqueIds(silver) && !VerdictOn(batch).Failed?
    ensures Lookup(SilverAfter(silver, batch), k) == Applied(Lookup(silver, k), Winner(Projected(batch), Some(k)))
  {
    DedupSpec(Projected(batch));
    if VerdictOn(batch).Passed? {
      MergeRefines(silver, BuildChanges(batch));
    } else {
      assert ChangeFor(BuildChanges(batch), Some(k)).None?;
    }
  }

  /******* Replay convergence *******/

  ghost predicate IsFoldAt(s: State, k: int, m: nat) {
    s.cursor <= m <= s.high <= |s.log| && Lookup(s.silver, k) == KeyFold(s.log[..m], k)
  }

  // The invariant of the design: each payment is in the state some log prefix gives it, and that
  // prefix reaches at least the cursor and at most the furthest position ever delivered. Different
  // payments may sit at different prefixes.
  ghost predicate Anchored(s: State, k: int) {
    exists m: nat :: IsFoldAt(s, k, m)
  }

  // The heart of it: a row that is the fold of the prefix m is, after the segment [c, b) acts on it,
  // the fold of some prefix of at least b. When m is past b, that is m or, under a later delete
  // that left no row to compare with, b.
  lemma DeliveryAnchors(log: seq<Record>, c: nat, b: nat, m: nat, k: int) returns (m': nat)
    requires Sequenced(log) && c <= m <= |log| && c <= b <= |log|
    ensures b <= m' <= Max(m, b)
    ensures Applied(KeyFold(log[..m], k), Last(log, c, b, k)) == KeyFold(log[..m'], k)
  {
    KeyFoldIsLast(log, m, k);
    KeyFoldIsLast(log, b, k);
    if m <= b {
      LastSplits(log, c, m, b, k);
      LastSplits(log, 0, m, b, k);
      LastSplits(log, 0, c, m, k);
      m' := b;
    } else {
      LastSplits(log, 0, b, m, k);
      LastSplits(log, 0, c, b, k);
      var reinserted := Last(log, c, b, k).Some? && Last(log, b, m, k).Some? && Last(log, b, m, k).value.op.Delete?;
      m' := if reinserted then b else m;
    }
  }

  // When replaying a stale segment [c, b) over a payment anchored at m is harmless, exactly: unless
  // the payment's last change before m is a delete and its last one in the segment an upsert.
  lemma StaleReplayIsHarmless(s: State, b: nat, m: nat, k: int)
    requires Valid(s) && Sequenced(s.log) && UniqueIds(s.silver) && IsFoldAt(s, k, m)
    requires s.cursor <= b <= m && !VerdictOn(s.log[s.cursor..b]).Failed?
    ensures Lookup(SilverAfter(s.silver, s.log[s.cursor..b]), k) == Lookup(s.silver, k) <==>
            !(DeletedBy(s.log, m, k) && UpsertedIn(s.log, s.cursor, b, k))
  {
    var log, c := s.log, s.cursor;
    BatchActsByLast(s.silver, log[c..b], k);
    KeyFoldIsLast(log, m, k);
    LastSplits(log, 0, b, m, k);
    LastSplits(log, 0, c, b, k);
  }

  predicate DeletedBy(log: seq<Record>, m: nat, k: int)
    requires m <= |log|
  {
    Last(log, 0, m, k).Some? && Last(log, 0, m, k).value.op.Delete?
  }

  predicate UpsertedIn(log: seq<Record>, c: nat, b: nat, k: int)
    requires c <= b <= |log|
  {
    Last(log, c, b, k).Some? && IsUpsert(Last(log, c, b, k).value.op)
  }

  lemma AppendAnchors(s: State, record: Record, k: int)
    requires Valid(s) && Anchored(s, k)
    ensures Anchored(Next(s, Append(record)), k)
  {
    var m: nat :| IsFoldAt(s, k, m);
    var t := Next(s, Append(record));
    assert t.log[..m] == s.log[..m];
    assert IsFoldAt(t, k, m);
  }

  // A state in which the segment up to b has acted on payment k.
  lemma ActedAnchors(s: State, b: nat, t: State, k: int)
    requires Valid(s) && Sequenced(s.log) && Anchored(s, k) && s.cursor <= b <= |s.log|
    requires t.log == s.log && t.cursor <= b && t.high == Max(s.high, b)
    requires Lookup(t.silver, k) == Applied(Lookup(s.silver, k), Last(s.log, s.cursor, b, k))
    ensures Anchored(t, k)
  {
    var m: nat :| IsFoldAt(s, k, m);
    var m' := DeliveryAnchors(s.log, s.cursor, b, m, k);
    assert IsFoldAt(t, k, m');
  }

  lemma PassedBatchActs(s: State, n: nat, k: int)
    requires UniqueIds(s.silver) && Passes(s, n)
    ensures Lookup(Merged(s, n).silver, k) == Applied(Lookup(s.silver, k), Last(s.log, s.cursor, s.cursor + n, k))
  {
    BatchActsByLast(s.silver, s.log[s.cursor..s.cursor + n], k);
  }

  lemma RewindAnchors(s: State, to: nat, k: int)
    requires Anchored(s, k)
    ensures Anchored(Next(s, Rewind(to)), k)
  {
    var m: nat :| IsFoldAt(s, k, m);
    assert IsFoldAt(Next(s, Rewind(to)), k, m);
  }

  lemma DeliverAnchors(s: State, n: nat, k: int)
    requires Valid(s) && Sequenced(s.log) && UniqueIds(s.silver) && Anchored(s, k)
    ensures Anchored(Next(s, Deliver(n)), k)
  {
    if Passes(s, n) {
      PassedBatchActs(s, n, k);
      ActedAnchors(s, s.cursor + n, Next(s, Deliver(n)), k);
    } else {
      assert Next(s, Deliver(n)) == s;
    }
  }

  lemma CrashAnchors(s: State, n: nat, k: int)
    requires Valid(s) && Sequenced(s.log) && UniqueIds(s.silver) && Anchored(s, k)
    ensures Anchored(Next(s, Crash(n)), k)
  {
    if Passes(s, n) {
      PassedBatchActs(s, n, k);
      ActedAnchors(s, s.cursor + n, Next(s, Crash(n)), k);
    } else {
      assert Next(s, Crash(n)) == s;
    }
  }

  lemma StepAnchors(s: State, step: Step, k: int)
    requires Valid(s) && Sequenced(s.log) && UniqueIds(s.silver) && Anchored(s, k)
    ensures Anchored(Next(s, step), k)
  {
    match step
    case Append(record) => AppendAnchors(s, record, k);
    case Rewind(to) => RewindAnchors(s, to, k);
    case Deliver(n) => DeliverAnchors(s, n, k);
    case Crash(n) => CrashAnchors(s, n, k);
  }

  lemma {:induction false} RunAnchors(steps: seq<Step>, k: int)
    requires Sequenced(Run(START, steps).log)
    ensures Anchored(Run(START, steps), k)
  {
    if steps == [] {
      assert IsFoldAt(START, k, 0);
    } else {
      var init, step := steps[..|steps| - 1], steps[|steps| - 1];
      var s, t := Run(START, init), Run(START, steps);
      PrefixSequenced(t.log, |s.log|);
      assert t.log[..|s.log|] == s.log;
      RunAnchors(init, k);
      RunIsValid(init);
      RunKeepsSilverClean(init);
      StepAnchors(s, step, k);
    }
  }

  // In every run, each payment's silver row is the fold of some log prefix between the cursor and
  // the furthest point delivered. So whenever the cursor is at the end of the log, silver is the
  // fold of the whole log, whatever batches, replays, failures and crashes led there.
  lemma ReplayConverges(steps: seq<Step>)
    requires Sequenced(Run(START, steps).log)
    ensures UniqueIds(Run(START, steps).silver)
    ensures forall k: int :: Anchored(Run(START, steps), k)
    ensures Run(START, steps).cursor == |Run(START, steps).log| ==>
              forall k: int :: Lookup(Run(START, steps).silver, k) == KeyFold(Run(START, steps).log, k)
  {
    var t := Run(START, steps);
    RunKeepsSilverClean(steps);
    forall k: int ensures Anchored(t, k) && (t.cursor == |t.log| ==> Lookup(t.silver, k) == KeyFold(t.log, k)) {
      RunAnchors(steps, k);
      var m: nat :| IsFoldAt(t, k, m);
      assert t.log[..|t.log|] == t.log;
    }
  }

  lemma TwoRecordLog(create: Record, delete: Record)
    requires RouteOf(create) == Processable(Op.Create) && RouteOf(delete) == Processable(Op.Delete)
    requires Project(delete).paymentId == Project(create).paymentId && Project(create).paymentId.Some?
    requires Before(Project(create), Project(delete))
    ensures Sequenced([create, delete])
    ensures var k := Project(create).paymentId;
            Winner(Projected([create]), k) == Some(Project(create)) &&
            Winner(Projected([create, delete]), k) == Some(Project(delete))
  {
    var both := [create, delete];
    assert both[..1] == [create];
    assert Projected([create]) == [Project(create)];
    assert Projected(both) == [Project(create), Project(delete)];
    assert [Project(create), Project(delete)][..1] == [Project(create)];
  }

  lemma ReplayedPrefix(create: Record, delete: Record, k: int)
    requires RouteOf(create) == Processable(Op.Create) && RouteOf(delete) == Processable(Op.Delete)
    requires CleanRow(RowOf(Project(create)))
    requires Project(delete).paymentId == Project(create).paymentId == Some(k) && Before(Project(create), Project(delete))
    ensures !VerdictOn([create]).Failed? && !VerdictOn([create, delete]).Failed?
    ensures var loaded := SilverAfter([], [create, delete]);
            Lookup(loaded, k) == None && Lookup(SilverAfter(loaded, [create]), k) == Some(RowOf(Project(create)))
    ensures KeyFold([create, delete], k) == None
  {
    var both := [create, delete];
    TwoRecordLog(create, delete);
    NeverFails([create]);
    NeverFails(both);
    BatchActsByLast([], both, k);
    BatchKeepsSilverClean([], both);
    BatchActsByLast(SilverAfter([], both), [create], k);
    FoldIsWinner(None, Projected(both), k);
  }

  // Silver keeps no tombstones and the NOT MATCHED branch has no LSN guard, so replaying a prefix
  // that ends before a delete really does put the deleted row back until the delete is replayed.
  lemma DeletedRowReappears(create: Record, delete: Record, k: int)
    requires RouteOf(create) == Processable(Op.Create) && RouteOf(delete) == Processable(Op.Delete)
    requires CleanRow(RowOf(Project(create)))
    requires Project(delete).paymentId == Project(create).paymentId == Some(k) && Before(Project(create), Project(delete))
    ensures var loaded := Next(Next(Next(START, Append(create)), Append(delete)), Deliver(2));
            var replayed := Next(Next(loaded, Rewind(0)), Deliver(1));
            KeyFold(replayed.log, k) == None &&
            Lookup(loaded.silver, k) == None &&
            Lookup(replayed.silver, k) == Some(RowOf(Project(create)))
  {
    var both := [create, delete];
    assert Next(Next(START, Append(create)), Append(delete)) == State(both, [], 0, 0);
    assert both[0..1] == [create] && both[0..2] == both;
    ReplayedPrefix(create, delete, k);
    var loaded := Next(State(both, [], 0, 0), Deliver(2));
    assert loaded == State(both, SilverAfter([], both), 2, 2);
    assert Next(Next(loaded, Rewind(0)), Deliver(1)).silver == SilverAfter(loaded.silver, [create]);
  }

  // Every upsert on the log would make a clean row.
  ghost predicate CleanLog(log: seq<Record>) {
    forall r :: r in log && RouteOf(r).Processable? && IsUpsert(RouteOf(r).op) ==> CleanRow(RowOf(Project(r)))
  }

  // On such a log no batch, wherever it is cut, fails validation.
  lemma NeverFails(batch: seq<Record>)
    requires CleanLog(batch)
    ensures !VerdictOn(batch).Failed?
  {
    var changes := BuildChanges(batch);
    DedupSpec(Projected(batch));
    RoutingConserves(batch);
    ProjectedAmountsFit(batch);
    UpsertsOfSpec(changes);
    ValidationMeansClean(UpsertsOf(changes));
  }
}
