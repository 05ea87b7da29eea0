// The snapshot control table, the tasks that drive it, and every run of them.
module Completion {
  import opened Basics
  import opened Loading

  // What staging hands to the loader about one run; a missing snapshot type means a full one.
  datatype Staged = Staged(dataset: string, runId: string, runDate: string, snapshotType: Option<string>, parts: int, rows: int)

  datatype RunRow = RunRow(
    dataset: string,
    runId: string,
    runDate: string,
    snapshotType: string,
    expectedParts: int,
    expectedRows: int,
    loadedParts: Option<int>,
    loadedRows: Option<int>,
    stagedAt: int,
    loadedAt: Option<int>,
    completedAt: Option<int>)

  // A windowed extract is a delta; without a proper interval the extract is the whole source.
  function SnapshotTypeOf(start: Option<int>, end: Option<int>): string {
    if start.Some? && end.Some? && start.value < end.value then SNAPSHOT_WINDOW else SNAPSHOT_FULL
  }

  function TypeOf(s: Staged): string {
    if s.snapshotType.Some? then s.snapshotType.value else SNAPSHOT_FULL
  }

  predicate KnownType(t: string) {
    t == SNAPSHOT_FULL || t == SNAPSHOT_WINDOW
  }

  predicate IsRun(r: RunRow, dataset: string, runId: string) {
    r.dataset == dataset && r.runId == runId
  }

  predicate Exists(table: seq<RunRow>, dataset: string, runId: string) {
    exists r :: r in table && IsRun(r, dataset, runId)
  }

  function NewRun(s: Staged, now: int): RunRow {
    RunRow(s.dataset, s.runId, s.runDate, TypeOf(s), s.parts, s.rows, None, None, now, None, None)
  }

  function Restaged(r: RunRow, s: Staged, now: int): RunRow {
    if IsRun(r, s.dataset, s.runId)
    then r.(runDate := s.runDate, snapshotType := TypeOf(s), expectedParts := s.parts, expectedRows := s.rows, stagedAt := now)
    else r
  }

  // The registration MERGE.
  function Registered(table: seq<RunRow>, s: Staged, now: int): seq<RunRow> {
    var updated := seq(|table|, i requires 0 <= i < |table| => Restaged(table[i], s, now));
    if Exists(table, s.dataset, s.runId) then updated else updated + [NewRun(s, now)]
  }

  function Stamped(r: RunRow, dataset: string, runId: string, outcome: CopyOutcome, now: int): RunRow {
    if IsRun(r, dataset, runId) && r.completedAt.None?
    then r.(loadedParts := Some(|outcome.files|), loadedRows := Some(outcome.rowsLoaded), loadedAt := Some(now), completedAt := Some(now))
    else r
  }

  // The completion UPDATE.
  function Completed(table: seq<RunRow>, dataset: string, runId: string, outcome: CopyOutcome, now: int): seq<RunRow> {
    seq(|table|, i requires 0 <= i < |table| => Stamped(table[i], dataset, runId, outcome, now))
  }

  function Verdict(s: Staged, outcome: CopyOutcome): Option<Incomplete> {
    Reconcile(s.parts, s.rows, outcome, TypeOf(s), false)
  }

  /******* The table as one row per run *******/

  ghost predicate UniqueRuns(table: seq<RunRow>) {
    forall i, j :: 0 <= i < j < |table| ==> !IsRun(table[i], table[j].dataset, table[j].runId)
  }

  function FindRun(table: seq<RunRow>, dataset: string, runId: string): Option<RunRow> {
    if table == [] then None
    else if IsRun(table[0], dataset, runId) then Some(table[0])
    else FindRun(table[1..], dataset, runId)
  }

  lemma {:induction false} FindRunSpec(table: seq<RunRow>, dataset: string, runId: string)
    ensures FindRun(table, dataset, runId).Some? <==> Exists(table, dataset, runId)
    ensures var found := FindRun(table, dataset, runId);
            found.Some? ==> found.value in table && IsRun(found.value, dataset, runId)
    ensures UniqueRuns(table) ==> forall r :: r in table && IsRun(r, dataset, runId) ==> FindRun(table, dataset, runId) == Some(r)
  {
    if table != [] {
      FindRunSpec(table[1..], dataset, runId);
      assert table == [table[0]] + table[1..];
    }
  }

  // The row carries what was staged.
  predicate Matches(r: RunRow, s: Staged) {
    IsRun(r, s.dataset, s.runId) && r.runDate == s.runDate && r.snapshotType == TypeOf(s) &&
    r.expectedParts == s.parts && r.expectedRows == s.rows
  }

  predicate SameStamp(r: RunRow, q: RunRow) {
    r.loadedParts == q.loadedParts && r.loadedRows == q.loadedRows && r.loadedAt == q.loadedAt && r.completedAt == q.completedAt
  }

  predicate Open(r: RunRow) {
    r.loadedParts.None? && r.loadedRows.None? && r.loadedAt.None? && r.completedAt.None?
  }

  // There is a row for the run, it carries the given facts and the time, and what an earlier load stamped
  // on it stays; every other run is as it was.
  ghost predicate Refreshed(before: seq<RunRow>, after: seq<RunRow>, s: Staged, now: int) {
    var was, row := FindRun(before, s.dataset, s.runId), FindRun(after, s.dataset, s.runId);
    && row.Some? && Matches(row.value, s) && row.value.stagedAt == now
    && (if was.Some? then SameStamp(row.value, was.value) else Open(row.value))
    && forall d: string, id: string :: (d, id) != (s.dataset, s.runId) ==> FindRun(after, d, id) == FindRun(before, d, id)
  }

  lemma RegisteredSpec(table: seq<RunRow>, s: Staged, now: int)
    requires UniqueRuns(table)
    ensures UniqueRuns(Registered(table, s, now))
    ensures Refreshed(table, Registered(table, s, now), s, now)
    ensures |Registered(table, s, now)| == if Exists(table, s.dataset, s.runId) then |table| else |table| + 1
  {
    var table' := Registered(table, s, now);
    forall i, j | 0 <= i < j < |table'| ensures !IsRun(table'[i], table'[j].dataset, table'[j].runId) {
      if j == |table| {
        assert table[i] in table;
      }
    }
    forall d: string, id: string
      ensures FindRun(table', d, id) ==
              if FindRun(table, d, id).Some? then Some(Restaged(FindRun(table, d, id).value, s, now))
              else if (d, id) == (s.dataset, s.runId) then Some(NewRun(s, now)) else None
    {
      RegisteredAt(table, s, now, d, id);
    }
    FindRunSpec(table, s.dataset, s.runId);
    assert forall d: string, id: string :: FindRun(table, d, id).Some? ==> IsRun(FindRun(table, d, id).value, d, id) by {
      forall d: string, id: string { FindRunSpec(table, d, id); }
    }
  }

  lemma RegisteredAt(table: seq<RunRow>, s: Staged, now: int, d: string, id: string)
    requires UniqueRuns(table) && UniqueRuns(Registered(table, s, now))
    ensures FindRun(Registered(table, s, now), d, id) ==
            if FindRun(table, d, id).Some? then Some(Restaged(FindRun(table, d, id).value, s, now))
            else if (d, id) == (s.dataset, s.runId) then Some(NewRun(s, now)) else None
  {
    var table' := Registered(table, s, now);
    FindRunSpec(table, d, id);
    FindRunSpec(table', d, id);
    if FindRun(table, d, id).Some? {
      var i :| 0 <= i < |table| && table[i] == FindRun(table, d, id).value;
      assert table'[i] in table';
    } else {
      assert forall i :: 0 <= i < |table| ==> table[i] in table;
      if (d, id) == (s.dataset, s.runId) {
        assert table'[|table|] in table';
      }
    }
  }

  // Only the open row of this very run is stamped.
  lemma CompletedSpec(table: seq<RunRow>, dataset: string, runId: string, outcome: CopyOutcome, now: int)
    requires UniqueRuns(table)
    ensures UniqueRuns(Completed(table, dataset, runId, outcome, now))
    ensures forall d: string, id: string ::
              FindRun(Completed(table, dataset, runId, outcome, now), d, id) ==
              (if FindRun(table, d, id).Some? then Some(Stamped(FindRun(table, d, id).value, dataset, runId, outcome, now)) else None)
  {
    var table' := Completed(table, dataset, runId, outcome, now);
    forall d: string, id: string
      ensures FindRun(table', d, id) ==
              (if FindRun(table, d, id).Some? then Some(Stamped(FindRun(table, d, id).value, dataset, runId, outcome, now)) else None)
    {
      FindRunSpec(table, d, id);
      FindRunSpec(table', d, id);
      if FindRun(table, d, id).Some? {
        var i :| 0 <= i < |table| && table[i] == FindRun(table, d, id).value;
        assert table'[i] in table';
      } else {
        assert forall i :: 0 <= i < |table| ==> table[i] in table;
      }
    }
  }

  // Row by row: the open row of the run keeps its facts and gets its counts and times, and every other
  // row, an already completed one of the run included, is as it was.
  ghost predicate OnlyOpenRowStamped(before: seq<RunRow>, after: seq<RunRow>, dataset: string, runId: string,
                                     outcome: CopyOutcome, now: int)
  {
    && |after| == |before|
    && forall i :: 0 <= i < |before| ==>
         if IsRun(before[i], dataset, runId) && before[i].completedAt.None?
         then && Matches(after[i], FactsOf(before[i])) && after[i].stagedAt == before[i].stagedAt
              && after[i].loadedParts == Some(|outcome.files|) && after[i].loadedRows == Some(outcome.rowsLoaded)
              && after[i].loadedAt == after[i].completedAt == Some(now)
         else after[i] == before[i]
  }

  /******* Steps *******/

  // One statement, and the time that passes before it. A task is a sequence of them, one that fails
  // or is retried a prefix or a repeat.
  datatype Step =
    | Register(s: Staged, wait: nat)
    | Validate(s: Staged, outcome: CopyOutcome, wait: nat)

  datatype State = State(table: seq<RunRow>, now: int)

  function Next(st: State, step: Step): State {
    var now := st.now + step.wait;
    match step
    case Register(s, _) => State(if KnownType(TypeOf(s)) then Registered(st.table, s, now) else st.table, now)
    case Validate(s, outcome, _) =>
      State(if Verdict(s, outcome).None? then Completed(st.table, s.dataset, s.runId, outcome, now) else st.table, now)
  }

  function RunFrom(st: State, steps: seq<Step>): State {
    if steps == [] then st else Next(RunFrom(st, steps[..|steps| - 1]), steps[|steps| - 1])
  }

  function Run(steps: seq<Step>): State {
    RunFrom(State([], 0), steps)
  }

  /******* The tasks *******/

  function FirstUnknown(rows: seq<Staged>): (n: nat)
    ensures n <= |rows| && (n < |rows| ==> !KnownType(TypeOf(rows[n])))
    ensures forall i :: 0 <= i < n ==> KnownType(TypeOf(rows[i]))
  {
    if rows == [] || !KnownType(TypeOf(rows[0])) then 0 else 1 + FirstUnknown(rows[1..])
  }

  // Runs are completed in order until one does not reconcile.
  function FirstFailure(rows: seq<Staged>, outcomes: seq<CopyOutcome>): (n: nat)
    requires |rows| == |outcomes|
    ensures n <= |rows| && (n < |rows| ==> Verdict(rows[n], outcomes[n]).Some?)
    ensures forall i :: 0 <= i < n ==> Verdict(rows[i], outcomes[i]).None?
  {
    if rows == [] || Verdict(rows[0], outcomes[0]).Some? then 0 else 1 + FirstFailure(rows[1..], outcomes[1..])
  }

  lemma FailureAt(rows: seq<Staged>, outcomes: seq<CopyOutcome>, i: nat)
    requires |rows| == |outcomes| && i < |rows| && i <= FirstFailure(rows, outcomes)
    ensures FirstFailure(rows, outcomes) == i <==> Verdict(rows[i], outcomes[i]).Some?
  {
  }

  function Registrations(rows: seq<Staged>, waits: seq<nat>, n: nat): seq<Step>
    requires n <= |rows| == |waits|
  {
    seq(n, i requires 0 <= i < n => Register(rows[i], waits[i]))
  }

  function Validations(rows: seq<Staged>, outcomes: seq<CopyOutcome>, waits: seq<nat>, n: nat): seq<Step>
    requires n <= |rows| == |outcomes| == |waits|
  {
    seq(n, i requires 0 <= i < n => Validate(rows[i], outcomes[i], waits[i]))
  }

  lemma RunOneMore(st: State, steps: seq<Step>, step: Step)
    ensures RunFrom(st, steps + [step]) == Next(RunFrom(st, steps), step)
  {
    assert (steps + [step])[..|steps|] == steps;
  }

  class ControlTable {
    var runs: seq<RunRow>
    var clock: int

    ghost function Now(): State
      reads this
    {
      State(runs, clock)
    }

    constructor ()
      ensures Now() == Run([])
    {
      runs := [];
      clock := 0;
    }

    method RegisterSnapshotRun(s: Staged, wait: nat) returns (accepted: bool)
      modifies this
      ensures accepted <==> s.snapshotType in {None, Some("full"), Some("window")}
      ensures Now() == Next(old(Now()), Register(s, wait))
      ensures !accepted ==> runs == old(runs)
      ensures accepted && UniqueRuns(old(runs)) ==> UniqueRuns(runs) && Refreshed(old(runs), runs, s, clock)
    {
      clock := clock + wait;
      if !KnownType(TypeOf(s)) {
        return false;
      }
      if UniqueRuns(runs) {
        RegisteredSpec(runs, s, clock);
      }
      runs := Registered(runs, s, clock);
      return true;
    }

    // The open row of the run gets its counts and times; every other row, and one already completed,
    // stays as it is.
    method CompleteSnapshotRun(dataset: string, runId: string, outcome: CopyOutcome, wait: nat)
      modifies this
      ensures clock == old(clock) + wait && OnlyOpenRowStamped(old(runs), runs, dataset, runId, outcome, clock)
      ensures runs == Completed(old(runs), dataset, runId, outcome, clock)
    {
      clock := clock + wait;
      runs := Completed(runs, dataset, runId, outcome, clock);
    }

    // A run of registrations, up to the first snapshot type the table does not know.
    method RegisterRuns(rows: seq<Staged>, waits: seq<nat>) returns (registered: nat)
      requires |waits| == |rows|
      modifies this
      ensures registered == FirstUnknown(rows)
      ensures runs == RunFrom(old(Now()), Registrations(rows, waits, registered)).table
    {
      ghost var st := Now();
      registered := 0;
      while registered < |rows|
        invariant 0 <= registered <= FirstUnknown(rows)
        invariant Now() == RunFrom(st, Registrations(rows, waits, registered))
      {
        RegistrationsStep(st, rows, waits, registered);
        var accepted := RegisterSnapshotRun(rows[registered], waits[registered]);
        if !accepted {
          return;
        }
        registered := registered + 1;
      }
    }

    // A run of completions, up to the first run that does not reconcile, which is reported.
    // outcomes[i] is the load history read back for rows[i].
    method ValidateSnapshotLoad(rows: seq<Staged>, outcomes: seq<CopyOutcome>, waits: seq<nat>) returns (failure: Option<Incomplete>)
      requires |rows| == |outcomes| == |waits|
      modifies this
      ensures Now() == RunFrom(old(Now()), Validations(rows, outcomes, waits, FirstFailure(rows, outcomes)))
      ensures var n := FirstFailure(rows, outcomes);
              failure == if n < |rows| then Verdict(rows[n], outcomes[n]) else None
    {
      ghost var st, n := Now(), FirstFailure(rows, outcomes);
      for i := 0 to |rows|
        invariant i <= n
        invariant Now() == RunFrom(st, Validations(rows, outcomes, waits, i))
      {
        FailureAt(rows, outcomes, i);
        var verdict := Verdict(rows[i], outcomes[i]);
        if verdict.Some? {
          return verdict;
        }
        ValidationsStep(st, rows, outcomes, waits, i);
        CompleteSnapshotRun(rows[i].dataset, rows[i].runId, outcomes[i], waits[i]);
      }
      return None;
    }
  }

  lemma RegistrationsStep(st: State, rows: seq<Staged>, waits: seq<nat>, n: nat)
    requires n < |rows| == |waits|
    ensures RunFrom(st, Registrations(rows, waits, n + 1)) ==
            Next(RunFrom(st, Registrations(rows, waits, n)), Register(rows[n], waits[n]))
  {
    var steps := Registrations(rows, waits, n);
    RunOneMore(st, steps, Register(rows[n], waits[n]));
    assert Registrations(rows, waits, n + 1) == steps + [Register(rows[n], waits[n])];
  }

  lemma ValidationsStep(st: State, rows: seq<Staged>, outcomes: seq<CopyOutcome>, waits: seq<nat>, n: nat)
    requires n < |rows| == |outcomes| == |waits| && Verdict(rows[n], outcomes[n]).None?
    ensures var before := RunFrom(st, Validations(rows, outcomes, waits, n));
            var now := before.now + waits[n];
            RunFrom(st, Validations(rows, outcomes, waits, n + 1)) ==
            State(Completed(before.table, rows[n].dataset, rows[n].runId, outcomes[n], now), now)
  {
    var steps, step := Validations(rows, outcomes, waits, n), Validate(rows[n], outcomes[n], waits[n]);
    assert Validations(rows, outcomes, waits, n + 1) == steps + [step];
    RunOneMore(st, steps, step);
    ReconciledStep(RunFrom(st, steps), rows[n], outcomes[n], waits[n]);
  }

  lemma ReconciledStep(st: State, s: Staged, outcome: CopyOutcome, wait: nat)
    requires Verdict(s, outcome).None?
    ensures Next(st, Validate(s, outcome, wait)) ==
            State(Completed(st.table, s.dataset, s.runId, outcome, st.now + wait), st.now + wait)
  {
  }

  // The facts a row shows.
  function FactsOf(r: RunRow): Staged {
    Staged(r.dataset, r.runId, r.runDate, Some(r.snapshotType), r.expectedParts, r.expectedRows)
  }

  /******* What a run of steps leaves of one snapshot run *******/

  predicate About(step: Step, dataset: string, runId: string) {
    step.s.dataset == dataset && step.s.runId == runId
  }

  // The last accepted registration.
  function LastRegistration(steps: seq<Step>, dataset: string, runId: string): Option<Staged> {
    if steps == [] then None
    else
      var step := steps[|steps| - 1];
      if step.Register? && About(step, dataset, runId) && KnownType(TypeOf(step.s)) then Some(step.s)
      else LastRegistration(steps[..|steps| - 1], dataset, runId)
  }

  // The first validation that reconciled the run once it was registered.
  function Completer(steps: seq<Step>, dataset: string, runId: string): (c: Option<nat>)
    ensures c.Some? ==> c.value < |steps| && steps[c.value].Validate? && About(steps[c.value], dataset, runId)
                        && Verdict(steps[c.value].s, steps[c.value].outcome).None?
    ensures c.Some? ==> LastRegistration(steps[..c.value], dataset, runId).Some?
  {
    if steps == [] then None
    else
      var init, step := steps[..|steps| - 1], steps[|steps| - 1];
      var c := Completer(init, dataset, runId);
      if c.Some? then
        assert steps[..c.value] == init[..c.value];
        c
      else if step.Validate? && About(step, dataset, runId) && Verdict(step.s, step.outcome).None?
              && LastRegistration(init, dataset, runId).Some? then Some(|init|)
      else None
  }

  // The row carries the counts step c reconciled and the time it did.
  ghost predicate StampedBy(r: RunRow, steps: seq<Step>, c: nat)
    requires c < |steps| && steps[c].Validate?
  {
    && r.loadedParts == Some(|steps[c].outcome.files|) && r.loadedRows == Some(steps[c].outcome.rowsLoaded)
    && r.loadedAt == r.completedAt == Some(Run(steps[..c + 1]).now)
  }

  // The table has a row for the run exactly when it was ever registered. The row shows the facts of
  // the last registration, and is stamped by its completer or, without one, open.
  ghost predicate Tells(found: Option<RunRow>, steps: seq<Step>, dataset: string, runId: string) {
    var reg, c := LastRegistration(steps, dataset, runId), Completer(steps, dataset, runId);
    && (found.Some? <==> reg.Some?)
    && (found.Some? ==> Matches(found.value, reg.value) && IsRun(found.value, dataset, runId))
    && (found.Some? ==> if c.Some? then StampedBy(found.value, steps, c.value) else Open(found.value))
  }

  ghost predicate TableTells(table: seq<RunRow>, steps: seq<Step>) {
    UniqueRuns(table) && forall d: string, id: string :: Tells(FindRun(table, d, id), steps, d, id)
  }

  lemma StampStays(r: RunRow, init: seq<Step>, step: Step, c: nat)
    requires c < |init| && init[c].Validate? && StampedBy(r, init, c)
    ensures StampedBy(r, init + [step], c)
  {
    assert (init + [step])[..c + 1] == init[..c + 1];
  }

  lemma HistoryStep(init: seq<Step>, step: Step, d: string, id: string)
    ensures LastRegistration(init + [step], d, id) ==
            if step.Register? && About(step, d, id) && KnownType(TypeOf(step.s)) then Some(step.s) else LastRegistration(init, d, id)
    ensures Completer(init + [step], d, id) ==
            if Completer(init, d, id).Some? then Completer(init, d, id)
            else if step.Validate? && About(step, d, id) && Verdict(step.s, step.outcome).None? && LastRegistration(init, d, id).Some?
            then Some(|init|)
            else None
  {
    assert (init + [step])[..|init|] == init;
  }

  // One more step as the row of one run sees it: a registration of it ...
  lemma RegisterTells(init: seq<Step>, step: Step, d: string, id: string, was: Option<RunRow>, row: RunRow)
    requires Tells(was, init, d, id) && step.Register? && About(step, d, id) && KnownType(TypeOf(step.s))
    requires Matches(row, step.s) && if was.Some? then SameStamp(row, was.value) else Open(row)
    requires was.None? ==> Completer(init, d, id).None?
    ensures Tells(Some(row), init + [step], d, id)
  {
    HistoryStep(init, step, d, id);
    if Completer(init, d, id).Some? {
      StampStays(row, init, step, Completer(init, d, id).value);
    }
  }

  // ... a validation of it that reconciles ...
  lemma ValidateTells(init: seq<Step>, step: Step, d: string, id: string, was: RunRow)
    requires Tells(Some(was), init, d, id) && step.Validate? && About(step, d, id) && Verdict(step.s, step.outcome).None?
    ensures Tells(Some(Stamped(was, d, id, step.outcome, Run(init).now + step.wait)), init + [step], d, id)
  {
    HistoryStep(init, step, d, id);
    if Completer(init, d, id).Some? {
      StampStays(was, init, step, Completer(init, d, id).value);
    } else {
      RunOneMore(State([], 0), init, step);
      assert (init + [step])[..|init| + 1] == init + [step];
    }
  }

  // ... or anything else.
  lemma IdleTells(init: seq<Step>, step: Step, d: string, id: string, was: Option<RunRow>)
    requires Tells(was, init, d, id)
    requires About(step, d, id) ==> if step.Register? then !KnownType(TypeOf(step.s))
                                    else Verdict(step.s, step.outcome).Some? || was.None?
    ensures Tells(was, init + [step], d, id)
  {
    HistoryStep(init, step, d, id);
    if Completer(init, d, id).Some? && was.Some? {
      StampStays(was.value, init, step, Completer(init, d, id).value);
    }
  }

  lemma CompletedWasRegistered(steps: seq<Step>, d: string, id: string)
    ensures Completer(steps, d, id).Some? ==> LastRegistration(steps, d, id).Some?
  {
    var c := Completer(steps, d, id);
    if c.Some? {
      assert steps == steps[..c.value] + steps[c.value..];
      HistoryStays(steps[..c.value], steps[c.value..], d, id);
    }
  }

  lemma RegisterStepTells(init: seq<Step>, step: Step, d: string, id: string)
    requires UniqueRuns(Run(init).table) && Tells(FindRun(Run(init).table, d, id), init, d, id)
    requires step.Register? && KnownType(TypeOf(step.s))
    ensures Tells(FindRun(Registered(Run(init).table, step.s, Run(init).now + step.wait), d, id), init + [step], d, id)
  {
    var table, now := Run(init).table, Run(init).now + step.wait;
    var was := FindRun(table, d, id);
    CompletedWasRegistered(init, d, id);
    RegisteredSpec(table, step.s, now);
    if About(step, d, id) {
      RegisterTells(init, step, d, id, was, FindRun(Registered(table, step.s, now), d, id).value);
    } else {
      IdleTells(init, step, d, id, was);
    }
  }

  lemma ValidateStepTells(init: seq<Step>, step: Step, d: string, id: string)
    requires UniqueRuns(Run(init).table) && Tells(FindRun(Run(init).table, d, id), init, d, id)
    requires step.Validate? && Verdict(step.s, step.outcome).None?
    ensures Tells(FindRun(Completed(Run(init).table, step.s.dataset, step.s.runId, step.outcome, Run(init).now + step.wait), d, id),
                  init + [step], d, id)
  {
    var was := FindRun(Run(init).table, d, id);
    CompletedSpec(Run(init).table, step.s.dataset, step.s.runId, step.outcome, Run(init).now + step.wait);
    if About(step, d, id) && was.Some? {
      ValidateTells(init, step, d, id, was.value);
    } else {
      IdleTells(init, step, d, id, was);
    }
  }

  lemma StepTells(init: seq<Step>, step: Step, d: string, id: string)
    requires TableTells(Run(init).table, init)
    ensures Tells(FindRun(Next(Run(init), step).table, d, id), init + [step], d, id)
  {
    assert Tells(FindRun(Run(init).table, d, id), init, d, id);
    if step.Register? && KnownType(TypeOf(step.s)) {
      RegisterStepTells(init, step, d, id);
    } else if step.Validate? && Verdict(step.s, step.outcome).None? {
      ValidateStepTells(init, step, d, id);
    } else {
      IdleTells(init, step, d, id, FindRun(Run(init).table, d, id));
    }
  }

  lemma StepKeepsUnique(st: State, step: Step)
    requires UniqueRuns(st.table)
    ensures UniqueRuns(Next(st, step).table)
  {
    if step.Register? {
      RegisteredSpec(st.table, step.s, st.now + step.wait);
    } else {
      CompletedSpec(st.table, step.s.dataset, step.s.runId, step.outcome, st.now + step.wait);
    }
  }

  // In every run of register and validate steps whatever, retries and repeats with other numbers
  // included, there is one row per (dataset, run id), and every completed row was reconciled by a
  // validation of exactly that run, whose counts it records.
  lemma {:induction false} CompletedMeansReconciled(steps: seq<Step>)
    ensures TableTells(Run(steps).table, steps)
  {
    if steps != [] {
      var init, step := steps[..|steps| - 1], steps[|steps| - 1];
      CompletedMeansReconciled(init);
      assert steps == init + [step];
      StepKeepsUnique(Run(init), step);
      forall d: string, id: string ensures Tells(FindRun(Run(steps).table, d, id), steps, d, id) {
        StepTells(init, step, d, id);
      }
    }
  }

  lemma RowTells(steps: seq<Step>, r: RunRow)
    requires r in Run(steps).table
    ensures FindRun(Run(steps).table, r.dataset, r.runId) == Some(r)
    ensures Tells(Some(r), steps, r.dataset, r.runId)
  {
    CompletedMeansReconciled(steps);
    FindRunSpec(Run(steps).table, r.dataset, r.runId);
    assert Tells(FindRun(Run(steps).table, r.dataset, r.runId), steps, r.dataset, r.runId);
  }

  /******* When a completed row stands as reconciled *******/

  // What reconciliation depends on.
  predicate SameFacts(s: Staged, t: Staged) {
    TypeOf(s) == TypeOf(t) && s.parts == t.parts && s.rows == t.rows
  }

  // The type, parts and rows the row shows are those its completion reconciled.
  predicate StandsReconciled(r: RunRow, steps: seq<Step>) {
    var c := Completer(steps, r.dataset, r.runId);
    c.Some? && SameFacts(FactsOf(r), steps[c.value].s)
  }

  // Each validation is handed what the run's last registration recorded, as the task order does.
  ghost predicate Handed(steps: seq<Step>) {
    forall i :: 0 <= i < |steps| && steps[i].Validate? && LastRegistration(steps[..i], steps[i].s.dataset, steps[i].s.runId).Some? ==>
      steps[i].s == LastRegistration(steps[..i], steps[i].s.dataset, steps[i].s.runId).value
  }

  // A registration refreshes a completed row too, so a completed row need not stand as reconciled. It
  // does exactly when the last registration of the run has the facts of the one its completion saw:
  // that is, unless a later registration changed its type, parts or rows.
  lemma StandsUnlessReregistered(steps: seq<Step>, r: RunRow)
    requires r in Run(steps).table && r.completedAt.Some?
    ensures var c, last := Completer(steps, r.dataset, r.runId), LastRegistration(steps, r.dataset, r.runId);
            c.Some? && last.Some? && (StandsReconciled(r, steps) <==> SameFacts(last.value, steps[c.value].s))
    ensures var c, last := Completer(steps, r.dataset, r.runId), LastRegistration(steps, r.dataset, r.runId);
            var seen := LastRegistration(steps[..c.value], r.dataset, r.runId);
            seen.Some? && (Handed(steps) ==> (StandsReconciled(r, steps) <==> SameFacts(last.value, seen.value)))
  {
    RowTells(steps, r);
  }

  // Register, validate, register again with other numbers: the row stays completed and shows numbers
  // nobody reconciled.
  lemma ReregisteredRunIsUnreconciled(s: Staged, again: Staged, outcome: CopyOutcome)
    requires KnownType(TypeOf(s)) && KnownType(TypeOf(again)) && Verdict(s, outcome).None?
    requires again.dataset == s.dataset && again.runId == s.runId && !SameFacts(s, again)
    ensures var steps := [Register(s, 0), Validate(s, outcome, 0), Register(again, 0)];
            Handed(steps) &&
            exists r :: r in Run(steps).table && r.completedAt.Some? && Matches(r, again)
                        && r.loadedRows == Some(outcome.rowsLoaded) && !StandsReconciled(r, steps)
  {
    var steps := [Register(s, 0), Validate(s, outcome, 0), Register(again, 0)];
    var d, id := s.dataset, s.runId;
    assert steps[..2] == [Register(s, 0), Validate(s, outcome, 0)] && steps[..2][..1] == [Register(s, 0)] == steps[..1];
    assert [Register(s, 0)][..0] == [];
    assert LastRegistration(steps[..1], d, id) == Some(s);
    assert Completer(steps[..1], d, id) == None;
    assert Completer(steps[..2], d, id) == Some(1);
    assert LastRegistration(steps[..2], d, id) == Some(s);
    CompletedMeansReconciled(steps);
    FindRunSpec(Run(steps).table, d, id);
    assert Tells(FindRun(Run(steps).table, d, id), steps, d, id);
  }

  lemma {:induction false} HistoryStays(steps: seq<Step>, more: seq<Step>, d: string, id: string)
    ensures Completer(steps, d, id).Some? ==> Completer(steps + more, d, id) == Completer(steps, d, id)
    ensures LastRegistration(steps, d, id).Some? ==> LastRegistration(steps + more, d, id).Some?
    decreases |more|
  {
    if more == [] {
      assert steps + more == steps;
    } else {
      assert (steps + more)[..|steps + more| - 1] == steps + more[..|more| - 1];
      HistoryStays(steps, more[..|more| - 1], d, id);
    }
  }

  // Completion happens at most once and is never altered, whatever steps follow: the row keeps its
  // counts and times. It keeps its type, parts and rows exactly when the last registration then has
  // those of the last one now.
  lemma CompletionIsFinal(steps: seq<Step>, more: seq<Step>, r: RunRow)
    requires r in Run(steps).table && r.completedAt.Some?
    ensures var now, later := LastRegistration(steps, r.dataset, r.runId), LastRegistration(steps + more, r.dataset, r.runId);
            var found := FindRun(Run(steps + more).table, r.dataset, r.runId);
            now.Some? && later.Some? && found.Some? && SameStamp(found.value, r) &&
            (SameFacts(FactsOf(found.value), FactsOf(r)) <==> SameFacts(later.value, now.value))
  {
    RowTells(steps, r);
    HistoryStays(steps, more, r.dataset, r.runId);
    CompletedMeansReconciled(steps + more);
    var found := FindRun(Run(steps + more).table, r.dataset, r.runId);
    assert Tells(found, steps + more, r.dataset, r.runId);
    var c := Completer(steps, r.dataset, r.runId).value;
    assert (steps + more)[..c + 1] == steps[..c + 1];
  }

  /******* What downstream reads *******/

  predicate CompletedFull(r: RunRow, dataset: string) {
    r.dataset == dataset && r.completedAt.Some? && r.snapshotType == SNAPSHOT_FULL
  }

  // A newest completed full run of the dataset.
  ghost predicate Current(table: seq<RunRow>, dataset: string, r: RunRow) {
    && r in table && CompletedFull(r, dataset)
    && forall q :: q in table && CompletedFull(q, dataset) ==> q.completedAt.value <= r.completedAt.value
  }

  // The parts staging wrote for a run, and the history read back for it, when the counts are theirs.
  ghost predicate LoadOf(s: Staged, outcome: CopyOutcome, parts: seq<StagedPart>, result: seq<seq<Cell>>) {
    s.parts == |parts| && s.rows == TotalRows(parts) && outcome == OutcomeOf(result) && Honest(parts, result)
  }

  // In every run, the snapshot downstream reads was reconciled. It was reconciled as a full one exactly
  // when its type is still the one its completion saw; and then it was not empty, and if its load
  // history was honest every part it staged arrived whole.
  lemma CurrentSnapshotIsWhole(steps: seq<Step>, dataset: string, r: RunRow)
    requires Current(Run(steps).table, dataset, r)
    ensures var c := Completer(steps, dataset, r.runId);
            c.Some? && StampedBy(r, steps, c.value) &&
            (TypeOf(steps[c.value].s) == SNAPSHOT_FULL <==>
             LastRegistration(steps, dataset, r.runId).Some? &&
             TypeOf(LastRegistration(steps, dataset, r.runId).value) == TypeOf(steps[c.value].s))
    ensures var step := steps[Completer(steps, dataset, r.runId).value];
            TypeOf(step.s) == SNAPSHOT_FULL ==>
              step.s.rows != 0 &&
              forall parts, result :: LoadOf(step.s, step.outcome, parts, result) ==> forall p :: p in parts ==> Arrived(p, result)
  {
    RowTells(steps, r);
    var step := steps[Completer(steps, dataset, r.runId).value];
    forall parts, result | LoadOf(step.s, step.outcome, parts, result)
      ensures forall p :: p in parts ==> Arrived(p, result)
    {
      CountingIsEnough(parts, result, TypeOf(step.s), false);
    }
  }

  // When a validation completes a run, exactly: over an honest history of what was staged, an open row is
  // completed if and only if every part arrived whole and the snapshot holds a row or is windowed. A
  // snapshot without a type counts as full. Otherwise nothing changes.
  lemma ValidateCompletesExactly(st: State, s: Staged, outcome: CopyOutcome, wait: nat,
                                 parts: seq<StagedPart>, result: seq<seq<Cell>>)
    requires UniqueRuns(st.table) && LoadOf(s, outcome, parts, result) && s.snapshotType in {None, Some("full"), Some("window")}
    requires FindRun(st.table, s.dataset, s.runId).Some? && FindRun(st.table, s.dataset, s.runId).value.completedAt.None?
    ensures var row := FindRun(Next(st, Validate(s, outcome, wait)).table, s.dataset, s.runId);
            row.Some? &&
            (row.value.completedAt.Some? <==>
               (forall p :: p in parts ==> Arrived(p, result)) && (TotalRows(parts) > 0 || s.snapshotType == Some("window"))) &&
            (row.value.completedAt.Some? ==> row.value.completedAt == Some(st.now + wait))
    ensures FindRun(Next(st, Validate(s, outcome, wait)).table, s.dataset, s.runId).value.completedAt.None? ==>
              Next(st, Validate(s, outcome, wait)).table == st.table
  {
    assert |"window"| != |"full"|;
    CountingIsEnough(parts, result, TypeOf(s), false);
    CompletedSpec(st.table, s.dataset, s.runId, outcome, st.now + wait);
    FindRunSpec(st.table, s.dataset, s.runId);
  }

  // A windowed run that is registered again as a full one becomes what downstream reads.
  lemma WindowTurnsFull(s: Staged, outcome: CopyOutcome)
    requires TypeOf(s) == SNAPSHOT_WINDOW && Verdict(s, outcome).None?
    ensures var steps := [Register(s, 0), Validate(s, outcome, 0), Register(s.(snapshotType := Some(SNAPSHOT_FULL)), 0)];
            exists r :: Current(Run(steps).table, s.dataset, r) && r.runId == s.runId
  {
    var again := s.(snapshotType := Some(SNAPSHOT_FULL));
    var steps := [Register(s, 0), Validate(s, outcome, 0), Register(again, 0)];
    ReregisteredRunIsUnreconciled(s, again, outcome);
    var r :| r in Run(steps).table && r.completedAt.Some? && Matches(r, again);
    forall q | q in Run(steps).table && CompletedFull(q, s.dataset) ensures q == r {
      OneRunOnly(steps, s, q);
      RowTells(steps, q);
      RowTells(steps, r);
    }
    assert Current(Run(steps).table, s.dataset, r);
  }

  lemma {:induction false} OneRunOnly(steps: seq<Step>, s: Staged, q: RunRow)
    requires forall i :: 0 <= i < |steps| ==> About(steps[i], s.dataset, s.runId)
    requires q in Run(steps).table
    ensures IsRun(q, s.dataset, s.runId)
  {
    RowTells(steps, q);
    OnlyRegistered(steps, s, q.dataset, q.runId);
  }

  lemma {:induction false} OnlyRegistered(steps: seq<Step>, s: Staged, d: string, id: string)
    requires forall i :: 0 <= i < |steps| ==> About(steps[i], s.dataset, s.runId)
    requires LastRegistration(steps, d, id).Some?
    ensures (d, id) == (s.dataset, s.runId)
  {
    if !About(steps[|steps| - 1], d, id) {
      OnlyRegistered(steps[..|steps| - 1], s, d, id);
    }
  }

  // The completed full runs of a dataset and when they were completed: all that the choice of the
  // current snapshot depends on.
  function FullCompletions(table: seq<RunRow>, dataset: string): set<(string, int)> {
    set r | r in table && CompletedFull(r, dataset) :: (r.runId, r.completedAt.value)
  }

  lemma CurrentIsNewest(table: seq<RunRow>, dataset: string, r: RunRow)
    requires r in table && CompletedFull(r, dataset)
    ensures Current(table, dataset, r) <==>
            forall e :: e in FullCompletions(table, dataset) ==> e.1 <= r.completedAt.value
  {
    forall q | q in table && CompletedFull(q, dataset) ensures (q.runId, q.completedAt.value) in FullCompletions(table, dataset) {
    }
  }

  lemma FullCompletionsAt(table: seq<RunRow>, dataset: string, e: (string, int))
    requires UniqueRuns(table)
    ensures e in FullCompletions(table, dataset) <==>
            FindRun(table, dataset, e.0).Some? && CompletedFull(FindRun(table, dataset, e.0).value, dataset)
            && FindRun(table, dataset, e.0).value.completedAt == Some(e.1)
  {
    FindRunSpec(table, dataset, e.0);
  }

  // The steps that change which completed full runs a dataset has: registering a completed run of it
  // with the other type, and validating an open full run of it.
  predicate Disturbs(table: seq<RunRow>, dataset: string, step: Step) {
    var found := FindRun(table, step.s.dataset, step.s.runId);
    && step.s.dataset == dataset && found.Some?
    && if step.Register?
       then KnownType(TypeOf(step.s)) && found.value.completedAt.Some? &&
            (found.value.snapshotType == SNAPSHOT_FULL) != (TypeOf(step.s) == SNAPSHOT_FULL)
       else Verdict(step.s, step.outcome).None? && found.value.completedAt.None? && found.value.snapshotType == SNAPSHOT_FULL
  }

  // Exactly those steps do; every other registration, retry, failed validation and windowed run leaves
  // what downstream reads as it is.
  lemma OnlyACompletedFullRunTakesOver(st: State, step: Step, dataset: string)
    requires UniqueRuns(st.table)
    ensures FullCompletions(Next(st, step).table, dataset) == FullCompletions(st.table, dataset) <==> !Disturbs(st.table, dataset, step)
  {
    var now, table' := st.now + step.wait, Next(st, step).table;
    var before, after := FullCompletions(st.table, dataset), FullCompletions(table', dataset);
    if step.Register? {
      RegisteredSpec(st.table, step.s, now);
    } else {
      CompletedSpec(st.table, step.s.dataset, step.s.runId, step.outcome, now);
    }
    var d, id := step.s.dataset, step.s.runId;
    FindRunSpec(st.table, d, id);
    forall e: (string, int) ensures (e in after <==> e in before) || (e.0 == id && Disturbs(st.table, dataset, step)) {
      FullCompletionsAt(st.table, dataset, e);
      FullCompletionsAt(table', dataset, e);
      FindRunSpec(st.table, dataset, e.0);
    }
    if Disturbs(st.table, dataset, step) {
      var found := FindRun(st.table, d, id).value;
      var e := (id, if step.Register? then found.completedAt.value else now);
      FullCompletionsAt(st.table, dataset, e);
      FullCompletionsAt(table', dataset, e);
      assert (e in after) != (e in before);
    }
  }
}
