// One extract from staging to completion: what a completed run says about the records it staged.
module Pipeline {
  import opened Basics
  import opened Staging
  import opened Loading
  import opened Completion

  /******* What staging hands on *******/

  // The run date and, for payments, the type of the extract's data interval travel with the snapshot.
  function ToXcom(snapshot: StagedSnapshot, date: string, start: Option<int>, end: Option<int>): Staged {
    Staged(snapshot.dataset, snapshot.runId, date, Some(SnapshotTypeOf(start, end)), |snapshot.parts|, snapshot.rowCount)
  }

  // What travels: the counts of what was written, and whether the extract is a proper interval's.
  lemma XcomSpec(snapshot: StagedSnapshot, date: string, start: Option<int>, end: Option<int>)
    ensures var s := ToXcom(snapshot, date, start, end);
            s.dataset == snapshot.dataset && s.runId == snapshot.runId && s.runDate == date &&
            s.parts == |snapshot.parts| && s.rows == snapshot.rowCount &&
            (s.snapshotType == Some("window") <==> start.Some? && end.Some? && start.value < end.value) &&
            (s.snapshotType == Some("full") <==> !(start.Some? && end.Some? && start.value < end.value))
  {
    assert |"window"| != |"full"|;
  }

  // The part objects as the warehouse sees them: a file name and the rows in it.
  function FilesOf(keys: seq<string>, parts: seq<Part>): seq<StagedPart>
    requires |keys| == |parts|
  {
    seq(|keys|, i requires 0 <= i < |keys| => StagedPart(keys[i], parts[i].rows))
  }

  lemma FilesAreDistinct(head: string, id: string, parts: seq<Part>)
    ensures DistinctParts(FilesOf(KeysOf(head, id, |parts|), parts))
  {
    KeysAreDistinct(head, id, |parts|);
  }

  lemma {:induction false} FilesTotal(keys: seq<string>, parts: seq<Part>)
    requires |keys| == |parts|
    ensures TotalRows(FilesOf(keys, parts)) == RowsIn(parts)
  {
    if parts != [] {
      var n := |parts| - 1;
      FilesTotal(keys[..n], parts[..n]);
      assert FilesOf(keys, parts)[..n] == FilesOf(keys[..n], parts[..n]);
      RowsInAppend(parts[..n], parts[n]);
      assert parts == parts[..n] + [parts[n]];
    }
  }

  /******* What was loaded *******/

  // The text of the objects at these keys, in order.
  function TextAt(objects: map<string, string>, keys: seq<string>): string {
    if keys == [] then ""
    else (if keys[0] in objects then objects[keys[0]] else "") + TextAt(objects, keys[1..])
  }

  lemma {:induction false} TextOfParts(objects: map<string, string>, keys: seq<string>, parts: seq<Part>)
    requires |keys| == |parts|
    requires forall i :: 0 <= i < |keys| ==> keys[i] in objects && objects[keys[i]] == parts[i].body
    ensures TextAt(objects, keys) == Bodies(parts)
  {
    if keys != [] {
      assert forall i :: 0 <= i < |keys[1..]| ==> keys[1..][i] == keys[i + 1] && parts[1..][i] == parts[i + 1];
      TextOfParts(objects, keys[1..], parts[1..]);
    }
  }

  lemma PartsHoldTheRecords(records: seq<string>, size: nat)
    requires size >= 1
    ensures RowsIn(PartsToWrite(records, size)) == |records|
    ensures NoNewlines(records) ==> ReadLines(Bodies(PartsToWrite(records, size)), "") == records
  {
    ChunksConserve(records, size);
    if records == [] {
      assert PartsToWrite(records, size)[1..] == [];
    }
  }

  // The history of the run's files names only its own, none twice, and no more rows of each than it has.
  ghost predicate HistoryOf(files: seq<StagedPart>, result: seq<seq<Cell>>) {
    && (forall i :: 0 <= i < |result| ==> Loading.Known(result[i], files))
    && (forall i, j :: 0 <= i < j < |result| ==> !SameFile(result[i], result[j]))
  }

  lemma AcceptedRowsAreAll(parts: seq<StagedPart>, result: seq<seq<Cell>>, snapshotType: string)
    requires Honest(parts, result)
    requires Reconcile(|parts|, TotalRows(parts), OutcomeOf(result), snapshotType, false).None?
    ensures OutcomeOf(result).rowsLoaded == TotalRows(parts) && |OutcomeOf(result).files| == |parts|
  {
    HonestSums(parts, result);
    TightFiles(parts, result, parts);
  }

  // Staged records all arrived. Take any extract that was staged under its run id and any run of the
  // control table in which its row is completed, by a validation that was handed what staging returned
  // and a history that is true of its files. Then every file of the extract was loaded whole, the row
  // records exactly as many rows as there were records, and the loaded files, read in order, are the
  // records in order.
  lemma StagedRecordsArrived(records: seq<string>, size: nat, snapshot: StagedSnapshot, head: string,
                             before: map<string, string>, objects: map<string, string>,
                             date: string, start: Option<int>, end: Option<int>,
                             steps: seq<Step>, r: RunRow, result: seq<seq<Cell>>)
    requires size >= 1 && NoNewlines(records)
    requires snapshot == StagedSnapshot(snapshot.dataset, snapshot.runId,
                                        KeysOf(head, snapshot.runId, |PartsToWrite(records, size)|), |records|)
    requires Wrote(before, objects, snapshot.parts, PartsToWrite(records, size))
    requires r in Run(steps).table && IsRun(r, snapshot.dataset, snapshot.runId) && r.completedAt.Some?
    requires var c := Completer(steps, r.dataset, r.runId);
             c.Some? ==> steps[c.value].s == ToXcom(snapshot, date, start, end) && steps[c.value].outcome == OutcomeOf(result)
    requires HistoryOf(FilesOf(snapshot.parts, PartsToWrite(records, size)), result)
    ensures forall p :: p in FilesOf(snapshot.parts, PartsToWrite(records, size)) ==> Arrived(p, result)
    ensures r.loadedRows == Some(|records|) && r.loadedParts == Some(|snapshot.parts|)
    ensures ReadLines(TextAt(objects, snapshot.parts), "") == records
    ensures !(start.Some? && end.Some? && start.value < end.value) ==> records != []
  {
    var parts := PartsToWrite(records, size);
    var files := FilesOf(snapshot.parts, parts);
    RowTells(steps, r);
    FilesAreDistinct(head, snapshot.runId, parts);
    FilesTotal(snapshot.parts, parts);
    PartsHoldTheRecords(records, size);
    TextOfParts(objects, snapshot.parts, parts);
    CountingIsEnough(files, result, SnapshotTypeOf(start, end), false);
    AcceptedRowsAreAll(files, result, SnapshotTypeOf(start, end));
  }

  /******* Attempts that left parts behind *******/

  // The objects COPY reads for the run: everything under its prefix.
  ghost predicate UnderRun(key: string, head: string, id: string) {
    var dir := head + "run=" + id + "/";
    |key| >= |dir| && key[..|dir|] == dir
  }

  lemma PartsAreUnderRun(head: string, id: string, n: nat)
    ensures forall k :: k in KeysOf(head, id, n) ==> UnderRun(k, head, id)
  {
    forall i | 0 <= i < n ensures UnderRun(KeysOf(head, id, n)[i], head, id) {
      assert KeysOf(head, id, n)[i] == head + "run=" + id + "/" + PartName(i + 1);
    }
  }

  // Attempts of one run under one prefix, first to last, each as StageDataset leaves it; nothing was under
  // the prefix before.
  ghost predicate Attempted(stores: seq<map<string, string>>, attempts: seq<seq<Part>>, head: string, id: string) {
    && |stores| == |attempts| + 1
    && (forall k :: k in stores[0] ==> !UnderRun(k, head, id))
    && forall i :: 0 <= i < |attempts| ==> Wrote(stores[i], stores[i + 1], KeysOf(head, id, |attempts[i]|), attempts[i])
  }

  // The most parts any attempt wrote.
  function MostParts(attempts: seq<seq<Part>>): nat {
    if attempts == [] then 0
    else Max(MostParts(attempts[..|attempts| - 1]), |attempts[|attempts| - 1]|)
  }

  lemma {:induction false} KeysUpTo(head: string, id: string, m: nat, n: nat)
    requires m <= n
    ensures KeysOf(head, id, m) == KeysOf(head, id, n)[..m]
    ensures forall k :: k in KeysOf(head, id, m) ==> k in KeysOf(head, id, n)
  {
  }

  // Under the prefix there are exactly the parts up to the most any attempt wrote.
  lemma {:induction false} WhatIsUnderRun(stores: seq<map<string, string>>, attempts: seq<seq<Part>>, head: string, id: string)
    requires Attempted(stores, attempts, head, id)
    ensures forall k :: k in stores[|attempts|] && UnderRun(k, head, id) <==> k in KeysOf(head, id, MostParts(attempts))
  {
    if attempts != [] {
      var n := |attempts| - 1;
      WhatIsUnderRun(stores[..n + 1], attempts[..n], head, id);
      var before, last := MostParts(attempts[..n]), |attempts[n]|;
      KeysUpTo(head, id, before, Max(before, last));
      KeysUpTo(head, id, last, Max(before, last));
      PartsAreUnderRun(head, id, Max(before, last));
      assert Wrote(stores[n], stores[n + 1], KeysOf(head, id, last), attempts[n]);
    }
  }

  // The prefix holds only the last extract exactly when no earlier attempt wrote more parts.
  lemma OnlyTheLastExtract(stores: seq<map<string, string>>, attempts: seq<seq<Part>>, head: string, id: string)
    requires Attempted(stores, attempts, head, id) && attempts != []
    ensures var last := KeysOf(head, id, |attempts[|attempts| - 1]|);
            (forall k :: k in stores[|attempts|] && UnderRun(k, head, id) <==> k in last) <==>
            (forall i :: 0 <= i < |attempts| ==> |attempts[i]| <= |attempts[|attempts| - 1]|)
  {
    var n, most := |attempts[|attempts| - 1]|, MostParts(attempts);
    WhatIsUnderRun(stores, attempts, head, id);
    MostPartsSpec(attempts);
    KeysUpTo(head, id, n, most);
    if n < most {
      var extra := KeysOf(head, id, most)[most - 1];
      assert extra in KeysOf(head, id, most);
      KeysAreDistinct(head, id, most);
      assert extra !in KeysOf(head, id, n);
    }
  }

  lemma {:induction false} MostPartsSpec(attempts: seq<seq<Part>>)
    ensures forall i :: 0 <= i < |attempts| ==> |attempts[i]| <= MostParts(attempts)
    ensures attempts != [] ==> exists i :: 0 <= i < |attempts| && |attempts[i]| == MostParts(attempts)
  {
    if attempts != [] {
      var init := attempts[..|attempts| - 1];
      MostPartsSpec(init);
      if MostParts(attempts) == |attempts[|attempts| - 1]| {
        assert |attempts[|attempts| - 1]| == MostParts(attempts);
      } else {
        var i :| 0 <= i < |init| && |init[i]| == MostParts(init);
        assert |attempts[i]| == MostParts(attempts);
      }
    }
  }

  // Every file of a load arrived whole, none was skipped, and nothing else was loaded.
  ghost predicate LoadsAll(files: seq<StagedPart>, result: seq<seq<Cell>>) {
    && |result| == |files|
    && forall i :: 0 <= i < |files| ==>
         result[i] != [] && CellText(result[i][0]) == files[i].name && FourthColumn(result[i]) == files[i].rows && !ReadsSkipped(result[i])
  }

  lemma {:induction false} LoadsAllOutcome(files: seq<StagedPart>, result: seq<seq<Cell>>)
    requires LoadsAll(files, result)
    ensures |OutcomeOf(result).files| == |files| && OutcomeOf(result).rowsLoaded == TotalRows(files) && OutcomeOf(result).skipped == []
  {
    if files != [] {
      SkippedByColumns(result[|files| - 1]);
      LoadsAllOutcome(files[..|files| - 1], result[..|files| - 1]);
    }
  }

  lemma {:induction false} TotalRowsConcat(a: seq<StagedPart>, b: seq<StagedPart>)
    ensures TotalRows(a + b) == TotalRows(a) + TotalRows(b)
  {
    if b == [] {
      assert a + b == a;
    } else {
      assert (a + b)[..|a + b| - 1] == a + b[..|b| - 1];
      TotalRowsConcat(a, b[..|b| - 1]);
    }
  }

  // What reconciliation then says: a COPY that loads the extract and what was left behind is accepted
  // just as one that loads the extract alone, and the rows it counts are the extract's exactly when what
  // was left behind holds none.
  lemma LeftoversAreAccepted(files: seq<StagedPart>, left: seq<StagedPart>, result: seq<seq<Cell>>, snapshotType: string)
    requires LoadsAll(files + left, result)
    ensures Reconcile(|files|, TotalRows(files), OutcomeOf(result), snapshotType, false).None? <==>
            (snapshotType == SNAPSHOT_FULL ==> TotalRows(files) > 0)
    ensures OutcomeOf(result).rowsLoaded == TotalRows(files) <==> TotalRows(left) == 0
    ensures (forall p :: p in left ==> p.rows > 0) ==> (OutcomeOf(result).rowsLoaded == TotalRows(files) <==> left == [])
  {
    LoadsAllOutcome(files + left, result);
    TotalRowsConcat(files, left);
    if left != [] {
      assert left[|left| - 1] in left;
    }
  }

  // Left-behind parts are never the first, and every later part of an extract holds a row.
  lemma LaterPartsHoldRows(records: seq<string>, size: nat, i: nat)
    requires size >= 1 && 1 <= i < |PartsToWrite(records, size)|
    ensures PartsToWrite(records, size)[i].rows > 0
  {
    ChunksHoldRows(records, size, i);
  }

  lemma {:induction false} ChunksHoldRows(records: seq<string>, size: nat, i: nat)
    requires size >= 1 && i < |Chunks(records, size)|
    ensures Chunks(records, size)[i].rows > 0
  {
    if i > 0 {
      ChunksHoldRows(records[size..], size, i - 1);
    }
  }
}
