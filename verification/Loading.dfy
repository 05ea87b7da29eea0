// Reading a COPY result, and when counting files and rows proves that everything arrived.
module Loading {
  import opened Basics

  /******* The result set *******/

  datatype Cell = Null | Str(text: string) | Num(n: int)

  datatype CopyOutcome = CopyOutcome(files: seq<string>, rowsLoaded: int, skipped: seq<string>)

  // str() of a cell.
  function CellText(c: Cell): string {
    match c
    case Null => "None"
    case Str(s) => s
    case Num(n) => if n < 0 then "-" + Digits(-n) else Digits(n)
  }

  // A name that is a number reads back as it.
  lemma CellTextReads(n: int)
    ensures n >= 0 ==> ParseDigits(CellText(Num(n))) == n
    ensures n < 0 ==> CellText(Num(n))[0] == '-' && ParseDigits(CellText(Num(n))[1..]) == -n
    ensures CellText(Null) == "None"
  {
    DigitsReadBack(if n < 0 then -n else n);
  }

  function FileOf(row: seq<Cell>): string
    requires row != []
  {
    CellText(row[0])
  }

  predicate IsSkipped(row: seq<Cell>) {
    |row| > 1 && !row[1].Null? && Upper(CellText(row[1])) == "LOAD_SKIPPED"
  }

  /******* What the columns mean *******/

  // The character is this one, or its small form.
  predicate SameLetter(c: char, capital: char) {
    c == capital || ('A' <= capital <= 'Z' && c as int == capital as int + 32)
  }

  // The second column reads LOAD_SKIPPED, in whatever case.
  predicate ReadsSkipped(row: seq<Cell>) {
    && |row| > 1 && row[1].Str? && |row[1].text| == 12
    && forall i :: 0 <= i < 12 ==> SameLetter(row[1].text[i], "LOAD_SKIPPED"[i])
  }

  // The number in the fourth column, or none.
  function FourthColumn(row: seq<Cell>): int {
    if |row| < 4 then 0 else match row[3] case Num(n) => n case _ => 0
  }

  lemma NumberIsNoStatus(n: int)
    ensures Upper(CellText(Num(n))) != "LOAD_SKIPPED"
  {
    var t := CellText(Num(n));
    assert t[0] in t;
    assert Upper(t)[0] == t[0];
  }

  lemma UpperReads(s: string)
    ensures Upper(s) == "LOAD_SKIPPED" <==> |s| == 12 && forall i :: 0 <= i < 12 ==> SameLetter(s[i], "LOAD_SKIPPED"[i])
  {
    var t := "LOAD_SKIPPED";
    assert forall i :: 0 <= i < 12 ==> t[i] == '_' || 'A' <= t[i] <= 'Z';
    if |s| == 12 {
      forall i | 0 <= i < 12 ensures Upper(s)[i] == t[i] <==> SameLetter(s[i], t[i]) {
      }
    }
  }

  lemma SkippedByColumns(row: seq<Cell>)
    ensures IsSkipped(row) <==> ReadsSkipped(row)
    ensures RowsLoaded(row) == FourthColumn(row)
  {
    if |row| > 1 {
      match row[1]
      case Null =>
      case Str(s) => UpperReads(s);
      case Num(n) => NumberIsNoStatus(n);
    }
  }

  lemma AllByColumns()
    ensures forall row :: IsSkipped(row) <==> ReadsSkipped(row)
    ensures forall row :: RowsLoaded(row) == FourthColumn(row)
  {
    forall row ensures (IsSkipped(row) <==> ReadsSkipped(row)) && RowsLoaded(row) == FourthColumn(row) {
      SkippedByColumns(row);
    }
  }

  function RowsLoaded(row: seq<Cell>): int {
    if |row| > 3 && row[3].Num? then row[3].n else 0
  }

  // One entry per non-empty row, short rows included.
  function OutcomeOf(result: seq<seq<Cell>>): CopyOutcome {
    if result == [] then CopyOutcome([], 0, [])
    else
      var before, row := OutcomeOf(result[..|result| - 1]), result[|result| - 1];
      if row == [] then before
      else CopyOutcome(before.files + [FileOf(row)], before.rowsLoaded + RowsLoaded(row),
                       if IsSkipped(row) then before.skipped + [FileOf(row)] else before.skipped)
  }

  lemma OutcomeStep(result: seq<seq<Cell>>, i: nat)
    requires i < |result|
    ensures OutcomeOf(result[..i + 1]) ==
            var before, row := OutcomeOf(result[..i]), result[i];
            if row == [] then before
            else CopyOutcome(before.files + [FileOf(row)], before.rowsLoaded + RowsLoaded(row),
                             if IsSkipped(row) then before.skipped + [FileOf(row)] else before.skipped)
  {
    assert result[..i + 1][..i] == result[..i];
  }

  // A file is listed as skipped exactly when a row says so, and as a file when it has a row at all.
  lemma {:induction false} ListedExactly(result: seq<seq<Cell>>, name: string)
    ensures name in OutcomeOf(result).skipped <==> exists row :: row in result && row != [] && CellText(row[0]) == name && ReadsSkipped(row)
    ensures name in OutcomeOf(result).files <==> exists row :: row in result && row != [] && CellText(row[0]) == name
  {
    if result != [] {
      var init, row := result[..|result| - 1], result[|result| - 1];
      assert result == init + [row];
      ListedExactly(init, name);
      SkippedByColumns(row);
    }
  }

  function Fourths(result: seq<seq<Cell>>): int {
    if result == [] then 0 else Fourths(result[..|result| - 1]) + FourthColumn(result[|result| - 1])
  }

  function Named(result: seq<seq<Cell>>): nat {
    if result == [] then 0 else Named(result[..|result| - 1]) + if result[|result| - 1] == [] then 0 else 1
  }

  lemma {:induction false} TotalsByColumns(result: seq<seq<Cell>>)
    ensures OutcomeOf(result).rowsLoaded == Fourths(result) && |OutcomeOf(result).files| == Named(result)
  {
    if result != [] {
      TotalsByColumns(result[..|result| - 1]);
      SkippedByColumns(result[|result| - 1]);
    }
  }

  // A history with a skipped file is refused, whatever the counts and the type.
  lemma SkippedIsRefused(result: seq<seq<Cell>>, row: seq<Cell>, parts: int, rows: int, snapshotType: string, allowEmpty: bool)
    requires row in result && row != [] && ReadsSkipped(row)
    ensures CellText(row[0]) in OutcomeOf(result).skipped
    ensures Reconcile(parts, rows, OutcomeOf(result), snapshotType, allowEmpty) == Some(SkippedFiles(OutcomeOf(result).skipped))
  {
    ListedExactly(result, CellText(row[0]));
  }

  // Column by column: one file for each row that has a first column, the fourth column's numbers added
  // up, and as skipped the files of the rows whose second column says so.
  method ParseCopyResult(result: seq<seq<Cell>>) returns (outcome: CopyOutcome)
    ensures |outcome.files| == Named(result) && outcome.rowsLoaded == Fourths(result)
    ensures forall name :: name in outcome.files <==> exists row :: row in result && row != [] && CellText(row[0]) == name
    ensures forall name :: name in outcome.skipped <==>
              exists row :: row in result && row != [] && CellText(row[0]) == name && ReadsSkipped(row)
    ensures outcome == OutcomeOf(result)
  {
    TotalsByColumns(result);
    forall name
      ensures name in OutcomeOf(result).skipped <==>
              exists row :: row in result && row != [] && CellText(row[0]) == name && ReadsSkipped(row)
      ensures name in OutcomeOf(result).files <==> exists row :: row in result && row != [] && CellText(row[0]) == name
    {
      ListedExactly(result, name);
    }
    var files: seq<string>, skipped: seq<string>, total := [], [], 0;
    for i := 0 to |result|
      invariant OutcomeOf(result[..i]) == CopyOutcome(files, total, skipped)
    {
      var row := result[i];
      OutcomeStep(result, i);
      if row == [] {
        continue;
      }
      var name := CellText(row[0]);
      files := files + [name];
      var status := if |row| > 1 && !row[1].Null? then Upper(CellText(row[1])) else "";
      if status == "LOAD_SKIPPED" {
        skipped := skipped + [name];
      }
      if |row| > 3 && row[3].Num? {
        total := total + row[3].n;
      }
    }
    assert result[..|result|] == result;
    outcome := CopyOutcome(files, total, skipped);
  }

  /******* The completion rule *******/

  const SNAPSHOT_FULL := "full"
  const SNAPSHOT_WINDOW := "window"

  datatype Incomplete =
    | SkippedFiles(files: seq<string>)
    | NoHistory
    | MissingParts(found: int)
    | MissingRows(found: int)
    | EmptyFull

  // None when the load fully accounts for the staged snapshot.
  function Reconcile(expectedParts: int, expectedRows: int, outcome: CopyOutcome, snapshotType: string, allowEmpty: bool): Option<Incomplete> {
    if outcome.skipped != [] then Some(SkippedFiles(outcome.skipped))
    else if expectedParts != 0 && outcome.files == [] then Some(NoHistory)
    else if |outcome.files| < expectedParts then Some(MissingParts(|outcome.files|))
    else if outcome.rowsLoaded < expectedRows then Some(MissingRows(outcome.rowsLoaded))
    else if snapshotType == SNAPSHOT_FULL && expectedRows == 0 && !allowEmpty then Some(EmptyFull)
    else None
  }

  /******* When counting is enough *******/

  // A staged part object and its rows.
  datatype StagedPart = StagedPart(name: string, rows: nat)

  function TotalRows(parts: seq<StagedPart>): nat {
    if parts == [] then 0 else TotalRows(parts[..|parts| - 1]) + parts[|parts| - 1].rows
  }

  ghost predicate DistinctParts(parts: seq<StagedPart>) {
    forall i, j :: 0 <= i < j < |parts| ==> parts[i].name != parts[j].name
  }

  ghost predicate LoadsPart(row: seq<Cell>, p: StagedPart) {
    row != [] && CellText(row[0]) == p.name && 0 <= FourthColumn(row) <= p.rows
  }

  // The history speaks of staged parts only, of each at most once, and of no more rows than staged.
  ghost predicate Honest(parts: seq<StagedPart>, result: seq<seq<Cell>>) {
    && DistinctParts(parts)
    && (forall i :: 0 <= i < |result| ==> Known(result[i], parts))
    && (forall i, j :: 0 <= i < j < |result| ==> !SameFile(result[i], result[j]))
  }

  ghost predicate Known(row: seq<Cell>, parts: seq<StagedPart>) {
    exists p :: p in parts && LoadsPart(row, p)
  }

  predicate SameFile(r: seq<Cell>, s: seq<Cell>) {
    r != [] && s != [] && CellText(r[0]) == CellText(s[0])
  }

  lemma HonestPrefix(parts: seq<StagedPart>, result: seq<seq<Cell>>)
    requires Honest(parts, result) && result != []
    ensures Honest(parts, result[..|result| - 1]) && Known(result[|result| - 1], parts)
  {
    var init := result[..|result| - 1];
    assert forall i :: 0 <= i < |init| ==> init[i] == result[i];
  }

  // Part p arrived: a row reports it, not as skipped, with every one of its rows.
  ghost predicate Arrived(p: StagedPart, result: seq<seq<Cell>>) {
    exists row :: row in result && row != [] && CellText(row[0]) == p.name && !ReadsSkipped(row) && FourthColumn(row) == p.rows
  }

  // What the result says about one file under a measure.
  function Reported(result: seq<seq<Cell>>, name: string, w: seq<Cell> -> int): int {
    if result == [] then 0
    else
      var row := result[|result| - 1];
      Reported(result[..|result| - 1], name, w) + if row != [] && FileOf(row) == name then w(row) else 0
  }

  function OneFile(row: seq<Cell>): int { 1 }

  function SumReported(result: seq<seq<Cell>>, parts: seq<StagedPart>, w: seq<Cell> -> int): int {
    if parts == [] then 0
    else SumReported(result, parts[..|parts| - 1], w) + Reported(result, parts[|parts| - 1].name, w)
  }

  lemma {:induction false} SumReportedStep(result: seq<seq<Cell>>, parts: seq<StagedPart>, w: seq<Cell> -> int)
    requires result != [] && result[|result| - 1] != [] && DistinctParts(parts)
    ensures var row := result[|result| - 1];
            SumReported(result, parts, w) == SumReported(result[..|result| - 1], parts, w)
              + if exists p :: p in parts && p.name == FileOf(row) then w(row) else 0
  {
    if parts != [] {
      SumReportedStep(result, parts[..|parts| - 1], w);
      assert parts == parts[..|parts| - 1] + [parts[|parts| - 1]];
    }
  }

  function SumRows(result: seq<seq<Cell>>, w: seq<Cell> -> int): int {
    if result == [] then 0 else SumRows(result[..|result| - 1], w) + w(result[|result| - 1])
  }

  lemma {:induction false} HonestSum(parts: seq<StagedPart>, result: seq<seq<Cell>>, w: seq<Cell> -> int)
    requires Honest(parts, result)
    ensures SumReported(result, parts, w) == SumRows(result, w)
  {
    if result == [] {
      NothingReported(parts, w);
    } else {
      var init, row := result[..|result| - 1], result[|result| - 1];
      HonestPrefix(parts, result);
      HonestSum(parts, init, w);
      SumReportedStep(result, parts, w);
      var p :| p in parts && LoadsPart(row, p);
    }
  }

  lemma {:induction false} OutcomeSums(result: seq<seq<Cell>>)
    requires forall i :: 0 <= i < |result| ==> result[i] != []
    ensures SumRows(result, OneFile) == |OutcomeOf(result).files| == |result|
    ensures SumRows(result, RowsLoaded) == OutcomeOf(result).rowsLoaded
    ensures OutcomeOf(result).skipped == [] <==> forall row :: row in result ==> !IsSkipped(row)
  {
    if result != [] {
      var init, row := result[..|result| - 1], result[|result| - 1];
      assert result == init + [row];
      OutcomeSums(init);
    }
  }

  // Over honest history, summing by part is summing by row.
  lemma HonestSums(parts: seq<StagedPart>, result: seq<seq<Cell>>)
    requires Honest(parts, result)
    ensures SumReported(result, parts, OneFile) == |OutcomeOf(result).files| == |result|
    ensures SumReported(result, parts, RowsLoaded) == OutcomeOf(result).rowsLoaded
    ensures OutcomeOf(result).skipped == [] <==> forall row :: row in result ==> !IsSkipped(row)
  {
    HonestSum(parts, result, OneFile);
    HonestSum(parts, result, RowsLoaded);
    assert forall i :: 0 <= i < |result| ==> Known(result[i], parts);
    OutcomeSums(result);
  }

  lemma {:induction false} NothingReported(parts: seq<StagedPart>, w: seq<Cell> -> int)
    ensures SumReported([], parts, w) == 0
  {
    if parts != [] {
      NothingReported(parts[..|parts| - 1], w);
    }
  }

  lemma {:induction false} ReportedSpec(parts: seq<StagedPart>, result: seq<seq<Cell>>, p: StagedPart)
    requires Honest(parts, result) && p in parts
    ensures 0 <= Reported(result, p.name, OneFile) <= 1
    ensures 0 <= Reported(result, p.name, RowsLoaded) <= p.rows
    ensures Reported(result, p.name, OneFile) == 0 ==> Reported(result, p.name, RowsLoaded) == 0
    ensures Reported(result, p.name, OneFile) == 0 ==> forall row :: row in result ==> row == [] || FileOf(row) != p.name
    ensures Reported(result, p.name, OneFile) == 1 ==>
              exists row :: row in result && row != [] && FileOf(row) == p.name && RowsLoaded(row) == Reported(result, p.name, RowsLoaded)
  {
    if result != [] {
      var init, row := result[..|result| - 1], result[|result| - 1];
      assert result == init + [row];
      HonestPrefix(parts, result);
      ReportedSpec(parts, init, p);
      var q :| q in parts && LoadsPart(row, q);
      if FileOf(row) == p.name {
        assert q == p;
        assert forall i :: 0 <= i < |init| ==> !SameFile(result[i], row);
        assert forall other :: other in init && other != [] ==> FileOf(other) != p.name;
      }
    }
  }

  // Terms that are each at most their bound, yet sum to at least the bounds' sum, all meet it.
  lemma {:induction false} TightFiles(parts: seq<StagedPart>, result: seq<seq<Cell>>, all: seq<StagedPart>)
    requires Honest(all, result) && forall p :: p in parts ==> p in all
    ensures SumReported(result, parts, OneFile) <= |parts|
    ensures SumReported(result, parts, OneFile) == |parts| <==> forall p :: p in parts ==> Reported(result, p.name, OneFile) == 1
    ensures SumReported(result, parts, RowsLoaded) <= TotalRows(parts)
    ensures SumReported(result, parts, RowsLoaded) == TotalRows(parts) <==> forall p :: p in parts ==> Reported(result, p.name, RowsLoaded) == p.rows
  {
    if parts != [] {
      var init, p := parts[..|parts| - 1], parts[|parts| - 1];
      assert parts == init + [p];
      TightFiles(init, result, all);
      ReportedSpec(all, result, p);
    }
  }

  // If the history is honest, the counts accept the load exactly when every staged part arrived
  // whole and, for a full snapshot, there is something in it or emptiness was allowed.
  lemma CountingIsEnough(parts: seq<StagedPart>, result: seq<seq<Cell>>, snapshotType: string, allowEmpty: bool)
    requires Honest(parts, result)
    ensures Reconcile(|parts|, TotalRows(parts), OutcomeOf(result), snapshotType, allowEmpty).None? <==>
            && (forall p :: p in parts ==> Arrived(p, result))
            && (snapshotType == SNAPSHOT_FULL ==> TotalRows(parts) > 0 || allowEmpty)
  {
    HonestSums(parts, result);
    TightFiles(parts, result, parts);
    forall p | p in parts
      ensures Arrived(p, result) <==>
              Reported(result, p.name, OneFile) == 1 && Reported(result, p.name, RowsLoaded) == p.rows &&
              forall row :: row in result && row != [] && FileOf(row) == p.name ==> !IsSkipped(row)
    {
      OnePart(parts, result, p);
    }
    forall i | 0 <= i < |result| ensures exists p :: p in parts && result[i] != [] && FileOf(result[i]) == p.name {
      var p :| p in parts && LoadsPart(result[i], p);
    }
  }

  lemma OnePart(parts: seq<StagedPart>, result: seq<seq<Cell>>, p: StagedPart)
    requires Honest(parts, result) && p in parts
    ensures Arrived(p, result) <==>
            Reported(result, p.name, OneFile) == 1 && Reported(result, p.name, RowsLoaded) == p.rows &&
            forall row :: row in result && row != [] && FileOf(row) == p.name ==> !IsSkipped(row)
  {
    AllByColumns();
    ReportedSpec(parts, result, p);
    assert forall i, j :: 0 <= i < |result| && 0 <= j < |result| && SameFile(result[i], result[j]) ==> i == j;
  }

  /******* Distinct files are also necessary *******/

  // The history lists these files, in this order.
  ghost predicate Lists(result: seq<seq<Cell>>, files: seq<string>) {
    |result| == |files| && forall i :: 0 <= i < |files| ==> result[i] != [] && FileOf(result[i]) == files[i]
  }

  ghost predicate Distinct(files: seq<string>) {
    forall i, j :: 0 <= i < j < |files| ==> files[i] != files[j]
  }

  // A history of these files that loads staged parts only, and no more of each than it holds.
  ghost predicate Plausible(parts: seq<StagedPart>, result: seq<seq<Cell>>, files: seq<string>) {
    DistinctParts(parts) && Lists(result, files) && forall i :: 0 <= i < |result| ==> Known(result[i], parts)
  }

  ghost predicate DecidedRightly(parts: seq<StagedPart>, result: seq<seq<Cell>>, snapshotType: string, allowEmpty: bool) {
    Reconcile(|parts|, TotalRows(parts), OutcomeOf(result), snapshotType, allowEmpty).None? <==>
    AllArrived(parts, result, snapshotType, allowEmpty)
  }

  // Every such history is accepted exactly when it should be.
  ghost predicate CountsDecide(files: seq<string>) {
    forall parts, result, snapshotType, allowEmpty ::
      Plausible(parts, result, files) ==> DecidedRightly(parts, result, snapshotType, allowEmpty)
  }

  ghost predicate AllArrived(parts: seq<StagedPart>, result: seq<seq<Cell>>, snapshotType: string, allowEmpty: bool) {
    && (forall p :: p in parts ==> Arrived(p, result))
    && (snapshotType == SNAPSHOT_FULL ==> TotalRows(parts) > 0 || allowEmpty)
  }

  function Names(files: seq<string>): seq<string> {
    if files == [] then []
    else
      var rest := Names(files[..|files| - 1]);
      if files[|files| - 1] in rest then rest else rest + [files[|files| - 1]]
  }

  lemma {:induction false} NamesSpec(files: seq<string>)
    ensures Distinct(Names(files)) && |Names(files)| <= |files|
    ensures forall f :: f in Names(files) <==> f in files
    ensures |Names(files)| == |files| ==> Distinct(files)
  {
    if files != [] {
      NamesSpec(files[..|files| - 1]);
      assert files == files[..|files| - 1] + [files[|files| - 1]];
    }
  }

  // A name longer than every given one.
  function FreshName(files: seq<string>): string {
    if files == [] then "x" else files[|files| - 1] + FreshName(files[..|files| - 1])
  }

  lemma {:induction false} FreshNameSpec(files: seq<string>)
    ensures forall f :: f in files ==> |f| < |FreshName(files)|
    ensures |FreshName(files)| > 0
  {
    if files != [] {
      FreshNameSpec(files[..|files| - 1]);
      assert files == files[..|files| - 1] + [files[|files| - 1]];
    }
  }

  // One part of one row for every name, and one row loaded for every listing.
  function OneRowParts(names: seq<string>): seq<StagedPart> {
    seq(|names|, i requires 0 <= i < |names| => StagedPart(names[i], 1))
  }

  function OneRowLoads(files: seq<string>): seq<seq<Cell>> {
    seq(|files|, i requires 0 <= i < |files| => [Str(files[i]), Str("LOADED"), Num(1), Num(1)])
  }

  lemma {:induction false} OneRowTotals(names: seq<string>)
    ensures TotalRows(OneRowParts(names)) == |names|
  {
    if names != [] {
      assert OneRowParts(names)[..|names| - 1] == OneRowParts(names[..|names| - 1]);
      OneRowTotals(names[..|names| - 1]);
    }
  }

  lemma LoadedIsNotSkipped()
    ensures Upper("LOADED") != "LOAD_SKIPPED"
  {
    assert |Upper("LOADED")| == 6;
  }

  lemma {:induction false} OneRowOutcome(files: seq<string>)
    ensures OutcomeOf(OneRowLoads(files)) == CopyOutcome(files, |files|, [])
  {
    if files != [] {
      var init := files[..|files| - 1];
      assert OneRowLoads(files)[..|files| - 1] == OneRowLoads(init);
      OneRowOutcome(init);
      LoadedIsNotSkipped();
      assert files == init + [files[|files| - 1]];
    }
  }

  lemma OneRowLoadsKnown(files: seq<string>, names: seq<string>)
    requires forall f :: f in files ==> f in names
    ensures Lists(OneRowLoads(files), files)
    ensures forall i :: 0 <= i < |files| ==> Known(OneRowLoads(files)[i], OneRowParts(names))
  {
    forall i | 0 <= i < |files| ensures Known(OneRowLoads(files)[i], OneRowParts(names)) {
      assert files[i] in files;
      var n :| 0 <= n < |names| && names[n] == files[i];
      assert OneRowParts(names)[n] in OneRowParts(names);
      assert LoadsPart(OneRowLoads(files)[i], OneRowParts(names)[n]);
    }
  }

  lemma NeverListed(files: seq<string>, p: StagedPart)
    requires p.name !in files
    ensures !Arrived(p, OneRowLoads(files))
  {
    assert forall i :: 0 <= i < |files| ==> FileOf(OneRowLoads(files)[i]) == files[i] && files[i] in files;
  }

  // More listings than names: accepted, with one part that was never listed.
  lemma AbsentPartAccepted(files: seq<string>, names: seq<string>, n: nat)
    requires |names| <= |files| && n < |names| && names[n] !in files
    ensures !DecidedRightly(OneRowParts(names), OneRowLoads(files), SNAPSHOT_WINDOW, false)
  {
    OneRowTotals(names);
    OneRowOutcome(files);
    var absent := OneRowParts(names)[n];
    NeverListed(files, absent);
    assert absent in OneRowParts(names);
  }

  lemma NamesAndOne(files: seq<string>) returns (names: seq<string>)
    requires !Distinct(files)
    ensures Distinct(names) && 0 < |names| <= |files| && names[|names| - 1] !in files
    ensures forall f :: f in files ==> f in names
  {
    NamesSpec(files);
    FreshNameSpec(files);
    names := Names(files) + [FreshName(files)];
  }

  lemma OneRowHistoryIsPlausible(files: seq<string>, names: seq<string>)
    requires Distinct(names) && forall f :: f in files ==> f in names
    ensures Plausible(OneRowParts(names), OneRowLoads(files), files)
  {
    OneRowLoadsKnown(files, names);
  }

  // With a repeated file there is room for such a part.
  lemma RepeatsFool(files: seq<string>)
    requires !Distinct(files)
    ensures !CountsDecide(files)
  {
    var names := NamesAndOne(files);
    OneRowHistoryIsPlausible(files, names);
    AbsentPartAccepted(files, names, |names| - 1);
  }

  // For every list of files: the counts decide every history of them rightly exactly when no file is
  // listed twice.
  lemma CountingNeedsDistinctFiles(files: seq<string>)
    ensures CountsDecide(files) <==> Distinct(files)
  {
    if Distinct(files) {
      forall parts, result, snapshotType, allowEmpty | Plausible(parts, result, files)
        ensures DecidedRightly(parts, result, snapshotType, allowEmpty)
      {
        CountingIsEnough(parts, result, snapshotType, allowEmpty);
      }
    } else {
      RepeatsFool(files);
    }
  }

  // All listings but one are of staged parts and within their rows.
  ghost predicate KnownBut(result: seq<seq<Cell>>, parts: seq<StagedPart>, i: nat) {
    forall j :: 0 <= j < |result| && j != i ==> Known(result[j], parts)
  }

  ghost predicate WronglyAccepted(parts: seq<StagedPart>, result: seq<seq<Cell>>, missing: StagedPart) {
    && missing in parts && !Arrived(missing, result)
    && Reconcile(|parts|, TotalRows(parts), OutcomeOf(result), SNAPSHOT_WINDOW, false).None?
  }

  function StrayNames(files: seq<string>, i: nat): seq<string>
    requires i < |files|
  {
    files[i := FreshName(files)]
  }

  lemma StrayNamesSpec(files: seq<string>, i: nat)
    requires Distinct(files) && i < |files|
    ensures Distinct(StrayNames(files, i)) && FreshName(files) !in files && files[i] !in StrayNames(files, i)
  {
    FreshNameSpec(files);
    var names := StrayNames(files, i);
    assert forall j :: 0 <= j < |files| ==> files[j] in files;
    assert forall j :: 0 <= j < |names| ==> names[j] == if j == i then FreshName(files) else files[j];
  }

  lemma StrayKnown(files: seq<string>, i: nat)
    requires i < |files|
    ensures KnownBut(OneRowLoads(files), OneRowParts(StrayNames(files, i)), i)
  {
    var parts, result := OneRowParts(StrayNames(files, i)), OneRowLoads(files);
    forall j | 0 <= j < |result| && j != i ensures Known(result[j], parts) {
      assert parts[j] in parts && LoadsPart(result[j], parts[j]);
    }
  }

  // That the history names staged files only is necessary too: whatever distinct files it lists, and
  // whichever one of them is a stray, the stray can stand in for a staged part that never arrived.
  lemma StrayFileFools(files: seq<string>, i: nat)
    requires Distinct(files) && i < |files|
    ensures Lists(OneRowLoads(files), files)
    ensures var parts, result := OneRowParts(StrayNames(files, i)), OneRowLoads(files);
            DistinctParts(parts) && KnownBut(result, parts, i) &&
            (forall p :: p in parts ==> p.name != files[i]) && WronglyAccepted(parts, result, parts[i])
  {
    StrayNamesSpec(files, i);
    StrayKnown(files, i);
    AbsentIsAccepted(files, StrayNames(files, i), i);
    PartsOfNames(StrayNames(files, i));
  }

  lemma PartsOfNames(names: seq<string>)
    requires Distinct(names)
    ensures DistinctParts(OneRowParts(names)) && forall p :: p in OneRowParts(names) ==> p.name in names
  {
    assert forall j :: 0 <= j < |names| ==> OneRowParts(names)[j].name == names[j] && names[j] in names;
  }

  lemma AbsentIsAccepted(files: seq<string>, names: seq<string>, n: nat)
    requires |names| <= |files| && n < |names| && names[n] !in files
    ensures WronglyAccepted(OneRowParts(names), OneRowLoads(files), OneRowParts(names)[n])
  {
    OneRowTotals(names);
    OneRowOutcome(files);
    NeverListed(files, OneRowParts(names)[n]);
  }

  // One listing loads two rows, another none, every other one.
  function UnevenLoads(files: seq<string>, over: nat, under: nat): seq<seq<Cell>> {
    seq(|files|, i requires 0 <= i < |files| => UnevenRow(files[i], i, over, under))
  }

  function UnevenRow(file: string, i: nat, over: nat, under: nat): seq<Cell> {
    [Str(file), Str("LOADED"), Num(1), Num(if i == over then 2 else if i == under then 0 else 1)]
  }

  lemma {:induction false} UnevenOutcome(files: seq<string>, over: nat, under: nat)
    requires over != under
    ensures OutcomeOf(UnevenLoads(files, over, under)) ==
            CopyOutcome(files, |files| + (if over < |files| then 1 else 0) - (if under < |files| then 1 else 0), [])
  {
    if files != [] {
      var n := |files| - 1;
      UnevenOutcome(files[..n], over, under);
      OneMoreLoaded(UnevenLoads(files[..n], over, under), files[n], if n == over then 2 else if n == under then 0 else 1);
      UnevenStep(files, over, under);
    }
  }

  lemma UnevenStep(files: seq<string>, over: nat, under: nat)
    requires files != []
    ensures var n := |files| - 1;
            UnevenLoads(files, over, under) == UnevenLoads(files[..n], over, under) + [UnevenRow(files[n], n, over, under)] &&
            files == files[..n] + [files[n]]
  {
  }

  lemma OneMoreLoaded(result: seq<seq<Cell>>, file: string, rows: int)
    ensures var before := OutcomeOf(result);
            OutcomeOf(result + [[Str(file), Str("LOADED"), Num(1), Num(rows)]]) ==
            CopyOutcome(before.files + [file], before.rowsLoaded + rows, before.skipped)
  {
    LoadedIsNotSkipped();
    assert (result + [[Str(file), Str("LOADED"), Num(1), Num(rows)]])[..|result|] == result;
  }

  // And so is that no file loads more rows than it was staged with: whatever distinct staged files the
  // history lists, one that loads a row too many makes up for another that loads none of its own.
  lemma OverloadFools(files: seq<string>, over: nat, under: nat)
    requires Distinct(files) && over < |files| && under < |files| && over != under
    ensures var parts, result := OneRowParts(files), UnevenLoads(files, over, under);
            DistinctParts(parts) && Lists(result, files) && KnownBut(result, parts, over) &&
            WronglyAccepted(parts, result, parts[under])
  {
    var parts, result := OneRowParts(files), UnevenLoads(files, over, under);
    OneRowTotals(files);
    UnevenOutcome(files, over, under);
    forall j | 0 <= j < |result| && j != over ensures Known(result[j], parts) {
      assert parts[j] in parts && LoadsPart(result[j], parts[j]);
    }
    assert parts[under] in parts;
    assert forall j :: 0 <= j < |files| && j != under ==> FileOf(result[j]) != files[under];
    assert RowsLoaded(result[under]) == 0;
  }

  // The smallest case of a repeated file: a part loaded twice stands in for one that never arrived.
  lemma RepeatedFileFools()
    ensures var parts := [StagedPart("p1", 5), StagedPart("p2", 5)];
            var row := [Str("p1"), Str("LOADED"), Num(5), Num(5)];
            Reconcile(|parts|, TotalRows(parts), OutcomeOf([row, row]), SNAPSHOT_FULL, false).None? &&
            !Arrived(parts[1], [row, row])
  {
    var parts := [StagedPart("p1", 5), StagedPart("p2", 5)];
    var row := [Str("p1"), Str("LOADED"), Num(5), Num(5)];
    assert parts[..1] == [StagedPart("p1", 5)] && [row, row][..1] == [row];
    assert Upper("LOADED")[0] == 'L' && Upper("LOADED") != "LOAD_SKIPPED" by {
      assert |Upper("LOADED")| == 6;
    }
    assert OutcomeOf([row]) == CopyOutcome(["p1"], 5, []);
  }
}
