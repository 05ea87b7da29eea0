// The source table, the change log it emits, and what silver and gold hold once that log is drained.
module SourceAgreement {
  import opened Basics
  import opened Cdc
  import opened Merge
  import opened BatchSemantics
  import opened DeadLetters
  import opened SilverJob
  import opened Replay
  import opened Gold

  // The source's rows, the LSN of the last event of each payment there ever was, and the events in the
  // order they were written.
  datatype World = World(rows: map<int, Section>, lsns: map<int, int>, log: seq<Record>)

  const EMPTY := World(map[], map[], [])

  // An insert, a snapshot read or an update; or a delete, with a tombstone after it or not.
  datatype SourceOp =
    | Upsert(op: Op, id: int, row: Section, before: Section, lsn: int)
    | Remove(id: int, before: Section, lsn: int, tombstone: bool)

  // The row silver should hold for a source row: the same values in canonical form, whatever route
  // they took through the envelope.
  function Canonical(id: int, row: Section, lsn: int): Row {
    Row(Some(id),
        Columns(
          row.merchantId, CastAmount(row.amount), Code(row.currency), Slug(row.payMethod), Slug(row.status),
          Code(row.country), Seconds(row.createdAt), Seconds(row.updatedAt)),
        Some(lsn))
  }

  // The whole second a time in microseconds falls in, counted away from 1970 on either side.
  predicate InSecond(second: int, micros: int) {
    if micros >= 0 then 1_000_000 * second <= micros < 1_000_000 * (second + 1)
    else 1_000_000 * (second - 1) < micros <= 1_000_000 * second
  }

  // To the second, the first time is not after the other.
  ghost predicate NotAfter(micros: int, other: int) {
    micros <= other || exists second :: InSecond(second, micros) && InSecond(second, other)
  }

  const METHODS := {"apple_pay", "bank_transfer", "card", "google_pay", "paypal"}
  const STATUSES := {"authorized", "cancelled", "chargeback", "failed", "pending", "refunded"}

  // One line feed, carriage return, next line, line or paragraph separator, or the first two together.
  const LINE_ENDS := {"\n", "\r", "\r\n", "\U{85}", "\U{2028}", "\U{2029}"}

  // In canonical form, n capitals and then nothing or one line end.
  predicate ValidCode(text: Option<string>, n: nat) {
    && text.Some? && n <= |Code(text).value|
    && (forall i :: 0 <= i < n ==> 'A' <= Code(text).value[i] <= 'Z')
    && (|Code(text).value| > n ==> Code(text).value[n..] in LINE_ENDS)
  }

  lemma LineEnds(s: string)
    ensures IsLineEnd(s) <==> s in LINE_ENDS
  {
    assert |s| == 1 ==> s == [s[0]];
  }

  lemma ValidCodeMatches(text: Option<string>, n: nat)
    ensures ValidCode(text, n) <==> text.Some? && MatchesCode(Code(text).value, n)
  {
    if text.Some? && |Code(text).value| > n {
      LineEnds(Code(text).value[n..]);
    }
  }

  // A source row the quality rules accept: amounts are cents below ten billion units, so that they fit
  // DECIMAL(12,2).
  ghost predicate ValidRow(id: int, row: Section) {
    && row.paymentId == Some(id) && row.merchantId.Some?
    && row.amount.Some? && 0 <= row.amount.value < 1_000_000_000_000
    && ValidCode(row.currency, 3) && ValidCode(row.country, 2)
    && row.payMethod.Some? && Slug(row.payMethod).value in METHODS
    && row.status.Some? && Slug(row.status).value in STATUSES
    && row.createdAt.Some? && row.updatedAt.Some? && NotAfter(row.createdAt.value, row.updatedAt.value)
  }

  // What a silver row shows of a source row: its key, merchant and amount as they are, its times to the
  // second, its codes and slugs in canonical form.
  ghost predicate Shows(r: Row, id: int, row: Section, lsn: int) {
    var v := r.columns;
    && r.paymentId == Some(id) && r.lsn == Some(lsn)
    && v.merchantId == row.merchantId && v.amount == row.amount
    && v.currency == Code(row.currency) && v.country == Code(row.country)
    && v.payMethod == Slug(row.payMethod) && v.status == Slug(row.status)
    && v.createdAt.Some? && row.createdAt.Some? && InSecond(v.createdAt.value, row.createdAt.value)
    && v.updatedAt.Some? && row.updatedAt.Some? && InSecond(v.updatedAt.value, row.updatedAt.value)
  }

  lemma SecondsSpec(micros: int, second: int)
    ensures Seconds(Some(micros)) == Some(second) <==> InSecond(second, micros)
  {
    var s := TruncDiv(micros, 1_000_000);
    assert InSecond(s, micros);
  }

  lemma SecondsInOrder(micros: int, other: int)
    ensures NotAfter(micros, other) <==> Seconds(Some(micros)).value <= Seconds(Some(other)).value
  {
    var s, t := Seconds(Some(micros)).value, Seconds(Some(other)).value;
    SecondsSpec(micros, s);
    SecondsSpec(other, t);
    if s < t {
      assert micros <= other;
    }
    forall second | InSecond(second, micros) && InSecond(second, other) ensures s == t {
      SecondsSpec(micros, second);
      SecondsSpec(other, second);
    }
  }

  // The quality rules accept the canonical row exactly when the source row is valid.
  lemma ValidMeansClean(id: int, row: Section, lsn: int)
    ensures row.paymentId == Some(id) ==> (ValidRow(id, row) <==> CleanRow(Canonical(id, row, lsn)))
  {
    ValidCodeMatches(row.currency, 3);
    ValidCodeMatches(row.country, 2);
    if row.createdAt.Some? && row.updatedAt.Some? {
      SecondsInOrder(row.createdAt.value, row.updatedAt.value);
    }
  }

  lemma CanonicalShows(id: int, row: Section, lsn: int)
    requires ValidRow(id, row)
    ensures Shows(Canonical(id, row, lsn), id, row, lsn)
  {
    SecondsSpec(row.createdAt.value, Seconds(row.createdAt).value);
    SecondsSpec(row.updatedAt.value, Seconds(row.updatedAt).value);
  }

  // An event's LSN is higher than those of the payment's earlier events; other payments' do not matter.
  predicate Fresh(w: World, id: int, lsn: int) {
    id in w.lsns ==> lsn > w.lsns[id]
  }

  // Inserts need a free id, updates and deletes a live one. A snapshot read shows the row as it is, or
  // one that was there before the log began. A delete's before section carries at least the key, and an
  // upsert's carries anything.
  ghost predicate Allowed(w: World, op: SourceOp) {
    && Fresh(w, op.id, op.lsn)
    && match op
       case Upsert(kind, id, row, _, _) =>
         && ValidRow(id, row)
         && (match kind
             case Create => id !in w.rows
             case Update => id in w.rows
             case Read => id in w.rows ==> row == w.rows[id]
             case Delete => false)
       case Remove(id, before, _, _) => id in w.rows && before.paymentId == Some(id)
  }

  function OpName(op: Op): string {
    match op
    case Create => "c"
    case Read => "r"
    case Update => "u"
    case Delete => "d"
  }

  function Event(w: World, op: Op, lsn: int, after: Section, before: Section): Record {
    Record(0, |w.log|, Some(Envelope(Some(OpName(op)), Some(lsn), after, before)))
  }

  function Commit(w: World, op: SourceOp): World {
    match op
    case Upsert(kind, id, row, before, lsn) =>
      World(w.rows[id := row], w.lsns[id := lsn], w.log + [Event(w, kind, lsn, row, before)])
    case Remove(id, before, lsn, tombstone) =>
      var log := w.log + [Event(w, Op.Delete, lsn, NO_SECTION, before)];
      World(w.rows - {id}, w.lsns[id := lsn], if tombstone then log + [Record(0, |log|, None)] else log)
  }

  ghost predicate IsHistory(ops: seq<SourceOp>)
  {
    ops == [] || (IsHistory(ops[..|ops| - 1]) && Allowed(After(ops[..|ops| - 1]), ops[|ops| - 1]))
  }

  function After(ops: seq<SourceOp>): World {
    if ops == [] then EMPTY else Commit(After(ops[..|ops| - 1]), ops[|ops| - 1])
  }

  function Expected(w: World, k: int): Option<Row>
    requires w.rows.Keys <= w.lsns.Keys
  {
    if k in w.rows then Some(Canonical(k, w.rows[k], w.lsns[k])) else None
  }

  ghost predicate Known(c: Change, lsns: map<int, int>) {
    c.paymentId.Some? && c.paymentId.value in lsns && c.lsn.Some? && c.lsn.value <= lsns[c.paymentId.value]
  }

  // What the log promises at every moment: it is sequenced and clean, and its LSNs are accounted for ...
  ghost predicate OrderlyLog(log: seq<Record>, lsns: map<int, int>) {
    Sequenced(log) && CleanLog(log) && forall c :: c in Projected(log) ==> Known(c, lsns)
  }

  // ... and it folds to the source table.
  ghost predicate Mirrors(w: World) {
    w.rows.Keys <= w.lsns.Keys && forall k: int :: KeyFold(w.log, k) == Expected(w, k)
  }

  // Appending one change that is new to its payment acts on that payment only.
  lemma AppendChange(log: seq<Record>, r: Record)
    requires Sequenced(log) && RouteOf(r).Processable? && Project(r).lsn.Some?
    requires forall c :: c in Projected(log) && c.paymentId == Project(r).paymentId ==> Before(c, Project(r))
    ensures Sequenced(log + [r])
    ensures Projected(log + [r]) == Projected(log) + [Project(r)]
    ensures forall k: int :: KeyFold(log + [r], k) ==
                             (if Project(r).paymentId == Some(k) then ApplyChange(KeyFold(log, k), Project(r)) else KeyFold(log, k))
  {
    assert (log + [r])[..|log|] == log;
    var p := Projected(log);
    assert (p + [Project(r)])[..|p|] == p;
    assert forall i :: 0 <= i < |p| ==> p[i] in p;
  }

  lemma AppendTombstone(log: seq<Record>, offset: nat)
    ensures Projected(log + [Record(0, offset, None)]) == Projected(log)
  {
    assert (log + [Record(0, offset, None)])[..|log|] == log;
  }

  // When the after section is a whole row, the before section is not read.
  lemma BeforeIsUnread(id: int, row: Section, before: Section)
    requires ValidRow(id, row)
    ensures forall lsn: int :: Canonical(id, row, lsn) == Row(Some(id), ColumnsOf(row, before), Some(lsn))
  {
    ValidMeansClean(id, row, 0);
  }

  lemma UpsertEvent(w: World, op: Op, id: int, lsn: int, row: Section, before: Section)
    requires ValidRow(id, row) && IsUpsert(op)
    ensures var r := Event(w, op, lsn, row, before);
            RouteOf(r) == Processable(op) && Project(r).op == op &&
            RowOf(Project(r)) == Canonical(id, row, lsn) && CleanRow(RowOf(Project(r)))
  {
    BeforeIsUnread(id, row, before);
    ValidMeansClean(id, row, lsn);
  }

  lemma RemoveEvent(w: World, id: int, lsn: int, before: Section)
    requires before.paymentId == Some(id)
    ensures var r := Event(w, Op.Delete, lsn, NO_SECTION, before);
            RouteOf(r) == Processable(Op.Delete) && Project(r).op.Delete? &&
            Project(r).paymentId == Some(id) && Project(r).lsn == Some(lsn)
  {
  }

  // r is a new event of payment id: its LSN passes all earlier ones of that payment.
  ghost predicate IsNext(w: World, r: Record, id: int, lsn: int) {
    RouteOf(r).Processable? && Project(r).paymentId == Some(id) && Project(r).lsn == Some(lsn) && Fresh(w, id, lsn)
  }

  lemma NextIsNewer(w: World, r: Record, id: int, lsn: int)
    requires OrderlyLog(w.log, w.lsns) && IsNext(w, r, id, lsn)
    ensures forall c :: c in Projected(w.log) && c.paymentId == Project(r).paymentId ==> Before(c, Project(r))
  {
    forall c | c in Projected(w.log) && c.paymentId == Project(r).paymentId ensures Before(c, Project(r)) {
      assert Known(c, w.lsns);
    }
  }

  lemma AppendKeepsOrder(w: World, r: Record, id: int, lsn: int)
    requires OrderlyLog(w.log, w.lsns) && IsNext(w, r, id, lsn)
    requires IsUpsert(RouteOf(r).op) ==> CleanRow(RowOf(Project(r)))
    ensures OrderlyLog(w.log + [r], w.lsns[id := lsn])
  {
    NextIsNewer(w, r, id, lsn);
    AppendChange(w.log, r);
    forall c | c in Projected(w.log) ensures Known(c, w.lsns[id := lsn]) {
      assert Known(c, w.lsns);
    }
  }

  // One appended change that does to its payment what the source did keeps log and source in step.
  lemma AppendMirrors(w: World, w': World, r: Record, id: int, lsn: int)
    requires OrderlyLog(w.log, w.lsns) && Mirrors(w) && IsNext(w, r, id, lsn)
    requires w'.log == w.log + [r] && w'.rows.Keys <= w'.lsns.Keys
    requires ApplyChange(Expected(w, id), Project(r)) == Expected(w', id)
    requires forall k: int :: k != id ==> Expected(w', k) == Expected(w, k)
    ensures Mirrors(w')
  {
    NextIsNewer(w, r, id, lsn);
    AppendChange(w.log, r);
    forall k: int ensures KeyFold(w'.log, k) == Expected(w', k) {
      assert KeyFold(w.log, k) == Expected(w, k);
    }
  }

  // What the MERGE's branches make of the expected row is the expected row after the commit.
  lemma UpsertMirrors(w: World, op: SourceOp, c: Change)
    requires w.rows.Keys <= w.lsns.Keys && op.Upsert? && Fresh(w, op.id, op.lsn)
    requires RowOf(c) == Canonical(op.id, op.row, op.lsn) && IsUpsert(c.op)
    ensures var w' := Commit(w, op);
            w'.rows.Keys <= w'.lsns.Keys &&
            ApplyChange(Expected(w, op.id), c) == Expected(w', op.id) &&
            forall k: int :: k != op.id ==> Expected(w', k) == Expected(w, k)
  {
  }

  lemma RemoveMirrors(w: World, op: SourceOp, c: Change)
    requires w.rows.Keys <= w.lsns.Keys && op.Remove? && !op.tombstone && Fresh(w, op.id, op.lsn)
    requires c.op.Delete? && c.lsn == Some(op.lsn)
    ensures var w' := Commit(w, op);
            w'.rows.Keys <= w'.lsns.Keys &&
            ApplyChange(Expected(w, op.id), c) == Expected(w', op.id) &&
            forall k: int :: k != op.id ==> Expected(w', k) == Expected(w, k)
  {
  }

  lemma UpsertIsFaithful(w: World, op: SourceOp)
    requires OrderlyLog(w.log, w.lsns) && Mirrors(w) && op.Upsert? && Allowed(w, op)
    ensures var w' := Commit(w, op); OrderlyLog(w'.log, w'.lsns) && Mirrors(w')
    ensures var row := KeyFold(Commit(w, op).log, op.id); row.Some? && Shows(row.value, op.id, op.row, op.lsn)
  {
    CanonicalShows(op.id, op.row, op.lsn);
    var r := Event(w, op.op, op.lsn, op.row, op.before);
    UpsertEvent(w, op.op, op.id, op.lsn, op.row, op.before);
    assert IsNext(w, r, op.id, op.lsn);
    AppendKeepsOrder(w, r, op.id, op.lsn);
    UpsertMirrors(w, op, Project(r));
    AppendMirrors(w, Commit(w, op), r, op.id, op.lsn);
  }

  // Without the tombstone ...
  lemma DeleteIsFaithful(w: World, op: SourceOp)
    requires OrderlyLog(w.log, w.lsns) && Mirrors(w) && op.Remove? && Allowed(w, op)
    ensures var w' := Commit(w, op.(tombstone := false)); OrderlyLog(w'.log, w'.lsns) && Mirrors(w')
  {
    var plain := op.(tombstone := false);
    var r := Event(w, Op.Delete, op.lsn, NO_SECTION, op.before);
    RemoveEvent(w, op.id, op.lsn, op.before);
    assert IsNext(w, r, op.id, op.lsn);
    AppendKeepsOrder(w, r, op.id, op.lsn);
    RemoveMirrors(w, plain, Project(r));
    AppendMirrors(w, Commit(w, plain), r, op.id, op.lsn);
  }

  // ... which changes nothing that is projected.
  lemma TombstoneIsFaithful(w: World, offset: nat)
    requires OrderlyLog(w.log, w.lsns) && Mirrors(w)
    ensures var w' := w.(log := w.log + [Record(0, offset, None)]); OrderlyLog(w'.log, w'.lsns) && Mirrors(w')
  {
    var w' := w.(log := w.log + [Record(0, offset, None)]);
    AppendTombstone(w.log, offset);
    forall k: int ensures KeyFold(w'.log, k) == Expected(w', k) {
      assert KeyFold(w.log, k) == Expected(w, k);
    }
  }

  lemma RemoveIsFaithful(w: World, op: SourceOp)
    requires OrderlyLog(w.log, w.lsns) && Mirrors(w) && op.Remove? && Allowed(w, op)
    ensures var w' := Commit(w, op); OrderlyLog(w'.log, w'.lsns) && Mirrors(w')
  {
    DeleteIsFaithful(w, op);
    if op.tombstone {
      var w' := Commit(w, op.(tombstone := false));
      TombstoneIsFaithful(w', |w'.log|);
    }
  }

  lemma HistoryIsFaithful(ops: seq<SourceOp>)
    requires IsHistory(ops)
    ensures OrderlyLog(After(ops).log, After(ops).lsns) && Mirrors(After(ops))
    ensures forall k: int :: ShowsLast(KeyFold(After(ops).log, k), LastOp(ops, k), k)
  {
    FoldsOfHistory(ops);
    forall k: int ensures ShowsLast(KeyFold(After(ops).log, k), LastOp(ops, k), k) {
      ExpectedShowsLast(ops, k);
      assert KeyFold(After(ops).log, k) == Expected(After(ops), k);
    }
  }

  lemma {:induction false} FoldsOfHistory(ops: seq<SourceOp>)
    requires IsHistory(ops)
    ensures OrderlyLog(After(ops).log, After(ops).lsns) && Mirrors(After(ops))
  {
    if ops != [] {
      FoldsOfHistory(ops[..|ops| - 1]);
      var w, op := After(ops[..|ops| - 1]), ops[|ops| - 1];
      if op.Remove? {
        RemoveIsFaithful(w, op);
      } else {
        UpsertIsFaithful(w, op);
      }
    }
  }

  // A time the after section lacks is taken from the before section; what neither has is NULL.
  ghost predicate IsTimeOf(column: Option<int>, after: Option<int>, before: Option<int>) {
    if after.Some? then column.Some? && InSecond(column.value, after.value)
    else if before.Some? then column.Some? && InSecond(column.value, before.value)
    else column.None?
  }

  lemma TimesFallBack(r: Record)
    requires RouteOf(r).Processable?
    ensures var e, v := r.value.value, Project(r).columns;
            IsTimeOf(v.createdAt, e.after.createdAt, e.before.createdAt) && IsTimeOf(v.updatedAt, e.after.updatedAt, e.before.updatedAt)
  {
    var e, v := r.value.value, Project(r).columns;
    if v.createdAt.Some? {
      SecondsSpec(Coalesce(e.after.createdAt, e.before.createdAt).value, v.createdAt.value);
    }
    if v.updatedAt.Some? {
      SecondsSpec(Coalesce(e.after.updatedAt, e.before.updatedAt).value, v.updatedAt.value);
    }
  }

  // Beyond the key and the times nothing is taken from the before section, whatever the after section lacks.
  lemma BeforeGivesKeyAndTimes(r: Record, before: Section)
    requires RouteOf(r).Processable?
    requires var b := r.value.value.before; before.paymentId == b.paymentId && before.createdAt == b.createdAt && before.updatedAt == b.updatedAt
    ensures var q := r.(value := Some(r.value.value.(before := before)));
            RouteOf(q).Processable? && Project(q) == Project(r)
  {
  }

  /******* What a history makes of the source table *******/

  // The last operation about payment id.
  function LastOp(ops: seq<SourceOp>, id: int): Option<SourceOp> {
    if ops == [] then None
    else if ops[|ops| - 1].id == id then Some(ops[|ops| - 1])
    else LastOp(ops[..|ops| - 1], id)
  }

  // A payment is in the source exactly when its last operation was not a delete, and then as that
  // operation left it; every operation wrote one event.
  lemma {:induction false} HistoryTable(ops: seq<SourceOp>, id: int)
    requires IsHistory(ops)
    ensures var w, last := After(ops), LastOp(ops, id);
            (id in w.rows <==> last.Some? && last.value.Upsert?) &&
            (id in w.rows ==> w.rows[id] == last.value.row && ValidRow(id, w.rows[id])) &&
            (last.Some? ==> id in w.lsns && w.lsns[id] == last.value.lsn)
    ensures |Projected(After(ops).log)| == |ops|
  {
    if ops != [] {
      var init, op := ops[..|ops| - 1], ops[|ops| - 1];
      HistoryTable(init, id);
      OneEvent(After(init), op);
    }
  }

  lemma OneEvent(w: World, op: SourceOp)
    requires Allowed(w, op)
    ensures |Projected(Commit(w, op).log)| == |Projected(w.log)| + 1
  {
    match op
    case Upsert(kind, id, row, before, lsn) =>
      UpsertEvent(w, kind, id, lsn, row, before);
      assert (w.log + [Event(w, kind, lsn, row, before)])[..|w.log|] == w.log;
    case Remove(id, before, lsn, tombstone) =>
      RemoveEvent(w, id, lsn, before);
      var log := w.log + [Event(w, Op.Delete, lsn, NO_SECTION, before)];
      assert log[..|w.log|] == w.log;
      AppendTombstone(log, |log|);
  }

  /******* Logs that keep the order per payment *******/

  function ChangesOf(cs: seq<Change>, k: Option<int>): seq<Change> {
    if cs == [] then []
    else
      var rest := ChangesOf(cs[..|cs| - 1], k);
      if cs[|cs| - 1].paymentId == k then rest + [Content(cs[|cs| - 1])] else rest
  }

  // The two logs hold the same changes of every payment in the same order. How payments interleave, on
  // which partitions and offsets, and what tombstones and rejects lie between is left open.
  ghost predicate SameOrder(log: seq<Record>, written: seq<Record>) {
    forall k: Option<int> :: ChangesOf(Projected(log), k) == ChangesOf(Projected(written), k)
  }

  lemma {:induction false} ChangesOfSpec(cs: seq<Change>, k: Option<int>)
    ensures forall c :: c in cs && c.paymentId == k ==> Content(c) in ChangesOf(cs, k)
    ensures forall d :: d in ChangesOf(cs, k) ==> exists c :: c in cs && c.paymentId == k && d == Content(c)
  {
    if cs != [] {
      ChangesOfSpec(cs[..|cs| - 1], k);
      assert cs == cs[..|cs| - 1] + [cs[|cs| - 1]];
    }
  }

  lemma {:induction false} FoldOfChanges(cs: seq<Change>, k: int)
    ensures FoldKey(None, ChangesOf(cs, Some(k)), k) == FoldKey(None, cs, k)
  {
    if cs != [] {
      var init, c := cs[..|cs| - 1], cs[|cs| - 1];
      FoldOfChanges(init, k);
      var own := ChangesOf(init, Some(k));
      assert (own + [Content(c)])[..|own|] == own;
    }
  }

  ghost predicate AllBefore(cs: seq<Change>, c: Change) {
    forall d :: d in cs && d.paymentId == c.paymentId ==> Before(d, c)
  }

  lemma AscendingAppend(cs: seq<Change>, c: Change)
    ensures Ascending(cs + [c]) <==> Ascending(cs) && (c.paymentId.Some? ==> AllBefore(cs, c))
  {
    var all := cs + [c];
    assert all[|cs|] == c && forall i :: 0 <= i < |cs| ==> all[i] == cs[i];
    if Ascending(all) {
      forall d | d in cs && c.paymentId.Some? && d.paymentId == c.paymentId ensures Before(d, c) {
        var i :| 0 <= i < |cs| && cs[i] == d;
        assert Before(all[i], all[|cs|]);
      }
      assert forall i, j :: 0 <= i < j < |cs| && cs[i].paymentId.Some? && cs[i].paymentId == cs[j].paymentId ==> Before(all[i], all[j]);
    }
  }

  lemma AllBeforeContents(cs: seq<Change>, c: Change)
    ensures AllBefore(ChangesOf(cs, c.paymentId), Content(c)) <==> AllBefore(cs, c)
  {
    ChangesOfSpec(cs, c.paymentId);
    if AllBefore(ChangesOf(cs, c.paymentId), Content(c)) {
      forall d | d in cs && d.paymentId == c.paymentId ensures Before(d, c) {
        assert Content(d) in ChangesOf(cs, c.paymentId);
      }
    }
  }

  lemma ChangesOfAppend(cs: seq<Change>, c: Change, k: Option<int>)
    ensures ChangesOf(cs + [c], k) == if c.paymentId == k then ChangesOf(cs, k) + [Content(c)] else ChangesOf(cs, k)
  {
    assert (cs + [c])[..|cs|] == cs;
  }

  lemma AscendingKeyStep(cs: seq<Change>, c: Change, k: int)
    ensures Ascending(ChangesOf(cs + [c], Some(k))) <==>
            Ascending(ChangesOf(cs, Some(k))) && (c.paymentId == Some(k) ==> AllBefore(cs, c))
  {
    ChangesOfAppend(cs, c, Some(k));
    if c.paymentId == Some(k) {
      AscendingAppend(ChangesOf(cs, Some(k)), Content(c));
      AllBeforeContents(cs, c);
    }
  }

  lemma {:induction false} AscendingPerKey(cs: seq<Change>)
    ensures Ascending(cs) <==> forall k: int :: Ascending(ChangesOf(cs, Some(k)))
  {
    if cs != [] {
      var init, c := cs[..|cs| - 1], cs[|cs| - 1];
      assert cs == init + [c];
      AscendingPerKey(init);
      AscendingAppend(init, c);
      forall k: int ensures Ascending(ChangesOf(cs, Some(k))) <==>
                            Ascending(ChangesOf(init, Some(k))) && (c.paymentId == Some(k) ==> AllBefore(init, c)) {
        AscendingKeyStep(init, c, k);
      }
      if c.paymentId.Some? {
        var k := c.paymentId.value;
        assert Ascending(ChangesOf(cs, Some(k))) <==> Ascending(ChangesOf(init, Some(k))) && AllBefore(init, c);
      }
    }
  }

  // Order per payment is all that the fold, the sequence and cleanness of a log depend on.
  lemma SameOrderSuffices(log: seq<Record>, written: seq<Record>)
    requires SameOrder(log, written) && Sequenced(written) && CleanLog(written)
    ensures Sequenced(log) && CleanLog(log)
    ensures forall k: int :: KeyFold(log, k) == KeyFold(written, k)
  {
    var cs, ds := Projected(log), Projected(written);
    AscendingPerKey(cs);
    AscendingPerKey(ds);
    forall k: int ensures KeyFold(log, k) == KeyFold(written, k) {
      FoldOfChanges(cs, k);
      FoldOfChanges(ds, k);
    }
    forall r | r in log && RouteOf(r).Processable? && IsUpsert(RouteOf(r).op) ensures CleanRow(RowOf(Project(r))) {
      SameOrderClean(log, written, r);
    }
  }

  lemma SameOrderClean(log: seq<Record>, written: seq<Record>, r: Record)
    requires SameOrder(log, written) && CleanLog(written)
    requires r in log && RouteOf(r).Processable? && IsUpsert(RouteOf(r).op)
    ensures CleanRow(RowOf(Project(r)))
  {
    var c := Project(r);
    RoutingConserves(log);
    RoutingConserves(written);
    ChangesOfSpec(Projected(log), c.paymentId);
    ChangesOfSpec(Projected(written), c.paymentId);
    assert Content(c) in ChangesOf(Projected(written), c.paymentId);
    var d :| d in Projected(written) && d.paymentId == c.paymentId && Content(c) == Content(d);
    assert d.op == Content(d).op && RowOf(d) == RowOf(Content(d)) && RowOf(c) == RowOf(Content(c));
  }

  /******* Counting payments *******/

  function Ids(silver: seq<Row>): set<int> {
    set r | r in silver && r.paymentId.Some? :: r.paymentId.value
  }

  lemma {:induction false} IdsCountRows(silver: seq<Row>)
    requires CleanTable(silver)
    ensures |Ids(silver)| == |silver|
    ensures forall k :: k in Ids(silver) <==> Lookup(silver, k).Some?
  {
    if silver != [] {
      var init, r := silver[..|silver| - 1], silver[|silver| - 1];
      IdsCountRows(init);
      assert silver == init + [r];
      assert r in silver;
      assert Ids(silver) == Ids(init) + {r.paymentId.value};
      assert r.paymentId.value !in Ids(init);
    }
    forall k ensures k in Ids(silver) <==> Lookup(silver, k).Some? {
      LookupSpec(silver, k);
    }
  }

  lemma DrainedSilverIsTheSource(w: World, silver: seq<Row>)
    requires Mirrors(w) && CleanTable(silver)
    requires forall k: int :: Lookup(silver, k) == KeyFold(w.log, k)
    ensures |silver| == |w.rows|
  {
    IdsCountRows(silver);
    forall k ensures k in Ids(silver) <==> k in w.rows.Keys {
      assert Lookup(silver, k) == KeyFold(w.log, k) == Expected(w, k);
    }
    assert Ids(silver) == w.rows.Keys;
    assert |w.rows| == |w.rows.Keys|;
  }

  lemma {:induction false} WhereAll(facts: seq<Fact>, p: GoldKey -> bool)
    requires forall k :: p(k)
    ensures Where(facts, p) == facts
  {
    if facts != [] {
      WhereAll(facts[..|facts| - 1], p);
    }
  }

  // Delivering the rest of the log as one batch gets the cursor to its end.
  ghost predicate Drains(s: State) {
    s.cursor <= |s.log| && Next(s, Deliver(|s.log| - s.cursor)).cursor == |s.log|
  }

  // For any history of the source table and any run of the silver job over a log that keeps the order of
  // its events per payment: no batch ever fails validation, so the rest of the log can always be
  // delivered, and once the cursor is at the end silver holds exactly the source rows: one for each
  // payment whose last operation was not a delete, showing that operation's row. Gold's counts add up to
  // their number.
  lemma DrainedRunAgrees(ops: seq<SourceOp>, steps: seq<Step>)
    requires IsHistory(ops) && SameOrder(Run(START, steps).log, After(ops).log)
    ensures Drains(Run(START, steps))
    ensures var s := Run(START, steps);
            CleanTable(s.silver) &&
            (s.cursor == |s.log| ==>
              (forall k: int :: ShowsLast(Lookup(s.silver, k), LastOp(ops, k), k)) &&
              |s.silver| == |After(ops).rows| &&
              SumRows(BuildGold(FactsOf(s.silver)), (k: GoldKey) => true, CountOf) == |After(ops).rows|)
  {
    NothingBlocks(ops, steps);
    RunKeepsSilverClean(steps);
    if Run(START, steps).cursor == |Run(START, steps).log| {
      LogOfHistory(ops, Run(START, steps).log);
      DrainedFolds(steps, After(ops).log);
      DrainedTableAgrees(ops, Run(START, steps).silver);
    }
  }

  lemma LogOfHistory(ops: seq<SourceOp>, log: seq<Record>)
    requires IsHistory(ops) && SameOrder(log, After(ops).log)
    ensures Sequenced(log) && CleanLog(log)
    ensures forall k: int :: KeyFold(log, k) == KeyFold(After(ops).log, k)
  {
    FoldsOfHistory(ops);
    SameOrderSuffices(log, After(ops).log);
  }

  lemma NothingBlocks(ops: seq<SourceOp>, steps: seq<Step>)
    requires IsHistory(ops) && SameOrder(Run(START, steps).log, After(ops).log)
    ensures Drains(Run(START, steps))
  {
    HistoryIsClean(ops, Run(START, steps).log);
    RunIsValid(steps);
    RestIsDeliverable(Run(START, steps));
  }

  lemma HistoryIsClean(ops: seq<SourceOp>, log: seq<Record>)
    requires IsHistory(ops) && SameOrder(log, After(ops).log)
    ensures CleanLog(log)
  {
    LogOfHistory(ops, log);
  }

  lemma DrainedFolds(steps: seq<Step>, written: seq<Record>)
    requires Sequenced(Run(START, steps).log) && forall k: int :: KeyFold(Run(START, steps).log, k) == KeyFold(written, k)
    ensures var s := Run(START, steps); s.cursor == |s.log| ==> forall k: int :: Lookup(s.silver, k) == KeyFold(written, k)
  {
    ReplayConverges(steps);
  }

  lemma DrainedTableAgrees(ops: seq<SourceOp>, silver: seq<Row>)
    requires IsHistory(ops) && CleanTable(silver)
    requires forall k: int :: Lookup(silver, k) == KeyFold(After(ops).log, k)
    ensures forall k: int :: ShowsLast(Lookup(silver, k), LastOp(ops, k), k)
    ensures |silver| == |After(ops).rows|
    ensures SumRows(BuildGold(FactsOf(silver)), (k: GoldKey) => true, CountOf) == |After(ops).rows|
  {
    HistoryIsFaithful(ops);
    DrainedSilverIsTheSource(After(ops), silver);
    GoldCountsAll(silver);
  }

  // A row exactly when the payment's last operation left one, and then showing it.
  ghost predicate ShowsLast(found: Option<Row>, last: Option<SourceOp>, id: int) {
    if last.None? || last.value.Remove? then found.None?
    else found.Some? && Shows(found.value, id, last.value.row, last.value.lsn)
  }

  lemma ExpectedShowsLast(ops: seq<SourceOp>, k: int)
    requires IsHistory(ops) && After(ops).rows.Keys <= After(ops).lsns.Keys
    ensures ShowsLast(Expected(After(ops), k), LastOp(ops, k), k)
  {
    HistoryTable(ops, k);
    var w := After(ops);
    if k in w.rows {
      CanonicalShows(k, w.rows[k], w.lsns[k]);
    }
  }

  lemma RestIsDeliverable(s: State)
    requires Valid(s) && CleanLog(s.log)
    ensures Drains(s)
  {
    NeverFails(s.log[s.cursor..|s.log|]);
  }

  lemma GoldCountsAll(silver: seq<Row>)
    requires CleanTable(silver)
    ensures SumRows(BuildGold(FactsOf(silver)), (k: GoldKey) => true, CountOf) == |silver|
  {
    var all := (k: GoldKey) => true;
    CountsConserve(FactsOf(silver), all);
    WhereAll(FactsOf(silver), all);
  }
}
