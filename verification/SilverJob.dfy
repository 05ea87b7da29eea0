// The silver streaming job: validation, and the effects of one micro-batch on the silver and
// dead-letter tables in the order the job performs them.
module SilverJob {
  import opened Basics
  import opened Cdc
  import opened Merge
  import opened DeadLetters
  import opened Routing

  /******* Data quality *******/

  predicate IsLetters(s: string, n: nat) {
    |s| == n && forall i :: 0 <= i < n ==> 'A' <= s[i] <= 'Z'
  }

  predicate IsLineEnd(s: string) {
    s == "\n" || s == "\r" || s == "\r\n" || (|s| == 1 && (s[0] as int == 0x85 || s[0] as int == 0x2028 || s[0] as int == 0x2029))
  }

  // The pattern ^[A-Z]{n}$. The closing anchor also matches before one final line end.
  predicate MatchesCode(s: string, n: nat) {
    IsLetters(s, n) || (|s| > n && IsLetters(s[..n], n) && IsLineEnd(s[n..]))
  }

  predicate AllowedMethod(s: string) {
    s == "apple_pay" || s == "bank_transfer" || s == "card" || s == "google_pay" || s == "paypal"
  }

  const AUTHORIZED := "authorized"

  predicate AllowedStatus(s: string) {
    s == AUTHORIZED || s == "cancelled" || s == "chargeback" || s == "failed" || s == "pending" || s == "refunded"
  }

  datatype Metric =
    | NullPaymentId | NullMerchantId | NullAmount | NegativeAmount | NullCurrency | InvalidCurrency
    | NullMethod | InvalidMethod | NullStatus | InvalidStatus | NullCountry | InvalidCountry
    | NullCreatedAt | NullUpdatedAt | UpdatedBeforeCreated | NullLsn

  // The term each metric sums, with a comparison on NULL counting as not violated.
  predicate Violates(m: Metric, c: Change) {
    var v := c.columns;
    match m
    case NullPaymentId => c.paymentId.None?
    case NullMerchantId => v.merchantId.None?
    case NullAmount => v.amount.None?
    case NegativeAmount => v.amount.Some? && v.amount.value < 0
    case NullCurrency => v.currency.None?
    case InvalidCurrency => v.currency.Some? && !MatchesCode(v.currency.value, 3)
    case NullMethod => v.payMethod.None?
    case InvalidMethod => v.payMethod.Some? && !AllowedMethod(v.payMethod.value)
    case NullStatus => v.status.None?
    case InvalidStatus => v.status.Some? && !AllowedStatus(v.status.value)
    case NullCountry => v.country.None?
    case InvalidCountry => v.country.Some? && !MatchesCode(v.country.value, 2)
    case NullCreatedAt => v.createdAt.None?
    case NullUpdatedAt => v.updatedAt.None?
    case UpdatedBeforeCreated => v.updatedAt.Some? && v.createdAt.Some? && v.updatedAt.value < v.createdAt.value
    case NullLsn => c.lsn.None?
  }

  predicate Counted(m: Metric, upserts: seq<Change>) {
    exists c :: c in upserts && Violates(m, c)
  }

  function Failures(upserts: seq<Change>): set<Metric> {
    set m: Metric | Counted(m, upserts)
  }

  // What a consumer of silver may rely on for every row.
  predicate CleanRow(r: Row) {
    var v := r.columns;
    && r.paymentId.Some? && r.lsn.Some? && v.merchantId.Some?
    && v.amount.Some? && 0 <= v.amount.value < DECIMAL_12_2_BOUND
    && v.currency.Some? && MatchesCode(v.currency.value, 3)
    && v.payMethod.Some? && AllowedMethod(v.payMethod.value)
    && v.status.Some? && AllowedStatus(v.status.value)
    && v.country.Some? && MatchesCode(v.country.value, 2)
    && v.createdAt.Some? && v.updatedAt.Some? && v.createdAt.value <= v.updatedAt.value
  }

  function UpsertsOf(cs: seq<Change>): seq<Change> {
    if cs == [] then []
    else if IsUpsert(cs[0].op) then [cs[0]] + UpsertsOf(cs[1..])
    else UpsertsOf(cs[1..])
  }

  lemma {:induction false} UpsertsOfSpec(cs: seq<Change>)
    ensures forall c :: c in UpsertsOf(cs) <==> c in cs && IsUpsert(c.op)
  {
    if cs != [] {
      UpsertsOfSpec(cs[1..]);
      assert cs == [cs[0]] + cs[1..];
    }
  }

  predicate AmountFits(c: Change) {
    c.columns.amount.Some? ==> -DECIMAL_12_2_BOUND < c.columns.amount.value < DECIMAL_12_2_BOUND
  }

  lemma CleanViolatesNothing(c: Change, m: Metric)
    requires CleanRow(RowOf(c))
    ensures !Violates(m, c)
  {
  }

  lemma NoViolationIsClean(c: Change)
    requires AmountFits(c)
    requires forall m: Metric :: !Violates(m, c)
    ensures CleanRow(RowOf(c))
  {
    assert !Violates(NullPaymentId, c) && !Violates(NullMerchantId, c) && !Violates(NullLsn, c);
    assert !Violates(NullAmount, c) && !Violates(NegativeAmount, c);
    assert !Violates(NullCurrency, c) && !Violates(InvalidCurrency, c);
    assert !Violates(NullMethod, c) && !Violates(InvalidMethod, c);
    assert !Violates(NullStatus, c) && !Violates(InvalidStatus, c);
    assert !Violates(NullCountry, c) && !Violates(InvalidCountry, c);
    assert !Violates(NullCreatedAt, c) && !Violates(NullUpdatedAt, c) && !Violates(UpdatedBeforeCreated, c);
  }

  // The sixteen metrics are all zero exactly when every upsert would make a clean row.
  lemma ValidationMeansClean(upserts: seq<Change>)
    requires forall c :: c in upserts ==> AmountFits(c)
    ensures Failures(upserts) == {} <==> forall c :: c in upserts ==> CleanRow(RowOf(c))
  {
    if Failures(upserts) == {} {
      forall c | c in upserts ensures CleanRow(RowOf(c)) {
        forall m: Metric ensures !Violates(m, c) {
          assert m !in Failures(upserts);
        }
        NoViolationIsClean(c);
      }
    }
    if forall c :: c in upserts ==> CleanRow(RowOf(c)) {
      forall m: Metric ensures !Counted(m, upserts) {
        forall c | c in upserts ensures !Violates(m, c) {
          CleanViolatesNothing(c, m);
        }
      }
    }
  }

  /******* One batch *******/

  datatype Verdict = NothingToApply | Passed | Failed(failures: set<Metric>)

  function VerdictOn(batch: seq<Record>): Verdict {
    var changes := BuildChanges(batch);
    var failures := Failures(UpsertsOf(changes));
    if changes == [] then NothingToApply
    else if failures != {} then Failed(failures)
    else Passed
  }

  function SilverAfter(silver: seq<Row>, batch: seq<Record>): seq<Row> {
    DedupSpec(Projected(batch));
    if VerdictOn(batch).Passed? then MergeInto(silver, BuildChanges(batch)) else silver
  }

  // What becomes of a batch: the engine rejects a dead-letter MERGE, or the change set is judged.
  datatype Outcome = RejectsAmbiguous | Judged(verdict: Verdict)

  // The payment a record is about: the after section's, or without one the before section's.
  predicate IsAbout(r: Record, k: Option<int>) {
    && r.value.Some?
    && k == if r.value.value.after.paymentId.Some? then r.value.value.after.paymentId else r.value.value.before.paymentId
  }

  // Record by record, ahead in the window.
  predicate Ahead(r: Record, q: Record) {
    && r.value.Some? && q.value.Some?
    && (q.value.value.lsn.Some? ==> r.value.value.lsn.Some? && r.value.value.lsn.value >= q.value.value.lsn.value)
    && (r.value.value.lsn == q.value.value.lsn ==> r.offset >= q.offset)
  }

  // The change of a payment that survives a batch is that of a record no other record of the payment is
  // ahead of, by the envelopes' LSNs and the records' own offsets.
  lemma SurvivorIsAhead(batch: seq<Record>, k: Option<int>)
    requires Winner(Projected(batch), k).Some?
    ensures exists r :: r in batch && RouteOf(r).Processable? && IsAbout(r, k) && Winner(Projected(batch), k) == Some(Project(r)) &&
              forall q :: q in batch && RouteOf(q).Processable? && IsAbout(q, k) ==> Ahead(r, q)
  {
    var w := Winner(Projected(batch), k).value;
    RoutingConserves(batch);
    WinnerSpec(Projected(batch), k);
    var r :| r in batch && RouteOf(r).Processable? && w == Project(r);
    forall q | q in batch && RouteOf(q).Processable? && IsAbout(q, k) ensures Ahead(r, q) {
      assert Project(q) in Projected(batch) && AtLeast(w, Project(q));
    }
  }

  // The batch has a change to apply.
  ghost predicate HasChange(batch: seq<Record>) {
    exists r :: r in batch && RouteOf(r).Processable?
  }

  // Of every payment, NULL included, the change the window keeps is a delete or makes a clean row.
  ghost predicate WinnersAreClean(batch: seq<Record>) {
    forall k :: var w := Winner(Projected(batch), k); w.Some? ==> w.value.op.Delete? || CleanRow(RowOf(w.value))
  }

  lemma NoChangeNothingToApply(batch: seq<Record>)
    ensures BuildChanges(batch) == [] <==> !HasChange(batch)
  {
    DedupSpec(Projected(batch));
    RoutingConserves(batch);
    if r :| r in batch && RouteOf(r).Processable? {
      assert Winner(Projected(batch), Project(r).paymentId).Some?;
      ChangeForSpec(BuildChanges(batch), Project(r).paymentId);
    } else {
      assert forall i :: 0 <= i < |BuildChanges(batch)| ==> BuildChanges(batch)[i] in Projected(batch);
    }
  }

  lemma UpsertsCleanExactly(batch: seq<Record>)
    ensures Failures(UpsertsOf(BuildChanges(batch))) == {} <==> WinnersAreClean(batch)
  {
    var cs, changes := Projected(batch), BuildChanges(batch);
    DedupSpec(cs);
    UpsertsOfSpec(changes);
    ProjectedAmountsFit(batch);
    ValidationMeansClean(UpsertsOf(changes));
    forall k | Winner(cs, k).Some? ensures Winner(cs, k).value in changes {
      ChangeForSpec(changes, k);
    }
  }

  // Which batches are applied, exactly: those with a change in which every change that survives the
  // window is clean or a delete. What the window drops is not validated.
  lemma PassesExactly(batch: seq<Record>)
    ensures VerdictOn(batch) == NothingToApply <==> !HasChange(batch)
    ensures VerdictOn(batch) == Passed <==> HasChange(batch) && WinnersAreClean(batch)
    ensures VerdictOn(batch).Failed? <==> HasChange(batch) && !WinnersAreClean(batch)
  {
    NoChangeNothingToApply(batch);
    UpsertsCleanExactly(batch);
  }

  class SilverStore {
    var silver: seq<Row>
    var letters: seq<DeadLetter>

    constructor ()
      ensures silver == [] && letters == []
    {
      silver := [];
      letters := [];
    }

    // The MERGE of the rejects: where their coordinates are distinct, each gets its letter, every other
    // coordinate keeps what it had, and there is still one row per coordinate.
    method WriteToDlq(records: seq<Record>, batchId: int, reason: Route) returns (ok: bool)
      modifies this`letters
      ensures Recorded(letters, ok) == RecordLetters(old(letters), Letters(records, batchId, reason))
      ensures UniqueLetters(old(letters)) && UniqueCoordinates(records) ==>
                ok && UniqueLetters(letters) &&
                (forall r :: r in records ==>
                   LetterAt(letters, r.partition, r.offset) == Some(DeadLetter(r.partition, r.offset, r.value, batchId, reason))) &&
                (forall p: nat, o: nat :: !DeliversAt(records, p, o) ==> LetterAt(letters, p, o) == LetterAt(old(letters), p, o))
      ensures UniqueLetters(old(letters)) && !UniqueCoordinates(records) && ok ==> !UniqueLetters(letters)
    {
      var src := Letters(records, batchId, reason);
      if UniqueLetters(letters) {
        if UniqueCoordinates(records) {
          RecordedAt(letters, records, batchId, reason);
        } else if !Ambiguous(letters, src) {
          UniqueLettersOf(records, batchId, reason);
          MergeKeepsUnique(letters, src);
        }
      }
      ok := !Ambiguous(letters, src);
      if ok {
        letters := MergeLetters(letters, src);
      }
    }

    // Rejects are recorded even when the batch then fails validation; silver changes only when
    // the whole change set is clean, and then by one MERGE.
    method UpsertToSilver(batch: seq<Record>, batchId: int) returns (outcome: Outcome)
      modifies this
      ensures letters == LettersAfter(old(letters), batch, batchId).letters
      ensures outcome == if LettersAfter(old(letters), batch, batchId).ok then Judged(VerdictOn(batch)) else RejectsAmbiguous
      ensures silver == if outcome == Judged(Passed) then SilverAfter(old(silver), batch) else old(silver)
      ensures var ok := LettersAfter(old(letters), batch, batchId).ok;
              (outcome == Judged(Passed) <==> ok && HasChange(batch) && WinnersAreClean(batch)) &&
              (outcome == Judged(NothingToApply) <==> ok && !HasChange(batch)) &&
              (outcome == RejectsAmbiguous <==> !ok)
    {
      PassesExactly(batch);
      RouteSpec(batch);
      EmptyMergeIsNoOp(letters);
      var malformed := Malformed(batch);
      if malformed != [] {
        var ok := WriteToDlq(malformed, batchId, NullOp);
        if !ok {
          return RejectsAmbiguous;
        }
      }
      EmptyMergeIsNoOp(letters);
      var unexpected := Unexpected(batch);
      if unexpected != [] {
        var ok := WriteToDlq(unexpected, batchId, UnexpectedOp);
        if !ok {
          return RejectsAmbiguous;
        }
      }
      var changes := BuildChanges(ProcessableOf(batch));
      if changes == [] {
        return Judged(NothingToApply);
      }
      var upserts := UpsertsOf(changes);
      if upserts != [] {
        var failures := Failures(upserts);
        if failures != {} {
          return Judged(Failed(failures));
        }
      }
      DedupSpec(Projected(batch));
      silver := MergeInto(silver, changes);
      return Judged(Passed);
    }
  }

  lemma EmptyMergeIsNoOp(table: seq<DeadLetter>)
    ensures RecordLetters(table, []) == Recorded(table, true)
  {
  }

  /******* What every batch keeps *******/

  ghost predicate CleanTable(silver: seq<Row>) {
    UniqueIds(silver) && forall r :: r in silver ==> CleanRow(r)
  }

  lemma {:induction false} MergedRowsComeFrom(table: seq<Row>, cs: seq<Change>, r: Row)
    requires r in Matched(table, cs) + Unmatched(table, cs)
    ensures r in table || exists c :: c in cs && IsUpsert(c.op) && r == RowOf(c)
  {
    if r in Matched(table, cs) {
      MatchedRowsComeFrom(table, cs, r);
    } else {
      UnmatchedRowsComeFrom(table, cs, r);
    }
  }

  lemma {:induction false} MatchedRowsComeFrom(table: seq<Row>, cs: seq<Change>, r: Row)
    requires r in Matched(table, cs)
    ensures r in table || exists c :: c in cs && IsUpsert(c.op) && r == RowOf(c)
  {
    ChangeForSpec(cs, table[0].paymentId);
    if r in Matched(table[1..], cs) {
      MatchedRowsComeFrom(table[1..], cs, r);
    }
  }

  lemma {:induction false} UnmatchedRowsComeFrom(table: seq<Row>, cs: seq<Change>, r: Row)
    requires r in Unmatched(table, cs)
    ensures exists c :: c in cs && IsUpsert(c.op) && r == RowOf(c)
  {
    if r in Unmatched(table, cs[1..]) {
      UnmatchedRowsComeFrom(table, cs[1..], r);
    }
  }

  lemma {:induction false} ProjectedAmountsFit(batch: seq<Record>)
    ensures forall c :: c in Projected(batch) ==> AmountFits(c)
  {
    if batch != [] {
      ProjectedAmountsFit(batch[..|batch| - 1]);
    }
  }

  // Whatever the batch holds, silver keeps unique payment ids and rows that satisfy every rule.
  lemma BatchKeepsSilverClean(silver: seq<Row>, batch: seq<Record>)
    requires CleanTable(silver)
    ensures CleanTable(SilverAfter(silver, batch))
  {
    if VerdictOn(batch).Passed? {
      var changes := BuildChanges(batch);
      DedupSpec(Projected(batch));
      MergeRefines(silver, changes);
      ProjectedAmountsFit(batch);
      UpsertsOfSpec(changes);
      ValidationMeansClean(UpsertsOf(changes));
      forall r | r in SilverAfter(silver, batch) ensures CleanRow(r) {
        MergedRowsComeFrom(silver, changes, r);
      }
    }
  }

  // A payment's row, while it stays in silver, only ever moves to a higher LSN.
  lemma BatchRaisesLsn(silver: seq<Row>, batch: seq<Record>, k: int)
    requires UniqueIds(silver)
    requires Lookup(silver, k).Some? && Lookup(SilverAfter(silver, batch), k).Some?
    ensures var before, after := Lookup(silver, k).value, Lookup(SilverAfter(silver, batch), k).value;
            after == before || LsnRises(before, after)
  {
    if VerdictOn(batch).Passed? {
      DedupSpec(Projected(batch));
      MergeRaisesLsn(silver, BuildChanges(batch), k);
    }
  }
}
