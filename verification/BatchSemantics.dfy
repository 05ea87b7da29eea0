// One deduplicated MERGE against applying the same changes one at a time.
module BatchSemantics {
  import opened Basics
  import opened Cdc
  import opened Merge

  // The reference: a MERGE per change, first to last.
  function ApplyInOrder(table: seq<Row>, es: seq<Change>): seq<Row> {
    if es == [] then table
    else MergeInto(ApplyInOrder(table, es[..|es| - 1]), [es[|es| - 1]])
  }

  // What the changes of payment k, applied one at a time, make of its row.
  function FoldKey(state: Option<Row>, es: seq<Change>, k: int): Option<Row> {
    if es == [] then state
    else
      var before := FoldKey(state, es[..|es| - 1], k);
      var e := es[|es| - 1];
      if e.paymentId == Some(k) then ApplyChange(before, e) else before
  }

  lemma {:induction false} ApplyInOrderRefines(table: seq<Row>, es: seq<Change>)
    requires UniqueIds(table)
    ensures UniqueIds(ApplyInOrder(table, es))
    ensures forall k: int :: Lookup(ApplyInOrder(table, es), k) == FoldKey(Lookup(table, k), es, k)
  {
    if es != [] {
      var init, e := es[..|es| - 1], es[|es| - 1];
      ApplyInOrderRefines(table, init);
      MergeRefines(ApplyInOrder(table, init), [e]);
      assert forall k :: ChangeFor([e], k) == if e.paymentId == k then Some(e) else None;
    }
  }

  predicate Before(a: Change, b: Change) {
    a.lsn.Some? && b.lsn.Some? && a.lsn.value < b.lsn.value
  }

  // Two changes of one payment carry LSNs, and the later one carries the higher.
  ghost predicate Ascending(es: seq<Change>) {
    forall i, j :: 0 <= i < j < |es| && es[i].paymentId.Some? && es[i].paymentId == es[j].paymentId ==>
      Before(es[i], es[j])
  }

  // The step that makes deduplication sound: an older change leaves no trace under a newer one,
  // although a delete leaves no tombstone to compare against.
  lemma NewerErasesOlder(state: Option<Row>, older: Change, newer: Change)
    requires Before(older, newer)
    ensures ApplyChange(ApplyChange(state, older), newer) == ApplyChange(state, newer)
  {
  }

  ghost predicate IsLast(es: seq<Change>, k: int, i: int) {
    0 <= i < |es| && es[i].paymentId == Some(k) && forall j :: i < j < |es| ==> es[j].paymentId != Some(k)
  }

  lemma {:induction false} WinnerIsLast(es: seq<Change>, k: int)
    requires Ascending(es)
    ensures Winner(es, Some(k)).Some? ==> exists i :: IsLast(es, k, i) && es[i] == Winner(es, Some(k)).value
    ensures Winner(es, Some(k)).None? ==> forall j :: 0 <= j < |es| ==> es[j].paymentId != Some(k)
  {
    if es != [] {
      var init, e := es[..|es| - 1], es[|es| - 1];
      WinnerIsLast(init, k);
      if e.paymentId == Some(k) {
        assert IsLast(es, k, |es| - 1);
      } else if Winner(init, Some(k)).Some? {
        var i :| IsLast(init, k, i) && init[i] == Winner(init, Some(k)).value;
        assert IsLast(es, k, i);
      }
    }
  }

  lemma {:induction false} FoldIsWinner(state: Option<Row>, es: seq<Change>, k: int)
    requires Ascending(es)
    ensures FoldKey(state, es, k) == Applied(state, Winner(es, Some(k)))
  {
    if es != [] {
      var init, e := es[..|es| - 1], es[|es| - 1];
      FoldIsWinner(state, init, k);
      WinnerIsLast(init, k);
      if e.paymentId == Some(k) && Winner(init, Some(k)).Some? {
        NewerErasesOlder(state, Winner(init, Some(k)).value, e);
      }
    }
  }

  lemma AscendingHasNoTies(es: seq<Change>, k: int)
    requires Ascending(es)
    ensures DistinctRanks(es, Some(k))
  {
  }

  // For any silver table and any batch, in whatever order its records arrived, the one
  // deduplicated MERGE leaves every payment as applying the same changes one by one in ascending
  // LSN order would.
  lemma BatchEqualsSequence(table: seq<Row>, batch: seq<Record>, es: seq<Change>)
    requires UniqueIds(table)
    requires multiset(es) == multiset(Projected(batch)) && Ascending(es)
    ensures UniqueKeys(BuildChanges(batch))
    ensures UniqueIds(MergeInto(table, BuildChanges(batch)))
    ensures forall k: int :: Lookup(MergeInto(table, BuildChanges(batch)), k) == Lookup(ApplyInOrder(table, es), k)
  {
    var cs := Projected(batch);
    DedupSpec(cs);
    MergeRefines(table, Dedup(cs));
    ApplyInOrderRefines(table, es);
    forall k: int ensures Lookup(MergeInto(table, Dedup(cs)), k) == Lookup(ApplyInOrder(table, es), k) {
      AscendingHasNoTies(es, k);
      WinnerIgnoresOrder(es, cs, Some(k));
      FoldIsWinner(Lookup(table, k), es, k);
    }
  }

  lemma ProjectedPair(r: Record, s: Record)
    requires RouteOf(r).Processable? && RouteOf(s).Processable?
    ensures Projected([r, s]) == [Project(r), Project(s)]
  {
    assert [r, s][..1] == [r];
    assert Projected([r]) == [Project(r)];
  }

  lemma WinnerOfPair(older: Change, newer: Change)
    requires Before(older, newer) && older.paymentId == newer.paymentId
    ensures Winner([older, newer], newer.paymentId) == Some(newer) == Winner([newer, older], newer.paymentId)
  {
    assert [older, newer][..1] == [older] && [newer, older][..1] == [newer];
    assert Winner([older], older.paymentId) == Some(older) && Winner([newer], newer.paymentId) == Some(newer);
  }

  // A delete and a re-create of one payment in one batch resolve by LSN, in whichever order they
  // arrive: the re-created row stays.
  lemma RecreateSurvives(table: seq<Row>, batch: seq<Record>, delete: Record, create: Record, k: int)
    requires UniqueIds(table) && (batch == [delete, create] || batch == [create, delete])
    requires RouteOf(delete) == Processable(Op.Delete) && RouteOf(create) == Processable(Op.Create)
    requires Project(delete).paymentId == Project(create).paymentId == Some(k) && Before(Project(delete), Project(create))
    requires Lookup(table, k).Some? ==> Newer(Project(create).lsn, Lookup(table, k).value.lsn)
    ensures UniqueKeys(BuildChanges(batch))
    ensures Lookup(MergeInto(table, BuildChanges(batch)), k) == Some(RowOf(Project(create)))
  {
    var d, c := Project(delete), Project(create);
    ProjectedPair(delete, create);
    ProjectedPair(create, delete);
    WinnerOfPair(d, c);
    WinnerSurvives(table, Projected(batch), c, k);
  }

  lemma WinnerSurvives(table: seq<Row>, cs: seq<Change>, c: Change, k: int)
    requires UniqueIds(table) && Winner(cs, Some(k)) == Some(c) && IsUpsert(c.op)
    requires Lookup(table, k).Some? ==> Newer(c.lsn, Lookup(table, k).value.lsn)
    ensures UniqueKeys(Dedup(cs))
    ensures Lookup(MergeInto(table, Dedup(cs)), k) == Some(RowOf(c))
  {
    DedupSpec(cs);
    MergeRefines(table, Dedup(cs));
  }

  // Applying one change set twice in a row is applying it once, for any change set and table.
  lemma MergeIsIdempotent(table: seq<Row>, cs: seq<Change>)
    requires UniqueIds(table) && UniqueKeys(cs)
    ensures forall k: int :: Lookup(MergeInto(MergeInto(table, cs), cs), k) == Lookup(MergeInto(table, cs), k)
  {
    MergeRefines(table, cs);
    MergeRefines(MergeInto(table, cs), cs);
  }

  /******* Equal LSNs *******/

  // Payment k's changes carry LSNs that never fall, and where they tie, stand in offset order; one and
  // the same change may occur more than once.
  ghost predicate Rising(es: seq<Change>, k: int) {
    && (forall i :: 0 <= i < |es| && es[i].paymentId == Some(k) ==> es[i].lsn.Some?)
    && forall i, j :: 0 <= i < j < |es| && es[i].paymentId == es[j].paymentId == Some(k) ==> InStep(es[i], es[j])
  }

  predicate InStep(a: Change, b: Change) {
    Before(a, b) || (a.lsn == b.lsn && (a.offset < b.offset || a == b))
  }

  // The first upsert of payment k at this LSN.
  function FirstUpsert(es: seq<Change>, k: int, lsn: Option<int>): Option<Change> {
    if es == [] then None
    else
      var first, e := FirstUpsert(es[..|es| - 1], k, lsn), es[|es| - 1];
      if first.Some? then first
      else if e.paymentId == Some(k) && e.lsn == lsn && IsUpsert(e.op) then Some(e)
      else None
  }

  lemma {:induction false} FirstUpsertSpec(es: seq<Change>, k: int, lsn: Option<int>)
    ensures FirstUpsert(es, k, lsn).Some? <==> exists e :: e in es && e.paymentId == Some(k) && e.lsn == lsn && IsUpsert(e.op)
    ensures FirstUpsert(es, k, lsn).Some? ==>
              var u := FirstUpsert(es, k, lsn).value; u in es && u.paymentId == Some(k) && u.lsn == lsn && IsUpsert(u.op)
  {
    if es != [] {
      FirstUpsertSpec(es[..|es| - 1], k, lsn);
      assert es == es[..|es| - 1] + [es[|es| - 1]];
    }
  }

  lemma RisingPrefix(es: seq<Change>, k: int)
    requires Rising(es, k) && es != []
    ensures Rising(es[..|es| - 1], k)
    ensures forall c :: c in es[..|es| - 1] && c.paymentId == es[|es| - 1].paymentId == Some(k) ==> InStep(c, es[|es| - 1])
  {
    var init, e := es[..|es| - 1], es[|es| - 1];
    forall c | c in init && c.paymentId == e.paymentId == Some(k) ensures InStep(c, e) {
      var i :| 0 <= i < |init| && init[i] == c;
      assert InStep(es[i], es[|es| - 1]);
    }
  }

  // The last change of payment k is the winner.
  lemma LastIsWinner(es: seq<Change>, k: int)
    requires Rising(es, k) && es != [] && es[|es| - 1].paymentId == Some(k)
    ensures Winner(es, Some(k)) == Some(es[|es| - 1])
  {
    RisingPrefix(es, k);
    WinnerSpec(es[..|es| - 1], Some(k));
  }

  // What is left of payment k when its changes are applied one at a time.
  function Remains(state: Option<Row>, es: seq<Change>, k: int): Option<Row> {
    var w := Winner(es, Some(k));
    if w.None? || (state.Some? && !Newer(w.value.lsn, state.value.lsn)) then state
    else
      match FirstUpsert(es, k, w.value.lsn)
      case None => None
      case Some(u) => Some(RowOf(u))
  }

  lemma NoEarlierUpsert(es: seq<Change>, k: int, w: Change, e: Change)
    requires Winner(es, Some(k)) == Some(w) && Before(w, e)
    ensures FirstUpsert(es, k, e.lsn).None?
  {
    FirstUpsertSpec(es, k, e.lsn);
    WinnerSpec(es, Some(k));
  }

  lemma {:induction false} FoldRemains(state: Option<Row>, es: seq<Change>, k: int)
    requires Rising(es, k)
    ensures FoldKey(state, es, k) == Remains(state, es, k)
  {
    if es != [] {
      var init, e := es[..|es| - 1], es[|es| - 1];
      RisingPrefix(es, k);
      FoldRemains(state, init, k);
      if e.paymentId == Some(k) {
        LastIsWinner(es, k);
        WinnerSpec(init, Some(k));
        var w := Winner(init, Some(k));
        if w.Some? {
          FirstUpsertSpec(init, k, w.value.lsn);
          if Before(w.value, e) {
            NoEarlierUpsert(init, k, w.value, e);
          }
        } else {
          FirstUpsertSpec(init, k, e.lsn);
        }
      }
    }
  }

  // Batch and sequence agree on a payment whose row is state before them.
  predicate TiesAreHarmless(state: Option<Row>, es: seq<Change>, k: int) {
    var w := Winner(es, Some(k));
    w.None? || (state.Some? && !Newer(w.value.lsn, state.value.lsn)) ||
    (var u := FirstUpsert(es, k, w.value.lsn);
     u.None? || (IsUpsert(w.value.op) && RowOf(u.value) == RowOf(w.value)))
  }

  // Where LSNs tie, the batch keeps the highest offset, while one at a time keeps the first upsert,
  // because equal is not newer. For any silver, any batch and any order in which a payment's LSNs never
  // fall and ties stand in offset order, the two agree on the payment if and only if it has no change, or
  // its row is not older than the winner, or nothing at the winner's LSN is an upsert, or the winner is
  // one and the first upsert at that LSN writes the same row.
  lemma TiesAgreeExactly(table: seq<Row>, cs: seq<Change>, es: seq<Change>, k: int)
    requires UniqueIds(table) && multiset(es) == multiset(cs) && Rising(es, k)
    ensures UniqueKeys(Dedup(cs))
    ensures Lookup(MergeInto(table, Dedup(cs)), k) == Lookup(ApplyInOrder(table, es), k) <==>
            TiesAreHarmless(Lookup(table, k), es, k)
  {
    var state := Lookup(table, k);
    DedupSpec(cs);
    MergeRefines(table, Dedup(cs));
    ApplyInOrderRefines(table, es);
    FoldRemains(state, es, k);
    RisingHasNoTies(es, k);
    WinnerIgnoresOrder(es, cs, Some(k));
    var w := Winner(es, Some(k));
    if w.Some? {
      FirstUpsertSpec(es, k, w.value.lsn);
      WinnerSpec(es, Some(k));
    }
  }

  lemma RisingHasNoTies(es: seq<Change>, k: int)
    requires Rising(es, k)
    ensures DistinctRanks(es, Some(k))
  {
    forall a, b | a in es && b in es && a.paymentId == b.paymentId == Some(k) && a != b ensures Outranks(a, b) || Outranks(b, a) {
      var i :| 0 <= i < |es| && es[i] == a;
      var j :| 0 <= j < |es| && es[j] == b;
      assert if i < j then InStep(a, b) else InStep(b, a);
    }
  }

  // Two changes of one payment with equal LSNs, a before b, on a row that is state before them.
  predicate TieIsHarmless(state: Option<Row>, a: Change, b: Change) {
    || (state.Some? && !Newer(a.lsn, state.value.lsn))
    || a.op.Delete?
    || (IsUpsert(b.op) && RowOf(a) == RowOf(b))
  }

  // Two ties, in offset order and against it.
  lemma TwoTiesAgreeExactly(table: seq<Row>, low: Change, high: Change, k: int)
    requires UniqueIds(table) && low.paymentId == high.paymentId == Some(k)
    requires low.lsn == high.lsn && low.lsn.Some? && low.offset < high.offset
    ensures UniqueKeys(Dedup([low, high]))
    ensures Lookup(MergeInto(table, Dedup([low, high])), k) == Lookup(ApplyInOrder(table, [low, high]), k) <==>
            TieIsHarmless(Lookup(table, k), low, high)
    ensures Lookup(MergeInto(table, Dedup([low, high])), k) == Lookup(ApplyInOrder(table, [high, low]), k) <==>
            (Lookup(table, k).Some? && !Newer(high.lsn, Lookup(table, k).value.lsn)) || IsUpsert(high.op) || low.op.Delete?
  {
    var state := Lookup(table, k);
    DedupSpec([low, high]);
    MergeRefines(table, Dedup([low, high]));
    HighOffsetWins(low, high);
    FoldOfPair(state, low, high, k);
    FoldOfPair(state, high, low, k);
    ApplyInOrderRefines(table, [low, high]);
    ApplyInOrderRefines(table, [high, low]);
  }

  lemma HighOffsetWins(low: Change, high: Change)
    requires low.paymentId == high.paymentId && low.lsn == high.lsn && low.offset < high.offset
    ensures Winner([low, high], low.paymentId) == Some(high)
  {
    assert [low, high][..1] == [low];
    assert Winner([low], low.paymentId) == Some(low);
  }

  lemma FoldOfPair(state: Option<Row>, a: Change, b: Change, k: int)
    requires a.paymentId == b.paymentId == Some(k)
    ensures FoldKey(state, [a, b], k) == ApplyChange(ApplyChange(state, a), b)
  {
    assert [a, b][..1] == [a];
    assert FoldKey(state, [a], k) == ApplyChange(state, a);
  }

  // So two different updates with equal LSNs diverge on an empty table.
  lemma EqualLsnsDiverge(first: Change, second: Change)
    requires first.op.Update? && second.op.Update? && first.lsn == second.lsn && first.lsn.Some?
    requires first.paymentId == second.paymentId && first.paymentId.Some?
    requires first.offset < second.offset && first.columns != second.columns
    ensures var k := first.paymentId.value;
            UniqueKeys(Dedup([first, second])) &&
            Lookup(MergeInto([], Dedup([first, second])), k) == Some(RowOf(second)) &&
            Lookup(ApplyInOrder([], [first, second]), k) == Some(RowOf(first)) &&
            RowOf(first) != RowOf(second)
  {
    var k := first.paymentId.value;
    HighOffsetWins(first, second);
    WinnerSurvives([], [first, second], second, k);
    ApplyInOrderRefines([], [first, second]);
    FoldOfPair(None, first, second, k);
  }

  // A change without its place in Kafka, which no branch of the MERGE reads.
  function Content(c: Change): Change {
    c.(offset := 0)
  }

  /******* Splitting a run of changes *******/

  lemma AscendingParts(a: seq<Change>, b: seq<Change>)
    requires Ascending(a + b)
    ensures Ascending(a) && Ascending(b)
  {
    var ab := a + b;
    assert forall i :: 0 <= i < |a| ==> a[i] == ab[i];
    assert forall i :: 0 <= i < |b| ==> b[i] == ab[|a| + i];
  }

  lemma LastWins(cs: seq<Change>, k: int)
    requires Ascending(cs) && cs != [] && cs[|cs| - 1].paymentId == Some(k)
    ensures Winner(cs, Some(k)) == Some(cs[|cs| - 1])
  {
    var init, e := cs[..|cs| - 1], cs[|cs| - 1];
    WinnerSpec(init, Some(k));
    if Winner(init, Some(k)).Some? {
      var i :| 0 <= i < |init| && init[i] == Winner(init, Some(k)).value;
      assert Before(cs[i], cs[|cs| - 1]);
    }
  }

  lemma {:induction false} WinnerOfConcat(a: seq<Change>, b: seq<Change>, k: int)
    requires Ascending(a + b) && Ascending(b)
    ensures Winner(a + b, Some(k)) == if Winner(b, Some(k)).Some? then Winner(b, Some(k)) else Winner(a, Some(k))
  {
    if b == [] {
      assert a + b == a;
    } else {
      var init, e := b[..|b| - 1], b[|b| - 1];
      assert a + b == (a + init) + [e] && (a + b)[..|a + b| - 1] == a + init && b == init + [e];
      AscendingParts(a + init, [e]);
      AscendingParts(init, [e]);
      if e.paymentId == Some(k) {
        LastWins(a + b, k);
        LastWins(b, k);
      } else {
        WinnerOfConcat(a, init, k);
      }
    }
  }

  lemma WinnerConcat(a: seq<Change>, b: seq<Change>, k: int)
    requires Ascending(a + b)
    ensures Ascending(a) && Ascending(b)
    ensures Winner(a + b, Some(k)) == if Winner(b, Some(k)).Some? then Winner(b, Some(k)) else Winner(a, Some(k))
    ensures Winner(a, Some(k)).Some? && Winner(b, Some(k)).Some? ==>
              Before(Winner(a, Some(k)).value, Winner(b, Some(k)).value)
  {
    AscendingParts(a, b);
    WinnerOfConcat(a, b, k);
    WinnerSpec(a, Some(k));
    WinnerSpec(b, Some(k));
    if Winner(a, Some(k)).Some? && Winner(b, Some(k)).Some? {
      var i :| 0 <= i < |a| && a[i] == Winner(a, Some(k)).value;
      var j :| 0 <= j < |b| && b[j] == Winner(b, Some(k)).value;
      assert Before((a + b)[i], (a + b)[|a| + j]);
    }
  }
}
