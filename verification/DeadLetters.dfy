// The dead-letter table: rejects keyed by their Kafka coordinates and written by MERGE.
module DeadLetters {
  import opened Basics
  import opened Cdc

  datatype DeadLetter = DeadLetter(partition: nat, offset: nat, value: Option<Envelope>, batchId: int, reason: Route)

  predicate Rejected(r: Record) {
    RouteOf(r).NullOp? || RouteOf(r).UnexpectedOp?
  }

  function LetterOf(r: Record, batchId: int, reason: Route): DeadLetter {
    DeadLetter(r.partition, r.offset, r.value, batchId, reason)
  }

  function Letters(records: seq<Record>, batchId: int, reason: Route): seq<DeadLetter> {
    seq(|records|, i requires 0 <= i < |records| => LetterOf(records[i], batchId, reason))
  }

  predicate SamePlace(a: DeadLetter, b: DeadLetter) {
    a.partition == b.partition && a.offset == b.offset
  }

  ghost predicate UniqueLetters(ls: seq<DeadLetter>) {
    forall i, j :: 0 <= i < j < |ls| ==> !SamePlace(ls[i], ls[j])
  }

  ghost predicate UniqueCoordinates(batch: seq<Record>) {
    forall i, j :: 0 <= i < j < |batch| ==> batch[i].partition != batch[j].partition || batch[i].offset != batch[j].offset
  }

  // No two rejected records of the batch share their coordinates; what is not rejected may repeat.
  ghost predicate UniqueRejects(batch: seq<Record>) {
    forall i, j :: 0 <= i < j < |batch| && Rejected(batch[i]) && Rejected(batch[j]) ==>
      batch[i].partition != batch[j].partition || batch[i].offset != batch[j].offset
  }

  function LetterAt(ls: seq<DeadLetter>, p: nat, o: nat): Option<DeadLetter> {
    if ls == [] then None
    else if ls[0].partition == p && ls[0].offset == o then Some(ls[0])
    else LetterAt(ls[1..], p, o)
  }

  function Updated(table: seq<DeadLetter>, src: seq<DeadLetter>): seq<DeadLetter> {
    seq(|table|, i requires 0 <= i < |table| =>
      var s := LetterAt(src, table[i].partition, table[i].offset);
      if s.Some? then s.value else table[i])
  }

  function Added(table: seq<DeadLetter>, src: seq<DeadLetter>): seq<DeadLetter> {
    if src == [] then []
    else if LetterAt(table, src[0].partition, src[0].offset).Some? then Added(table, src[1..])
    else [src[0]] + Added(table, src[1..])
  }

  // Two source rows match one target row: the engine rejects such a MERGE.
  predicate Ambiguous(table: seq<DeadLetter>, src: seq<DeadLetter>) {
    exists i, j :: 0 <= i < j < |src| && SamePlace(src[i], src[j]) && LetterAt(table, src[i].partition, src[i].offset).Some?
  }

  function MergeLetters(table: seq<DeadLetter>, src: seq<DeadLetter>): seq<DeadLetter> {
    Updated(table, src) + Added(table, src)
  }

  // The table after the statement, and whether the engine carried it out.
  datatype Recorded = Recorded(letters: seq<DeadLetter>, ok: bool)

  function RecordLetters(table: seq<DeadLetter>, src: seq<DeadLetter>): Recorded {
    if Ambiguous(table, src) then Recorded(table, false) else Recorded(MergeLetters(table, src), true)
  }

  lemma {:induction false} LetterAtSpec(ls: seq<DeadLetter>, p: nat, o: nat)
    ensures LetterAt(ls, p, o).Some? <==> exists l :: l in ls && l.partition == p && l.offset == o
    ensures LetterAt(ls, p, o).Some? ==> var l := LetterAt(ls, p, o).value; l in ls && l.partition == p && l.offset == o
    ensures UniqueLetters(ls) ==> forall l :: l in ls && l.partition == p && l.offset == o ==> LetterAt(ls, p, o) == Some(l)
  {
    if ls != [] {
      LetterAtSpec(ls[1..], p, o);
      assert ls == [ls[0]] + ls[1..];
    }
  }

  lemma {:induction false} AddedSpec(table: seq<DeadLetter>, src: seq<DeadLetter>)
    ensures UniqueLetters(src) ==> UniqueLetters(Added(table, src))
    ensures forall l :: l in Added(table, src) <==> l in src && LetterAt(table, l.partition, l.offset).None?
  {
    if src != [] {
      AddedSpec(table, src[1..]);
      assert src == [src[0]] + src[1..];
    }
  }

  lemma MergeLettersRefines(table: seq<DeadLetter>, src: seq<DeadLetter>)
    requires UniqueLetters(table) && UniqueLetters(src)
    ensures UniqueLetters(MergeLetters(table, src))
    ensures forall p: nat, o: nat :: LetterAt(MergeLetters(table, src), p, o) ==
                                     (if LetterAt(src, p, o).Some? then LetterAt(src, p, o) else LetterAt(table, p, o))
  {
    var u, a := Updated(table, src), Added(table, src);
    AddedSpec(table, src);
    forall i | 0 <= i < |u| ensures SamePlace(u[i], table[i]) {
      LetterAtSpec(src, table[i].partition, table[i].offset);
    }
    var m := u + a;
    forall i, j | 0 <= i < j < |m| ensures !SamePlace(m[i], m[j]) {
      if i < |u| <= j {
        assert a[j - |u|] in a;
        LetterAtSpec(table, m[j].partition, m[j].offset);
        assert table[i] in table;
      }
    }
    forall p: nat, o: nat
      ensures LetterAt(m, p, o) == if LetterAt(src, p, o).Some? then LetterAt(src, p, o) else LetterAt(table, p, o)
    {
      LetterAtSpec(m, p, o);
      LetterAtSpec(src, p, o);
      LetterAtSpec(table, p, o);
      if LetterAt(table, p, o).Some? {
        var i :| 0 <= i < |table| && table[i] == LetterAt(table, p, o).value;
        assert m[i] == u[i] && m[i] in m;
      } else if LetterAt(src, p, o).Some? {
        assert LetterAt(src, p, o).value in a && LetterAt(src, p, o).value in m;
      }
    }
  }

  // A MERGE the engine carries out keeps one row per coordinate exactly when its source has one: two
  // rejects of one new coordinate would both be inserted.
  lemma MergeKeepsUnique(table: seq<DeadLetter>, src: seq<DeadLetter>)
    requires UniqueLetters(table) && !Ambiguous(table, src)
    ensures UniqueLetters(MergeLetters(table, src)) <==> UniqueLetters(src)
  {
    if UniqueLetters(src) {
      MergeLettersRefines(table, src);
    } else {
      var i, j :| 0 <= i < j < |src| && SamePlace(src[i], src[j]);
      BothAdded(table, src, i, j);
      var a, m := Added(table, src), MergeLetters(table, src);
      var x, y :| 0 <= x < y < |a| && SamePlace(a[x], a[y]);
      assert m[|table| + x] == a[x] && m[|table| + y] == a[y];
    }
  }

  lemma {:induction false} BothAdded(table: seq<DeadLetter>, src: seq<DeadLetter>, i: nat, j: nat)
    requires i < j < |src| && SamePlace(src[i], src[j]) && LetterAt(table, src[i].partition, src[i].offset).None?
    ensures exists x, y :: 0 <= x < y < |Added(table, src)| && SamePlace(Added(table, src)[x], Added(table, src)[y])
  {
    var rest := Added(table, src[1..]);
    if i > 0 {
      BothAdded(table, src[1..], i - 1, j - 1);
      var x, y :| 0 <= x < y < |rest| && SamePlace(rest[x], rest[y]);
      var d := |Added(table, src)| - |rest|;
      assert SamePlace(Added(table, src)[x + d], Added(table, src)[y + d]);
    } else {
      AddedSpec(table, src[1..]);
      assert src[j] == src[1..][j - 1] && src[j] in src[1..];
      assert src[j] in rest;
      var y :| 0 <= y < |rest| && rest[y] == src[j];
      assert SamePlace(Added(table, src)[0], Added(table, src)[y + 1]);
    }
  }

  // Coordinate by coordinate: the reject's letter where there is one, else what was there.
  lemma RecordedAt(table: seq<DeadLetter>, records: seq<Record>, batchId: int, reason: Route)
    requires UniqueLetters(table) && UniqueCoordinates(records)
    ensures var after := RecordLetters(table, Letters(records, batchId, reason));
            after.ok && UniqueLetters(after.letters) &&
            (forall r :: r in records ==> LetterAt(after.letters, r.partition, r.offset) == Some(LetterOf(r, batchId, reason))) &&
            (forall p: nat, o: nat :: !DeliversAt(records, p, o) ==> LetterAt(after.letters, p, o) == LetterAt(table, p, o))
  {
    var src := Letters(records, batchId, reason);
    UniqueLettersOf(records, batchId, reason);
    MergeLettersRefines(table, src);
    forall r | r in records ensures LetterAt(src, r.partition, r.offset) == Some(LetterOf(r, batchId, reason)) {
      LetterAtSpec(src, r.partition, r.offset);
      var i :| 0 <= i < |records| && records[i] == r;
      assert src[i] in src;
    }
    assert forall i :: 0 <= i < |records| ==> records[i] in records && SamePlaceAs(src[i], records[i]);
    forall p: nat, o: nat | !DeliversAt(records, p, o) ensures LetterAt(src, p, o).None? {
      LetterAtSpec(src, p, o);
    }
  }

  predicate SamePlaceAs(l: DeadLetter, r: Record) {
    l.partition == r.partition && l.offset == r.offset
  }

  ghost predicate DeliversAt(records: seq<Record>, p: nat, o: nat) {
    exists r :: r in records && r.partition == p && r.offset == o
  }

  /******* One batch *******/

  lemma {:induction false} RoutedSpec(batch: seq<Record>, route: Route)
    ensures forall r :: r in Routed(batch, route) <==> r in batch && RouteOf(r) == route
    ensures UniqueRejects(batch) && (route.NullOp? || route.UnexpectedOp?) ==> UniqueCoordinates(Routed(batch, route))
  {
    if batch != [] {
      var init := batch[..|batch| - 1];
      RoutedSpec(init, route);
      assert batch == init + [batch[|batch| - 1]];
      var kept, r := Routed(init, route), batch[|batch| - 1];
      if UniqueRejects(batch) && RouteOf(r) == route && Rejected(r) {
        forall i | 0 <= i < |kept| ensures kept[i].partition != r.partition || kept[i].offset != r.offset {
          assert kept[i] in init;
        }
      }
    }
  }

  // Routing neither loses nor duplicates a record: every one is a tombstone, a reject of one
  // of the two kinds, or contributes exactly one projected change.
  lemma {:induction false} RoutingConserves(batch: seq<Record>)
    ensures |batch| == |Routed(batch, Tombstone)| + |Routed(batch, NullOp)| + |Routed(batch, UnexpectedOp)| + |Projected(batch)|
    ensures forall r :: r in batch && RouteOf(r).Processable? ==> Project(r) in Projected(batch)
    ensures forall c :: c in Projected(batch) ==> exists r :: r in batch && RouteOf(r).Processable? && c == Project(r)
  {
    if batch != [] {
      var init := batch[..|batch| - 1];
      RoutingConserves(init);
      assert batch == init + [batch[|batch| - 1]];
    }
  }

  lemma UniqueLettersOf(records: seq<Record>, batchId: int, reason: Route)
    ensures UniqueLetters(Letters(records, batchId, reason)) <==> UniqueCoordinates(records)
  {
    var ls := Letters(records, batchId, reason);
    assert forall i, j :: 0 <= i < j < |records| ==>
        (SamePlace(ls[i], ls[j]) <==> records[i].partition == records[j].partition && records[i].offset == records[j].offset);
  }

  // The dead-letter table after one batch: the records without an op, then those with an unknown
  // one, unless the engine already rejected the first statement.
  function LettersAfter(table: seq<DeadLetter>, batch: seq<Record>, batchId: int): Recorded {
    var nulls := RecordLetters(table, Letters(Routed(batch, NullOp), batchId, NullOp));
    if nulls.ok then RecordLetters(nulls.letters, Letters(Routed(batch, UnexpectedOp), batchId, UnexpectedOp)) else nulls
  }

  lemma LettersAfterSpec(table: seq<DeadLetter>, batch: seq<Record>, batchId: int, p: nat, o: nat)
    requires UniqueLetters(table) && UniqueRejects(batch)
    ensures LettersAfter(table, batch, batchId).ok && UniqueLetters(LettersAfter(table, batch, batchId).letters)
    ensures forall r :: r in batch && r.partition == p && r.offset == o && Rejected(r) ==>
              LetterAt(LettersAfter(table, batch, batchId).letters, p, o) == Some(DeadLetter(p, o, r.value, batchId, RouteOf(r)))
    ensures (forall r :: r in batch && r.partition == p && r.offset == o ==> !Rejected(r)) ==>
              LetterAt(LettersAfter(table, batch, batchId).letters, p, o) == LetterAt(table, p, o)
  {
    var nulls, others := Routed(batch, NullOp), Routed(batch, UnexpectedOp);
    RoutedSpec(batch, NullOp);
    RoutedSpec(batch, UnexpectedOp);
    RecordedAt(table, nulls, batchId, NullOp);
    RecordedAt(RecordLetters(table, Letters(nulls, batchId, NullOp)).letters, others, batchId, UnexpectedOp);
    forall r | r in batch && r.partition == p && r.offset == o && RouteOf(r).NullOp? ensures !DeliversAt(others, p, o) {
      SoleReject(batch, r);
    }
  }

  lemma SoleReject(batch: seq<Record>, r: Record)
    requires UniqueRejects(batch) && r in batch && Rejected(r)
    ensures forall s :: s in batch && Rejected(s) && s.partition == r.partition && s.offset == r.offset ==> s == r
  {
  }

  /******* Any batches, any number of times *******/

  datatype Batch = Batch(records: seq<Record>, id: int)

  ghost predicate WellFormed(batches: seq<Batch>) {
    forall b :: b in batches ==> UniqueRejects(b.records)
  }

  function Rejects(records: seq<Record>): set<Record> {
    set r | r in records && Rejected(r)
  }

  function AllRejects(batches: seq<Batch>): set<Record> {
    if batches == [] then {}
    else AllRejects(batches[..|batches| - 1]) + Rejects(batches[|batches| - 1].records)
  }

  // A Kafka coordinate names one record, however often it is delivered.
  ghost predicate Stable(records: set<Record>) {
    forall r, s :: r in records && s in records && r.partition == s.partition && r.offset == s.offset ==> r == s
  }

  function AfterAll(batches: seq<Batch>): seq<DeadLetter> {
    if batches == [] then []
    else
      var b := batches[|batches| - 1];
      LettersAfter(AfterAll(batches[..|batches| - 1]), b.records, b.id).letters
  }

  predicate Carries(l: DeadLetter, r: Record) {
    l.partition == r.partition && l.offset == r.offset && l.value == r.value && l.reason == RouteOf(r)
  }

  ghost predicate Explains(l: Option<DeadLetter>, records: set<Record>, p: nat, o: nat) {
    && (l.Some? <==> exists r :: r in records && r.partition == p && r.offset == o)
    && (forall r :: r in records && r.partition == p && r.offset == o ==> Carries(l.value, r))
  }

  // After any sequence of batches, repeats included, the table holds one row per coordinate; a
  // coordinate has a row exactly when a record rejected there was ever delivered, and the row
  // carries that record and its reason.
  lemma {:induction false} OneLetterPerReject(batches: seq<Batch>, p: nat, o: nat)
    requires WellFormed(batches) && Stable(AllRejects(batches))
    ensures UniqueLetters(AfterAll(batches))
    ensures Explains(LetterAt(AfterAll(batches), p, o), AllRejects(batches), p, o)
  {
    if batches != [] {
      var init, b := batches[..|batches| - 1], batches[|batches| - 1];
      assert b in batches;
      OneLetterPerReject(init, p, o);
      LettersAfterSpec(AfterAll(init), b.records, b.id, p, o);
      if r :| r in b.records && r.partition == p && r.offset == o && Rejected(r) {
        assert r in AllRejects(batches);
        assert LetterAt(AfterAll(batches), p, o) == Some(LetterOf(r, b.id, RouteOf(r)));
      } else {
        assert LetterAt(AfterAll(batches), p, o) == LetterAt(AfterAll(init), p, o);
      }
    }
  }
}
