// The sequenced MERGE that applies one change set to the silver table, with SQL's rule that a
// comparison with NULL is not true.
module Merge {
  import opened Basics
  import opened Cdc

  datatype Row = Row(paymentId: Option<int>, columns: Columns, lsn: Option<int>)

  predicate IsUpsert(op: Op) {
    op == Create || op == Read || op == Update
  }

  predicate Newer(s: Option<int>, t: Option<int>) {
    s.Some? && t.Some? && s.value > t.value
  }

  function RowOf(c: Change): Row {
    Row(c.paymentId, c.columns, c.lsn)
  }

  // What the three branches do to one payment: the row silver holds for it, if any.
  function ApplyChange(state: Option<Row>, c: Change): Option<Row> {
    if state.Some? then
      if Newer(c.lsn, state.value.lsn) && c.op == Delete then None
      else if Newer(c.lsn, state.value.lsn) && IsUpsert(c.op) then Some(RowOf(c))
      else state
    else if IsUpsert(c.op) then Some(RowOf(c))
    else None
  }

  function Applied(state: Option<Row>, c: Option<Change>): Option<Row> {
    if c.None? then state else ApplyChange(state, c.value)
  }

  predicate Matches(t: Row, c: Change) {
    t.paymentId.Some? && t.paymentId == c.paymentId
  }

  function Matched(table: seq<Row>, cs: seq<Change>): seq<Row> {
    if table == [] then []
    else
      var t, rest := table[0], Matched(table[1..], cs);
      if t.paymentId.None? || ChangeFor(cs, t.paymentId).None? then [t] + rest
      else
        match ApplyChange(Some(t), ChangeFor(cs, t.paymentId).value)
        case None => rest
        case Some(t') => [t'] + rest
  }

  function Unmatched(table: seq<Row>, cs: seq<Change>): seq<Row> {
    if cs == [] then []
    else
      var c, rest := cs[0], Unmatched(table, cs[1..]);
      if IsUpsert(c.op) && !exists t :: t in table && Matches(t, c) then [RowOf(c)] + rest else rest
  }

  // The engine rejects a MERGE in which two source rows match one target row, hence the
  // precondition; DedupSpec establishes it for every change set the job builds.
  function MergeInto(table: seq<Row>, cs: seq<Change>): seq<Row>
    requires UniqueKeys(cs)
  {
    Matched(table, cs) + Unmatched(table, cs)
  }

  /******* The table as one row per payment *******/

  function Lookup(table: seq<Row>, k: int): Option<Row> {
    if table == [] then None
    else if table[0].paymentId == Some(k) then Some(table[0])
    else Lookup(table[1..], k)
  }

  ghost predicate UniqueIds(table: seq<Row>) {
    forall i, j :: 0 <= i < j < |table| && table[i].paymentId.Some? ==> table[i].paymentId != table[j].paymentId
  }

  lemma {:induction false} LookupSpec(table: seq<Row>, k: int)
    ensures Lookup(table, k).Some? <==> exists t :: t in table && t.paymentId == Some(k)
    ensures Lookup(table, k).Some? ==> Lookup(table, k).value in table && Lookup(table, k).value.paymentId == Some(k)
    ensures UniqueIds(table) ==> forall t :: t in table && t.paymentId == Some(k) ==> Lookup(table, k) == Some(t)
  {
    if table != [] {
      LookupSpec(table[1..], k);
      assert table == [table[0]] + table[1..];
    }
  }

  lemma {:induction false} LookupConcat(a: seq<Row>, b: seq<Row>, k: int)
    ensures Lookup(a + b, k) == if Lookup(a, k).Some? then Lookup(a, k) else Lookup(b, k)
  {
    if a == [] {
      assert a + b == b;
    } else {
      assert (a + b)[1..] == a[1..] + b;
      LookupConcat(a[1..], b, k);
    }
  }

  lemma {:induction false} MatchedSpec(table: seq<Row>, cs: seq<Change>)
    requires UniqueIds(table)
    ensures UniqueIds(Matched(table, cs))
    ensures forall t :: t in Matched(table, cs) && t.paymentId.Some? ==> exists u :: u in table && u.paymentId == t.paymentId
    ensures forall k: int :: Lookup(Matched(table, cs), k) ==
                             (if Lookup(table, k).None? then None else Applied(Lookup(table, k), ChangeFor(cs, Some(k))))
  {
    if table != [] {
      var t := table[0];
      MatchedSpec(table[1..], cs);
      assert table == [t] + table[1..];
      if t.paymentId.Some? {
        var id := t.paymentId.value;
        ChangeForSpec(cs, t.paymentId);
        LookupSpec(table[1..], id);
        LookupSpec(Matched(table[1..], cs), id);
      }
    }
  }

  lemma {:induction false} UnmatchedSpec(table: seq<Row>, cs: seq<Change>)
    requires UniqueKeys(cs)
    ensures UniqueIds(Unmatched(table, cs))
    ensures forall t :: t in Unmatched(table, cs) ==> exists c :: c in cs && IsUpsert(c.op) && t == RowOf(c)
    ensures forall t, u :: t in Unmatched(table, cs) && t.paymentId.Some? && u in table ==> u.paymentId != t.paymentId
    ensures forall k: int :: Lookup(Unmatched(table, cs), k) ==
                             (if Lookup(table, k).Some? then None else Applied(None, ChangeFor(cs, Some(k))))
  {
    if cs != [] {
      var c := cs[0];
      UnmatchedSpec(table, cs[1..]);
      assert cs == [c] + cs[1..];
      forall t | t in Unmatched(table, cs[1..]) ensures t.paymentId != c.paymentId {
        var d :| d in cs[1..] && IsUpsert(d.op) && t == RowOf(d);
      }
      if c.paymentId.Some? {
        LookupSpec(table, c.paymentId.value);
        ChangeForSpec(cs[1..], c.paymentId);
      }
    }
  }

  // The table-level MERGE is the branch semantics payment by payment, and it keeps payment ids
  // unique.
  lemma MergeRefines(table: seq<Row>, cs: seq<Change>)
    requires UniqueIds(table) && UniqueKeys(cs)
    ensures UniqueIds(MergeInto(table, cs))
    ensures forall k: int :: Lookup(MergeInto(table, cs), k) == Applied(Lookup(table, k), ChangeFor(cs, Some(k)))
  {
    MatchedSpec(table, cs);
    UnmatchedSpec(table, cs);
    var a, b := Matched(table, cs), Unmatched(table, cs);
    var m := a + b;
    forall i, j | 0 <= i < j < |m| && m[i].paymentId.Some? ensures m[i].paymentId != m[j].paymentId {
      if i < |a| <= j {
        assert a[i] in a && b[j - |a|] in b;
      }
    }
    forall k: int ensures Lookup(m, k) == Applied(Lookup(table, k), ChangeFor(cs, Some(k))) {
      LookupConcat(a, b, k);
    }
  }

  predicate LsnRises(before: Row, after: Row) {
    before.lsn.Some? && after.lsn.Some? && before.lsn.value < after.lsn.value
  }

  // A payment that keeps a row through a MERGE either keeps that very row or gets one with a
  // strictly higher LSN; in particular a row without an LSN, or a change without one, changes nothing.
  lemma MergeRaisesLsn(table: seq<Row>, cs: seq<Change>, k: int)
    requires UniqueIds(table) && UniqueKeys(cs)
    requires Lookup(table, k).Some? && Lookup(MergeInto(table, cs), k).Some?
    ensures Lookup(MergeInto(table, cs), k) == Lookup(table, k)
         || LsnRises(Lookup(table, k).value, Lookup(MergeInto(table, cs), k).value)
  {
    MergeRefines(table, cs);
  }

  // A row without an LSN stays for ever: no comparison with it is true, so no branch touches it.
  lemma RowWithoutLsnStays(table: seq<Row>, cs: seq<Change>, k: int)
    requires UniqueIds(table) && UniqueKeys(cs) && Lookup(table, k).Some? && Lookup(table, k).value.lsn.None?
    ensures Lookup(MergeInto(table, cs), k) == Lookup(table, k)
  {
    MergeRefines(table, cs);
  }
}
