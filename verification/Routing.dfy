// The silver job's chain of filters over one batch, against the route of each record.
module Routing {
  import opened Basics
  import opened Cdc

  const CDC_OPS := {"c", "d", "r", "u"}

  // The op as the JSON path reads it: NULL for a tombstone and for an envelope without one.
  function OpText(r: Record): Option<string> {
    if r.value.Some? then r.value.value.op else None
  }

  predicate HasValue(r: Record) { r.value.Some? }

  predicate HasNoOp(r: Record) { OpText(r).None? }

  predicate HasOp(r: Record) { OpText(r).Some? }

  predicate HasCdcOp(r: Record) { HasOp(r) && OpText(r).value in CDC_OPS }

  predicate HasUnknownOp(r: Record) { HasOp(r) && OpText(r).value !in CDC_OPS }

  function Filter(batch: seq<Record>, p: Record -> bool): seq<Record> {
    if batch == [] then []
    else
      var rest := Filter(batch[..|batch| - 1], p);
      if p(batch[|batch| - 1]) then rest + [batch[|batch| - 1]] else rest
  }

  function Records(batch: seq<Record>): seq<Record> {
    Filter(batch, HasValue)
  }

  function Malformed(batch: seq<Record>): seq<Record> {
    Filter(Records(batch), HasNoOp)
  }

  function KnownOps(batch: seq<Record>): seq<Record> {
    Filter(Records(batch), HasOp)
  }

  function Unexpected(batch: seq<Record>): seq<Record> {
    Filter(KnownOps(batch), HasUnknownOp)
  }

  function ProcessableOf(batch: seq<Record>): seq<Record> {
    Filter(KnownOps(batch), HasCdcOp)
  }

  lemma RoutesByOp(r: Record)
    ensures RouteOf(r) == NullOp <==> HasValue(r) && HasNoOp(r)
    ensures RouteOf(r) == UnexpectedOp <==> HasUnknownOp(r)
    ensures RouteOf(r).Processable? <==> HasCdcOp(r)
  {
  }

  // Two filters in a row, one record more.
  lemma FilterTwice(init: seq<Record>, r: Record, p: Record -> bool, q: Record -> bool)
    ensures Filter(Filter(init + [r], p), q) ==
            if p(r) && q(r) then Filter(Filter(init, p), q) + [r] else Filter(Filter(init, p), q)
  {
    FilterAppend(init, r, p);
    FilterAppend(Filter(init, p), r, q);
  }

  lemma MalformedStep(init: seq<Record>, r: Record)
    ensures Malformed(init + [r]) == if RouteOf(r).NullOp? then Malformed(init) + [r] else Malformed(init)
  {
    FilterTwice(init, r, HasValue, HasNoOp);
  }

  lemma KnownOpsStep(init: seq<Record>, r: Record, q: Record -> bool)
    ensures Filter(KnownOps(init + [r]), q) ==
            if HasOp(r) && q(r) then Filter(KnownOps(init), q) + [r] else Filter(KnownOps(init), q)
  {
    FilterTwice(init, r, HasValue, HasOp);
    FilterAppend(KnownOps(init), r, q);
  }

  lemma {:induction false} MalformedIsRouted(batch: seq<Record>)
    ensures Malformed(batch) == Routed(batch, NullOp)
  {
    if batch != [] {
      var init, r := batch[..|batch| - 1], batch[|batch| - 1];
      assert batch == init + [r];
      MalformedIsRouted(init);
      MalformedStep(init, r);
    }
  }

  lemma {:induction false} UnexpectedIsRouted(batch: seq<Record>)
    ensures Unexpected(batch) == Routed(batch, UnexpectedOp)
  {
    if batch != [] {
      var init, r := batch[..|batch| - 1], batch[|batch| - 1];
      assert batch == init + [r];
      UnexpectedIsRouted(init);
      RoutesByOp(r);
      KnownOpsStep(init, r, HasUnknownOp);
      assert Routed(batch, UnexpectedOp) == if HasUnknownOp(r) then Routed(init, UnexpectedOp) + [r] else Routed(init, UnexpectedOp);
    }
  }

  lemma {:induction false} ProcessableIsProjected(batch: seq<Record>)
    ensures Projected(ProcessableOf(batch)) == Projected(batch)
  {
    if batch != [] {
      var init, r := batch[..|batch| - 1], batch[|batch| - 1];
      assert batch == init + [r];
      ProcessableIsProjected(init);
      KnownOpsStep(init, r, HasCdcOp);
      var p := ProcessableOf(init);
      assert (p + [r])[..|p|] == p;
    }
  }

  // Filtering, filtering what is left, and so on, takes each record down exactly one route: the
  // malformed are the null ops, the unexpected those outside the op set, and what remains is all
  // that the projection ever reads.
  lemma RouteSpec(batch: seq<Record>)
    ensures Malformed(batch) == Routed(batch, NullOp)
    ensures Unexpected(batch) == Routed(batch, UnexpectedOp)
    ensures Projected(ProcessableOf(batch)) == Projected(batch)
  {
    MalformedIsRouted(batch);
    UnexpectedIsRouted(batch);
    ProcessableIsProjected(batch);
  }

  lemma FilterAppend(batch: seq<Record>, r: Record, p: Record -> bool)
    ensures Filter(batch + [r], p) == if p(r) then Filter(batch, p) + [r] else Filter(batch, p)
  {
    assert (batch + [r])[..|batch|] == batch;
  }
}
