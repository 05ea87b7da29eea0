// Bronze ingestion: an append-only table fed from Kafka, where the checkpoint is all that stops a
// re-read, and the check that detects one.
module Bronze {
  import opened Basics

  datatype Coordinate = Coordinate(partition: nat, offset: nat)

  // One partition of the topic: offsets [first, next) are still retained.
  datatype Partition = Partition(first: nat, next: nat)

  // The checkpoint gives each partition the next offset to read; None is a lost or fresh one.
  datatype State = State(topic: seq<Partition>, bronze: seq<Coordinate>, checkpoint: Option<seq<nat>>)

  datatype Step =
    | Produce(partition: nat)
    | Expire(partition: nat, first: nat)
    | Consume
    | LoseCheckpoint

  ghost predicate Retained(topic: seq<Partition>) {
    forall p :: 0 <= p < |topic| ==> topic[p].first <= topic[p].next
  }

  // Where a read of partition p starts: at the checkpoint, or at the earliest retained offset.
  function ReadFrom(s: State, p: nat): nat
    requires p < |s.topic|
  {
    if s.checkpoint.Some? && p < |s.checkpoint.value| then s.checkpoint.value[p] else s.topic[p].first
  }

  function Range(p: nat, from: nat, to: nat): seq<Coordinate> {
    if from >= to then [] else Range(p, from, to - 1) + [Coordinate(p, to - 1)]
  }

  // Everything a read to the current end appends, partition by partition below n.
  function Fetched(s: State, n: nat): seq<Coordinate>
    requires n <= |s.topic|
  {
    if n == 0 then [] else Fetched(s, n - 1) + Range(n - 1, ReadFrom(s, n - 1), s.topic[n - 1].next)
  }

  // A read whose start is no longer retained fails and changes nothing.
  predicate Readable(s: State) {
    forall p :: 0 <= p < |s.topic| ==> s.topic[p].first <= ReadFrom(s, p)
  }

  function Ends(topic: seq<Partition>): seq<nat> {
    seq(|topic|, i requires 0 <= i < |topic| => topic[i].next)
  }

  function Next(s: State, step: Step): State {
    match step
    case Produce(p) =>
      if p < |s.topic| then s.(topic := s.topic[p := s.topic[p].(next := s.topic[p].next + 1)]) else s
    case Expire(p, first) =>
      if p < |s.topic| && s.topic[p].first <= first <= s.topic[p].next
      then s.(topic := s.topic[p := s.topic[p].(first := first)]) else s
    case Consume =>
      if Readable(s)
      then s.(bronze := s.bronze + Fetched(s, |s.topic|), checkpoint := Some(Ends(s.topic))) else s
    case LoseCheckpoint => s.(checkpoint := None)
  }

  function Start(partitions: nat): State {
    State(seq(partitions, _ => Partition(0, 0)), [], None)
  }

  function Run(s: State, steps: seq<Step>): State {
    if steps == [] then s else Next(Run(s, steps[..|steps| - 1]), steps[|steps| - 1])
  }

  /******* The duplicate check *******/

  function Occurrences(table: seq<Coordinate>, c: Coordinate): nat {
    if table == [] then 0
    else Occurrences(table[..|table| - 1], c) + if table[|table| - 1] == c then 1 else 0
  }

  function DuplicateOffsets(table: seq<Coordinate>): set<Coordinate> {
    set c | c in table && Occurrences(table, c) > 1
  }

  // GROUP BY coordinate HAVING COUNT(*) > 1 returned a row.
  predicate ReplayDetected(table: seq<Coordinate>) {
    DuplicateOffsets(table) != {}
  }

  lemma {:induction false} OccurrencesSpec(table: seq<Coordinate>, c: Coordinate)
    ensures Occurrences(table, c) >= 1 <==> c in table
  {
    if table != [] {
      OccurrencesSpec(table[..|table| - 1], c);
      assert table == table[..|table| - 1] + [table[|table| - 1]];
    }
  }

  lemma {:induction false} OccurrencesAdd(a: seq<Coordinate>, b: seq<Coordinate>, c: Coordinate)
    ensures Occurrences(a + b, c) == Occurrences(a, c) + Occurrences(b, c)
  {
    if b == [] {
      assert a + b == a;
    } else {
      assert (a + b)[..|a + b| - 1] == a + b[..|b| - 1];
      OccurrencesAdd(a, b[..|b| - 1], c);
    }
  }

  // Over a table without duplicates, the check after an append of distinct records fails exactly
  // when the append repeated a coordinate the table already held.
  lemma DetectionIsExact(bronze: seq<Coordinate>, fetched: seq<Coordinate>)
    requires !ReplayDetected(bronze) && !ReplayDetected(fetched)
    ensures ReplayDetected(bronze + fetched) <==> exists c :: c in fetched && c in bronze
  {
    forall c ensures Occurrences(bronze, c) <= 1 && Occurrences(fetched, c) <= 1
                  && Occurrences(bronze + fetched, c) == Occurrences(bronze, c) + Occurrences(fetched, c) {
      OccurrencesSpec(bronze, c);
      OccurrencesSpec(fetched, c);
      OccurrencesAdd(bronze, fetched, c);
      assert c !in DuplicateOffsets(bronze) && c !in DuplicateOffsets(fetched);
    }
    forall c ensures c in DuplicateOffsets(bronze + fetched) <==> c in fetched && c in bronze {
      OccurrencesSpec(bronze, c);
      OccurrencesSpec(fetched, c);
      OccurrencesSpec(bronze + fetched, c);
    }
    if c :| c in fetched && c in bronze {
      assert c in DuplicateOffsets(bronze + fetched);
    }
  }

  /******* What a read appends *******/

  lemma {:induction false} RangeOccurrences(p: nat, from: nat, to: nat, c: Coordinate)
    ensures Occurrences(Range(p, from, to), c) == if c.partition == p && from <= c.offset < to then 1 else 0
  {
    if from < to {
      RangeOccurrences(p, from, to - 1, c);
      assert Range(p, from, to)[..|Range(p, from, to)| - 1] == Range(p, from, to - 1);
    }
  }

  predicate IsNew(s: State, c: Coordinate) {
    c.partition < |s.topic| && ReadFrom(s, c.partition) <= c.offset < s.topic[c.partition].next
  }

  lemma {:induction false} FetchedOccurrences(s: State, n: nat, c: Coordinate)
    requires n <= |s.topic|
    ensures Occurrences(Fetched(s, n), c) == if c.partition < n && IsNew(s, c) then 1 else 0
  {
    if n > 0 {
      FetchedOccurrences(s, n - 1, c);
      var range := Range(n - 1, ReadFrom(s, n - 1), s.topic[n - 1].next);
      OccurrencesAdd(Fetched(s, n - 1), range, c);
      RangeOccurrences(n - 1, ReadFrom(s, n - 1), s.topic[n - 1].next, c);
    }
  }

  // A read appends each coordinate from its start to the current end once, and no other.
  lemma FetchedSpec(s: State)
    ensures !ReplayDetected(Fetched(s, |s.topic|))
    ensures forall c :: c in Fetched(s, |s.topic|) <==> IsNew(s, c)
  {
    forall c ensures Occurrences(Fetched(s, |s.topic|), c) <= 1 && (c in Fetched(s, |s.topic|) <==> IsNew(s, c)) {
      FetchedOccurrences(s, |s.topic|, c);
      OccurrencesSpec(Fetched(s, |s.topic|), c);
    }
  }

  // A record the checkpoint has not passed is gone from the topic.
  ghost predicate PassedOver(s: State) {
    exists p :: 0 <= p < |s.topic| && s.checkpoint.Some? && p < |s.checkpoint.value| && s.checkpoint.value[p] < s.topic[p].first
  }

  // A read is refused, and then changes nothing, exactly when it would have passed over a record that has
  // expired; and whatever it adds, the topic still retains.
  lemma ReadsOnlyRetained(s: State, c: Coordinate)
    ensures if PassedOver(s) then Next(s, Consume) == s else Next(s, Consume).checkpoint == Some(Ends(s.topic))
    ensures Occurrences(Next(s, Consume).bronze, c) > Occurrences(s.bronze, c) ==>
              c.partition < |s.topic| && s.topic[c.partition].first <= c.offset < s.topic[c.partition].next
  {
    if Readable(s) {
      OccurrencesAdd(s.bronze, Fetched(s, |s.topic|), c);
      FetchedOccurrences(s, |s.topic|, c);
    } else {
      var p :| 0 <= p < |s.topic| && ReadFrom(s, p) < s.topic[p].first;
      assert PassedOver(s);
    }
  }

  /******* Runs *******/

  ghost predicate Bounded(s: State, c: Coordinate) {
    c.partition < |s.topic| && c.offset < s.topic[c.partition].next
  }

  ghost predicate Valid(s: State) {
    && Retained(s.topic)
    && (forall c :: c in s.bronze ==> Bounded(s, c))
    && (s.checkpoint.Some? ==> |s.checkpoint.value| == |s.topic|)
    && (s.checkpoint.Some? ==> forall p :: 0 <= p < |s.topic| ==> s.checkpoint.value[p] <= s.topic[p].next)
  }

  lemma ConsumeIsValid(s: State)
    requires Valid(s)
    ensures Valid(Next(s, Consume))
  {
    FetchedSpec(s);
    var t := Next(s, Consume);
    forall c | c in t.bronze ensures Bounded(s, c) {
      if c !in s.bronze {
        assert IsNew(s, c);
      }
    }
  }

  lemma {:induction false} RunIsValid(partitions: nat, steps: seq<Step>)
    ensures Valid(Run(Start(partitions), steps))
  {
    if steps != [] {
      RunIsValid(partitions, steps[..|steps| - 1]);
      if steps[|steps| - 1].Consume? {
        ConsumeIsValid(Run(Start(partitions), steps[..|steps| - 1]));
      }
    }
  }

  function Firsts(topic: seq<Partition>): seq<nat> {
    seq(|topic|, i requires 0 <= i < |topic| => topic[i].first)
  }

  predicate InRange(c: Coordinate, starts: seq<nat>, ends: seq<nat>)
    requires |starts| == |ends|
  {
    c.partition < |starts| && starts[c.partition] <= c.offset < ends[c.partition]
  }

  // Bronze holds every record from starts up to the checkpoint, each once, and nothing else.
  ghost predicate ExactlyOnce(s: State, starts: seq<nat>) {
    && s.checkpoint.Some? && |starts| == |s.checkpoint.value| == |s.topic|
    && (forall p :: 0 <= p < |starts| ==> starts[p] <= s.checkpoint.value[p] <= s.topic[p].next)
    && forall c :: Occurrences(s.bronze, c) == if InRange(c, starts, s.checkpoint.value) then 1 else 0
  }

  ghost predicate Empty(s: State) {
    s.checkpoint.None? && s.bronze == []
  }

  lemma {:induction false} RunIsEmptyOrStarted(partitions: nat, steps: seq<Step>)
    requires LoseCheckpoint !in steps
    ensures Run(Start(partitions), steps).checkpoint.None? ==> Empty(Run(Start(partitions), steps))
  {
    if steps != [] {
      assert steps[|steps| - 1] in steps;
      RunIsEmptyOrStarted(partitions, steps[..|steps| - 1]);
    }
  }

  // The first read takes everything retained at that moment.
  lemma FirstConsume(s: State)
    requires Valid(s) && Empty(s)
    ensures ExactlyOnce(Next(s, Consume), Firsts(s.topic))
  {
    var t := Next(s, Consume);
    assert Readable(s);
    assert t.bronze == Fetched(s, |s.topic|);
    forall c ensures Occurrences(t.bronze, c) == if InRange(c, Firsts(s.topic), t.checkpoint.value) then 1 else 0 {
      FetchedOccurrences(s, |s.topic|, c);
    }
  }

  // Every later read takes up where the checkpoint stands.
  lemma LaterConsume(s: State, starts: seq<nat>)
    requires ExactlyOnce(s, starts)
    ensures ExactlyOnce(Next(s, Consume), starts)
  {
    if Readable(s) {
      var t := Next(s, Consume);
      forall c ensures Occurrences(t.bronze, c) == if InRange(c, starts, t.checkpoint.value) then 1 else 0 {
        FetchedOccurrences(s, |s.topic|, c);
        OccurrencesAdd(s.bronze, Fetched(s, |s.topic|), c);
      }
    }
  }

  lemma {:induction false} KeptFrom(s: State, starts: seq<nat>, steps: seq<Step>)
    requires ExactlyOnce(s, starts) && LoseCheckpoint !in steps
    ensures ExactlyOnce(Run(s, steps), starts)
  {
    if steps != [] {
      var init, step := steps[..|steps| - 1], steps[|steps| - 1];
      assert step in steps;
      KeptFrom(s, starts, init);
      if step.Consume? {
        LaterConsume(Run(s, init), starts);
      }
    }
  }

  lemma {:induction false} RunConcat(s: State, a: seq<Step>, b: seq<Step>)
    ensures Run(s, a + b) == Run(Run(s, a), b)
  {
    if b == [] {
      assert a + b == a;
    } else {
      assert (a + b)[..|a + b| - 1] == a + b[..|b| - 1];
      RunConcat(s, a, b[..|b| - 1]);
    }
  }

  // While the checkpoint is kept, in every run of production, expiry and consumption: before the
  // first read bronze is empty, and from then on it holds every record from what was retained at
  // that first read up to the checkpoint, each exactly once, and nothing else. Nothing consumed is
  // ever missing again, even after Kafka has expired it.
  lemma KeptCheckpointIsExactlyOnce(partitions: nat, before: seq<Step>, after: seq<Step>)
    requires LoseCheckpoint !in before && LoseCheckpoint !in after
    requires Run(Start(partitions), before).checkpoint.None?
    ensures Run(Start(partitions), before).bronze == []
    ensures ExactlyOnce(Run(Start(partitions), before + [Consume] + after), Firsts(Run(Start(partitions), before).topic))
  {
    var start := Start(partitions);
    var s := Run(start, before);
    RunIsValid(partitions, before);
    RunIsEmptyOrStarted(partitions, before);
    FirstConsume(s);
    assert (before + [Consume])[..|before|] == before;
    RunConcat(start, before + [Consume], after);
    KeptFrom(Next(s, Consume), Firsts(s.topic), after);
  }

  // When the checkpoint is lost over a clean bronze, the next read is detected exactly when some
  // record bronze holds is still retained by Kafka.
  lemma LostCheckpointIsDetected(partitions: nat, steps: seq<Step>)
    ensures var s := Next(Run(Start(partitions), steps), LoseCheckpoint);
            !ReplayDetected(s.bronze) ==>
              (ReplayDetected(Next(s, Consume).bronze) <==>
               exists c :: c in s.bronze && c.partition < |s.topic| && s.topic[c.partition].first <= c.offset)
  {
    var s := Next(Run(Start(partitions), steps), LoseCheckpoint);
    RunIsValid(partitions, steps);
    if !ReplayDetected(s.bronze) {
      FetchedSpec(s);
      DetectionIsExact(s.bronze, Fetched(s, |s.topic|));
      assert Readable(s);
    }
  }
}
