// Bronze after lost checkpoints, as the log the silver job reads.
module BronzeToSilver {
  import opened Basics
  import opened Cdc
  import opened Merge
  import opened Replay
  import opened Reread
  import Bronze

  // What Kafka holds at each coordinate.
  type Source = Bronze.Coordinate -> Record

  function RecordsAt(table: seq<Bronze.Coordinate>, source: Source): seq<Record> {
    seq(|table|, i requires 0 <= i < |table| => source(table[i]))
  }

  // The first n records ever written to partition p.
  function PartitionLog(source: Source, p: nat, n: nat): seq<Record> {
    seq(n, i requires 0 <= i < n => source(Bronze.Coordinate(p, i)))
  }

  // All changes of payment k are on partition p.
  ghost predicate LivesOn(source: Source, p: nat, k: int) {
    forall c: Bronze.Coordinate :: IsOf(source(c), k) ==> c.partition == p
  }

  /******* Where bronze stands in a partition *******/

  function Got(table: seq<Bronze.Coordinate>, p: nat): nat {
    if table == [] then 0
    else
      var c := table[|table| - 1];
      if c.partition == p then c.offset + 1 else Got(table[..|table| - 1], p)
  }

  // No record of the partition was passed over.
  ghost predicate Seamless(table: seq<Bronze.Coordinate>, p: nat) {
    forall i :: 0 <= i < |table| && table[i].partition == p ==> table[i].offset <= Got(table[..i], p)
  }

  lemma SeamlessAppend(table: seq<Bronze.Coordinate>, c: Bronze.Coordinate, p: nat)
    requires Seamless(table, p) && (c.partition == p ==> c.offset <= Got(table, p))
    ensures Seamless(table + [c], p)
    ensures Got(table + [c], p) == if c.partition == p then c.offset + 1 else Got(table, p)
  {
    var all := table + [c];
    assert all[..|table|] == table;
    assert forall i :: 0 <= i < |table| ==> all[..i] == table[..i] && all[i] == table[i];
  }

  lemma {:induction false} SeamlessRange(table: seq<Bronze.Coordinate>, q: nat, from: nat, to: nat, p: nat)
    requires Seamless(table, p) && (q == p ==> from <= Got(table, p))
    ensures Seamless(table + Bronze.Range(q, from, to), p)
    ensures Got(table + Bronze.Range(q, from, to), p) == if q == p && from < to then to else Got(table, p)
  {
    if from >= to {
      assert table + Bronze.Range(q, from, to) == table;
    } else {
      SeamlessRange(table, q, from, to - 1, p);
      var before := table + Bronze.Range(q, from, to - 1);
      SeamlessAppend(before, Bronze.Coordinate(q, to - 1), p);
      assert table + Bronze.Range(q, from, to) == before + [Bronze.Coordinate(q, to - 1)];
    }
  }

  lemma {:induction false} SeamlessFetch(s: Bronze.State, n: nat, p: nat)
    requires n <= |s.topic| && p < |s.topic| && Seamless(s.bronze, p) && Bronze.ReadFrom(s, p) <= Got(s.bronze, p)
    ensures Seamless(s.bronze + Bronze.Fetched(s, n), p)
    ensures Got(s.bronze + Bronze.Fetched(s, n), p) ==
            if p < n && Bronze.ReadFrom(s, p) < s.topic[p].next then s.topic[p].next else Got(s.bronze, p)
    decreases n
  {
    if n == 0 {
      assert s.bronze + Bronze.Fetched(s, 0) == s.bronze;
    } else {
      SeamlessFetch(s, n - 1, p);
      var before := s.bronze + Bronze.Fetched(s, n - 1);
      var range := Bronze.Range(n - 1, Bronze.ReadFrom(s, n - 1), s.topic[n - 1].next);
      SeamlessRange(before, n - 1, Bronze.ReadFrom(s, n - 1), s.topic[n - 1].next, p);
      assert s.bronze + Bronze.Fetched(s, n) == before + range;
    }
  }

  /******* Runs with lost checkpoints *******/

  // Whenever bronze is read without a checkpoint, Kafka still retains what bronze has not got yet.
  ghost predicate Covered(partitions: nat, steps: seq<Bronze.Step>, p: nat) {
    forall i :: 0 <= i < |steps| && steps[i].Consume? ==> CoveredAt(Bronze.Run(Bronze.Start(partitions), steps[..i]), p)
  }

  ghost predicate CoveredAt(s: Bronze.State, p: nat) {
    p < |s.topic| && (s.checkpoint.None? ==> s.topic[p].first <= Got(s.bronze, p))
  }

  // A kept checkpoint stands where bronze does.
  ghost predicate InStep(s: Bronze.State, p: nat) {
    && p < |s.topic| && Seamless(s.bronze, p) && Got(s.bronze, p) <= s.topic[p].next
    && (s.checkpoint.Some? ==> |s.checkpoint.value| == |s.topic| && s.checkpoint.value[p] == Got(s.bronze, p))
  }

  lemma ConsumeStaysInStep(s: Bronze.State, p: nat)
    requires InStep(s, p) && CoveredAt(s, p)
    ensures InStep(Bronze.Next(s, Bronze.Consume), p)
    ensures Bronze.Readable(s) ==> Got(Bronze.Next(s, Bronze.Consume).bronze, p) == s.topic[p].next
  {
    if Bronze.Readable(s) {
      assert Bronze.ReadFrom(s, p) <= Got(s.bronze, p);
      SeamlessFetch(s, |s.topic|, p);
    }
  }

  lemma {:induction false} RunStaysInStep(partitions: nat, steps: seq<Bronze.Step>, p: nat)
    requires p < partitions && Covered(partitions, steps, p)
    ensures InStep(Bronze.Run(Bronze.Start(partitions), steps), p)
  {
    if steps != [] {
      var init, step := steps[..|steps| - 1], steps[|steps| - 1];
      assert forall i :: 0 <= i < |init| ==> init[..i] == steps[..i] && init[i] == steps[i];
      RunStaysInStep(partitions, init, p);
      if step.Consume? {
        ConsumeStaysInStep(Bronze.Run(Bronze.Start(partitions), init), p);
      }
    }
  }

  /******* Silver over bronze *******/

  function MovesOf(table: seq<Bronze.Coordinate>, p: nat): seq<Move> {
    seq(|table|, i requires 0 <= i < |table| => if table[i].partition == p then Take(table[i].offset) else Skip)
  }

  lemma {:induction false} ReachedIsGot(table: seq<Bronze.Coordinate>, p: nat, n: nat)
    requires n <= |table|
    ensures Reached(MovesOf(table, p), n) == Got(table[..n], p)
  {
    if n > 0 {
      ReachedIsGot(table, p, n - 1);
      assert table[..n][..n - 1] == table[..n - 1];
    }
  }

  lemma BronzeRereads(table: seq<Bronze.Coordinate>, source: Source, p: nat, n: nat, k: int)
    requires Seamless(table, p) && LivesOn(source, p, k)
    requires forall c :: c in table && c.partition == p ==> c.offset < n
    ensures Rereads(RecordsAt(table, source), PartitionLog(source, p, n), MovesOf(table, p), k)
    ensures Reached(MovesOf(table, p), |table|) == Got(table, p)
  {
    var log, base, moves := RecordsAt(table, source), PartitionLog(source, p, n), MovesOf(table, p);
    forall i | 0 <= i < |log|
      ensures Legal(base, moves, i)
      ensures if moves[i].Take? then SameFor(log[i], base[moves[i].at], k) else !IsOf(log[i], k)
    {
      assert table[i] in table;
      ReachedIsGot(table, p, i);
      if table[i].partition == p {
        assert table[i] == Bronze.Coordinate(p, table[i].offset);
      }
    }
    ReachedIsGot(table, p, |table|);
    assert table[..|table|] == table;
  }

  // Losing the bronze checkpoint, any number of times, does not change what silver ends with. Take any run
  // of bronze in which every read without a checkpoint still found what bronze had not got, and in which
  // bronze has caught up with a partition; and any run of the silver job over that table. When its cursor
  // is at the end, each payment of the partition is the fold of the partition's records, each once.
  lemma LostCheckpointsLeaveNoTrace(partitions: nat, ingest: seq<Bronze.Step>, source: Source, p: nat, k: int, steps: seq<Step>)
    requires p < partitions && Covered(partitions, ingest, p) && LivesOn(source, p, k)
    requires var b := Bronze.Run(Bronze.Start(partitions), ingest);
             && p < |b.topic| && Got(b.bronze, p) == b.topic[p].next
             && Sequenced(PartitionLog(source, p, b.topic[p].next))
             && Run(START, steps).log == RecordsAt(b.bronze, source)
    ensures var b, s := Bronze.Run(Bronze.Start(partitions), ingest), Run(START, steps);
            s.cursor == |s.log| ==> Lookup(s.silver, k) == KeyFold(PartitionLog(source, p, b.topic[p].next), k)
  {
    var b := Bronze.Run(Bronze.Start(partitions), ingest);
    var n := b.topic[p].next;
    RunStaysInStep(partitions, ingest, p);
    Bronze.RunIsValid(partitions, ingest);
    forall c | c in b.bronze && c.partition == p ensures c.offset < n {
      assert Bronze.Bounded(b, c);
    }
    BronzeRereads(b.bronze, source, p, n, k);
    RereadConverges(steps, PartitionLog(source, p, n), MovesOf(b.bronze, p), k);
  }

  // A read that is not refused always catches up.
  lemma ReadCatchesUp(partitions: nat, ingest: seq<Bronze.Step>, p: nat)
    requires p < partitions && Covered(partitions, ingest + [Bronze.Consume], p)
    requires Bronze.Readable(Bronze.Run(Bronze.Start(partitions), ingest))
    ensures var b := Bronze.Run(Bronze.Start(partitions), ingest + [Bronze.Consume]);
            p < |b.topic| && Got(b.bronze, p) == b.topic[p].next
  {
    var all := ingest + [Bronze.Consume];
    assert all[..|ingest|] == ingest && all[|ingest|] == Bronze.Consume;
    assert Covered(partitions, ingest, p) by {
      assert forall i :: 0 <= i < |ingest| ==> all[..i] == ingest[..i] && all[i] == ingest[i];
    }
    RunStaysInStep(partitions, ingest, p);
    ConsumeStaysInStep(Bronze.Run(Bronze.Start(partitions), ingest), p);
  }
}
