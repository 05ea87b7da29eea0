// Summary responses against the silver rows behind the gold tables that were served.
module ServedGold {
  import opened Basics
  import opened Gold
  import opened Queries
  import opened RollUp
  import opened CacheKey
  import opened Serving
  import ReachableGold
  import Replay

  // Every version of gold was built from a silver table the silver job can reach.
  ghost predicate FromSilver(commits: seq<Version>) {
    forall c :: c in commits ==> exists steps: seq<Replay.Step> :: c.table == ReachableGold.GoldAt(steps)
  }

  lemma VersionFromSilver(commits: seq<Version>, v: nat) returns (steps: seq<Replay.Step>)
    requires FromSilver(commits) && v <= |commits|
    ensures Table(commits, v) == ReachableGold.GoldAt(steps)
  {
    if v == 0 {
      steps := [];
      assert ReachableGold.SilverAt([]) == [];
      assert FactsOf([]) == [] && BuildGold([]) == [];
    } else {
      assert commits[v - 1] in commits;
      steps :| commits[v - 1].table == ReachableGold.GoldAt(steps);
    }
  }

  // What a client reads in a summary: in how many buckets and how many rows the chosen silver rows are, and what share of them is
  // authorized; and, up to a million rows, their exact volume.
  ghost predicate IsSummaryOfSilver(s: Summary, steps: seq<Replay.Step>, f: MetricsFilter) {
    var rows := ReachableGold.Chosen(ReachableGold.SilverAt(steps), Wants(f, None));
    && s.buckets == |ReachableGold.BucketsOf(rows)| && s.count == |rows|
    && s.rate == (if rows == [] then None else Some(ReachableGold.AuthorizedCount(rows) as real / |rows| as real))
    && (|rows| <= 1_000_000 ==> s.gross == ReachableGold.TotalAmount(rows))
  }

  // In every interleaving of requests and commits, when requests served under one key have the same
  // answers, a summary response is the summary of the silver rows behind some version between its label
  // and its return.
  lemma SummariesAreOfSilver(env: Env, rs: iset<Request>, bound: nat, steps: seq<Step>, q: Response)
    requires AllSend(steps, rs) && (bound == 0 || Compatible(env, rs))
    requires q in Run(env, bound, steps).responses && q.r.Totals? && FromSilver(Run(env, bound, steps).commits)
    ensures q.value.Total?
    ensures exists v: nat, silver: seq<Replay.Step> ::
              q.seen <= v <= q.at && v <= |Run(env, bound, steps).commits| &&
              Table(Run(env, bound, steps).commits, v) == ReachableGold.GoldAt(silver) &&
              IsSummaryOfSilver(q.value.summary, silver, q.r.f)
  {
    var commits := Run(env, bound, steps).commits;
    ResponsesAreLinearizable(env, rs, bound, steps, q);
    var v: nat :| q.seen <= v <= q.at && v <= |commits| && q.value == Ask(env, Table(commits, v), q.r);
    var silver := VersionFromSilver(commits, v);
    SummaryOfVersion(env, Table(commits, v), silver, q.r);
  }

  lemma SummaryOfVersion(env: Env, table: seq<GoldRow>, silver: seq<Replay.Step>, r: Request)
    requires r.Totals? && table == ReachableGold.GoldAt(silver)
    ensures Ask(env, table, r).Total? && IsSummaryOfSilver(Ask(env, table, r).summary, silver, r.f)
  {
    var p := k => Accepts(r.f, k);
    ReachableGold.ReachableSummaryIsSilver(silver, r.f);
    SumRowsSame(table, p, Wants(r.f, None), CountOf);
    SumRowsSame(table, p, Wants(r.f, None), OneRow);
    SumRowsSame(table, p, Wants(r.f, None), GrossOf);
  }
}
