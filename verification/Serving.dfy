// Requests served by concurrent threads over one shared cache, interleaved with gold commits.
module Serving {
  import opened Basics
  import opened Gold
  import opened Queries
  import opened Paging
  import opened RollUp
  import opened CacheKey
  import opened Cache

  // Library code the server calls: the timestamp format and the cursor decoder.
  datatype Env = Env(iso: int -> string, decode: string -> Option<GoldKey>)

  datatype Answer = Rows(rows: seq<GoldRow>) | Total(summary: Summary)

  // A request the endpoints accept: valid parameters and, if there is a cursor, one that decodes.
  predicate Served(env: Env, r: Request) {
    Accepted(r) && (r.Hourly? && r.cursor.Some? ==> env.decode(r.cursor.value).Some?)
  }

  // What the request's query returns over one version of gold.
  function Ask(env: Env, table: seq<GoldRow>, r: Request): Answer {
    match r
    case Hourly(f, limit, cursor) => Rows(HourlyRows(table, f, limit, if cursor.Some? then env.decode(cursor.value) else None))
    case Totals(f) => Total(Summarise(table, k => Accepts(f, k)))
  }

  /******* One request on the shared cache *******/

  // The repository's cached(): the held value on a hit, otherwise the built one, which is stored.
  method Cached(cache: SnapshotCache<Answer>, key: string, snapshot: Option<string>, built: Answer)
    returns (value: Answer)
    requires cache.Valid()
    modifies cache
    ensures cache.Valid()
    ensures value == (match Held(old(cache.State()), snapshot, key) case Some(v) => v case None => built)
    ensures cache.State() ==
            if Held(old(cache.State()), snapshot, key).Some? then AfterGet(old(cache.State()), snapshot, key)
            else AfterPut(AfterGet(old(cache.State()), snapshot, key), snapshot, key, built, cache.maxEntries)
  {
    var hit := cache.Get(snapshot, key);
    if hit.Some? {
      return hit.value;
    }
    value := built;
    cache.Put(snapshot, key, value);
  }

  /******* Interleaved steps *******/

  datatype Version = Version(id: string, table: seq<GoldRow>)

  // Where a thread stands with its request. seen is the version current when it read the tag.
  datatype Phase =
    | Observed(r: Request, tag: Option<string>, seen: nat)
    | Missed(r: Request, tag: Option<string>, seen: nat)
    | Built(r: Request, tag: Option<string>, seen: nat, value: Answer)
    | Ready(r: Request, tag: Option<string>, seen: nat, value: Answer)

  // A response with its snapshot tag, and the version current when it was returned.
  datatype Response = Response(r: Request, tag: Option<string>, seen: nat, value: Answer, at: nat)

  datatype State = State(
    commits: seq<Version>,
    cache: CacheState<Answer>,
    threads: map<nat, Phase>,
    responses: seq<Response>)

  const START := State([], CacheState(None, [], 0, 0, 0), map[], [])

  datatype Step =
    | Commit(version: Version)
    | Arrive(thread: nat, r: Request)
    | LookUp(thread: nat)
    | Build(thread: nat)
    | Abandon(thread: nat)
    | Store(thread: nat)
    | Return(thread: nat)

  // Version 0 is the table before its first snapshot.
  function Label(commits: seq<Version>, v: nat): Option<string>
    requires v <= |commits|
  {
    if v == 0 then None else Some(commits[v - 1].id)
  }

  function Table(commits: seq<Version>, v: nat): seq<GoldRow>
    requires v <= |commits|
  {
    if v == 0 then [] else commits[v - 1].table
  }

  function Move(s: State, thread: nat, phase: Phase): State {
    s.(threads := s.threads[thread := phase])
  }

  function Next(env: Env, bound: nat, s: State, step: Step): State {
    var now := |s.commits|;
    match step
    case Commit(version) =>
      if exists c :: c in s.commits && c.id == version.id then s else s.(commits := s.commits + [version])
    case Arrive(t, r) =>
      if t in s.threads || !Served(env, r) then s else Move(s, t, Observed(r, Label(s.commits, now), now))
    case LookUp(t) =>
      if t !in s.threads || !s.threads[t].Observed? then s
      else
        var Observed(r, tag, seen) := s.threads[t];
        var found := Held(s.cache, tag, Key(env.iso, r));
        Move(s.(cache := AfterGet(s.cache, tag, Key(env.iso, r))), t,
             if found.Some? then Ready(r, tag, seen, found.value) else Missed(r, tag, seen))
    case Build(t) =>
      if t !in s.threads || !s.threads[t].Missed? then s
      else
        var Missed(r, tag, seen) := s.threads[t];
        Move(s, t, Built(r, tag, seen, Ask(env, Table(s.commits, now), r)))
    case Abandon(t) => s.(threads := s.threads - {t})
    case Store(t) =>
      if t !in s.threads || !s.threads[t].Built? then s
      else
        var Built(r, tag, seen, value) := s.threads[t];
        Move(s.(cache := AfterPut(s.cache, tag, Key(env.iso, r), value, bound)), t, Ready(r, tag, seen, value))
    case Return(t) =>
      if t !in s.threads || !s.threads[t].Ready? then s
      else
        var Ready(r, tag, seen, value) := s.threads[t];
        s.(threads := s.threads - {t}, responses := s.responses + [Response(r, tag, seen, value, now)])
  }

  function Run(env: Env, bound: nat, steps: seq<Step>): State {
    if steps == [] then START else Next(env, bound, Run(env, bound, steps[..|steps| - 1]), steps[|steps| - 1])
  }

  /******* The invariant *******/

  ghost predicate DistinctIds(commits: seq<Version>) {
    forall i, j :: 0 <= i < j < |commits| ==> commits[i].id != commits[j].id
  }

  // Every version is a gold table, with one row per key.
  ghost predicate AllUnique(commits: seq<Version>) {
    forall c :: c in commits ==> UniqueGold(c.table)
  }

  // The value answers the request over some version from lo to hi.
  ghost predicate AnswersWithin(env: Env, commits: seq<Version>, r: Request, value: Answer, lo: nat, hi: nat) {
    exists v: nat :: lo <= v <= hi && v <= |commits| && value == Ask(env, Table(commits, v), r)
  }

  // A request that is served and comes from rs, the set of requests clients may send.
  ghost predicate Proper(env: Env, rs: iset<Request>, r: Request) {
    r in rs && Served(env, r)
  }

  ghost predicate EntryOk(env: Env, rs: iset<Request>, commits: seq<Version>, e: Entry<Answer>, since: nat) {
    exists r :: Proper(env, rs, r) && e.key == Key(env.iso, r) && AnswersWithin(env, commits, r, e.value, since, |commits|)
  }

  // Everything the cache holds was built no earlier than the snapshot it is filed under. The build
  // may have read a newer version, and threads may flip the cache between snapshots.
  ghost predicate CacheOk(env: Env, rs: iset<Request>, s: State, since: nat) {
    && since <= |s.commits| && s.cache.snapshot == Label(s.commits, since)
    && forall e :: e in s.cache.entries ==> EntryOk(env, rs, s.commits, e, since)
  }

  ghost predicate PhaseOk(env: Env, rs: iset<Request>, commits: seq<Version>, p: Phase) {
    && Proper(env, rs, p.r) && p.seen <= |commits| && p.tag == Label(commits, p.seen)
    && (p.Built? || p.Ready? ==> AnswersWithin(env, commits, p.r, p.value, p.seen, |commits|))
  }

  ghost predicate ResponseOk(env: Env, commits: seq<Version>, q: Response) {
    && q.seen <= q.at <= |commits| && q.tag == Label(commits, q.seen)
    && AnswersWithin(env, commits, q.r, q.value, q.seen, q.at)
  }

  ghost predicate Inv(env: Env, rs: iset<Request>, s: State) {
    && DistinctIds(s.commits) && AllUnique(s.commits)
    && (exists since: nat :: CacheOk(env, rs, s, since))
    && (forall t :: t in s.threads ==> PhaseOk(env, rs, s.commits, s.threads[t]))
    && (forall q :: q in s.responses ==> ResponseOk(env, s.commits, q))
  }

  lemma AnswersSurviveCommit(env: Env, commits: seq<Version>, version: Version, r: Request, value: Answer, lo: nat, hi: nat)
    requires AnswersWithin(env, commits, r, value, lo, hi)
    ensures AnswersWithin(env, commits + [version], r, value, lo, hi)
    ensures hi <= |commits| ==> AnswersWithin(env, commits + [version], r, value, lo, hi + 1)
  {
    var v: nat :| lo <= v <= hi && v <= |commits| && value == Ask(env, Table(commits, v), r);
    assert Table(commits + [version], v) == Table(commits, v);
  }

  lemma CommitKeepsInv(env: Env, rs: iset<Request>, bound: nat, s: State, version: Version)
    requires Inv(env, rs, s) && UniqueGold(version.table)
    ensures Inv(env, rs, Next(env, bound, s, Commit(version)))
  {
    var s' := Next(env, bound, s, Commit(version));
    if s' != s {
      var since: nat :| CacheOk(env, rs, s, since);
      forall v: nat | v <= |s.commits| ensures Label(s'.commits, v) == Label(s.commits, v) {
      }
      forall e | e in s'.cache.entries ensures EntryOk(env, rs, s'.commits, e, since) {
        var r :| Proper(env, rs, r) && e.key == Key(env.iso, r) && AnswersWithin(env, s.commits, r, e.value, since, |s.commits|);
        AnswersSurviveCommit(env, s.commits, version, r, e.value, since, |s.commits|);
      }
      assert CacheOk(env, rs, s', since);
      forall t | t in s'.threads ensures PhaseOk(env, rs, s'.commits, s'.threads[t]) {
        var p := s.threads[t];
        if p.Built? || p.Ready? {
          AnswersSurviveCommit(env, s.commits, version, p.r, p.value, p.seen, |s.commits|);
        }
      }
      forall q | q in s'.responses ensures ResponseOk(env, s'.commits, q) {
        AnswersSurviveCommit(env, s.commits, version, q.r, q.value, q.seen, q.at);
      }
    }
  }

  lemma LabelsIdentify(commits: seq<Version>, v: nat, w: nat)
    requires DistinctIds(commits) && v <= |commits| && w <= |commits| && Label(commits, v) == Label(commits, w)
    ensures v == w
  {
  }

  // No gold table tells the two requests apart.
  ghost predicate SameAnswers(env: Env, r: Request, q: Request) {
    forall table :: UniqueGold(table) ==> Ask(env, table, r) == Ask(env, table, q)
  }

  // Requests that are served under one key may as well be.
  ghost predicate Compatible(env: Env, rs: iset<Request>) {
    forall r, q :: Proper(env, rs, r) && Proper(env, rs, q) && Key(env.iso, r) == Key(env.iso, q) ==> SameAnswers(env, r, q)
  }

  lemma AnswersCarryOver(env: Env, commits: seq<Version>, r: Request, q: Request, value: Answer, lo: nat, hi: nat)
    requires AnswersWithin(env, commits, r, value, lo, hi) && SameAnswers(env, r, q) && AllUnique(commits)
    ensures AnswersWithin(env, commits, q, value, lo, hi)
  {
    var v: nat :| lo <= v <= hi && v <= |commits| && value == Ask(env, Table(commits, v), r);
    assert v > 0 ==> commits[v - 1] in commits;
    assert UniqueGold(Table(commits, v));
  }

  // A lookup that finds a value found one built since the thread read its label.
  lemma HitAnswersRequest(env: Env, rs: iset<Request>, s: State, since: nat, p: Phase)
    requires Compatible(env, rs) && DistinctIds(s.commits) && AllUnique(s.commits)
    requires CacheOk(env, rs, s, since) && PhaseOk(env, rs, s.commits, p)
    requires Held(s.cache, p.tag, Key(env.iso, p.r)).Some?
    ensures AnswersWithin(env, s.commits, p.r, Held(s.cache, p.tag, Key(env.iso, p.r)).value, p.seen, |s.commits|)
  {
    var key := Key(env.iso, p.r);
    LabelsIdentify(s.commits, since, p.seen);
    FindSpec(s.cache.entries, key);
    var e := Entry(key, Find(s.cache.entries, key).value);
    assert EntryOk(env, rs, s.commits, e, since);
    var r :| Proper(env, rs, r) && e.key == Key(env.iso, r) && AnswersWithin(env, s.commits, r, e.value, since, |s.commits|);
    AnswersCarryOver(env, s.commits, r, p.r, e.value, since, |s.commits|);
  }

  // A lookup leaves in the cache only entries that were there.
  lemma LookUpOnlyDrops(c: CacheState<Answer>, tag: Option<string>, key: string)
    ensures forall e :: e in AfterGet(c, tag, key).entries ==> e in c.entries
  {
    FindSpec(c.entries, key);
    WithoutSpec(c.entries, key);
  }

  // So it leaves the cache filed under the snapshot it asked for.
  lemma LookUpKeepsCacheOk(env: Env, rs: iset<Request>, s: State, since: nat, p: Phase) returns (since': nat)
    requires CacheOk(env, rs, s, since) && PhaseOk(env, rs, s.commits, p)
    ensures CacheOk(env, rs, s.(cache := AfterGet(s.cache, p.tag, Key(env.iso, p.r))), since')
  {
    LookUpOnlyDrops(s.cache, p.tag, Key(env.iso, p.r));
    since' := if p.tag == s.cache.snapshot then since else p.seen;
  }

  lemma LookUpKeepsInv(env: Env, rs: iset<Request>, bound: nat, s: State, t: nat)
    requires Inv(env, rs, s) && (Compatible(env, rs) || s.cache.entries == [])
    ensures Inv(env, rs, Next(env, bound, s, LookUp(t)))
  {
    if t in s.threads && s.threads[t].Observed? {
      var s', p := Next(env, bound, s, LookUp(t)), s.threads[t];
      var since: nat :| CacheOk(env, rs, s, since);
      assert PhaseOk(env, rs, s.commits, p);
      var since' := LookUpKeepsCacheOk(env, rs, s, since, p);
      assert CacheOk(env, rs, s', since');
      if Held(s.cache, p.tag, Key(env.iso, p.r)).Some? {
        HitAnswersRequest(env, rs, s, since, p);
      }
    }
  }

  lemma StoreKeepsInv(env: Env, rs: iset<Request>, bound: nat, s: State, t: nat)
    requires Inv(env, rs, s)
    ensures Inv(env, rs, Next(env, bound, s, Store(t)))
  {
    if t in s.threads && s.threads[t].Built? {
      var s', p := Next(env, bound, s, Store(t)), s.threads[t];
      var key := Key(env.iso, p.r);
      var since: nat :| CacheOk(env, rs, s, since);
      assert PhaseOk(env, rs, s.commits, p);
      var held := if p.tag != s.cache.snapshot then [] else s.cache.entries;
      if p.tag == s.cache.snapshot {
        LabelsIdentify(s.commits, since, p.seen);
      }
      WithoutSpec(held, key);
      forall e | e in s'.cache.entries ensures EntryOk(env, rs, s'.commits, e, p.seen) {
        assert e in held || e == Entry(key, p.value);
      }
      assert CacheOk(env, rs, s', p.seen);
    }
  }

  lemma OtherStepsKeepInv(env: Env, rs: iset<Request>, bound: nat, s: State, step: Step)
    requires Inv(env, rs, s) && !step.Commit? && !step.LookUp? && !step.Store?
    requires step.Arrive? ==> step.r in rs
    ensures Inv(env, rs, Next(env, bound, s, step))
  {
    var s' := Next(env, bound, s, step);
    var since: nat :| CacheOk(env, rs, s, since);
    assert CacheOk(env, rs, s', since);
    if step.Build? && s' != s {
      assert PhaseOk(env, rs, s.commits, s.threads[step.thread]);
    }
    if step.Return? && s' != s {
      assert PhaseOk(env, rs, s.commits, s.threads[step.thread]);
    }
  }

  // Requests come from rs, and commits publish gold tables.
  ghost predicate Sends(step: Step, rs: iset<Request>) {
    (step.Arrive? ==> step.r in rs) && (step.Commit? ==> UniqueGold(step.version.table))
  }

  ghost predicate AllSend(steps: seq<Step>, rs: iset<Request>) {
    forall i :: 0 <= i < |steps| ==> Sends(steps[i], rs)
  }

  lemma StepKeepsInv(env: Env, rs: iset<Request>, bound: nat, s: State, step: Step)
    requires Inv(env, rs, s) && Sends(step, rs) && (Compatible(env, rs) || s.cache.entries == [])
    ensures Inv(env, rs, Next(env, bound, s, step))
  {
    if step.Commit? {
      CommitKeepsInv(env, rs, bound, s, step.version);
    } else if step.LookUp? {
      LookUpKeepsInv(env, rs, bound, s, step.thread);
    } else if step.Store? {
      StoreKeepsInv(env, rs, bound, s, step.thread);
    } else {
      OtherStepsKeepInv(env, rs, bound, s, step);
    }
  }

  lemma {:induction false} NothingHeld(env: Env, steps: seq<Step>)
    ensures Run(env, 0, steps).cache.entries == []
  {
    if steps != [] {
      NothingHeld(env, steps[..|steps| - 1]);
    }
  }

  lemma {:induction false} RunKeepsInv(env: Env, rs: iset<Request>, bound: nat, steps: seq<Step>)
    requires AllSend(steps, rs) && (bound == 0 || Compatible(env, rs))
    ensures Inv(env, rs, Run(env, bound, steps))
  {
    if steps == [] {
      assert CacheOk(env, rs, START, 0);
    } else {
      var init, step := steps[..|steps| - 1], steps[|steps| - 1];
      RunKeepsInv(env, rs, bound, init);
      if bound == 0 {
        NothingHeld(env, init);
      }
      assert Sends(steps[|steps| - 1], rs);
      StepKeepsInv(env, rs, bound, Run(env, bound, init), step);
    }
  }

  ghost predicate AllServed(env: Env, s: State) {
    && (forall t :: t in s.threads ==> Served(env, s.threads[t].r))
    && (forall q :: q in s.responses ==> Served(env, q.r))
  }

  lemma StepServesOnly(env: Env, bound: nat, s: State, step: Step)
    requires AllServed(env, s)
    ensures AllServed(env, Next(env, bound, s, step))
  {
  }

  lemma {:induction false} RunServesOnly(env: Env, bound: nat, steps: seq<Step>)
    ensures AllServed(env, Run(env, bound, steps))
  {
    if steps != [] {
      RunServesOnly(env, bound, steps[..|steps| - 1]);
      StepServesOnly(env, bound, Run(env, bound, steps[..|steps| - 1]), steps[|steps| - 1]);
    }
  }

  // Only requests with good parameters are answered, and no request whose cursor does not decode.
  lemma OnlyServedAreAnswered(env: Env, bound: nat, steps: seq<Step>, q: Response)
    requires q in Run(env, bound, steps).responses
    ensures Accepted(q.r) && (q.r.Hourly? && q.r.cursor.Some? ==> Resume(env, q.r).Some?)
  {
    RunServesOnly(env, bound, steps);
  }

  // In every interleaving of request steps, failures and gold commits, when requests that share a key
  // have the same answers, each response is its query's answer over a version of gold between the one
  // it is labelled with and the one current at its return; if nothing was committed during the request,
  // it is the answer over exactly the labelled version.
  lemma ResponsesAreLinearizable(env: Env, rs: iset<Request>, bound: nat, steps: seq<Step>, q: Response)
    requires AllSend(steps, rs) && (bound == 0 || Compatible(env, rs))
    requires q in Run(env, bound, steps).responses
    ensures var commits := Run(env, bound, steps).commits;
            q.seen <= q.at <= |commits| && q.tag == Label(commits, q.seen) &&
            AnswersWithin(env, commits, q.r, q.value, q.seen, q.at) &&
            (q.at == q.seen ==> q.value == Ask(env, Table(commits, q.seen), q.r))
  {
    RunKeepsInv(env, rs, bound, steps);
    assert ResponseOk(env, Run(env, bound, steps).commits, q);
  }

  // The position an hourly request resumes from.
  function Resume(env: Env, r: Request): Option<GoldKey>
    requires r.Hourly?
  {
    if r.cursor.Some? then env.decode(r.cursor.value) else None
  }

  // So a page cut from a cached or built response is a page of some version in that range.
  lemma ResponsePageIsAPage(env: Env, commits: seq<Version>, q: Response)
    requires q.r.Hourly? && AnswersWithin(env, commits, q.r, q.value, q.seen, q.at)
    ensures q.value.Rows?
    ensures exists v: nat :: (
      q.seen <= v <= q.at && v <= |commits| &&
      PageOf(q.value.rows, q.r.limit) == PageAt(Table(commits, v), q.r.f, q.r.limit, Resume(env, q.r)))
  {
    var v: nat :| q.seen <= v <= q.at && v <= |commits| && q.value == Ask(env, Table(commits, v), q.r);
    assert PageOf(q.value.rows, q.r.limit) == PageAt(Table(commits, v), q.r.f, q.r.limit, Resume(env, q.r));
  }

  /******* Summary responses *******/

  // The rows of a gold table a filter accepts.
  function AcceptedRows(table: seq<GoldRow>, f: MetricsFilter): seq<GoldRow> {
    if table == [] then []
    else
      var rest, g := AcceptedRows(table[..|table| - 1], f), table[|table| - 1];
      if Accepts(f, g.key) then rest + [g] else rest
  }

  function PaymentsIn(rows: seq<GoldRow>): int {
    if rows == [] then 0 else PaymentsIn(rows[..|rows| - 1]) + rows[|rows| - 1].count
  }

  // A NULL volume adds nothing.
  function VolumeIn(rows: seq<GoldRow>): int {
    if rows == [] then 0
    else VolumeIn(rows[..|rows| - 1]) + if rows[|rows| - 1].gross.Some? then rows[|rows| - 1].gross.value else 0
  }

  function AuthorizedIn(rows: seq<GoldRow>): real {
    if rows == [] then 0.0
    else AuthorizedIn(rows[..|rows| - 1]) + rows[|rows| - 1].rate * rows[|rows| - 1].count as real
  }

  // How many rows were summarised, the payments and the volume in them, and the rate weighted by payments.
  predicate IsTotalOf(s: Summary, rows: seq<GoldRow>) {
    && s.buckets == |rows| && s.count == PaymentsIn(rows) && s.gross == VolumeIn(rows)
    && s.rate == if PaymentsIn(rows) == 0 then None else Some(AuthorizedIn(rows) / PaymentsIn(rows) as real)
  }

  lemma {:induction false} AcceptedSums(table: seq<GoldRow>, f: MetricsFilter, p: GoldKey -> bool)
    requires forall k :: p(k) == Accepts(f, k)
    ensures var rows := AcceptedRows(table, f);
            SumRows(table, p, OneRow) == |rows| && SumRows(table, p, CountOf) == PaymentsIn(rows) &&
            SumRows(table, p, GrossOf) == VolumeIn(rows) && SumRates(table, p) == AuthorizedIn(rows)
    ensures forall g :: g in AcceptedRows(table, f) <==> g in table && Accepts(f, g.key)
  {
    if table != [] {
      AcceptedSums(table[..|table| - 1], f, p);
      var rest, g := AcceptedRows(table[..|table| - 1], f), table[|table| - 1];
      assert (rest + [g])[..|rest|] == rest && table == table[..|table| - 1] + [g];
    }
  }

  // A summary response carries the totals of the accepted rows of some version in its range.
  lemma TotalsResponseIsASummary(env: Env, commits: seq<Version>, q: Response)
    requires q.r.Totals? && AnswersWithin(env, commits, q.r, q.value, q.seen, q.at)
    ensures q.value.Total?
    ensures exists v: nat :: (
      q.seen <= v <= q.at && v <= |commits| && IsTotalOf(q.value.summary, AcceptedRows(Table(commits, v), q.r.f)))
  {
    var v: nat :| q.seen <= v <= q.at && v <= |commits| && q.value == Ask(env, Table(commits, v), q.r);
    AcceptedSums(Table(commits, v), q.r.f, k => Accepts(q.r.f, k));
    assert IsTotalOf(q.value.summary, AcceptedRows(Table(commits, v), q.r.f));
  }

  /******* A client walking through the cache *******/

  // A client asks for the first page and then follows each page's cursor.
  ghost predicate Chain(env: Env, qs: seq<Response>, f: MetricsFilter, limit: nat) {
    && (forall i :: 0 <= i < |qs| ==> qs[i].r.Hourly? && qs[i].value.Rows? && qs[i].r.f == f && qs[i].r.limit == limit)
    && forall i :: 0 <= i < |qs| - 1 ==> Leads(env, qs[i], qs[i + 1])
  }

  ghost predicate Leads(env: Env, q: Response, next: Response) {
    && q.r.Hourly? && q.value.Rows? && next.r.Hourly?
    && PageOf(q.value.rows, q.r.limit).next.Some? && Resume(env, next.r) == PageOf(q.value.rows, q.r.limit).next
  }

  function PagesOf(qs: seq<Response>): seq<Page>
    requires forall i :: 0 <= i < |qs| ==> qs[i].r.Hourly? && qs[i].value.Rows?
  {
    seq(|qs|, i requires 0 <= i < |qs| => PageOf(qs[i].value.rows, qs[i].r.limit))
  }

  // Table i is a version that was current at some time during request i.
  ghost predicate ReadDuring(commits: seq<Version>, tables: seq<seq<GoldRow>>, qs: seq<Response>) {
    |tables| == |qs| && forall i :: 0 <= i < |qs| ==> VersionDuring(commits, tables[i], qs[i])
  }

  ghost predicate VersionDuring(commits: seq<Version>, table: seq<GoldRow>, q: Response) {
    exists v: nat :: q.seen <= v <= q.at && v <= |commits| && table == Table(commits, v)
  }

  lemma ChainTail(env: Env, qs: seq<Response>, f: MetricsFilter, limit: nat)
    requires |qs| > 1 && Chain(env, qs, f, limit)
    ensures Chain(env, qs[1..], f, limit)
    ensures PageOf(qs[0].value.rows, limit).next.Some? && Resume(env, qs[1].r) == PageOf(qs[0].value.rows, limit).next
    ensures PagesOf(qs) == [PageOf(qs[0].value.rows, limit)] + PagesOf(qs[1..])
  {
    var rest := qs[1..];
    assert Leads(env, qs[0], qs[0 + 1]);
    forall i | 0 <= i < |rest| - 1 ensures Leads(env, rest[i], rest[i + 1]) {
      var j := i + 1;
      assert Leads(env, qs[j], qs[j + 1]);
    }
  }

  lemma ReadFirst(commits: seq<Version>, first: seq<GoldRow>, others: seq<seq<GoldRow>>, qs: seq<Response>)
    requires qs != [] && VersionDuring(commits, first, qs[0]) && ReadDuring(commits, others, qs[1..])
    ensures ReadDuring(commits, [first] + others, qs)
  {
    var tables := [first] + others;
    forall i | 0 <= i < |qs| ensures VersionDuring(commits, tables[i], qs[i]) {
      if i > 0 {
        assert VersionDuring(commits, others[i - 1], qs[1..][i - 1]);
      }
    }
  }

  lemma ReadPage(env: Env, commits: seq<Version>, q: Response) returns (table: seq<GoldRow>)
    requires q.r.Hourly? && AnswersWithin(env, commits, q.r, q.value, q.seen, q.at)
    ensures VersionDuring(commits, table, q) && q.value.Rows?
    ensures PageOf(q.value.rows, q.r.limit) == PageAt(table, q.r.f, q.r.limit, Resume(env, q.r))
  {
    var v: nat :| q.seen <= v <= q.at && v <= |commits| && q.value == Ask(env, Table(commits, v), q.r);
    table := Table(commits, v);
  }

  lemma {:induction false} ChainTables(env: Env, commits: seq<Version>, qs: seq<Response>, f: MetricsFilter, limit: nat)
    returns (tables: seq<seq<GoldRow>>)
    requires qs != [] && Chain(env, qs, f, limit)
    requires forall i :: 0 <= i < |qs| ==> AnswersWithin(env, commits, qs[i].r, qs[i].value, qs[i].seen, qs[i].at)
    ensures ReadDuring(commits, tables, qs)
    ensures PagesOf(qs) == Walk(tables, f, limit, Resume(env, qs[0].r))
    decreases |qs|
  {
    var first := ReadPage(env, commits, qs[0]);
    if |qs| == 1 {
      tables := [first];
      ReadFirst(commits, first, [], qs);
      assert tables[1..] == [];
    } else {
      ChainTail(env, qs, f, limit);
      var others := ChainTables(env, commits, qs[1..], f, limit);
      tables := [first] + others;
      ReadFirst(commits, first, others, qs);
      assert tables[1..] == others;
    }
  }

  // Every key the version holds is in every version that was current during any of the requests.
  ghost predicate AlwaysThere(commits: seq<Version>, qs: seq<Response>, k: GoldKey) {
    forall i, v: nat :: 0 <= i < |qs| && qs[i].seen <= v <= qs[i].at && v <= |commits| ==> HasKey(Table(commits, v), k)
  }

  // A client that walks next_cursor to the end through the cache, in any interleaving with other
  // requests and with gold commits, when requests that share a key have the same answers: the keys it is
  // given strictly increase, and it is given every wanted key that stayed in gold throughout.
  lemma WalkThroughCache(env: Env, rs: iset<Request>, bound: nat, steps: seq<Step>,
                         qs: seq<Response>, f: MetricsFilter, limit: nat, k: GoldKey)
    requires AllSend(steps, rs) && (bound == 0 || Compatible(env, rs))
    requires limit >= 1 && qs != [] && Chain(env, qs, f, limit)
    requires forall i :: 0 <= i < |qs| ==> qs[i] in Run(env, bound, steps).responses
    ensures Increasing(Returned(PagesOf(qs)))
    ensures Finished(PagesOf(qs)) && Wanted(f, Resume(env, qs[0].r), k) && AlwaysThere(Run(env, bound, steps).commits, qs, k) ==>
              HasKey(Returned(PagesOf(qs)), k)
  {
    var commits := Run(env, bound, steps).commits;
    forall i | 0 <= i < |qs| ensures AnswersWithin(env, commits, qs[i].r, qs[i].value, qs[i].seen, qs[i].at) {
      ResponsesAreLinearizable(env, rs, bound, steps, qs[i]);
    }
    RunKeepsInv(env, rs, bound, steps);
    var tables := ChainTables(env, commits, qs, f, limit);
    forall t | t in tables ensures UniqueGold(t) {
      var i :| 0 <= i < |tables| && tables[i] == t;
      VersionIsUnique(commits, t, qs[i]);
    }
    var after := Resume(env, qs[0].r);
    WalkIncreases(tables, f, limit, after);
    if Finished(PagesOf(qs)) && Wanted(f, after, k) && AlwaysThere(commits, qs, k) {
      forall i | 0 <= i < |tables| ensures HasKey(tables[i], k) {
        KeyIsThere(commits, tables[i], qs, i, k);
      }
      FinishedWalkMissesNothing(tables, f, limit, after, k);
    }
  }

  lemma VersionIsUnique(commits: seq<Version>, table: seq<GoldRow>, q: Response)
    requires VersionDuring(commits, table, q) && AllUnique(commits)
    ensures UniqueGold(table)
  {
    var v: nat :| q.seen <= v <= q.at && v <= |commits| && table == Table(commits, v);
    assert v > 0 ==> commits[v - 1] in commits;
  }

  lemma KeyIsThere(commits: seq<Version>, table: seq<GoldRow>, qs: seq<Response>, i: nat, k: GoldKey)
    requires i < |qs| && VersionDuring(commits, table, qs[i]) && AlwaysThere(commits, qs, k)
    ensures HasKey(table, k)
  {
    var v: nat :| qs[i].seen <= v <= qs[i].at && v <= |commits| && table == Table(commits, v);
    assert HasKey(Table(commits, v), k);
  }

  /******* Requests that share a key *******/

  // One request, start to finish, on an otherwise idle server.
  function ServeAlone(env: Env, bound: nat, s: State, r: Request): State {
    Next(env, bound, Next(env, bound, Next(env, bound, Next(env, bound, Next(env, bound, s,
      Arrive(0, r)), LookUp(0)), Build(0)), Store(0)), Return(0))
  }

  lemma MissBuilds(env: Env, bound: nat, s: State, r: Request)
    requires s.threads == map[] && s.cache.entries == [] && Served(env, r)
    ensures var now := |s.commits|;
            var tag, value := Label(s.commits, now), Ask(env, Table(s.commits, now), r);
            var s' := Next(env, bound, Next(env, bound, Next(env, bound, s, Arrive(0, r)), LookUp(0)), Build(0));
            s'.commits == s.commits && s'.responses == s.responses && s'.threads == map[0 := Built(r, tag, now, value)] &&
            s'.cache.entries == [] && s'.cache.snapshot == tag
  {
    var now := |s.commits|;
    var tag := Label(s.commits, now);
    var s1 := Next(env, bound, s, Arrive(0, r));
    assert s1 == Move(s, 0, Observed(r, tag, now));
    var s2 := Next(env, bound, s1, LookUp(0));
    assert s2.threads == map[0 := Missed(r, tag, now)];
  }

  lemma MissServesBuild(env: Env, bound: nat, s: State, r: Request)
    requires bound >= 1 && s.threads == map[] && s.cache.entries == [] && Served(env, r)
    ensures var s', now := ServeAlone(env, bound, s, r), |s.commits|;
            var value := Ask(env, Table(s.commits, now), r);
            s'.commits == s.commits && s'.threads == map[] &&
            s'.responses == s.responses + [Response(r, Label(s.commits, now), now, value, now)] &&
            Held(s'.cache, Label(s.commits, now), Key(env.iso, r)) == Some(value)
  {
    var now := |s.commits|;
    var tag, value := Label(s.commits, now), Ask(env, Table(s.commits, now), r);
    MissBuilds(env, bound, s, r);
    StoreAndReturn(env, bound, Next(env, bound, Next(env, bound, Next(env, bound, s, Arrive(0, r)), LookUp(0)), Build(0)), r, tag, now, value);
  }

  lemma StoreAndReturn(env: Env, bound: nat, s: State, r: Request, tag: Option<string>, seen: nat, value: Answer)
    requires bound >= 1 && s.threads == map[0 := Built(r, tag, seen, value)] && s.cache.entries == [] && s.cache.snapshot == tag
    ensures var s' := Next(env, bound, Next(env, bound, s, Store(0)), Return(0));
            s'.commits == s.commits && s'.threads == map[] &&
            s'.responses == s.responses + [Response(r, tag, seen, value, |s.commits|)] &&
            Held(s'.cache, tag, Key(env.iso, r)) == Some(value)
  {
    var t := Next(env, bound, s, Store(0));
    assert t.threads == map[0 := Ready(r, tag, seen, value)] && t.cache.entries == [Entry(Key(env.iso, r), value)];
    assert Next(env, bound, t, Return(0)).threads == map[];
  }

  lemma HitServesHeld(env: Env, bound: nat, s: State, r: Request)
    requires s.threads == map[] && Served(env, r)
    requires Held(s.cache, Label(s.commits, |s.commits|), Key(env.iso, r)).Some?
    ensures var now := |s.commits|;
            ServeAlone(env, bound, s, r).responses ==
            s.responses + [Response(r, Label(s.commits, now), now, Held(s.cache, Label(s.commits, now), Key(env.iso, r)).value, now)]
  {
    var now := |s.commits|;
    var tag := Label(s.commits, now);
    var value := Held(s.cache, tag, Key(env.iso, r)).value;
    var s1 := Next(env, bound, s, Arrive(0, r));
    assert s1 == Move(s, 0, Observed(r, tag, now));
    var s2 := Next(env, bound, s1, LookUp(0));
    assert s2.threads == map[0 := Ready(r, tag, now, value)];
    assert Next(env, bound, Next(env, bound, s2, Build(0)), Store(0)) == s2;
  }

  // If two accepted requests share a key, the second is answered with the first one's result.
  lemma SharedKeySharesAnswer(env: Env, bound: nat, s: State, r: Request, q: Request)
    requires bound >= 1 && s.threads == map[] && s.cache.entries == []
    requires Served(env, r) && Served(env, q) && Key(env.iso, r) == Key(env.iso, q)
    ensures var tag, now := Label(s.commits, |s.commits|), |s.commits|;
            ServeAlone(env, bound, ServeAlone(env, bound, s, r), q).responses ==
            s.responses + [Response(r, tag, now, Ask(env, Table(s.commits, now), r), now),
                           Response(q, tag, now, Ask(env, Table(s.commits, now), r), now)]
  {
    MissServesBuild(env, bound, s, r);
    HitServesHeld(env, bound, ServeAlone(env, bound, s, r), q);
  }

  // Asking for the empty method after asking for every method returns the totals of all methods.
  lemma EmptyMethodIsServedAllMethods(env: Env, bound: nat, version: Version)
    requires bound >= 1 && version.table != [] && forall g :: g in version.table ==> g.key.payMethod != ""
    ensures var all, none := Totals(MetricsFilter(None, None, None, None)), Totals(MetricsFilter(None, None, None, Some("")));
            var s := ServeAlone(env, bound, ServeAlone(env, bound, START.(commits := [version]), all), none);
            |s.responses| == 2 && s.responses[1].r == none &&
            s.responses[1].value != Ask(env, version.table, none)
  {
    var all, none := Totals(MetricsFilter(None, None, None, None)), Totals(MetricsFilter(None, None, None, Some("")));
    SharedKeySharesAnswer(env, bound, START.(commits := [version]), all, none);
    BucketCount(version.table, k => Accepts(all.f, k), k => Accepts(none.f, k));
  }

  lemma {:induction false} BucketCount(gold: seq<GoldRow>, p: GoldKey -> bool, q: GoldKey -> bool)
    requires forall k :: p(k)
    requires forall g :: g in gold ==> !q(g.key)
    ensures SumRows(gold, p, OneRow) == |gold| && SumRows(gold, q, OneRow) == 0
  {
    if gold != [] {
      BucketCount(gold[..|gold| - 1], p, q);
      assert gold[|gold| - 1] in gold;
    }
  }

  // A position with a second one behind it in the same cursor, for every token the decoder reads both
  // alone and so: the second request is given the rows of the first, although it asked for a method
  // that has none.
  lemma CursorIsServedAnother(env: Env, bound: nat, token: string, f: MetricsFilter, limit: nat, other: nat, version: Version)
    requires bound >= 1 && 0 < |token| <= 54 && 1 <= limit <= 1000 && 1 <= other <= 1000 && limit != other && Accepted(Totals(f))
    requires env.decode(token).Some? && env.decode(token + "|" + Digits(other) + "|" + token).Some?
    requires UniqueGold(version.table)
    requires forall g :: g in version.table ==> '|' !in g.key.payMethod
    requires var card := f.(payMethod := Some("card"));
             exists g :: g in version.table && Wanted(card, env.decode(token + "|" + Digits(other) + "|" + token), g.key)
    ensures var r := Hourly(f.(payMethod := Some("card")), limit, Some(token + "|" + Digits(other) + "|" + token));
            var q := Hourly(f.(payMethod := Some("card" + "|" + Digits(limit) + "|" + token)), other, Some(token));
            var s := ServeAlone(env, bound, ServeAlone(env, bound, START.(commits := [version]), r), q);
            Served(env, r) && Served(env, q) && |s.responses| == 2 && s.responses[1].r == q &&
            s.responses[1].value != Ask(env, version.table, q)
  {
    var r := Hourly(f.(payMethod := Some("card")), limit, Some(token + "|" + Digits(other) + "|" + token));
    var q := Hourly(f.(payMethod := Some("card" + "|" + Digits(limit) + "|" + token)), other, Some(token));
    CursorCarriesAnotherRequest(env.iso, token, f, limit, other);
    SharedKeySharesAnswer(env, bound, START.(commits := [version]), r, q);
    SomeRows(version.table, r.f, limit, Resume(env, r));
    assert q.f.payMethod.value[4] == '|';
    NothingOrdered(version.table, Wants(q.f, Resume(env, q)));
  }

  lemma SomeRows(table: seq<GoldRow>, f: MetricsFilter, limit: nat, after: Option<GoldKey>)
    requires UniqueGold(table) && exists g :: g in table && Wanted(f, after, g.key)
    ensures HourlyRows(table, f, limit, after) != []
  {
    OrderedSpec(table, Wants(f, after));
    var g :| g in table && Wanted(f, after, g.key);
    assert g in Ordered(table, Wants(f, after));
  }

  lemma {:induction false} NothingOrdered(table: seq<GoldRow>, p: GoldKey -> bool)
    requires forall g :: g in table ==> !p(g.key)
    ensures Ordered(table, p) == []
  {
    if table != [] {
      assert table[0] in table && forall g :: g in table[1..] ==> g in table;
      NothingOrdered(table[1..], p);
    }
  }

  /******* Exactly when responses are linearizable *******/

  // Every response of every run of such requests is an answer to its own request.
  ghost predicate Linearizable(env: Env, bound: nat, rs: iset<Request>) {
    forall steps, q :: AllSend(steps, rs) && q in Run(env, bound, steps).responses ==>
      ResponseOk(env, Run(env, bound, steps).commits, q)
  }

  function ServeSteps(r: Request): seq<Step> {
    [Arrive(0, r), LookUp(0), Build(0), Store(0), Return(0)]
  }

  lemma RunOneMore(env: Env, bound: nat, steps: seq<Step>, step: Step)
    ensures Run(env, bound, steps + [step]) == Next(env, bound, Run(env, bound, steps), step)
  {
    assert (steps + [step])[..|steps|] == steps;
  }

  lemma RunServes(env: Env, bound: nat, steps: seq<Step>, r: Request)
    ensures Run(env, bound, steps + ServeSteps(r)) == ServeAlone(env, bound, Run(env, bound, steps), r)
  {
    var a := steps + [Arrive(0, r)];
    var b := a + [LookUp(0)];
    var c := b + [Build(0)];
    var d := c + [Store(0)];
    assert steps + ServeSteps(r) == d + [Return(0)];
    RunOneMore(env, bound, steps, Arrive(0, r));
    RunOneMore(env, bound, a, LookUp(0));
    RunOneMore(env, bound, b, Build(0));
    RunOneMore(env, bound, c, Store(0));
    RunOneMore(env, bound, d, Return(0));
  }

  // Publish one version, ask r and then q.
  function Clash(version: Version, r: Request, q: Request): seq<Step> {
    [Commit(version)] + ServeSteps(r) + ServeSteps(q)
  }

  lemma Published(env: Env, bound: nat, version: Version)
    ensures Run(env, bound, [Commit(version)]) == START.(commits := [version])
  {
    assert [Commit(version)][..0] == [];
  }

  lemma ClashRuns(env: Env, bound: nat, version: Version, r: Request, q: Request)
    ensures Run(env, bound, Clash(version, r, q)) ==
            ServeAlone(env, bound, ServeAlone(env, bound, Run(env, bound, [Commit(version)]), r), q)
  {
    RunServes(env, bound, [Commit(version)], r);
    RunServes(env, bound, [Commit(version)] + ServeSteps(r), q);
  }

  lemma ServingKeepsCommits(env: Env, bound: nat, s: State, r: Request)
    ensures ServeAlone(env, bound, s, r).commits == s.commits
  {
  }

  lemma ClashResponds(env: Env, bound: nat, version: Version, r: Request, q: Request)
    requires bound >= 1 && Served(env, r) && Served(env, q) && Key(env.iso, r) == Key(env.iso, q)
    ensures var end := Run(env, bound, Clash(version, r, q));
            end.commits == [version] &&
            Response(q, Label([version], 1), 1, Ask(env, version.table, r), 1) in end.responses
  {
    var s := START.(commits := [version]);
    Published(env, bound, version);
    ClashRuns(env, bound, version, r, q);
    SharedKeySharesAnswer(env, bound, s, r, q);
    ServingKeepsCommits(env, bound, s, r);
    ServingKeepsCommits(env, bound, ServeAlone(env, bound, s, r), q);
    var end := Run(env, bound, Clash(version, r, q));
    assert end.responses[1] == Response(q, Label([version], 1), 1, Ask(env, version.table, r), 1);
  }

  // Two requests one key does not tell apart but a gold table does.
  lemma ClashIsServed(env: Env, bound: nat, rs: iset<Request>, r: Request, q: Request, table: seq<GoldRow>)
    requires bound >= 1 && Proper(env, rs, r) && Proper(env, rs, q) && Key(env.iso, r) == Key(env.iso, q)
    requires UniqueGold(table) && Ask(env, table, r) != Ask(env, table, q)
    ensures !Linearizable(env, bound, rs)
  {
    var version := Version("", table);
    ClashResponds(env, bound, version, r, q);
    WrongAnswer(env, version, q, Ask(env, table, r));
    ClashSends(rs, version, r, q);
  }

  lemma WrongAnswer(env: Env, version: Version, q: Request, value: Answer)
    requires value != Ask(env, version.table, q)
    ensures !ResponseOk(env, [version], Response(q, Label([version], 1), 1, value, 1))
  {
    assert Table([version], 1) == version.table;
  }

  lemma ClashSends(rs: iset<Request>, version: Version, r: Request, q: Request)
    requires r in rs && q in rs && UniqueGold(version.table)
    ensures AllSend(Clash(version, r, q), rs)
  {
  }

  // The exact condition, for every set of requests clients may send: every response of every run is an
  // answer to its own request if and only if any two of them that are served under one key have the same
  // answers over every gold table; a cache that holds nothing needs no condition.
  lemma LinearizableExactly(env: Env, bound: nat, rs: iset<Request>)
    ensures Linearizable(env, bound, rs) <==> bound == 0 || Compatible(env, rs)
  {
    if bound == 0 || Compatible(env, rs) {
      forall steps, q | AllSend(steps, rs) && q in Run(env, bound, steps).responses
        ensures ResponseOk(env, Run(env, bound, steps).commits, q)
      {
        RunKeepsInv(env, rs, bound, steps);
      }
    } else {
      var r, q :| Proper(env, rs, r) && Proper(env, rs, q) && Key(env.iso, r) == Key(env.iso, q) && !SameAnswers(env, r, q);
      var table :| UniqueGold(table) && Ask(env, table, r) != Ask(env, table, q);
      ClashIsServed(env, bound, rs, r, q, table);
    }
  }

  // What the condition is about: the requests among rs whose fields run together in the key. In
  // particular it holds when every request is unambiguous, whatever the cursors.
  lemma CompatibleIsAboutCollisions(env: Env, rs: iset<Request>)
    requires GoodIso(env.iso)
    ensures Compatible(env, rs) <==>
            forall r, q :: Proper(env, rs, r) && Proper(env, rs, q) && Collide(r, q) ==> SameAnswers(env, r, q)
    ensures (forall r :: Proper(env, rs, r) ==> Unambiguous(r)) ==> Compatible(env, rs)
  {
    forall r, q | Proper(env, rs, r) && Proper(env, rs, q) ensures Key(env.iso, r) == Key(env.iso, q) <==> Collide(r, q) {
      KeyCollisions(env.iso, r, q);
    }
    if forall r :: Proper(env, rs, r) ==> Unambiguous(r) {
      forall r, q | Proper(env, rs, r) && Proper(env, rs, q) && Key(env.iso, r) == Key(env.iso, q) ensures r == q {
        KeyIdentifiesRequest(env.iso, r, q);
      }
    }
  }

  // The keys a request is about.
  predicate About(env: Env, r: Request, k: GoldKey) {
    if r.Hourly? then Wanted(r.f, Resume(env, r), k) else Accepts(r.f, k)
  }

  // Two requests of one kind and page size have the same answers exactly when they are about the same keys.
  lemma SameAnswersExactly(env: Env, r: Request, q: Request)
    requires r.Hourly? == q.Hourly? && (r.Hourly? ==> r.limit == q.limit)
    ensures SameAnswers(env, r, q) <==> forall k :: About(env, r, k) == About(env, q, k)
  {
    if forall k :: About(env, r, k) == About(env, q, k) {
      forall table | UniqueGold(table) ensures Ask(env, table, r) == Ask(env, table, q) {
        SameKeysSameAnswer(env, table, r, q);
      }
    } else {
      var k :| About(env, r, k) != About(env, q, k);
      var table := [GoldRow(k, 1, Some(0), Some(0), 0.0)];
      OneRowAnswer(env, k, r);
      OneRowAnswer(env, k, q);
      assert UniqueGold(table) && Ask(env, table, r) != Ask(env, table, q);
    }
  }

  lemma SameKeysSameAnswer(env: Env, table: seq<GoldRow>, r: Request, q: Request)
    requires r.Hourly? == q.Hourly? && (r.Hourly? ==> r.limit == q.limit)
    requires forall k :: About(env, r, k) == About(env, q, k)
    ensures Ask(env, table, r) == Ask(env, table, q)
  {
    if r.Hourly? {
      forall k ensures Wants(r.f, Resume(env, r))(k) == Wants(q.f, Resume(env, q))(k) {
        assert About(env, r, k) == About(env, q, k);
      }
      OrderedSame(table, Wants(r.f, Resume(env, r)), Wants(q.f, Resume(env, q)));
    } else {
      var p, p' := k => Accepts(r.f, k), k => Accepts(q.f, k);
      forall k ensures p(k) == p'(k) {
        assert About(env, r, k) == About(env, q, k);
      }
      SumRowsSame(table, p, p', CountOf);
      SumRowsSame(table, p, p', OneRow);
      SumRowsSame(table, p, p', GrossOf);
    }
  }

  // One row is in the answer exactly when the request is about it.
  lemma OneRowAnswer(env: Env, k: GoldKey, r: Request)
    ensures var g := GoldRow(k, 1, Some(0), Some(0), 0.0);
            match Ask(env, [g], r)
            case Rows(rows) => r.Hourly? && rows == if About(env, r, k) then [g] else []
            case Total(summary) => !r.Hourly? && summary.buckets == if About(env, r, k) then 1 else 0
  {
    var g := GoldRow(k, 1, Some(0), Some(0), 0.0);
    if r.Hourly? {
      assert [g][1..] == [] && Ordered([], Wants(r.f, Resume(env, r))) == [];
    } else {
      var p := k => Accepts(r.f, k);
      assert [g][..0] == [] && SumRows([], p, OneRow) == 0;
      assert SumRows([g], p, OneRow) == if p(k) then 1 else 0;
    }
  }
}
