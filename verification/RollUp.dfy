// The summary query over gold, against the same figures computed from silver.
module RollUp {
  import opened Basics
  import opened Gold
  import opened Queries

  // The rate of None is SQL NULL; arithmetic is exact.
  datatype Summary = Summary(buckets: int, count: int, gross: int, rate: Option<real>)

  function OneRow(g: GoldRow): int { 1 }

  // sum() skips a NULL volume.
  function GrossOf(g: GoldRow): int {
    if g.gross.Some? then g.gross.value else 0
  }

  // sum(auth_rate * payment_count)
  function SumRates(gold: seq<GoldRow>, p: GoldKey -> bool): real {
    if gold == [] then 0.0
    else
      var g := gold[|gold| - 1];
      SumRates(gold[..|gold| - 1], p) + if p(g.key) then g.rate * g.count as real else 0.0
  }

  function Summarise(gold: seq<GoldRow>, p: GoldKey -> bool): Summary {
    var count := SumRows(gold, p, CountOf);
    Summary(SumRows(gold, p, OneRow), count, SumRows(gold, p, GrossOf),
            if count == 0 then None else Some(SumRates(gold, p) / count as real))
  }

  lemma {:induction false} SumRowsSame(gold: seq<GoldRow>, p: GoldKey -> bool, q: GoldKey -> bool, v: GoldRow -> int)
    requires forall k :: p(k) == q(k)
    ensures SumRows(gold, p, v) == SumRows(gold, q, v) && SumRates(gold, p) == SumRates(gold, q)
  {
    if gold != [] {
      SumRowsSame(gold[..|gold| - 1], p, q, v);
    }
  }

  // Building the roll-up's WHERE clause and running it summarises exactly the accepted rows.
  method FetchSummary(gold: seq<GoldRow>, f: MetricsFilter) returns (s: Summary)
    ensures s == Summarise(gold, k => Accepts(f, k))
  {
    var clauses, params := FilterPredicates(f);
    var selected := (k: GoldKey) => var b := EvalWhere(clauses, k, params); b.Some? && b.value.holds;
    s := Summarise(gold, selected);
    forall k ensures selected(k) == Accepts(f, k) {
      assert params + [] == params;
      assert EvalWhere(clauses, k, params + []) == Some(Bound(Accepts(f, k), []));
    }
    SumRowsSame(gold, selected, k => Accepts(f, k), CountOf);
    SumRowsSame(gold, selected, k => Accepts(f, k), OneRow);
    SumRowsSame(gold, selected, k => Accepts(f, k), GrossOf);
  }

  /******* Against silver *******/

  lemma {:induction false} RatesAddUp(facts: seq<Fact>, gold: seq<GoldRow>, keys: seq<GoldKey>, p: GoldKey -> bool)
    requires |gold| == |keys|
    requires forall i :: 0 <= i < |keys| ==> Group(facts, keys[i]) != [] && gold[i] == GoldRowFor(facts, keys[i])
    ensures SumRates(gold, p) == SumGroups(facts, keys, p, AuthorizedOne) as real
  {
    if gold != [] {
      var init, k := keys[..|keys| - 1], keys[|keys| - 1];
      RatesAddUp(facts, gold[..|gold| - 1], init, p);
      var grp := Group(facts, k);
      SumBounds(grp);
      RatioInUnit(Sum(grp, AuthorizedOne), |grp|);
    }
  }

  // A row loses its volume exactly when the volume overflowed.
  lemma OneRowLoses(facts: seq<Fact>, key: GoldKey)
    requires Plausible(facts) && Group(facts, key) != []
    ensures GrossOf(GoldRowFor(facts, key)) <= Sum(Group(facts, key), AmountOf)
    ensures GrossOf(GoldRowFor(facts, key)) == Sum(Group(facts, key), AmountOf) <==> GoldRowFor(facts, key).gross.Some?
  {
    GroupSpec(facts, key);
    SumBounds(Group(facts, key));
  }

  lemma {:induction false} GrossLosesOverflows(facts: seq<Fact>, gold: seq<GoldRow>, keys: seq<GoldKey>, p: GoldKey -> bool)
    requires Plausible(facts) && |gold| == |keys|
    requires forall i :: 0 <= i < |keys| ==> Group(facts, keys[i]) != [] && gold[i] == GoldRowFor(facts, keys[i])
    ensures SumRows(gold, p, GrossOf) <= SumGroups(facts, keys, p, AmountOf)
    ensures SumRows(gold, p, GrossOf) == SumGroups(facts, keys, p, AmountOf) <==>
            forall i :: 0 <= i < |gold| && p(gold[i].key) ==> gold[i].gross.Some?
  {
    if gold != [] {
      var n := |gold| - 1;
      GrossLosesOverflows(facts, gold[..n], keys[..n], p);
      OneRowLoses(facts, keys[n]);
      assert forall i :: 0 <= i < n ==> gold[..n][i] == gold[i];
      assert gold[n].key == keys[n];
    }
  }

  function BucketKeys(gold: seq<GoldRow>, p: GoldKey -> bool): set<GoldKey> {
    set g | g in gold && p(g.key) :: g.key
  }

  lemma BucketKeysStep(gold: seq<GoldRow>, g: GoldRow, p: GoldKey -> bool)
    requires UniqueGold(gold + [g])
    ensures BucketKeys(gold + [g], p) == BucketKeys(gold, p) + if p(g.key) then {g.key} else {}
    ensures g.key !in BucketKeys(gold, p) && UniqueGold(gold)
  {
    var all := gold + [g];
    assert all[|gold|] == g;
    assert forall i :: 0 <= i < |gold| ==> all[i] == gold[i];
  }

  lemma {:induction false} BucketsAreKeys(gold: seq<GoldRow>, p: GoldKey -> bool)
    requires UniqueGold(gold)
    ensures SumRows(gold, p, OneRow) == |BucketKeys(gold, p)|
  {
    if gold != [] {
      var init, g := gold[..|gold| - 1], gold[|gold| - 1];
      assert gold == init + [g];
      BucketKeysStep(init, g, p);
      BucketsAreKeys(init, p);
    }
  }

  lemma GoldIsRows(facts: seq<Fact>)
    ensures var gold, keys := BuildGold(facts), Keys(facts);
            |gold| == |keys| && forall i :: 0 <= i < |keys| ==> Group(facts, keys[i]) != [] && gold[i] == GoldRowFor(facts, keys[i])
  {
    forall i | 0 <= i < |Keys(facts)| ensures Group(facts, Keys(facts)[i]) != [] {
      GroupSpec(facts, Keys(facts)[i]);
    }
  }

  lemma BucketsAreExact(facts: seq<Fact>, p: GoldKey -> bool)
    ensures SumRows(BuildGold(facts), p, OneRow) == |set x | x in facts && p(x.key) :: x.key|
  {
    var gold := BuildGold(facts);
    GoldHasEachGroupOnce(facts);
    BucketsAreKeys(gold, p);
    assert BucketKeys(gold, p) == set k | k in KeysIn(gold) && p(k);
    assert (set x | x in facts && p(x.key) :: x.key) == set k | k in KeysIn(gold) && p(k);
  }

  lemma RateIsExact(facts: seq<Fact>, p: GoldKey -> bool)
    ensures SumRates(BuildGold(facts), p) == Sum(Where(facts, p), AuthorizedOne) as real
  {
    GoldIsRows(facts);
    RatesAddUp(facts, BuildGold(facts), Keys(facts), p);
    GroupsConserve(facts, p, AuthorizedOne);
  }

  // The summary over gold is the summary over the payments themselves: the same number of buckets
  // and payments, and the same authorization rate, NULL when empty. The volume is the same exactly
  // when no summarised bucket overflowed DECIMAL(18,2).
  lemma RollUpIsExact(facts: seq<Fact>, p: GoldKey -> bool)
    requires Plausible(facts)
    ensures var s, paid := Summarise(BuildGold(facts), p), Where(facts, p);
            s.buckets == |set x | x in facts && p(x.key) :: x.key| &&
            s.count == |paid| &&
            s.rate == (if paid == [] then None else Some(Ratio(Sum(paid, AuthorizedOne), |paid|)))
    ensures Summarise(BuildGold(facts), p).gross == Sum(Where(facts, p), AmountOf) <==>
            forall g :: g in BuildGold(facts) && p(g.key) ==> g.gross.Some?
  {
    BucketsAreExact(facts, p);
    CountsConserve(facts, p);
    RateIsExact(facts, p);
    GoldIsRows(facts);
    GrossLosesOverflows(facts, BuildGold(facts), Keys(facts), p);
    GroupsConserve(facts, p, AmountOf);
  }

  /******* Adjacent windows *******/

  function Weighted(s: Summary): real {
    if s.rate.None? then 0.0 else s.rate.value * s.count as real
  }

  function Combine(a: Summary, b: Summary): Summary {
    Summary(a.buckets + b.buckets, a.count + b.count, a.gross + b.gross,
            if a.count + b.count == 0 then None
            else Some((Weighted(a) + Weighted(b)) / (a.count + b.count) as real))
  }

  lemma {:induction false} SumRowsSplits(gold: seq<GoldRow>, p: GoldKey -> bool, q: GoldKey -> bool, r: GoldKey -> bool, v: GoldRow -> int)
    requires forall k :: p(k) == (q(k) || r(k)) && !(q(k) && r(k))
    ensures SumRows(gold, p, v) == SumRows(gold, q, v) + SumRows(gold, r, v)
    ensures SumRates(gold, p) == SumRates(gold, q) + SumRates(gold, r)
  {
    if gold != [] {
      SumRowsSplits(gold[..|gold| - 1], p, q, r, v);
    }
  }

  lemma {:induction false} NoCountNoRate(gold: seq<GoldRow>, p: GoldKey -> bool)
    requires forall g :: g in gold ==> g.count > 0
    ensures SumRows(gold, p, CountOf) >= 0
    ensures SumRows(gold, p, CountOf) == 0 ==> SumRates(gold, p) == 0.0
  {
    if gold != [] {
      NoCountNoRate(gold[..|gold| - 1], p);
      assert gold[|gold| - 1] in gold;
    }
  }

  lemma WeightedIsRates(gold: seq<GoldRow>, p: GoldKey -> bool)
    requires forall g :: g in gold ==> g.count > 0
    ensures Weighted(Summarise(gold, p)) == SumRates(gold, p)
  {
    NoCountNoRate(gold, p);
    var s := Summarise(gold, p);
    if s.count != 0 {
      var c := s.count as real;
      assert SumRates(gold, p) / c * c == SumRates(gold, p);
    }
  }

  lemma SplitCombines(gold: seq<GoldRow>, p: GoldKey -> bool, q: GoldKey -> bool, r: GoldKey -> bool)
    requires forall k :: p(k) == (q(k) || r(k)) && !(q(k) && r(k))
    requires forall g :: g in gold ==> g.count > 0
    ensures Summarise(gold, p) == Combine(Summarise(gold, q), Summarise(gold, r))
  {
    SumRowsSplits(gold, p, q, r, CountOf);
    SumRowsSplits(gold, p, q, r, OneRow);
    SumRowsSplits(gold, p, q, r, GrossOf);
    WeightedIsRates(gold, q);
    WeightedIsRates(gold, r);
    var a, b := Summarise(gold, q), Summarise(gold, r);
    CombinesTo(a, b, Summarise(gold, p), SumRates(gold, p));
  }

  lemma CombinesTo(a: Summary, b: Summary, s: Summary, rates: real)
    requires s.buckets == a.buckets + b.buckets && s.count == a.count + b.count && s.gross == a.gross + b.gross
    requires rates == Weighted(a) + Weighted(b)
    requires s.rate == if s.count == 0 then None else Some(rates / s.count as real)
    ensures s == Combine(a, b)
  {
  }

  function Window(f: MetricsFilter, from: int, to: int): GoldKey -> bool {
    k => Accepts(f.(start := Some(from), end := Some(to)), k)
  }

  // Adjacent windows [a, b) and [b, c) tile: their summaries combine to that of [a, c), the rate
  // weighted by payment count.
  lemma AdjacentWindowsTile(gold: seq<GoldRow>, f: MetricsFilter, a: int, b: int, c: int)
    requires a <= b <= c && forall g :: g in gold ==> g.count > 0
    ensures Summarise(gold, Window(f, a, c)) == Combine(Summarise(gold, Window(f, a, b)), Summarise(gold, Window(f, b, c)))
  {
    SplitCombines(gold, Window(f, a, c), Window(f, a, b), Window(f, b, c));
  }
}
