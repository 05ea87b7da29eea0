// Gold over every silver table the job can reach, against figures computed from the silver rows.
module ReachableGold {
  import opened Basics
  import opened Cdc
  import opened Merge
  import opened SilverJob
  import opened Gold
  import opened Queries
  import opened RollUp
  import opened Replay

  function SilverAt(steps: seq<Step>): (silver: seq<Row>)
    ensures UniqueIds(silver) && forall r :: r in silver ==> CleanRow(r)
  {
    RunKeepsSilverClean(steps);
    Run(START, steps).silver
  }

  function GoldAt(steps: seq<Step>): seq<GoldRow> {
    BuildGold(FactsOf(SilverAt(steps)))
  }

  // After every run of the silver job, over any log, every gold row is consistent and there is one per
  // hour, country and method that a silver row falls in.
  lemma ReachableGoldIsConsistent(steps: seq<Step>)
    ensures UniqueGold(GoldAt(steps))
    ensures KeysIn(GoldAt(steps)) == set r | r in SilverAt(steps) :: KeyOf(r)
    ensures forall g :: g in GoldAt(steps) ==>
              && g.count > 0 && 0.0 <= g.rate <= 1.0
              && (g.gross.Some? ==> g.authorized.Some? && 0 <= g.authorized.value <= g.gross.value)
              && (g.gross.None? ==> g.count > 1_000_000)
  {
    var silver, facts := SilverAt(steps), FactsOf(SilverAt(steps));
    FactsArePlausible(silver);
    GoldHasEachGroupOnce(facts);
    forall g | g in GoldAt(steps)
      ensures g.count > 0 && 0.0 <= g.rate <= 1.0
      ensures g.gross.Some? ==> g.authorized.Some? && 0 <= g.authorized.value <= g.gross.value
      ensures g.gross.None? ==> g.count > 1_000_000
    {
      GoldRowsAreConsistent(facts, g);
    }
    KeysOfFacts(silver);
  }

  // The bucket of a silver row.
  function KeyOf(r: Row): GoldKey {
    if CleanRow(r) then FactOf(r).key else GoldKey(0, "", "")
  }

  lemma KeysOfFacts(silver: seq<Row>)
    requires forall r :: r in silver ==> CleanRow(r)
    ensures (set x | x in FactsOf(silver) :: x.key) == set r | r in silver :: KeyOf(r)
  {
    var facts := FactsOf(silver);
    forall r | r in silver ensures FactOf(r) in facts && FactOf(r).key == KeyOf(r) {
      var i :| 0 <= i < |silver| && silver[i] == r;
      assert facts[i] in facts;
    }
    forall x | x in facts ensures exists r :: r in silver && x.key == KeyOf(r) {
      var i :| 0 <= i < |facts| && facts[i] == x;
      assert silver[i] in silver && x.key == KeyOf(silver[i]);
    }
  }

  /******* The summary, from the rows *******/

  // The silver rows a selection of buckets is about.
  function Chosen(silver: seq<Row>, p: GoldKey -> bool): seq<Row> {
    if silver == [] then []
    else
      var rest := Chosen(silver[..|silver| - 1], p);
      var r := silver[|silver| - 1];
      if p(KeyOf(r)) then rest + [r] else rest
  }

  function TotalAmount(rows: seq<Row>): int {
    if rows == [] then 0
    else TotalAmount(rows[..|rows| - 1]) + Coalesce(rows[|rows| - 1].columns.amount, Some(0)).value
  }

  function AuthorizedCount(rows: seq<Row>): int {
    if rows == [] then 0
    else AuthorizedCount(rows[..|rows| - 1]) + if rows[|rows| - 1].columns.status == Some(AUTHORIZED) then 1 else 0
  }

  lemma {:induction false} ChosenFacts(silver: seq<Row>, p: GoldKey -> bool)
    requires forall r :: r in silver ==> CleanRow(r)
    ensures forall r :: r in Chosen(silver, p) ==> r in silver
    ensures Where(FactsOf(silver), p) == FactsOf(Chosen(silver, p))
  {
    if silver != [] {
      var init, r := silver[..|silver| - 1], silver[|silver| - 1];
      assert silver == init + [r] && r in silver;
      ChosenFacts(init, p);
      assert FactsOf(silver)[..|silver| - 1] == FactsOf(init);
      assert FactsOf(Chosen(init, p) + [r]) == FactsOf(Chosen(init, p)) + [FactOf(r)];
    }
  }

  // The buckets the rows are in.
  function BucketsOf(rows: seq<Row>): set<GoldKey> {
    set r | r in rows :: KeyOf(r)
  }

  lemma BucketsOfChosen(silver: seq<Row>, p: GoldKey -> bool)
    requires forall r :: r in silver ==> CleanRow(r)
    ensures (set x | x in FactsOf(silver) && p(x.key) :: x.key) == BucketsOf(Chosen(silver, p))
  {
    var facts, rows := FactsOf(silver), Chosen(silver, p);
    ChosenFacts(silver, p);
    KeysOfFacts(rows);
    WhereSpec(facts, p);
    assert (set x | x in facts && p(x.key) :: x.key) == set x | x in Where(facts, p) :: x.key;
  }

  lemma {:induction false} WhereSpec(facts: seq<Fact>, p: GoldKey -> bool)
    ensures forall x :: x in Where(facts, p) <==> x in facts && p(x.key)
  {
    if facts != [] {
      WhereSpec(facts[..|facts| - 1], p);
      assert facts == facts[..|facts| - 1] + [facts[|facts| - 1]];
    }
  }

  lemma {:induction false} RowSums(rows: seq<Row>)
    requires forall r :: r in rows ==> CleanRow(r)
    ensures Sum(FactsOf(rows), AmountOf) == TotalAmount(rows)
    ensures Sum(FactsOf(rows), AuthorizedOne) == AuthorizedCount(rows)
  {
    if rows != [] {
      var init, r := rows[..|rows| - 1], rows[|rows| - 1];
      assert rows == init + [r] && r in rows;
      RowSums(init);
      assert FactsOf(rows)[..|rows| - 1] == FactsOf(init);
    }
  }

  lemma {:induction false} GroupWithin(facts: seq<Fact>, key: GoldKey, p: GoldKey -> bool)
    requires p(key)
    ensures |Group(facts, key)| <= |Where(facts, p)|
  {
    if facts != [] {
      GroupWithin(facts[..|facts| - 1], key, p);
    }
  }

  // After every run, whatever the filter, the summary over gold is the summary of the silver rows
  // themselves: in how many buckets they are, how many there are, and what share of them is authorized; and their exact volume if no
  // summarised bucket overflowed, and only then. Up to a million rows none does.
  lemma ReachableSummaryIsSilver(steps: seq<Step>, f: MetricsFilter)
    ensures var s, rows := Summarise(GoldAt(steps), Wants(f, None)), Chosen(SilverAt(steps), Wants(f, None));
            s.buckets == |BucketsOf(rows)| && s.count == |rows| &&
            s.rate == (if rows == [] then None else Some(Ratio(AuthorizedCount(rows), |rows|))) &&
            (s.gross == TotalAmount(rows) <==> forall g :: g in GoldAt(steps) && Accepts(f, g.key) ==> g.gross.Some?) &&
            (|rows| <= 1_000_000 ==> s.gross == TotalAmount(rows))
  {
    var silver, p := SilverAt(steps), Wants(f, None);
    var facts, rows := FactsOf(silver), Chosen(silver, p);
    FactsArePlausible(silver);
    RollUpIsExact(facts, p);
    ChosenFacts(silver, p);
    RowSums(rows);
    BucketsOfChosen(silver, p);
    if |rows| <= 1_000_000 {
      forall g | g in GoldAt(steps) && p(g.key) ensures g.gross.Some? {
        GoldRowsAreConsistent(facts, g);
        GroupWithin(facts, g.key, p);
      }
    }
  }

  /******* A gold row, from the silver rows in its bucket *******/

  // The row was created in the hour, in the country and by the method of the key.
  predicate InBucket(r: Row, key: GoldKey) {
    var v := r.columns;
    && v.createdAt.Some? && key.hour <= v.createdAt.value < key.hour + 3600 && key.hour % 3600 == 0
    && v.country == Some(key.country) && v.payMethod == Some(key.payMethod)
  }

  function RowsIn(silver: seq<Row>, key: GoldKey): seq<Row> {
    if silver == [] then []
    else
      var rest, r := RowsIn(silver[..|silver| - 1], key), silver[|silver| - 1];
      if InBucket(r, key) then rest + [r] else rest
  }

  function AuthorizedTotal(rows: seq<Row>): int {
    if rows == [] then 0
    else
      var r := rows[|rows| - 1];
      AuthorizedTotal(rows[..|rows| - 1]) +
        if r.columns.status == Some(AUTHORIZED) then Coalesce(r.columns.amount, Some(0)).value else 0
  }

  lemma KeyByColumns(r: Row, key: GoldKey)
    requires CleanRow(r)
    ensures FactOf(r).key == key <==> InBucket(r, key)
  {
    var at := r.columns.createdAt.value;
    if InBucket(r, key) {
      SameHour(at, at - at % 3600, key.hour);
    }
  }

  lemma SameHour(at: int, h: int, k: int)
    requires h % 3600 == 0 && h <= at < h + 3600 && k % 3600 == 0 && k <= at < k + 3600
    ensures h == k
  {
  }

  lemma {:induction false} GroupIsRowsIn(silver: seq<Row>, key: GoldKey)
    requires forall r :: r in silver ==> CleanRow(r)
    ensures forall r :: r in RowsIn(silver, key) ==> r in silver
    ensures Group(FactsOf(silver), key) == FactsOf(RowsIn(silver, key))
  {
    if silver != [] {
      var init, r := silver[..|silver| - 1], silver[|silver| - 1];
      assert silver == init + [r] && r in silver;
      GroupIsRowsIn(init, key);
      KeyByColumns(r, key);
      assert FactsOf(silver)[..|silver| - 1] == FactsOf(init);
      assert FactsOf(RowsIn(init, key) + [r]) == FactsOf(RowsIn(init, key)) + [FactOf(r)];
    }
  }

  lemma {:induction false} AuthorizedSums(rows: seq<Row>)
    requires forall r :: r in rows ==> CleanRow(r)
    ensures Sum(FactsOf(rows), AuthorizedAmount) == AuthorizedTotal(rows)
  {
    if rows != [] {
      var init, r := rows[..|rows| - 1], rows[|rows| - 1];
      assert rows == init + [r] && r in rows;
      AuthorizedSums(init);
      assert FactsOf(rows)[..|rows| - 1] == FactsOf(init);
    }
  }

  // A gold row is about exactly the silver rows with its hour, country and method in their columns: it
  // counts them, adds up their amounts and those of the authorized ones, NULL past DECIMAL(18,2), and
  // gives the share of the authorized ones.
  lemma GoldRowIsItsRows(steps: seq<Step>, g: GoldRow)
    requires g in GoldAt(steps)
    ensures var rows := RowsIn(SilverAt(steps), g.key);
            rows != [] && g.count == |rows| && g.rate == AuthorizedCount(rows) as real / |rows| as real &&
            g.gross == (if TotalAmount(rows) < 1_000_000_000_000_000_000 then Some(TotalAmount(rows)) else None) &&
            g.authorized == (if AuthorizedTotal(rows) < 1_000_000_000_000_000_000 then Some(AuthorizedTotal(rows)) else None)
  {
    var silver := SilverAt(steps);
    var facts, rows := FactsOf(silver), RowsIn(silver, g.key);
    GoldHasEachGroupOnce(facts);
    FactsArePlausible(silver);
    GroupIsRowsIn(silver, g.key);
    FactsArePlausible(rows);
    SumBounds(FactsOf(rows));
    RowSums(rows);
    AuthorizedSums(rows);
  }

  // Every silver row is in exactly one gold row's bucket.
  lemma EveryRowHasABucket(steps: seq<Step>, r: Row)
    requires r in SilverAt(steps)
    ensures exists g :: g in GoldAt(steps) && InBucket(r, g.key)
    ensures forall g, h :: g in GoldAt(steps) && h in GoldAt(steps) && InBucket(r, g.key) && InBucket(r, h.key) ==> g == h
  {
    var silver := SilverAt(steps);
    var facts := FactsOf(silver);
    GoldHasEachGroupOnce(facts);
    KeysOfFacts(silver);
    assert KeyOf(r) in KeysIn(BuildGold(facts));
    forall key ensures KeyOf(r) == key <==> InBucket(r, key) {
      KeyByColumns(r, key);
    }
  }

  /******* The decimal bound, on silver *******/

  // Every silver table with n rows in a bucket has that bucket's volume in gold.
  ghost predicate BucketAlwaysFits(n: nat) {
    forall silver, g :: CleanTable(silver) && g in BuildGold(FactsOf(silver)) && g.count == n ==> g.gross.Some?
  }

  const LARGEST := Columns(Some(1), Some(DECIMAL_12_2_BOUND - 1), Some("USD"), Some("card"), Some(AUTHORIZED), Some("US"), Some(0), Some(0))

  // n distinct valid payments of the largest amount, in one hour, country and method.
  function LargestSilver(n: nat): seq<Row> {
    seq(n, i requires 0 <= i < n => Row(Some(i), LARGEST, Some(1)))
  }

  lemma LargestIsClean(n: nat)
    ensures CleanTable(LargestSilver(n))
    ensures forall r :: r in LargestSilver(n) ==> FactOf(r) == Fact(GoldKey(0, "US", "card"), DECIMAL_12_2_BOUND - 1, true)
  {
    assert |"USD"| == 3 && |"US"| == 2;
    assert CleanRow(Row(Some(0), LARGEST, Some(1)));
  }

  lemma {:induction false} LargestAt(key: GoldKey, n: nat)
    ensures |Largest(key, n)| == n && forall i :: 0 <= i < n ==> Largest(key, n)[i] == Fact(key, DECIMAL_12_2_BOUND - 1, true)
    ensures Group(Largest(key, n), key) == Largest(key, n)
  {
    if n > 0 {
      LargestAt(key, n - 1);
      assert Largest(key, n)[..n - 1] == Largest(key, n - 1);
    }
  }

  lemma LargestGroup(n: nat)
    ensures CleanTable(LargestSilver(n))
    ensures var key := GoldKey(0, "US", "card");
            Group(FactsOf(LargestSilver(n)), key) == FactsOf(LargestSilver(n)) == Largest(key, n)
  {
    var key, silver := GoldKey(0, "US", "card"), LargestSilver(n);
    LargestIsClean(n);
    LargestAt(key, n);
    assert forall i :: 0 <= i < n ==> silver[i] in silver && FactsOf(silver)[i] == Fact(key, DECIMAL_12_2_BOUND - 1, true);
    assert FactsOf(silver) == Largest(key, n);
  }

  lemma GroupIsARow(facts: seq<Fact>, key: GoldKey) returns (g: GoldRow)
    requires Group(facts, key) != []
    ensures g in BuildGold(facts) && g == GoldRowFor(facts, key)
  {
    GoldHasEachGroupOnce(facts);
    GroupSpec(facts, key);
    assert Group(facts, key)[0] in facts;
    assert key in KeysIn(BuildGold(facts));
    g :| g in BuildGold(facts) && g.key == key;
  }

  lemma LargestVolume(facts: seq<Fact>, key: GoldKey, n: nat)
    requires n > 1_000_000 && Group(facts, key) == Largest(key, n)
    ensures Group(facts, key) != [] && GoldRowFor(facts, key).count == n && GoldRowFor(facts, key).gross.None?
  {
    LargestSum(key, n);
  }

  lemma LargestOverflows(n: nat) returns (g: GoldRow)
    requires n > 1_000_000
    ensures CleanTable(LargestSilver(n))
    ensures g in BuildGold(FactsOf(LargestSilver(n))) && g.count == n && g.gross.None?
  {
    var key := GoldKey(0, "US", "card");
    LargestGroup(n);
    LargestVolume(FactsOf(LargestSilver(n)), key, n);
    g := GroupIsARow(FactsOf(LargestSilver(n)), key);
  }

  // A bucket of n rows is sure to fit DECIMAL(18,2) up to a million rows and no further: past that there
  // is a silver table of valid payments whose gold volume is NULL.
  lemma SilverBoundIsTight(n: nat)
    ensures BucketAlwaysFits(n) <==> n <= 1_000_000
  {
    if n <= 1_000_000 {
      forall silver, g | CleanTable(silver) && g in BuildGold(FactsOf(silver)) && g.count == n ensures g.gross.Some? {
        FactsArePlausible(silver);
        GoldRowsAreConsistent(FactsOf(silver), g);
      }
    } else {
      var g := LargestOverflows(n);
    }
  }
}
