// The gold aggregate: a full recompute of hourly metrics from the current silver rows.
module Gold {
  import opened Basics
  import opened Cdc
  import opened Merge
  import opened SilverJob

  datatype GoldKey = GoldKey(hour: int, country: string, payMethod: string)

  // The part of a silver row the aggregate reads. Times are UTC seconds, amounts cents.
  datatype Fact = Fact(key: GoldKey, amount: int, authorized: bool)

  // A volume of None is the NULL a cast to DECIMAL(18,2) yields on overflow; the rate is exact.
  datatype GoldRow = GoldRow(key: GoldKey, count: int, gross: Option<int>, authorized: Option<int>, rate: real)

  function FactOf(r: Row): (x: Fact)
    requires CleanRow(r)
    ensures x.key.hour % 3600 == 0 && x.key.hour <= r.columns.createdAt.value < x.key.hour + 3600
  {
    var v := r.columns;
    Fact(GoldKey(v.createdAt.value - v.createdAt.value % 3600, v.country.value, v.payMethod.value),
         v.amount.value, v.status.value == AUTHORIZED)
  }

  function FactsOf(silver: seq<Row>): seq<Fact>
    requires forall r :: r in silver ==> CleanRow(r)
  {
    seq(|silver|, i requires 0 <= i < |silver| => FactOf(silver[i]))
  }

  ghost predicate Plausible(facts: seq<Fact>) {
    forall x :: x in facts ==> 0 <= x.amount < DECIMAL_12_2_BOUND
  }

  lemma FactsArePlausible(silver: seq<Row>)
    requires forall r :: r in silver ==> CleanRow(r)
    ensures Plausible(FactsOf(silver)) && |FactsOf(silver)| == |silver|
  {
    var facts := FactsOf(silver);
    forall i | 0 <= i < |facts| ensures 0 <= facts[i].amount < DECIMAL_12_2_BOUND {
      assert silver[i] in silver;
    }
  }

  /******* Sums *******/

  function One(x: Fact): int { 1 }

  function AmountOf(x: Fact): int { x.amount }

  function AuthorizedOne(x: Fact): int { if x.authorized then 1 else 0 }

  function AuthorizedAmount(x: Fact): int { if x.authorized then x.amount else 0 }

  function Sum(facts: seq<Fact>, w: Fact -> int): int {
    if facts == [] then 0 else Sum(facts[..|facts| - 1], w) + w(facts[|facts| - 1])
  }

  function Where(facts: seq<Fact>, p: GoldKey -> bool): seq<Fact> {
    if facts == [] then []
    else
      var rest := Where(facts[..|facts| - 1], p);
      var x := facts[|facts| - 1];
      if p(x.key) then rest + [x] else rest
  }

  function Group(facts: seq<Fact>, key: GoldKey): seq<Fact> {
    if facts == [] then []
    else
      var rest := Group(facts[..|facts| - 1], key);
      var x := facts[|facts| - 1];
      if x.key == key then rest + [x] else rest
  }

  function Keys(facts: seq<Fact>): seq<GoldKey> {
    if facts == [] then []
    else
      var rest := Keys(facts[..|facts| - 1]);
      var k := facts[|facts| - 1].key;
      if k in rest then rest else rest + [k]
  }

  /******* The table *******/

  const DECIMAL_18_2_BOUND := 1_000_000_000_000_000_000

  function CastVolume(cents: int): Option<int> {
    if -DECIMAL_18_2_BOUND < cents < DECIMAL_18_2_BOUND then Some(cents) else None
  }

  function Ratio(part: int, whole: int): real
    requires whole != 0
  {
    part as real / whole as real
  }

  function GoldRowFor(facts: seq<Fact>, key: GoldKey): GoldRow
    requires Group(facts, key) != []
  {
    var g := Group(facts, key);
    GoldRow(key, |g|, CastVolume(Sum(g, AmountOf)), CastVolume(Sum(g, AuthorizedAmount)),
            Ratio(Sum(g, AuthorizedOne), |g|))
  }

  lemma {:induction false} KeysSpec(facts: seq<Fact>)
    ensures forall k :: k in Keys(facts) <==> exists x :: x in facts && x.key == k
    ensures forall i, j :: 0 <= i < j < |Keys(facts)| ==> Keys(facts)[i] != Keys(facts)[j]
  {
    if facts != [] {
      KeysSpec(facts[..|facts| - 1]);
      assert facts == facts[..|facts| - 1] + [facts[|facts| - 1]];
    }
  }

  lemma {:induction false} SumBounds(facts: seq<Fact>)
    ensures Sum(facts, One) == |facts|
    ensures 0 <= Sum(facts, AuthorizedOne) <= |facts|
    ensures Plausible(facts) ==> 0 <= Sum(facts, AuthorizedAmount) <= Sum(facts, AmountOf) <= |facts| * (DECIMAL_12_2_BOUND - 1)
  {
    if facts != [] {
      var init := facts[..|facts| - 1];
      SumBounds(init);
      assert facts == init + [facts[|facts| - 1]];
    }
  }

  lemma {:induction false} GroupSpec(facts: seq<Fact>, key: GoldKey)
    ensures forall x :: x in Group(facts, key) <==> x in facts && x.key == key
    ensures Group(facts, key) != [] <==> key in Keys(facts)
  {
    if facts != [] {
      GroupSpec(facts[..|facts| - 1], key);
      assert facts == facts[..|facts| - 1] + [facts[|facts| - 1]];
    }
  }

  function BuildGold(facts: seq<Fact>): seq<GoldRow> {
    var keys := Keys(facts);
    assert forall i :: 0 <= i < |keys| ==> Group(facts, keys[i]) != [] by {
      forall i | 0 <= i < |keys| ensures Group(facts, keys[i]) != [] {
        GroupSpec(facts, keys[i]);
      }
    }
    seq(|keys|, i requires 0 <= i < |keys| => GoldRowFor(facts, keys[i]))
  }

  ghost predicate UniqueGold(gold: seq<GoldRow>) {
    forall i, j :: 0 <= i < j < |gold| ==> gold[i].key != gold[j].key
  }

  function KeysIn(gold: seq<GoldRow>): set<GoldKey> {
    set g | g in gold :: g.key
  }

  // One gold row per (hour, country, method) that has a payment, and no other.
  lemma GoldHasEachGroupOnce(facts: seq<Fact>)
    ensures UniqueGold(BuildGold(facts))
    ensures KeysIn(BuildGold(facts)) == set x | x in facts :: x.key
    ensures forall g :: g in BuildGold(facts) ==> Group(facts, g.key) != [] && g == GoldRowFor(facts, g.key)
  {
    var gold, keys := BuildGold(facts), Keys(facts);
    KeysSpec(facts);
    forall i | 0 <= i < |gold| ensures gold[i].key == keys[i] && Group(facts, keys[i]) != [] {
      GroupSpec(facts, keys[i]);
    }
    forall k | k in keys ensures k in KeysIn(gold) {
      var i :| 0 <= i < |keys| && keys[i] == k;
      assert gold[i] in gold;
    }
    assert forall k :: k in KeysIn(gold) <==> k in keys;
  }

  // Every row's figures are consistent: a positive count, authorized within gross, a rate within
  // [0, 1], and a volume that is NULL only for a group of more than a million payments.
  lemma GoldRowsAreConsistent(facts: seq<Fact>, g: GoldRow)
    requires Plausible(facts) && g in BuildGold(facts)
    ensures g.count == |Group(facts, g.key)| > 0 && 0.0 <= g.rate <= 1.0
    ensures g.gross.Some? ==> g.authorized.Some? && 0 <= g.authorized.value <= g.gross.value
    ensures g.gross.None? ==> g.count > 1_000_000
  {
    GoldHasEachGroupOnce(facts);
    var grp := Group(facts, g.key);
    GroupSpec(facts, g.key);
    SumBounds(grp);
    RatioInUnit(Sum(grp, AuthorizedOne), |grp|);
  }

  lemma RatioInUnit(part: int, whole: int)
    requires 0 <= part <= whole && whole > 0
    ensures 0.0 <= Ratio(part, whole) <= 1.0
    ensures Ratio(part, whole) * whole as real == part as real
  {
  }

  /******* Conservation *******/

  function SumGroups(facts: seq<Fact>, keys: seq<GoldKey>, p: GoldKey -> bool, w: Fact -> int): int {
    if keys == [] then 0
    else
      var k := keys[|keys| - 1];
      SumGroups(facts, keys[..|keys| - 1], p, w) + if p(k) then Sum(Group(facts, k), w) else 0
  }

  lemma {:induction false} SumGroupsStep(facts: seq<Fact>, keys: seq<GoldKey>, p: GoldKey -> bool, w: Fact -> int)
    requires facts != [] && forall i, j :: 0 <= i < j < |keys| ==> keys[i] != keys[j]
    ensures var x := facts[|facts| - 1];
            SumGroups(facts, keys, p, w) == SumGroups(facts[..|facts| - 1], keys, p, w)
              + if x.key in keys && p(x.key) then w(x) else 0
  {
    if keys != [] {
      var x, init, k := facts[|facts| - 1], keys[..|keys| - 1], keys[|keys| - 1];
      SumGroupsStep(facts, init, p, w);
      assert keys == init + [k];
      SumAppend(Group(facts[..|facts| - 1], k), x, w);
    }
  }

  lemma SumAppend(facts: seq<Fact>, x: Fact, w: Fact -> int)
    ensures Sum(facts + [x], w) == Sum(facts, w) + w(x)
  {
    assert (facts + [x])[..|facts|] == facts;
  }

  // Whatever is summed, and over whatever set of groups, adding up the groups is adding up the
  // payments that fall in them: no payment is dropped or counted twice by the aggregation.
  lemma {:induction false} GroupsConserve(facts: seq<Fact>, p: GoldKey -> bool, w: Fact -> int)
    ensures SumGroups(facts, Keys(facts), p, w) == Sum(Where(facts, p), w)
  {
    if facts != [] {
      var init, x := facts[..|facts| - 1], facts[|facts| - 1];
      GroupsConserve(init, p, w);
      KeysSpec(facts);
      SumGroupsStep(facts, Keys(facts), p, w);
      SumAppend(Where(init, p), x, w);
      if x.key !in Keys(init) {
        NewGroup(init, Keys(init), x.key, p, w);
      }
    }
  }

  lemma NewGroup(facts: seq<Fact>, keys: seq<GoldKey>, key: GoldKey, p: GoldKey -> bool, w: Fact -> int)
    requires key !in Keys(facts)
    ensures SumGroups(facts, keys + [key], p, w) == SumGroups(facts, keys, p, w)
  {
    assert (keys + [key])[..|keys|] == keys;
    GroupSpec(facts, key);
  }

  // A figure of the accepted gold rows, added up.
  function SumRows(gold: seq<GoldRow>, p: GoldKey -> bool, v: GoldRow -> int): int {
    if gold == [] then 0
    else
      var g := gold[|gold| - 1];
      SumRows(gold[..|gold| - 1], p, v) + if p(g.key) then v(g) else 0
  }

  lemma {:induction false} SumRowsIsSumGroups(facts: seq<Fact>, gold: seq<GoldRow>, keys: seq<GoldKey>,
                                              p: GoldKey -> bool, v: GoldRow -> int, w: Fact -> int)
    requires |gold| == |keys|
    requires forall i :: 0 <= i < |gold| ==>
               gold[i].key == keys[i] && (p(keys[i]) ==> v(gold[i]) == Sum(Group(facts, keys[i]), w))
    ensures SumRows(gold, p, v) == SumGroups(facts, keys, p, w)
  {
    if gold != [] {
      SumRowsIsSumGroups(facts, gold[..|gold| - 1], keys[..|keys| - 1], p, v, w);
    }
  }

  function CountOf(g: GoldRow): int { g.count }

  // The counts of the accepted gold rows add up to the number of payments in them.
  lemma CountsConserve(facts: seq<Fact>, p: GoldKey -> bool)
    ensures SumRows(BuildGold(facts), p, CountOf) == |Where(facts, p)|
  {
    var gold, keys := BuildGold(facts), Keys(facts);
    forall i | 0 <= i < |gold| ensures CountOf(gold[i]) == Sum(Group(facts, keys[i]), One) {
      SumBounds(Group(facts, keys[i]));
    }
    SumRowsIsSumGroups(facts, gold, keys, p, CountOf, One);
    GroupsConserve(facts, p, One);
    SumBounds(Where(facts, p));
  }

  function AuthorizedOf(g: GoldRow): int {
    if g.authorized.Some? then g.authorized.value else 0
  }

  // So do the authorized volumes, to what the authorized payments among them amount to.
  lemma AuthorizedConserves(facts: seq<Fact>, p: GoldKey -> bool)
    requires forall g :: g in BuildGold(facts) && p(g.key) ==> g.authorized.Some?
    ensures SumRows(BuildGold(facts), p, AuthorizedOf) == Sum(AuthorizedOnly(Where(facts, p)), AmountOf)
  {
    var gold, keys := BuildGold(facts), Keys(facts);
    forall i | 0 <= i < |gold| && p(keys[i]) ensures AuthorizedOf(gold[i]) == Sum(Group(facts, keys[i]), AuthorizedAmount) {
      assert gold[i] in gold;
    }
    SumRowsIsSumGroups(facts, gold, keys, p, AuthorizedOf, AuthorizedAmount);
    GroupsConserve(facts, p, AuthorizedAmount);
    AuthorizedOnlySum(Where(facts, p));
  }

  function AuthorizedOnly(facts: seq<Fact>): seq<Fact> {
    if facts == [] then []
    else
      var rest := AuthorizedOnly(facts[..|facts| - 1]);
      if facts[|facts| - 1].authorized then rest + [facts[|facts| - 1]] else rest
  }

  lemma {:induction false} AuthorizedOnlySum(facts: seq<Fact>)
    ensures Sum(AuthorizedOnly(facts), AmountOf) == Sum(facts, AuthorizedAmount)
  {
    if facts != [] {
      AuthorizedOnlySum(facts[..|facts| - 1]);
      SumAppend(AuthorizedOnly(facts[..|facts| - 1]), facts[|facts| - 1], AmountOf);
    }
  }

  /******* The decimal bound *******/

  ghost predicate AlwaysFits(n: nat) {
    forall facts :: Plausible(facts) && |facts| == n ==> CastVolume(Sum(facts, AmountOf)).Some?
  }

  function Largest(key: GoldKey, n: nat): seq<Fact> {
    if n == 0 then [] else Largest(key, n - 1) + [Fact(key, DECIMAL_12_2_BOUND - 1, true)]
  }

  lemma {:induction false} LargestSum(key: GoldKey, n: nat)
    ensures Plausible(Largest(key, n)) && |Largest(key, n)| == n
    ensures Sum(Largest(key, n), AmountOf) == n * (DECIMAL_12_2_BOUND - 1)
  {
    if n > 0 {
      var x := Fact(key, DECIMAL_12_2_BOUND - 1, true);
      LargestSum(key, n - 1);
      SumAppend(Largest(key, n - 1), x, AmountOf);
      assert n * (DECIMAL_12_2_BOUND - 1) == (n - 1) * (DECIMAL_12_2_BOUND - 1) + x.amount;
    }
  }

  // Groups of n payments are sure to fit DECIMAL(18,2) exactly up to a million payments.
  lemma DecimalBoundIsTight(n: nat)
    ensures AlwaysFits(n) <==> n <= 1_000_000
  {
    if n <= 1_000_000 {
      forall facts | Plausible(facts) && |facts| == n ensures CastVolume(Sum(facts, AmountOf)).Some? {
        SumBounds(facts);
      }
    } else {
      var worst := Largest(GoldKey(0, "", ""), n);
      LargestSum(GoldKey(0, "", ""), n);
      assert Plausible(worst) && |worst| == n && CastVolume(Sum(worst, AmountOf)).None?;
    }
  }
}
