// One CDC micro-batch: where each bronze record goes, what a processable record projects to,
// and which of a payment's changes survives the window that keeps one change per payment.
module Cdc {
  import opened Basics

  /******* Records *******/

  // One side of a Debezium envelope as the JSON path lookups see it: a missing field is None.
  // Amounts are in cents, times in microseconds.
  datatype Section = Section(
    paymentId: Option<int>,
    merchantId: Option<int>,
    amount: Option<int>,
    currency: Option<string>,
    payMethod: Option<string>,
    status: Option<string>,
    country: Option<string>,
    createdAt: Option<int>,
    updatedAt: Option<int>)

  const NO_SECTION := Section(None, None, None, None, None, None, None, None, None)

  datatype Envelope = Envelope(op: Option<string>, lsn: Option<int>, after: Section, before: Section)

  // A bronze row. A value of None is the null Kafka value of a tombstone.
  datatype Record = Record(partition: nat, offset: nat, value: Option<Envelope>)

  datatype Op = Create | Read | Update | Delete

  function ParseOp(op: string): Option<Op> {
    if op == "c" then Some(Create)
    else if op == "r" then Some(Read)
    else if op == "u" then Some(Update)
    else if op == "d" then Some(Delete)
    else None
  }

  datatype Route = Tombstone | NullOp | UnexpectedOp | Processable(op: Op)

  function RouteOf(r: Record): Route {
    if r.value.None? then Tombstone
    else if r.value.value.op.None? then NullOp
    else match ParseOp(r.value.value.op.value)
      case None => UnexpectedOp
      case Some(op) => Processable(op)
  }

  function Routed(batch: seq<Record>, route: Route): seq<Record> {
    if batch == [] then []
    else
      var rest := Routed(batch[..|batch| - 1], route);
      var r := batch[|batch| - 1];
      if RouteOf(r) == route then rest + [r] else rest
  }

  /******* Projection *******/

  // Every silver column but the key, the LSN and the ingestion clock.
  datatype Columns = Columns(
    merchantId: Option<int>,
    amount: Option<int>,
    currency: Option<string>,
    payMethod: Option<string>,
    status: Option<string>,
    country: Option<string>,
    createdAt: Option<int>,
    updatedAt: Option<int>)

  datatype Change = Change(op: Op, lsn: Option<int>, paymentId: Option<int>, columns: Columns, offset: nat)

  const DECIMAL_12_2_BOUND := 1_000_000_000_000

  // A value that does not fit DECIMAL(12,2) casts to NULL.
  function CastAmount(cents: Option<int>): Option<int> {
    if cents.Some? && -DECIMAL_12_2_BOUND < cents.value < DECIMAL_12_2_BOUND then cents else None
  }

  function Code(s: Option<string>): Option<string> {
    if s.None? then None else Some(Upper(Trim(s.value)))
  }

  function Slug(s: Option<string>): Option<string> {
    if s.None? then None else Some(CollapseSpace(Lower(Trim(s.value))))
  }

  function Coalesce<T>(a: Option<T>, b: Option<T>): Option<T> {
    if a.Some? then a else b
  }

  function Seconds(micros: Option<int>): Option<int> {
    if micros.None? then None else Some(TruncDiv(micros.value, 1_000_000))
  }

  function ColumnsOf(after: Section, before: Section): Columns {
    Columns(
      after.merchantId, CastAmount(after.amount), Code(after.currency), Slug(after.payMethod),
      Slug(after.status), Code(after.country),
      Seconds(Coalesce(after.createdAt, before.createdAt)),
      Seconds(Coalesce(after.updatedAt, before.updatedAt)))
  }

  function Project(r: Record): Change
    requires RouteOf(r).Processable?
  {
    var e := r.value.value;
    Change(RouteOf(r).op, e.lsn, Coalesce(e.after.paymentId, e.before.paymentId),
           ColumnsOf(e.after, e.before), r.offset)
  }

  function Projected(batch: seq<Record>): seq<Change> {
    if batch == [] then []
    else
      var rest := Projected(batch[..|batch| - 1]);
      var r := batch[|batch| - 1];
      if RouteOf(r).Processable? then rest + [Project(r)] else rest
  }

  lemma {:induction false} ProjectedConcat(a: seq<Record>, b: seq<Record>)
    ensures Projected(a + b) == Projected(a) + Projected(b)
  {
    if b == [] {
      assert a + b == a;
    } else {
      assert (a + b)[..|a + b| - 1] == a + b[..|b| - 1];
      ProjectedConcat(a, b[..|b| - 1]);
    }
  }

  /******* Canonical text *******/

  lemma {:induction false} TrimEnds(s: string)
    ensures TrimLeft(s) != [] ==> TrimLeft(s)[0] != ' '
    ensures TrimRight(s) != [] ==> TrimRight(s)[|TrimRight(s)| - 1] != ' ' && TrimRight(s)[0] == s[0]
    decreases |s|
  {
    if s != [] {
      TrimEnds(s[1..]);
      TrimEnds(s[..|s| - 1]);
    }
  }

  lemma TrimmedStays(s: string)
    requires s != [] ==> s[0] != ' ' && s[|s| - 1] != ' '
    ensures Trim(s) == s
  {
  }

  lemma {:induction false} CollapseSpec(s: string)
    ensures forall c :: c in CollapseSpace(s) ==> !IsSpace(c) && (c in s || c == '_')
    ensures (forall c :: c in s ==> !IsSpace(c)) ==> CollapseSpace(s) == s
  {
    if s != [] {
      CollapseSpec(s[1..]);
      assert s == [s[0]] + s[1..];
    }
  }

  lemma {:induction false} TrimLeftSpec(s: string)
    ensures exists before :: s == before + TrimLeft(s) && forall c :: c in before ==> c == ' '
  {
    if s != [] && s[0] == ' ' {
      TrimLeftSpec(s[1..]);
      var before :| s[1..] == before + TrimLeft(s[1..]) && forall c :: c in before ==> c == ' ';
      assert s == ([' '] + before) + TrimLeft(s);
    } else {
      assert s == [] + TrimLeft(s);
    }
  }

  lemma {:induction false} TrimRightSpec(s: string)
    ensures exists after :: s == TrimRight(s) + after && forall c :: c in after ==> c == ' '
  {
    if s != [] && s[|s| - 1] == ' ' {
      var init := s[..|s| - 1];
      TrimRightSpec(init);
      var after :| init == TrimRight(init) + after && forall c :: c in after ==> c == ' ';
      assert s == TrimRight(s) + (after + [' ']);
    } else {
      assert s == TrimRight(s) + [];
    }
  }

  // s is the core with spaces around it, and the core neither begins nor ends with one.
  ghost predicate IsCore(core: string, s: string) {
    && (core != "" ==> core[0] != ' ' && core[|core| - 1] != ' ')
    && exists before, after :: s == before + core + after && (forall c :: c in before + after ==> c == ' ')
  }

  lemma TrimSpec(s: string)
    ensures IsCore(Trim(s), s)
  {
    TrimLeftSpec(s);
    TrimRightSpec(TrimLeft(s));
    TrimEnds(s);
    TrimEnds(TrimLeft(s));
    var before :| s == before + TrimLeft(s) && forall c :: c in before ==> c == ' ';
    var after :| TrimLeft(s) == Trim(s) + after && forall c :: c in after ==> c == ' ';
    assert s == before + Trim(s) + after;
  }

  // A code is the core of the text with each small letter, and nothing else, made its capital.
  lemma CodeSpec(s: string)
    ensures exists core :: IsCore(core, s) && |Code(Some(s)).value| == |core| &&
              forall i :: 0 <= i < |core| ==>
                Code(Some(s)).value[i] as int == core[i] as int - if 'a' <= core[i] <= 'z' then 'a' as int - 'A' as int else 0
  {
    TrimSpec(s);
    var core, code := Trim(s), Code(Some(s)).value;
    assert |code| == |core| && forall i :: 0 <= i < |core| ==> code[i] == UpperChar(core[i]);
  }

  // A slug is the core with each capital, and nothing else, made small, and then its white space collapsed.
  lemma SlugSpec(s: string)
    ensures exists core :: IsCore(core, s) && Slug(Some(s)) == Some(CollapseSpace(Lower(core))) && |Lower(core)| == |core| &&
              forall i :: 0 <= i < |core| ==>
                Lower(core)[i] as int == core[i] as int + if 'A' <= core[i] <= 'Z' then 'a' as int - 'A' as int else 0
  {
    TrimSpec(s);
    var core := Trim(s);
    assert forall i :: 0 <= i < |core| ==> Lower(core)[i] == LowerChar(core[i]);
  }

  // A blank, a tab, a line feed, a vertical tab, a form feed or a carriage return.
  predicate IsWhite(c: char) {
    c == ' ' || 9 <= c as int <= 13
  }

  predicate AllSpace(s: string) {
    forall i :: 0 <= i < |s| ==> IsWhite(s[i])
  }

  predicate NoSpace(s: string) {
    forall i :: 0 <= i < |s| ==> !IsWhite(s[i])
  }

  lemma {:induction false} RunCollapses(run: string, rest: string)
    requires run != "" && AllSpace(run) && (rest != "" ==> !IsWhite(rest[0]))
    ensures CollapseSpace(run + rest) == "_" + CollapseSpace(rest)
  {
    var s := run + rest;
    assert s[1..] == run[1..] + rest && s[0] == run[0];
    if |run| > 1 {
      assert s[1] == run[1];
      RunCollapses(run[1..], rest);
    } else {
      assert s[1..] == rest;
    }
  }

  // Collapsing makes each run of white space one underscore and leaves every word as it stands: stated for
  // a first word, the run after it and whatever follows.
  lemma {:induction false} CollapseJoins(word: string, run: string, rest: string)
    requires NoSpace(word) && run != "" && AllSpace(run) && (rest != "" ==> !IsWhite(rest[0]))
    ensures CollapseSpace(word + (run + rest)) == word + "_" + CollapseSpace(rest)
  {
    if word == "" {
      assert word + (run + rest) == run + rest;
      RunCollapses(run, rest);
    } else {
      assert (word + (run + rest))[1..] == word[1..] + (run + rest);
      CollapseJoins(word[1..], run, rest);
    }
  }

  // Canonical form is final: putting a canonical code or slug through the projection again, as a
  // replayed or re-extracted value would be, changes nothing.
  lemma CanonicalFormIsFinal(s: string)
    ensures Code(Code(Some(s))) == Code(Some(s))
    ensures Slug(Slug(Some(s))) == Slug(Some(s))
  {
    TrimEnds(s);
    TrimEnds(TrimLeft(s));
    var t := Trim(s);
    TrimmedStays(Upper(t));
    assert Upper(Upper(t)) == Upper(t);
    var u := CollapseSpace(Lower(t));
    CollapseSpec(Lower(t));
    CollapseSpec(u);
    assert u != [] ==> u[0] in u && u[|u| - 1] in u;
    TrimmedStays(u);
    forall i | 0 <= i < |u| ensures LowerChar(u[i]) == u[i] {
      assert u[i] in u;
    }
    assert Lower(u) == u;
  }

  /******* One change per payment *******/

  // Strictly ahead in the window order: LSN descending with nulls last, then offset descending.
  predicate Outranks(a: Change, b: Change) {
    if a.lsn.Some? && b.lsn.Some? && a.lsn.value != b.lsn.value then a.lsn.value > b.lsn.value
    else if a.lsn.Some? != b.lsn.Some? then a.lsn.Some?
    else a.offset > b.offset
  }

  // The change of payment k that gets row number 1.
  function Winner(cs: seq<Change>, k: Option<int>): Option<Change> {
    if cs == [] then None
    else
      var w := Winner(cs[..|cs| - 1], k);
      var c := cs[|cs| - 1];
      if c.paymentId != k then w
      else if w.None? || Outranks(c, w.value) then Some(c)
      else w
  }

  function KeysOf(cs: seq<Change>): seq<Option<int>> {
    if cs == [] then []
    else
      var rest := KeysOf(cs[..|cs| - 1]);
      var k := cs[|cs| - 1].paymentId;
      if k in rest then rest else rest + [k]
  }

  lemma {:induction false} KeysOfSpec(cs: seq<Change>)
    ensures forall k :: k in KeysOf(cs) <==> exists c :: c in cs && c.paymentId == k
    ensures forall i, j :: 0 <= i < j < |KeysOf(cs)| ==> KeysOf(cs)[i] != KeysOf(cs)[j]
  {
    if cs != [] {
      var init, c := cs[..|cs| - 1], cs[|cs| - 1];
      KeysOfSpec(init);
      assert cs == init + [c];
    }
  }

  // Ahead in the window, spelled out: no LSN at all only where no change has one, otherwise the highest,
  // and among equals the highest offset.
  predicate AtLeast(w: Change, c: Change) {
    && (c.lsn.Some? ==> w.lsn.Some? && w.lsn.value >= c.lsn.value)
    && (w.lsn == c.lsn ==> w.offset >= c.offset)
  }

  lemma {:induction false} WinnerSpec(cs: seq<Change>, k: Option<int>)
    ensures Winner(cs, k).Some? <==> exists c :: c in cs && c.paymentId == k
    ensures Winner(cs, k).Some? ==> Winner(cs, k).value in cs && Winner(cs, k).value.paymentId == k
    ensures forall c :: c in cs && c.paymentId == k ==> !Outranks(c, Winner(cs, k).value) && AtLeast(Winner(cs, k).value, c)
  {
    if cs != [] {
      WinnerSpec(cs[..|cs| - 1], k);
      assert cs == cs[..|cs| - 1] + [cs[|cs| - 1]];
    }
  }

  function Dedup(cs: seq<Change>): seq<Change> {
    KeysOfSpec(cs);
    assert forall k :: k in KeysOf(cs) ==> Winner(cs, k).Some? by {
      forall k | k in KeysOf(cs) ensures Winner(cs, k).Some? { WinnerSpec(cs, k); }
    }
    var keys := KeysOf(cs);
    seq(|keys|, i requires 0 <= i < |keys| => Winner(cs, keys[i]).value)
  }

  // The change set one batch hands to the MERGE.
  function BuildChanges(batch: seq<Record>): seq<Change> {
    Dedup(Projected(batch))
  }

  function ChangeFor(cs: seq<Change>, k: Option<int>): Option<Change> {
    if cs == [] then None
    else if cs[0].paymentId == k then Some(cs[0])
    else ChangeFor(cs[1..], k)
  }

  ghost predicate UniqueKeys(cs: seq<Change>) {
    forall i, j :: 0 <= i < j < |cs| ==> cs[i].paymentId != cs[j].paymentId
  }

  lemma {:induction false} ChangeForSpec(cs: seq<Change>, k: Option<int>)
    ensures ChangeFor(cs, k).Some? <==> exists c :: c in cs && c.paymentId == k
    ensures ChangeFor(cs, k).Some? ==> ChangeFor(cs, k).value in cs && ChangeFor(cs, k).value.paymentId == k
    ensures UniqueKeys(cs) ==> forall c :: c in cs && c.paymentId == k ==> ChangeFor(cs, k) == Some(c)
  {
    if cs != [] {
      ChangeForSpec(cs[1..], k);
      assert cs == [cs[0]] + cs[1..];
    }
  }

  // The window keeps exactly one change for every payment that occurs, NULL keys forming one
  // payment, and that change is outranked by no other change of its payment.
  lemma DedupSpec(cs: seq<Change>)
    ensures UniqueKeys(Dedup(cs))
    ensures forall k :: ChangeFor(Dedup(cs), k) == Winner(cs, k)
    ensures forall c :: c in Dedup(cs) ==> c in cs && Winner(cs, c.paymentId) == Some(c)
    ensures forall c :: c in cs ==> Winner(cs, c.paymentId).Some? && !Outranks(c, Winner(cs, c.paymentId).value)
  {
    KeysOfSpec(cs);
    var d, keys := Dedup(cs), KeysOf(cs);
    forall i | 0 <= i < |d|
      ensures d[i].paymentId == keys[i] && d[i] in cs && Winner(cs, d[i].paymentId) == Some(d[i])
    {
      assert keys[i] in keys;
      WinnerSpec(cs, keys[i]);
    }
    forall k ensures ChangeFor(d, k) == Winner(cs, k) {
      ChangeForSpec(d, k);
      WinnerSpec(cs, k);
      if k in keys {
        var i :| 0 <= i < |keys| && keys[i] == k;
        assert d[i] in d;
      }
    }
    forall c | c in cs
      ensures Winner(cs, c.paymentId).Some? && !Outranks(c, Winner(cs, c.paymentId).value)
    {
      WinnerSpec(cs, c.paymentId);
    }
  }

  // No two changes of payment k tie in the window order.
  ghost predicate DistinctRanks(cs: seq<Change>, k: Option<int>) {
    forall a, b :: a in cs && b in cs && a.paymentId == b.paymentId == k && a != b ==> Outranks(a, b) || Outranks(b, a)
  }

  // Without ties the surviving change does not depend on the order the batch arrived in.
  lemma WinnerIgnoresOrder(cs: seq<Change>, cs': seq<Change>, k: Option<int>)
    requires multiset(cs) == multiset(cs') && DistinctRanks(cs, k)
    ensures Winner(cs, k) == Winner(cs', k)
  {
    WinnerSpec(cs, k);
    WinnerSpec(cs', k);
    assert forall c :: c in cs <==> c in multiset(cs);
    assert forall c :: c in cs' <==> c in multiset(cs');
  }
}
