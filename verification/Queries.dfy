// The SQL builders of the serving API and what the statements they build select.
module Queries {
  import opened Basics
  import opened Gold

  datatype MetricsFilter = MetricsFilter(start: Option<int>, end: Option<int>, country: Option<string>, payMethod: Option<string>)

  /******* What a request asks for *******/

  predicate Accepts(f: MetricsFilter, k: GoldKey) {
    && (f.start.Some? ==> f.start.value <= k.hour)
    && (f.end.Some? ==> k.hour < f.end.value)
    && (f.country.Some? ==> k.country == f.country.value)
    && (f.payMethod.Some? ==> k.payMethod == f.payMethod.value)
  }

  // The sort order: hour, then country, then method.
  predicate KeyLess(a: GoldKey, b: GoldKey) {
    a.hour < b.hour
    || (a.hour == b.hour && TextLess(a.country, b.country))
    || (a.hour == b.hour && a.country == b.country && TextLess(a.payMethod, b.payMethod))
  }

  predicate Wanted(f: MetricsFilter, after: Option<GoldKey>, k: GoldKey) {
    Accepts(f, k) && (after.Some? ==> KeyLess(after.value, k))
  }

  function Wants(f: MetricsFilter, after: Option<GoldKey>): GoldKey -> bool {
    k => Wanted(f, after, k)
  }

  lemma KeyLessTotal(a: GoldKey, b: GoldKey)
    ensures KeyLess(a, b) || a == b || KeyLess(b, a)
    ensures !(KeyLess(a, b) && KeyLess(b, a)) && !KeyLess(a, a)
  {
    TextLessTotal(a.country, b.country);
    TextLessTotal(a.payMethod, b.payMethod);
    TextLessTotal(a.country, a.country);
    TextLessTotal(a.payMethod, a.payMethod);
  }

  lemma KeyLessTransitive(a: GoldKey, b: GoldKey, c: GoldKey)
    requires KeyLess(a, b) && KeyLess(b, c)
    ensures KeyLess(a, c)
  {
    if TextLess(a.country, b.country) && TextLess(b.country, c.country) {
      TextLessTransitive(a.country, b.country, c.country);
    }
    if TextLess(a.payMethod, b.payMethod) && TextLess(b.payMethod, c.payMethod) {
      TextLessTransitive(a.payMethod, b.payMethod, c.payMethod);
    }
  }

  /******* The statement *******/

  datatype Column = PaymentHour | CountryCode | PaymentMethod

  datatype Relation = Eq | Lt | Gt | Ge

  datatype Value = Time(at: int) | Text(text: string)

  // column relation ?
  datatype Comparison = Comparison(column: Column, relation: Relation)

  // A WHERE conjunct: one comparison, or an OR of AND groups.
  datatype Clause = Single(comparison: Comparison) | AnyOf(groups: seq<seq<Comparison>>)

  // SELECT .. WHERE clauses ORDER BY hour, country, method LIMIT limit.
  datatype Statement = Statement(clauses: seq<Clause>, limit: int)

  function Field(k: GoldKey, c: Column): Value {
    match c
    case PaymentHour => Time(k.hour)
    case CountryCode => Text(k.country)
    case PaymentMethod => Text(k.payMethod)
  }

  predicate ValueLess(a: Value, b: Value) {
    if a.Time? && b.Time? then a.at < b.at
    else a.Text? && b.Text? && TextLess(a.text, b.text)
  }

  predicate Related(a: Value, r: Relation, b: Value) {
    match r
    case Eq => a == b
    case Lt => ValueLess(a, b)
    case Gt => ValueLess(b, a)
    case Ge => a == b || ValueLess(b, a)
  }

  /******* Binding: placeholders take parameters left to right *******/

  // The outcome of evaluating a piece of text, and the parameters it left for the text after it.
  // None when the parameters ran out.
  datatype Bound = Bound(holds: bool, rest: seq<Value>)

  function EvalComparison(c: Comparison, k: GoldKey, params: seq<Value>): Option<Bound> {
    if params == [] then None else Some(Bound(Related(Field(k, c.column), c.relation, params[0]), params[1..]))
  }

  function EvalAll(cs: seq<Comparison>, k: GoldKey, params: seq<Value>): Option<Bound> {
    if cs == [] then Some(Bound(true, params))
    else
      var first := EvalComparison(cs[0], k, params);
      if first.None? then None
      else
        var others := EvalAll(cs[1..], k, first.value.rest);
        if others.None? then None else Some(Bound(first.value.holds && others.value.holds, others.value.rest))
  }

  function EvalAny(gs: seq<seq<Comparison>>, k: GoldKey, params: seq<Value>): Option<Bound> {
    if gs == [] then Some(Bound(false, params))
    else
      var first := EvalAll(gs[0], k, params);
      if first.None? then None
      else
        var others := EvalAny(gs[1..], k, first.value.rest);
        if others.None? then None else Some(Bound(first.value.holds || others.value.holds, others.value.rest))
  }

  function EvalClause(c: Clause, k: GoldKey, params: seq<Value>): Option<Bound> {
    match c
    case Single(comparison) => EvalComparison(comparison, k, params)
    case AnyOf(groups) => EvalAny(groups, k, params)
  }

  function EvalWhere(cs: seq<Clause>, k: GoldKey, params: seq<Value>): Option<Bound> {
    if cs == [] then Some(Bound(true, params))
    else
      var before := EvalWhere(cs[..|cs| - 1], k, params);
      if before.None? then None
      else
        var last := EvalClause(cs[|cs| - 1], k, before.value.rest);
        if last.None? then None else Some(Bound(before.value.holds && last.value.holds, last.value.rest))
  }

  // The clauses consume all of params, no more and no less, and accept exactly the wanted keys.
  ghost predicate Means(cs: seq<Clause>, params: seq<Value>, want: GoldKey -> bool) {
    forall k: GoldKey, tail: seq<Value> {:trigger EvalWhere(cs, k, params + tail)} ::
      EvalWhere(cs, k, params + tail) == Some(Bound(want(k), tail))
  }

  // Appending a clause together with its own parameters conjoins its meaning.
  lemma MeansAppend(cs: seq<Clause>, ps: seq<Value>, want: GoldKey -> bool,
                    c: Clause, qs: seq<Value>, also: GoldKey -> bool, both: GoldKey -> bool)
    requires Means(cs, ps, want)
    requires forall k: GoldKey, tail: seq<Value> {:trigger EvalClause(c, k, qs + tail)} ::
               EvalClause(c, k, qs + tail) == Some(Bound(also(k), tail))
    requires forall k :: both(k) == (want(k) && also(k))
    ensures Means(cs + [c], ps + qs, both)
  {
    forall k: GoldKey, tail: seq<Value>
      ensures EvalWhere(cs + [c], k, (ps + qs) + tail) == Some(Bound(both(k), tail))
    {
      assert (ps + qs) + tail == ps + (qs + tail);
      assert (cs + [c])[..|cs|] == cs;
      assert EvalWhere(cs, k, ps + (qs + tail)) == Some(Bound(want(k), qs + tail));
      assert EvalClause(c, k, qs + tail) == Some(Bound(also(k), tail));
    }
  }

  lemma SingleMeans(c: Comparison, v: Value)
    ensures forall k: GoldKey, tail: seq<Value> {:trigger EvalClause(Single(c), k, [v] + tail)} ::
              EvalClause(Single(c), k, [v] + tail) == Some(Bound(Related(Field(k, c.column), c.relation, v), tail))
  {
    forall k: GoldKey, tail: seq<Value>
      ensures EvalClause(Single(c), k, [v] + tail) == Some(Bound(Related(Field(k, c.column), c.relation, v), tail))
    {
      assert ([v] + tail)[1..] == tail;
    }
  }

  method FilterPredicates(f: MetricsFilter) returns (clauses: seq<Clause>, params: seq<Value>)
    ensures Means(clauses, params, k => Accepts(f, k))
  {
    clauses, params := [], [];
    ghost var want := (k: GoldKey) => true;
    assert Means(clauses, params, want) by {
      assert forall tail: seq<Value> :: [] + tail == tail;
    }
    if f.start.Some? {
      ghost var also, both := (k: GoldKey) => k.hour >= f.start.value, (k: GoldKey) => Accepts(MetricsFilter(f.start, None, None, None), k);
      SingleMeans(Comparison(PaymentHour, Ge), Time(f.start.value));
      MeansAppend(clauses, params, want, Single(Comparison(PaymentHour, Ge)), [Time(f.start.value)], also, both);
      clauses := clauses + [Single(Comparison(PaymentHour, Ge))];
      params := params + [Time(f.start.value)];
      want := both;
    }
    if f.end.Some? {
      ghost var also, both := (k: GoldKey) => k.hour < f.end.value, (k: GoldKey) => Accepts(MetricsFilter(f.start, f.end, None, None), k);
      SingleMeans(Comparison(PaymentHour, Lt), Time(f.end.value));
      MeansAppend(clauses, params, want, Single(Comparison(PaymentHour, Lt)), [Time(f.end.value)], also, both);
      clauses := clauses + [Single(Comparison(PaymentHour, Lt))];
      params := params + [Time(f.end.value)];
      want := both;
    }
    if f.country.Some? {
      ghost var also, both := (k: GoldKey) => k.country == f.country.value, (k: GoldKey) => Accepts(f.(payMethod := None), k);
      SingleMeans(Comparison(CountryCode, Eq), Text(f.country.value));
      MeansAppend(clauses, params, want, Single(Comparison(CountryCode, Eq)), [Text(f.country.value)], also, both);
      clauses := clauses + [Single(Comparison(CountryCode, Eq))];
      params := params + [Text(f.country.value)];
      want := both;
    }
    if f.payMethod.Some? {
      ghost var also, both := (k: GoldKey) => k.payMethod == f.payMethod.value, (k: GoldKey) => Accepts(f, k);
      SingleMeans(Comparison(PaymentMethod, Eq), Text(f.payMethod.value));
      MeansAppend(clauses, params, want, Single(Comparison(PaymentMethod, Eq)), [Text(f.payMethod.value)], also, both);
      clauses := clauses + [Single(Comparison(PaymentMethod, Eq))];
      params := params + [Text(f.payMethod.value)];
      want := both;
    }
    assert forall k :: want(k) == Accepts(f, k);
  }

  // Three groups: a later hour; the same hour and a later country; the same hour and country and a
  // later method.
  function KeysetClause(): Clause {
    AnyOf([[Comparison(PaymentHour, Gt)],
           [Comparison(PaymentHour, Eq), Comparison(CountryCode, Gt)],
           [Comparison(PaymentHour, Eq), Comparison(CountryCode, Eq), Comparison(PaymentMethod, Gt)]])
  }

  function KeysetParams(after: GoldKey): seq<Value> {
    [Time(after.hour), Time(after.hour), Text(after.country), Time(after.hour), Text(after.country), Text(after.payMethod)]
  }

  lemma EvalGroupStep(c: Comparison, cs: seq<Comparison>, k: GoldKey, v: Value, params: seq<Value>)
    ensures EvalAll([c] + cs, k, [v] + params) ==
            var others := EvalAll(cs, k, params);
            if others.None? then None
            else Some(Bound(Related(Field(k, c.column), c.relation, v) && others.value.holds, others.value.rest))
  {
    assert ([v] + params)[1..] == params && ([c] + cs)[1..] == cs;
  }

  lemma EvalOne(c: Comparison, k: GoldKey, v: Value, params: seq<Value>)
    ensures EvalAll([c], k, [v] + params) == Some(Bound(Related(Field(k, c.column), c.relation, v), params))
  {
    EvalGroupStep(c, [], k, v, params);
    assert [c] + [] == [c];
  }

  lemma EvalTwo(c: Comparison, d: Comparison, k: GoldKey, v: Value, w: Value, params: seq<Value>)
    ensures EvalAll([c, d], k, [v] + ([w] + params)) ==
            Some(Bound(Related(Field(k, c.column), c.relation, v) && Related(Field(k, d.column), d.relation, w), params))
  {
    EvalGroupStep(c, [d], k, v, [w] + params);
    EvalOne(d, k, w, params);
    assert [c] + [d] == [c, d];
  }

  lemma EvalThree(c: Comparison, d: Comparison, e: Comparison, k: GoldKey, v: Value, w: Value, x: Value, params: seq<Value>)
    ensures EvalAll([c, d, e], k, [v] + ([w] + ([x] + params))) ==
            Some(Bound(Related(Field(k, c.column), c.relation, v) && Related(Field(k, d.column), d.relation, w)
                         && Related(Field(k, e.column), e.relation, x), params))
  {
    EvalGroupStep(c, [d, e], k, v, [w] + ([x] + params));
    EvalTwo(d, e, k, w, x, params);
    assert [c] + [d, e] == [c, d, e];
  }

  // An OR of three groups, each taking its own parameters.
  lemma EvalAnyThree(f: seq<Comparison>, g: seq<Comparison>, h: seq<Comparison>, k: GoldKey,
                     p1: seq<Value>, p2: seq<Value>, p3: seq<Value>, tail: seq<Value>)
    requires EvalAll(f, k, p1).Some? && EvalAll(f, k, p1).value.rest == p2
    requires EvalAll(g, k, p2).Some? && EvalAll(g, k, p2).value.rest == p3
    requires EvalAll(h, k, p3).Some? && EvalAll(h, k, p3).value.rest == tail
    ensures EvalAny([f, g, h], k, p1) ==
            Some(Bound(EvalAll(f, k, p1).value.holds || EvalAll(g, k, p2).value.holds || EvalAll(h, k, p3).value.holds, tail))
  {
    assert [f, g, h][1..] == [g, h] && [g, h][1..] == [h] && [h][1..] == [];
    assert EvalAny([h], k, p3) == Some(Bound(EvalAll(h, k, p3).value.holds, tail));
    assert EvalAny([g, h], k, p2) == Some(Bound(EvalAll(g, k, p2).value.holds || EvalAll(h, k, p3).value.holds, tail));
  }

  // The nested OR groups are strictly-after in the sort order, and take six parameters.
  lemma KeysetMeans(after: GoldKey)
    ensures forall k: GoldKey, tail: seq<Value> {:trigger EvalClause(KeysetClause(), k, KeysetParams(after) + tail)} ::
              EvalClause(KeysetClause(), k, KeysetParams(after) + tail) == Some(Bound(KeyLess(after, k), tail))
  {
    forall k: GoldKey, tail: seq<Value>
      ensures EvalClause(KeysetClause(), k, KeysetParams(after) + tail) == Some(Bound(KeyLess(after, k), tail))
    {
      KeysetHolds(after, k, tail);
    }
  }

  lemma KeysetHolds(after: GoldKey, k: GoldKey, tail: seq<Value>)
    ensures EvalClause(KeysetClause(), k, KeysetParams(after) + tail) == Some(Bound(KeyLess(after, k), tail))
  {
    var h, c, m := Time(after.hour), Text(after.country), Text(after.payMethod);
    var eq, ceq := Comparison(PaymentHour, Eq), Comparison(CountryCode, Eq);
    var p3 := [h] + ([c] + ([m] + tail));
    var p2 := [h] + ([c] + p3);
    var p1 := [h] + p2;
    assert KeysetParams(after) + tail == p1;
    EvalOne(Comparison(PaymentHour, Gt), k, h, p2);
    EvalTwo(eq, Comparison(CountryCode, Gt), k, h, c, p3);
    EvalThree(eq, ceq, Comparison(PaymentMethod, Gt), k, h, c, m, tail);
    EvalAnyThree([Comparison(PaymentHour, Gt)], [eq, Comparison(CountryCode, Gt)], [eq, ceq, Comparison(PaymentMethod, Gt)],
                 k, p1, p2, p3, tail);
  }

  // Whatever the filter and cursor, the statement accepts exactly the rows the request wants, with
  // each placeholder taking its own parameter and every parameter used.
  method HourlyMetricsSql(f: MetricsFilter, limit: int, after: Option<GoldKey>)
    returns (sql: Statement, params: seq<Value>)
    ensures sql.limit == limit
    ensures Means(sql.clauses, params, Wants(f, after))
  {
    var clauses;
    clauses, params := FilterPredicates(f);
    if after.Some? {
      KeysetMeans(after.value);
      MeansAppend(clauses, params, k => Accepts(f, k), KeysetClause(), KeysetParams(after.value),
                  k => KeyLess(after.value, k), Wants(f, after));
      clauses := clauses + [KeysetClause()];
      params := params + KeysetParams(after.value);
    } else {
      assert forall k, tail {:trigger EvalWhere(clauses, k, params + tail)} ::
          EvalWhere(clauses, k, params + tail) == Some(Bound(Wanted(f, after, k), tail));
    }
    sql := Statement(clauses, limit);
  }
}
