// The cache key of a request, and exactly when two requests share one.
module CacheKey {
  import opened Basics
  import opened Queries

  datatype Request =
    | Hourly(f: MetricsFilter, limit: nat, cursor: Option<string>)
    | Totals(f: MetricsFilter)

  // What the parameter checks of the endpoints let through; that a cursor must also decode comes later.
  predicate Accepted(r: Request) {
    && (r.f.start.Some? && r.f.end.Some? ==> r.f.start.value < r.f.end.value)
    && (r.f.country.Some? ==> |r.f.country.value| == 2)
    && (r.f.payMethod.Some? ==> |r.f.payMethod.value| <= 64)
    && (r.Hourly? ==> 1 <= r.limit <= 1000 && (r.cursor.Some? ==> r.cursor.value != ""))
  }

  // datetime.isoformat, of which only this is used: it is injective, never empty, and free of '|'.
  ghost predicate GoodIso(iso: int -> string) {
    && (forall t: int :: iso(t) != "" && '|' !in iso(t))
    && (forall t: int, u: int :: iso(t) == iso(u) ==> t == u)
  }

  function OrEmpty(s: Option<string>): string {
    if s.Some? then s.value else ""
  }

  function Stamp(iso: int -> string, t: Option<int>): string {
    if t.Some? then iso(t.value) else ""
  }

  function Kind(r: Request): string {
    if r.Hourly? then "hourly" else "summary"
  }

  function LimitText(r: Request): string {
    if r.Hourly? && r.limit != 0 then Digits(r.limit) else ""
  }

  function CursorText(r: Request): string {
    if r.Hourly? then OrEmpty(r.cursor) else ""
  }

  // "|".join of the seven fields.
  function Key(iso: int -> string, r: Request): string {
    Kind(r) + "|" + (Stamp(iso, r.f.start) + "|" + (Stamp(iso, r.f.end) + "|" + Tail(r)))
  }

  function Tail(r: Request): string {
    OrEmpty(r.f.country) + "|" + (OrEmpty(r.f.payMethod) + "|" + (LimitText(r) + "|" + CursorText(r)))
  }

  /******* Reading fields back *******/

  lemma FirstField(a: string, x: string, b: string, y: string)
    requires '|' !in a && '|' !in b && a + "|" + x == b + "|" + y
    ensures a == b && x == y
  {
    var s, t := a + "|" + x, b + "|" + y;
    assert s[|a|] == '|' && t[|b|] == '|';
    assert forall i :: 0 <= i < |a| ==> s[i] == a[i];
    assert forall i :: 0 <= i < |b| ==> t[i] == b[i];
    assert |a| == |b|;
    assert a == s[..|a|] && b == t[..|b|] && x == s[|a| + 1..] && y == t[|b| + 1..];
  }

  lemma StampReadsBack(iso: int -> string, t: Option<int>, u: Option<int>)
    requires GoodIso(iso)
    ensures '|' !in Stamp(iso, t)
    ensures Stamp(iso, t) == Stamp(iso, u) ==> t == u
  {
    if t.Some? { IsoIsGood(iso, t.value); }
    if u.Some? { IsoIsGood(iso, u.value); }
    if t.Some? && u.Some? && iso(t.value) == iso(u.value) { IsoIsInjective(iso, t.value, u.value); }
  }

  lemma IsoIsGood(iso: int -> string, t: int)
    requires GoodIso(iso)
    ensures iso(t) != "" && '|' !in iso(t)
  {
  }

  lemma IsoIsInjective(iso: int -> string, t: int, u: int)
    requires GoodIso(iso) && iso(t) == iso(u)
    ensures t == u
  {
  }

  lemma HeadReadsBack(iso: int -> string, r: Request, q: Request)
    requires GoodIso(iso) && Key(iso, r) == Key(iso, q)
    ensures Kind(r) == Kind(q) && r.f.start == q.f.start && r.f.end == q.f.end && Tail(r) == Tail(q)
  {
    var r2, q2 := Stamp(iso, r.f.end) + "|" + Tail(r), Stamp(iso, q.f.end) + "|" + Tail(q);
    var r1, q1 := Stamp(iso, r.f.start) + "|" + r2, Stamp(iso, q.f.start) + "|" + q2;
    FirstField(Kind(r), r1, Kind(q), q1);
    StampReadsBack(iso, r.f.start, q.f.start);
    StampReadsBack(iso, q.f.start, r.f.start);
    FirstField(Stamp(iso, r.f.start), r2, Stamp(iso, q.f.start), q2);
    StampReadsBack(iso, r.f.end, q.f.end);
    StampReadsBack(iso, q.f.end, r.f.end);
    FirstField(Stamp(iso, r.f.end), Tail(r), Stamp(iso, q.f.end), Tail(q));
  }

  lemma LimitReadsBack(r: Request, q: Request)
    requires Accepted(r) && Accepted(q) && r.Hourly? == q.Hourly? && LimitText(r) == LimitText(q)
    ensures r.Hourly? ==> r.limit == q.limit
  {
    if r.Hourly? {
      DigitsInjective(r.limit, q.limit);
    }
  }

  /******* When the key identifies the request *******/

  // A caller can check this before asking: the country does not begin with the separator, and the
  // method is absent, or non-empty and free of it.
  predicate Unambiguous(r: Request) {
    && (r.f.country.Some? && r.f.country.value != "" ==> r.f.country.value[0] != '|')
    && (r.f.payMethod.Some? ==> r.f.payMethod.value != "" && '|' !in r.f.payMethod.value)
  }

  lemma CountryField(c: Option<string>, x: string, d: Option<string>, y: string)
    requires c.Some? ==> |c.value| == 2 && c.value[0] != '|'
    requires d.Some? ==> |d.value| == 2 && d.value[0] != '|'
    requires OrEmpty(c) + "|" + x == OrEmpty(d) + "|" + y
    ensures c == d && x == y
  {
    var s, t := OrEmpty(c) + "|" + x, OrEmpty(d) + "|" + y;
    assert s[0] == if c.Some? then c.value[0] else '|';
    assert t[0] == if d.Some? then d.value[0] else '|';
    assert OrEmpty(c) == s[..|OrEmpty(c)|] && OrEmpty(d) == t[..|OrEmpty(d)|];
    assert x == s[|OrEmpty(c)| + 1..] && y == t[|OrEmpty(d)| + 1..];
  }

  // Among accepted, unambiguous requests the key identifies the request, whatever the cursor text.
  lemma KeyIdentifiesRequest(iso: int -> string, r: Request, q: Request)
    requires GoodIso(iso) && Accepted(r) && Accepted(q) && Unambiguous(r) && Unambiguous(q)
    ensures Key(iso, r) == Key(iso, q) <==> r == q
  {
    if Key(iso, r) == Key(iso, q) {
      HeadReadsBack(iso, r, q);
      var r1, q1 := LimitText(r) + "|" + CursorText(r), LimitText(q) + "|" + CursorText(q);
      CountryField(r.f.country, OrEmpty(r.f.payMethod) + "|" + r1, q.f.country, OrEmpty(q.f.payMethod) + "|" + q1);
      FirstField(OrEmpty(r.f.payMethod), r1, OrEmpty(q.f.payMethod), q1);
      FirstField(LimitText(r), CursorText(r), LimitText(q), CursorText(q));
      LimitReadsBack(r, q);
    }
  }

  // The country of one request swallows the start of the other's method.
  predicate Swallows(with: Request, without: Request) {
    && with.f.country.Some? && with.f.country.value != "" && with.f.country.value[0] == '|'
    && without.f.country.None?
    && OrEmpty(without.f.payMethod) == with.f.country.value[1..] + "|" + OrEmpty(with.f.payMethod)
  }

  // Country and method as they stand in the key.
  function Place(r: Request): string {
    OrEmpty(r.f.country) + "|" + OrEmpty(r.f.payMethod)
  }

  lemma TailGroups(r: Request)
    ensures Tail(r) == Place(r) + "|" + (LimitText(r) + "|" + CursorText(r))
  {
    var c, m, x := OrEmpty(r.f.country), OrEmpty(r.f.payMethod), LimitText(r) + "|" + CursorText(r);
    assert c + "|" + (m + "|" + x) == (c + "|" + m) + "|" + x;
  }

  lemma LimitHasNoBar(r: Request)
    ensures '|' !in LimitText(r)
  {
  }

  // The two requests agree on everything but country and method.
  predicate AgreeElsewhere(r: Request, q: Request) {
    && r.Hourly? == q.Hourly? && r.f.start == q.f.start && r.f.end == q.f.end
    && (r.Hourly? ==> r.limit == q.limit && r.cursor == q.cursor)
  }

  // The method of b reaches over the limit of a, and over y in the cursor of a.
  predicate RunsOver(a: Request, b: Request, y: string) {
    && Place(b) == Place(a) + "|" + LimitText(a) + "|" + y
    && CursorText(a) == y + "|" + LimitText(b) + "|" + CursorText(b)
  }

  // The method of b ends with the limit of a, or runs on into the cursor of a, whose rest then holds
  // the limit and the cursor of b.
  ghost predicate RunsInto(a: Request, b: Request) {
    || (Place(b) == Place(a) + "|" + LimitText(a) && CursorText(a) == LimitText(b) + "|" + CursorText(b))
    || exists y: string :: RunsOver(a, b, y)
  }

  // Text in which a longer place stands for a shorter one followed by something.
  lemma LongerPlace(p: string, x: string, q: string, y: string) returns (z: string)
    requires p + "|" + x == q + "|" + y && |p| < |q|
    ensures q == p + "|" + z && x == z + "|" + y
  {
    var s, t := p + "|" + x, q + "|" + y;
    z := q[|p| + 1..];
    assert s[|p|] == '|' && t[|p|] == q[|p|];
    assert q[..|p|] == t[..|p|] == s[..|p|] == p;
    assert q == q[..|p|] + [q[|p|]] + q[|p| + 1..];
    assert x == s[|p| + 1..] && t[|p| + 1..] == z + "|" + y;
  }

  lemma SameLengthPlace(p: string, x: string, q: string, y: string)
    requires p + "|" + x == q + "|" + y && |p| == |q|
    ensures p == q && x == y
  {
    var s, t := p + "|" + x, q + "|" + y;
    assert p == s[..|p|] && q == t[..|q|] && x == s[|p| + 1..] && y == t[|q| + 1..];
  }

  lemma FirstBar(z: string) returns (head: string, y: string)
    requires '|' in z
    ensures '|' !in head && z == head + "|" + y
  {
    if z[0] == '|' {
      head, y := "", z[1..];
    } else {
      assert z == [z[0]] + z[1..];
      var h;
      h, y := FirstBar(z[1..]);
      head := [z[0]] + h;
    }
  }

  // What stands between the shorter place and the end of the longer one begins with the shorter one's
  // limit.
  lemma BetweenPlaces(l: string, c: string, z: string, x: string) returns (y: string)
    requires '|' !in l && l + "|" + c == z + "|" + x
    ensures (z == l && c == x) || (z == l + "|" + y && c == y + "|" + x)
  {
    if '|' in z {
      var head;
      head, y := FirstBar(z);
      ShiftBar(head, y, x);
      FirstField(l, c, head, y + "|" + x);
    } else {
      y := "";
      FirstField(l, c, z, x);
    }
  }

  lemma LongerRunsInto(a: Request, b: Request)
    requires Tail(a) == Tail(b) && |Place(a)| < |Place(b)|
    ensures RunsInto(a, b)
  {
    var xa, xb := LimitText(a) + "|" + CursorText(a), LimitText(b) + "|" + CursorText(b);
    TailGroups(a);
    TailGroups(b);
    LimitHasNoBar(a);
    var z := LongerPlace(Place(a), xa, Place(b), xb);
    var y := BetweenPlaces(LimitText(a), CursorText(a), z, xb);
    if z != LimitText(a) || CursorText(a) != xb {
      ShiftBar(Place(a), LimitText(a), y);
      ShiftBar(y, LimitText(b), CursorText(b));
      assert RunsOver(a, b, y);
    }
  }

  lemma ShiftBar(p: string, l: string, x: string)
    ensures (p + "|" + l) + "|" + x == p + "|" + (l + "|" + x)
  {
  }

  lemma RunsOverSameTail(a: Request, b: Request, y: string)
    requires RunsOver(a, b, y)
    ensures Tail(a) == Tail(b)
  {
    TailGroups(a);
    TailGroups(b);
    var x := LimitText(b) + "|" + CursorText(b);
    ShiftBar(y, LimitText(b), CursorText(b));
    ShiftBar(Place(a) + "|" + LimitText(a), y, x);
    ShiftBar(Place(a), LimitText(a), y + "|" + x);
  }

  lemma RunsIntoSameTail(a: Request, b: Request)
    requires RunsInto(a, b)
    ensures Tail(a) == Tail(b)
  {
    if y: string :| RunsOver(a, b, y) {
      RunsOverSameTail(a, b, y);
    } else {
      TailGroups(a);
      TailGroups(b);
      ShiftBar(Place(a), LimitText(a), LimitText(b) + "|" + CursorText(b));
    }
  }

  // Without any condition on the cursors: what equal tails mean.
  lemma TailCollisions(r: Request, q: Request)
    requires Accepted(r) && Accepted(q) && r.Hourly? == q.Hourly?
    ensures Tail(r) == Tail(q) <==>
            (Place(r) == Place(q) && LimitText(r) == LimitText(q) && CursorText(r) == CursorText(q))
            || RunsInto(r, q) || RunsInto(q, r)
  {
    TailGroups(r);
    TailGroups(q);
    if Tail(r) == Tail(q) {
      if |Place(r)| == |Place(q)| {
        var xr, xq := LimitText(r) + "|" + CursorText(r), LimitText(q) + "|" + CursorText(q);
        SameLengthPlace(Place(r), xr, Place(q), xq);
        LimitHasNoBar(r);
        LimitHasNoBar(q);
        FirstField(LimitText(r), CursorText(r), LimitText(q), CursorText(q));
      } else if |Place(r)| < |Place(q)| {
        LongerRunsInto(r, q);
      } else {
        LongerRunsInto(q, r);
      }
    } else {
      if RunsInto(r, q) { RunsIntoSameTail(r, q); }
      if RunsInto(q, r) { RunsIntoSameTail(q, r); }
    }
  }

  lemma SameHead(iso: int -> string, r: Request, q: Request)
    requires GoodIso(iso)
    ensures Key(iso, r) == Key(iso, q) <==>
            Kind(r) == Kind(q) && r.f.start == q.f.start && r.f.end == q.f.end && Tail(r) == Tail(q)
  {
    if Key(iso, r) == Key(iso, q) {
      HeadReadsBack(iso, r, q);
    }
  }

  // Kind, start and end agree, and either everything else does but for an absent against an empty
  // method or a country that begins with the separator and swallows the start of the other's method; or
  // one request's method runs into the other's limit and cursor.
  ghost predicate Collide(r: Request, q: Request) {
    && r.Hourly? == q.Hourly? && r.f.start == q.f.start && r.f.end == q.f.end
    && ((AgreeElsewhere(r, q)
           && ((r.f.country == q.f.country && OrEmpty(r.f.payMethod) == OrEmpty(q.f.payMethod))
               || Swallows(r, q) || Swallows(q, r)))
        || RunsInto(r, q) || RunsInto(q, r))
  }

  // Exactly when two accepted requests share a key, whatever their cursors.
  lemma KeyCollisions(iso: int -> string, r: Request, q: Request)
    requires GoodIso(iso) && Accepted(r) && Accepted(q)
    ensures Key(iso, r) == Key(iso, q) <==> Collide(r, q)
  {
    SameHead(iso, r, q);
    if r.Hourly? == q.Hourly? {
      TailCollisions(r, q);
      PlaceSplits(r, q);
      if LimitText(r) == LimitText(q) {
        LimitReadsBack(r, q);
      }
    }
  }

  // A family of such pairs with nothing but a page size and a position in common: a token given
  // twice with a limit between, against a method that carries the first of the two.
  lemma CursorCarriesAnotherRequest(iso: int -> string, token: string, f: MetricsFilter, limit: nat, other: nat)
    requires 0 < |token| <= 54 && 1 <= limit <= 1000 && 1 <= other <= 1000 && limit != other
    requires Accepted(Totals(f))
    ensures var r := Hourly(f.(payMethod := Some("card")), limit, Some(token + "|" + Digits(other) + "|" + token));
            var q := Hourly(f.(payMethod := Some("card" + "|" + Digits(limit) + "|" + token)), other, Some(token));
            Accepted(r) && Accepted(q) && Key(iso, r) == Key(iso, q) && r.limit != q.limit && r.cursor != q.cursor
  {
    var r := Hourly(f.(payMethod := Some("card")), limit, Some(token + "|" + Digits(other) + "|" + token));
    var q := Hourly(f.(payMethod := Some("card" + "|" + Digits(limit) + "|" + token)), other, Some(token));
    FewDigits(limit);
    ShiftBar(OrEmpty(f.country), "card", Digits(limit) + "|" + token);
    ShiftBar("card", Digits(limit), token);
    ShiftBar(Place(r), Digits(limit), token);
    assert RunsOver(r, q, token);
    RunsOverSameTail(r, q, token);
    assert |r.cursor.value| > |q.cursor.value|;
  }

  lemma {:induction false} FewDigits(n: nat)
    requires n <= 1000
    ensures |Digits(n)| <= if n < 10 then 1 else if n < 100 then 2 else 4
  {
    if n >= 10 {
      FewDigits(n / 10);
      if n >= 100 {
        FewDigits(n / 10 / 10);
      }
    }
  }

  // The two fields together, cut at every place the separator may stand.
  lemma PlaceSplits(r: Request, q: Request)
    requires Accepted(r) && Accepted(q)
    ensures Place(r) == Place(q) <==>
            (r.f.country == q.f.country && OrEmpty(r.f.payMethod) == OrEmpty(q.f.payMethod))
            || Swallows(r, q) || Swallows(q, r)
  {
    if r.f.country.Some? && q.f.country.None? {
      SwallowsSpec(r, q);
    } else if r.f.country.None? && q.f.country.Some? {
      SwallowsSpec(q, r);
    }
    var a, b := OrEmpty(r.f.country), OrEmpty(q.f.country);
    var s, t := a + "|" + OrEmpty(r.f.payMethod), b + "|" + OrEmpty(q.f.payMethod);
    if s == t && r.f.country.Some? == q.f.country.Some? {
      assert a == s[..|a|] && b == t[..|b|];
      assert OrEmpty(r.f.payMethod) == s[|a| + 1..] && OrEmpty(q.f.payMethod) == t[|b| + 1..];
    }
  }

  lemma SwallowsSpec(with: Request, without: Request)
    requires with.f.country.Some? && |with.f.country.value| == 2 && without.f.country.None?
    ensures with.f.country.value + "|" + OrEmpty(with.f.payMethod) == "" + "|" + OrEmpty(without.f.payMethod) <==>
            Swallows(with, without)
  {
    var c, m, n := with.f.country.value, OrEmpty(with.f.payMethod), OrEmpty(without.f.payMethod);
    var s, t := c + "|" + m, "" + "|" + n;
    assert s == [c[0]] + (c[1..] + "|" + m) && t == ['|'] + n;
    assert s[1..] == c[1..] + "|" + m && t[1..] == n && s[0] == c[0] && t[0] == '|';
  }
}
