// Staging an extract to object storage: chunked parts under a prefix that identifies the run.
module Staging {
  import opened Basics

  /******* Chunks *******/

  // A part's text and the number of rows in it. Records are already rendered as JSON lines.
  datatype Part = Part(body: string, rows: nat)

  function JoinLines(lines: seq<string>): string
    requires lines != []
  {
    if |lines| == 1 then lines[0] else lines[0] + "\n" + JoinLines(lines[1..])
  }

  function PartOf(lines: seq<string>): Part
    requires lines != []
  {
    Part(JoinLines(lines) + "\n", |lines|)
  }

  function Chunks(records: seq<string>, size: nat): seq<Part>
    requires size >= 1
  {
    if records == [] then []
    else if |records| <= size then [PartOf(records)]
    else [PartOf(records[..size])] + Chunks(records[size..], size)
  }

  lemma FullChunk(lines: seq<string>, rest: seq<string>, size: nat)
    requires size >= 1 && |lines| == size
    ensures Chunks(lines + rest, size) == [PartOf(lines)] + Chunks(rest, size)
  {
    if rest == [] {
      assert lines + rest == lines;
    } else {
      assert (lines + rest)[..size] == lines && (lines + rest)[size..] == rest;
    }
  }

  // One record more: the buffer grows, or becomes a part.
  lemma NextLine(lines: seq<string>, records: seq<string>, i: nat, size: nat)
    requires |lines| < size && i < |records|
    ensures var more, rest := lines + [records[i]], records[i + 1..];
            Chunks(lines + records[i..], size) ==
            if |more| >= size then [PartOf(more)] + Chunks([] + rest, size) else Chunks(more + rest, size)
  {
    var more, rest := lines + [records[i]], records[i + 1..];
    assert lines + records[i..] == more + rest && [] + rest == rest;
    if |more| >= size {
      FullChunk(more, rest, size);
    }
  }

  lemma JoinParts(parts: seq<Part>, part: Part, rest: seq<Part>)
    ensures parts + ([part] + rest) == (parts + [part]) + rest
  {
  }

  method IterJsonlChunks(records: seq<string>, chunkRows: int) returns (r: Result<seq<Part>, string>)
    ensures r.Err? <==> chunkRows < 1
    ensures chunkRows >= 1 ==> r == Ok(Chunks(records, chunkRows))
  {
    if chunkRows < 1 {
      return Err("chunk_rows must be at least 1");
    }
    var parts: seq<Part> := [];
    var lines: seq<string> := [];
    assert [] + records[0..] == records;
    for i := 0 to |records|
      invariant |lines| < chunkRows
      invariant parts + Chunks(lines + records[i..], chunkRows) == Chunks(records, chunkRows)
    {
      NextLine(lines, records, i, chunkRows);
      lines := lines + [records[i]];
      if |lines| >= chunkRows {
        JoinParts(parts, PartOf(lines), Chunks([] + records[i + 1..], chunkRows));
        parts := parts + [PartOf(lines)];
        lines := [];
      }
    }
    assert lines + records[|records|..] == lines;
    if lines != [] {
      parts := parts + [PartOf(lines)];
    } else {
      assert parts + [] == parts;
    }
    return Ok(parts);
  }

  function Bodies(parts: seq<Part>): string {
    if parts == [] then "" else parts[0].body + Bodies(parts[1..])
  }

  function RowsIn(parts: seq<Part>): nat {
    if parts == [] then 0 else parts[0].rows + RowsIn(parts[1..])
  }

  // A line per newline; text after the last newline is one more.
  function ReadLines(text: string, line: string): seq<string> {
    if text == "" then if line == "" then [] else [line]
    else if text[0] == '\n' then [line] + ReadLines(text[1..], "")
    else ReadLines(text[1..], line + [text[0]])
  }

  ghost predicate NoNewlines(records: seq<string>) {
    forall r :: r in records ==> '\n' !in r
  }

  lemma {:induction false} ReadOneLine(line: string, text: string, read: string)
    requires '\n' !in line
    ensures ReadLines(line + "\n" + text, read) == [read + line] + ReadLines(text, "")
  {
    if line == "" {
      assert line + "\n" + text == "\n" + text;
      assert ("\n" + text)[1..] == text && read + line == read;
    } else {
      var all := line + "\n" + text;
      assert all[1..] == line[1..] + "\n" + text;
      ReadOneLine(line[1..], text, read + [line[0]]);
      assert read + [line[0]] + line[1..] == read + line;
    }
  }

  lemma PartUnfolds(lines: seq<string>, text: string)
    requires |lines| > 1
    ensures PartOf(lines).body + text == lines[0] + "\n" + (PartOf(lines[1..]).body + text)
  {
    var first, rest := lines[0] + "\n", JoinLines(lines[1..]);
    assert ((first + rest) + "\n") + text == first + ((rest + "\n") + text);
  }

  lemma {:induction false} ReadPart(lines: seq<string>, text: string)
    requires lines != [] && NoNewlines(lines)
    ensures ReadLines(PartOf(lines).body + text, "") == lines + ReadLines(text, "")
  {
    assert lines == [lines[0]] + lines[1..] && "" + lines[0] == lines[0];
    if |lines| == 1 {
      ReadOneLine(lines[0], text, "");
    } else {
      var rest := PartOf(lines[1..]).body + text;
      PartUnfolds(lines, text);
      ReadOneLine(lines[0], rest, "");
      ReadPart(lines[1..], text);
      assert [lines[0]] + (lines[1..] + ReadLines(text, "")) == ([lines[0]] + lines[1..]) + ReadLines(text, "");
    }
  }

  // Concatenated, the parts read back as the records in order; no row is lost, added or moved.
  lemma {:induction false} ChunksConserve(records: seq<string>, size: nat)
    requires size >= 1
    ensures RowsIn(Chunks(records, size)) == |records|
    ensures NoNewlines(records) ==> ReadLines(Bodies(Chunks(records, size)), "") == records
    decreases |records|
  {
    if records != [] {
      var first := if |records| <= size then records else records[..size];
      var rest := if |records| <= size then [] else records[size..];
      var parts := Chunks(records, size);
      assert records == first + rest;
      assert parts[1..] == Chunks(rest, size);
      ChunksConserve(rest, size);
      if NoNewlines(records) {
        ReadPart(first, Bodies(Chunks(rest, size)));
      }
    }
  }

  // Every part but the last holds exactly size rows, the last at least one and at most size, and
  // there are as few parts as that allows.
  lemma {:induction false} ChunkSizes(records: seq<string>, size: nat)
    requires size >= 1
    ensures var parts := Chunks(records, size);
            (forall i :: 0 <= i < |parts| - 1 ==> parts[i].rows == size) &&
            (parts != [] ==> 1 <= parts[|parts| - 1].rows <= size) &&
            (records == [] <==> parts == []) &&
            (records != [] ==> (|parts| - 1) * size < |records| <= |parts| * size)
  {
    if |records| > size {
      ChunkSizes(records[size..], size);
      var rest := Chunks(records[size..], size);
      var parts := Chunks(records, size);
      assert parts == [PartOf(records[..size])] + rest;
      OneMoreChunk(|rest|, |records| - size, size);
    }
  }

  lemma OneMoreChunk(parts: nat, records: nat, size: nat)
    requires (parts - 1) * size < records <= parts * size
    ensures parts * size < records + size <= (parts + 1) * size
  {
    assert (parts - 1) * size == parts * size - size && (parts + 1) * size == parts * size + size;
  }

  /******* Run ids *******/

  predicate IsKept(c: char) {
    'A' <= c <= 'Z' || 'a' <= c <= 'z' || '0' <= c <= '9' || c == '_' || c == '-'
  }

  // Replaces every maximal run of other characters by one dash.
  function Dashed(s: string): string {
    if s == "" then ""
    else if IsKept(s[0]) then [s[0]] + Dashed(s[1..])
    else if |s| > 1 && !IsKept(s[1]) then Dashed(s[1..])
    else "-" + Dashed(s[1..])
  }

  function StripLeft(s: string): string {
    if s != "" && s[0] == '-' then StripLeft(s[1..]) else s
  }

  function StripRight(s: string): string {
    if s != "" && s[|s| - 1] == '-' then StripRight(s[..|s| - 1]) else s
  }

  function SanitizeRunId(runId: string): Result<string, string> {
    var cleaned := StripRight(StripLeft(Dashed(runId)));
    if cleaned == "" then Err("run_id has no usable characters") else Ok(cleaned)
  }

  predicate Sanitized(s: string) {
    s != "" && s[0] != '-' && s[|s| - 1] != '-' && forall c :: c in s ==> IsKept(c)
  }

  predicate IsWord(c: char) {
    IsKept(c) && c != '-'
  }

  lemma {:induction false} DashedSpec(s: string)
    ensures forall c :: c in Dashed(s) ==> IsKept(c)
    ensures forall c :: IsWord(c) ==> (c in Dashed(s) <==> c in s)
    ensures (forall c :: c in s ==> IsKept(c)) ==> Dashed(s) == s
  {
    if s != "" {
      DashedSpec(s[1..]);
      assert s == [s[0]] + s[1..];
    }
  }

  lemma {:induction false} StripLeftSpec(s: string)
    ensures StripLeft(s) != "" ==> StripLeft(s)[0] != '-'
    ensures forall c :: c in StripLeft(s) ==> c in s
    ensures forall c :: c in s && c != '-' ==> c in StripLeft(s)
  {
    if s != "" {
      StripLeftSpec(s[1..]);
      assert s == [s[0]] + s[1..];
    }
  }

  lemma {:induction false} StripRightSpec(s: string)
    ensures var t := StripRight(s); t != "" ==> t[|t| - 1] != '-' && t[0] == s[0]
    ensures forall c :: c in StripRight(s) ==> c in s
    ensures forall c :: c in s && c != '-' ==> c in StripRight(s)
  {
    if s != "" {
      StripRightSpec(s[..|s| - 1]);
      assert s == s[..|s| - 1] + [s[|s| - 1]];
    }
  }

  lemma CleanedSpec(runId: string)
    ensures var r := StripRight(StripLeft(Dashed(runId)));
            (r == "" || Sanitized(r)) && forall c :: IsWord(c) ==> (c in r <==> c in runId)
  {
    DashedSpec(runId);
    StripLeftSpec(Dashed(runId));
    StripRightSpec(StripLeft(Dashed(runId)));
  }

  lemma SanitizedStays(s: string)
    requires Sanitized(s)
    ensures SanitizeRunId(s) == Ok(s)
  {
    DashedSpec(s);
  }

  // A letter, a digit, a dash or an underscore, by code point.
  predicate IsIdChar(c: char) {
    var n := c as int;
    65 <= n <= 90 || 97 <= n <= 122 || 48 <= n <= 57 || n == 45 || n == 95
  }

  predicate AllKept(s: string) {
    forall i :: 0 <= i < |s| ==> IsIdChar(s[i])
  }

  predicate NoneKept(s: string) {
    forall i :: 0 <= i < |s| ==> !IsIdChar(s[i])
  }

  predicate AllDashes(s: string) {
    forall i :: 0 <= i < |s| ==> s[i] == '-'
  }

  lemma {:induction false} RunDashed(run: string, rest: string)
    requires run != "" && NoneKept(run) && (rest != "" ==> IsIdChar(rest[0]))
    ensures Dashed(run + rest) == "-" + Dashed(rest)
  {
    var s := run + rest;
    assert s[1..] == run[1..] + rest && s[0] == run[0];
    if |run| > 1 {
      assert s[1] == run[1];
      RunDashed(run[1..], rest);
    } else {
      assert s[1..] == rest;
    }
  }

  // Sanitizing makes each run of other characters one dash and leaves every kept stretch as it stands: stated
  // for a first stretch, the run after it and what follows.
  lemma {:induction false} DashedJoins(kept: string, run: string, rest: string)
    requires AllKept(kept) && run != "" && NoneKept(run) && (rest != "" ==> IsIdChar(rest[0]))
    ensures Dashed(kept + (run + rest)) == kept + "-" + Dashed(rest)
  {
    if kept == "" {
      assert kept + (run + rest) == run + rest;
      RunDashed(run, rest);
    } else {
      assert (kept + (run + rest))[1..] == kept[1..] + (run + rest);
      DashedJoins(kept[1..], run, rest);
    }
  }

  lemma {:induction false} StripsLeft(before: string, rest: string)
    requires AllDashes(before) && (rest != "" ==> rest[0] != '-')
    ensures StripLeft(before + rest) == rest
  {
    if before == "" {
      assert before + rest == rest;
    } else {
      assert (before + rest)[1..] == before[1..] + rest;
      StripsLeft(before[1..], rest);
    }
  }

  lemma {:induction false} StripsRight(rest: string, after: string)
    requires AllDashes(after) && (rest != "" ==> rest[|rest| - 1] != '-')
    ensures StripRight(rest + after) == rest
  {
    if after == "" {
      assert rest + after == rest;
    } else {
      var n := |after| - 1;
      assert (rest + after)[..|rest + after| - 1] == rest + after[..n];
      StripsRight(rest, after[..n]);
    }
  }

  // And then it takes the dashes off both ends, and only those.
  lemma StripJoins(before: string, core: string, after: string)
    requires AllDashes(before) && AllDashes(after) && core != "" && core[0] != '-' && core[|core| - 1] != '-'
    ensures StripRight(StripLeft(before + (core + after))) == core
  {
    StripsLeft(before, core + after);
    StripsRight(core, after);
  }

  // A run id is usable exactly when it has a letter, digit or underscore; what sanitizing returns
  // needs no more sanitizing.
  lemma SanitizeIsIdempotent(runId: string)
    ensures SanitizeRunId(runId).Ok? <==> exists c :: c in runId && IsWord(c)
    ensures SanitizeRunId(runId).Ok? ==>
              Sanitized(SanitizeRunId(runId).value) &&
              SanitizeRunId(SanitizeRunId(runId).value) == SanitizeRunId(runId)
  {
    CleanedSpec(runId);
    var r := StripRight(StripLeft(Dashed(runId)));
    if r != "" {
      assert IsWord(r[0]) && r[0] in r;
      SanitizedStays(r);
    }
  }

  // Different ids may collapse to one: the separator that distinguished them is gone.
  lemma SanitizeIsNotInjective()
    ensures SanitizeRunId("a:b") == SanitizeRunId("a+b") == Ok("a-b")
  {
    var s, t := "a:b", "a+b";
    assert s[1..] == ":b" && t[1..] == "+b" && s[1..][1..] == "b" == t[1..][1..] && "b"[1..] == "";
    assert Dashed("b") == "b";
    assert Dashed(":b") == "-b" == Dashed("+b");
    assert Dashed(s) == "a-b" == Dashed(t);
  }

  // Which ids collapse, for every usable id: exactly those that are not already sanitized share their
  // result with an id that is. So on sanitized ids sanitizing is one to one, and outside them it is not.
  lemma CollapsesExactly(x: string)
    requires SanitizeRunId(x).Ok?
    ensures !Sanitized(x) <==> exists y :: Sanitized(y) && y != x && SanitizeRunId(y) == SanitizeRunId(x)
  {
    SanitizeIsIdempotent(x);
    if Sanitized(x) {
      SanitizedStays(x);
      forall y | Sanitized(y) && SanitizeRunId(y) == SanitizeRunId(x) ensures y == x {
        SanitizedStays(y);
      }
    } else {
      var y := SanitizeRunId(x).value;
      assert Sanitized(y) && y != x && SanitizeRunId(y) == SanitizeRunId(x);
    }
  }

  /******* Keys *******/

  function Zeros(n: nat): string {
    if n == 0 then "" else "0" + Zeros(n - 1)
  }

  lemma {:induction false} ZerosLength(n: nat)
    ensures |Zeros(n)| == n
  {
    if n > 0 {
      ZerosLength(n - 1);
    }
  }

  // {n:05d}
  function Pad5(n: nat): string {
    if |Digits(n)| < 5 then Zeros(5 - |Digits(n)|) + Digits(n) else Digits(n)
  }

  lemma {:induction false} ZerosReadAsNothing(n: nat, s: string)
    ensures ParseDigits(Zeros(n) + s) == ParseDigits(s)
    ensures forall c :: c in Zeros(n) ==> c == '0'
    decreases n + |s|
  {
    if s == "" {
      if n > 0 {
        ZerosReadAsNothing(n - 1, "");
        ZerosEnd(n);
        assert Zeros(n) + s == Zeros(n) && Zeros(n - 1) + "" == Zeros(n - 1);
      }
    } else {
      ZerosReadAsNothing(n, s[..|s| - 1]);
      var all := Zeros(n) + s;
      assert all[..|all| - 1] == Zeros(n) + s[..|s| - 1];
    }
  }

  lemma {:induction false} ZerosEnd(n: nat)
    requires n > 0
    ensures Zeros(n) == Zeros(n - 1) + "0"
  {
    if n > 1 {
      ZerosEnd(n - 1);
    }
  }

  // A part number can be read back from its padded text, so part names never clash; up to 99,999 the text
  // has five digits.
  lemma PadReadsBack(n: nat)
    ensures ParseDigits(Pad5(n)) == n
    ensures |Pad5(n)| >= 5 && (n < 100_000 ==> |Pad5(n)| == 5)
  {
    ZerosLength(if |Digits(n)| < 5 then 5 - |Digits(n)| else 0);
    assert PowerOfTen(5) == 100_000;
    if n < 100_000 {
      DigitsWidth(n, 5);
    }
    DigitsReadBack(n);
    if |Digits(n)| < 5 {
      ZerosReadAsNothing(5 - |Digits(n)|, Digits(n));
    }
  }

  function KeyHead(prefix: string, dataset: string, date: string): string {
    prefix + "/" + dataset + "/dt=" + date + "/"
  }

  function PartName(n: nat): string {
    "part-" + Pad5(n) + ".jsonl"
  }

  // {prefix}/{dataset}/dt={date}/run={id}/part-{n}.jsonl
  function PartKey(head: string, id: string, n: nat): string {
    head + "run=" + id + "/" + PartName(n)
  }

  function UpToSlash(s: string): string {
    if s == "" || s[0] == '/' then "" else [s[0]] + UpToSlash(s[1..])
  }

  // The first match of run=([^/]+).
  function ReadRunId(key: string): Option<string> {
    if |key| < 5 then None
    else if key[..4] == "run=" && key[4] != '/' then Some(UpToSlash(key[4..]))
    else ReadRunId(key[1..])
  }

  // The pattern matches at place i and takes id, which ends at the next slash or with the key.
  ghost predicate MatchesAt(key: string, i: nat, id: string) {
    && i + 4 <= |key| && key[i..i + 4] == "run=" && id != "" && '/' !in id
    && exists rest :: key[i + 4..] == id + rest && (rest == "" || rest[0] == '/')
  }

  lemma {:induction false} UpToSlashSpec(s: string)
    ensures '/' !in UpToSlash(s) && exists rest :: s == UpToSlash(s) + rest && (rest == "" || rest[0] == '/')
  {
    if s == "" || s[0] == '/' {
      assert s == UpToSlash(s) + s;
    } else {
      UpToSlashSpec(s[1..]);
      var rest :| s[1..] == UpToSlash(s[1..]) + rest && (rest == "" || rest[0] == '/');
      assert s == UpToSlash(s) + rest;
    }
  }

  lemma MatchesLater(key: string, i: nat, id: string)
    requires key != ""
    ensures MatchesAt(key, i + 1, id) <==> MatchesAt(key[1..], i, id)
  {
    if i + 5 <= |key| {
      assert key[1..][i..i + 4] == key[i + 1..i + 5] && key[1..][i + 4..] == key[i + 5..];
    }
  }

  lemma MatchesHere(key: string, id: string)
    ensures MatchesAt(key, 0, id) ==> |key| >= 5 && key[..4] == "run=" && key[4] != '/'
    ensures |key| >= 5 && key[..4] == "run=" && key[4] != '/' ==> MatchesAt(key, 0, UpToSlash(key[4..]))
  {
    if MatchesAt(key, 0, id) {
      var rest :| key[4..] == id + rest;
      assert key[4] == id[0] && id[0] in id;
    }
    if |key| >= 5 {
      UpToSlashSpec(key[4..]);
    }
  }

  // It reads what the first match in the key takes, and nothing exactly where there is no match.
  lemma {:induction false} ReadsFirstMatch(key: string)
    ensures ReadRunId(key).Some? ==>
              exists i: nat :: MatchesAt(key, i, ReadRunId(key).value) && forall j: nat, id :: j < i ==> !MatchesAt(key, j, id)
    ensures ReadRunId(key).None? ==> forall j: nat, id :: !MatchesAt(key, j, id)
  {
    forall id ensures MatchesAt(key, 0, id) ==> |key| >= 5 && key[..4] == "run=" && key[4] != '/' {
      MatchesHere(key, id);
    }
    MatchesHere(key, "");
    if |key| >= 5 && !(key[..4] == "run=" && key[4] != '/') {
      ReadsFirstMatch(key[1..]);
      forall i: nat, id ensures MatchesAt(key, i + 1, id) <==> MatchesAt(key[1..], i, id) {
        MatchesLater(key, i, id);
      }
      forall j: nat, id | MatchesAt(key, j, id) ensures j > 0 && MatchesAt(key[1..], j - 1, id) {
        if j > 0 {
          MatchesLater(key, j - 1, id);
        }
      }
      if ReadRunId(key).Some? {
        var i: nat :| MatchesAt(key[1..], i, ReadRunId(key).value) && forall j: nat, id :: j < i ==> !MatchesAt(key[1..], j, id);
        assert MatchesAt(key, i + 1, ReadRunId(key).value);
      }
    } else if |key| < 5 {
      forall j: nat, id ensures !MatchesAt(key, j, id) {
        TooShort(key, j, id);
      }
    } else {
      assert MatchesAt(key, 0, ReadRunId(key).value);
    }
  }

  lemma TooShort(key: string, j: nat, id: string)
    ensures MatchesAt(key, j, id) ==> |key| >= 5
  {
    if MatchesAt(key, j, id) {
      var rest :| key[j + 4..] == id + rest;
      assert |key| - (j + 4) == |id| + |rest|;
    }
  }

  lemma {:induction false} SlashEndsIt(id: string, rest: string)
    requires '/' !in id
    ensures UpToSlash(id + "/" + rest) == id
  {
    var s := id + "/" + rest;
    if id != "" {
      assert s[1..] == id[1..] + "/" + rest;
      SlashEndsIt(id[1..], rest);
    }
  }

  // A head that ends with a slash: no match of the pattern can begin in it and reach beyond it, so
  // what a key reads back is decided by the head alone, if the head matches, and otherwise by the rest.
  lemma {:induction false} HeadDecides(head: string, rest: string)
    requires head != "" ==> head[|head| - 1] == '/'
    requires |rest| >= 5
    ensures ReadRunId(head + rest) == if ReadRunId(head).Some? then ReadRunId(head) else ReadRunId(rest)
  {
    if head == "" {
      assert head + rest == rest;
    } else {
      var key := head + rest;
      assert key[1..] == head[1..] + rest;
      if |head| >= 5 {
        assert key[..4] == head[..4];
        if head[..4] == "run=" && head[4] != '/' {
          assert key[4..] == head[4..] + rest;
          SlashInside(head[4..], rest);
        }
      } else {
        var at := |head| - 1;
        assert key[at] == '/';
        assert at < 4 ==> key[..4][at] == '/';
      }
      HeadDecides(head[1..], rest);
    }
  }

  lemma {:induction false} SlashInside(s: string, rest: string)
    requires '/' in s
    ensures UpToSlash(s + rest) == UpToSlash(s)
  {
    assert (s + rest)[1..] == s[1..] + rest;
    if s[0] != '/' {
      assert s == [s[0]] + s[1..];
      SlashInside(s[1..], rest);
    }
  }

  // The sanitized run id reads back from a key exactly when the head, that is the configured prefix,
  // the dataset and the date, does not itself match the pattern or happens to match with this id.
  lemma RunIdReadsBack(prefix: string, dataset: string, date: string, id: string, n: nat)
    requires Sanitized(id)
    ensures var head := KeyHead(prefix, dataset, date);
            ReadRunId(PartKey(head, id, n)) == Some(id) <==> ReadRunId(head) in {None, Some(id)}
  {
    var head := KeyHead(prefix, dataset, date);
    var rest := "run=" + id + "/" + PartName(n);
    assert PartKey(head, id, n) == head + rest;
    HeadDecides(head, rest);
    assert '/' !in id;
    assert rest[..4] == "run=" && rest[4..] == id + "/" + PartName(n) && rest[4] == id[0];
    SlashEndsIt(id, PartName(n));
  }

  // Without an equals sign in prefix, dataset or date the head never matches.
  lemma PlainHeadReadsNothing(prefix: string, dataset: string, date: string)
    requires '=' !in prefix && '=' !in dataset && '=' !in date
    ensures ReadRunId(KeyHead(prefix, dataset, date)).None?
  {
    var front := prefix + "/" + dataset + "/dt=";
    var head := KeyHead(prefix, dataset, date);
    assert head == front + date + "/";
    assert front == prefix + "/" + dataset + "/dt" + "=";
    assert forall i :: |front| <= i < |head| - 1 ==> head[i] == date[i - |front|];
    assert forall i :: 0 <= i < |front| - 1 ==> head[i] == (prefix + "/" + dataset + "/dt")[i];
    forall i | 3 <= i < |head| && head[i] == '=' ensures head[i - 1] != 'n' {
      assert i == |front| - 1 && head[i - 1] == 't';
    }
    NoMatch(head);
  }

  lemma {:induction false} NoMatch(s: string)
    requires forall i :: 3 <= i < |s| && s[i] == '=' ==> s[i - 1] != 'n'
    ensures ReadRunId(s).None?
  {
    if |s| >= 5 {
      assert s[..4][3] == s[3] && s[..4][2] == s[2];
      assert forall i :: 0 <= i < |s[1..]| ==> s[1..][i] == s[i + 1];
      NoMatch(s[1..]);
    }
  }

  // Whatever the head, keys of different sanitized ids never meet, and neither do two parts of one run.
  lemma KeysIdentifyRunAndPart(head: string, id: string, n: nat, id': string, m: nat)
    requires Sanitized(id) && Sanitized(id')
    ensures PartKey(head, id, n) == PartKey(head, id', m) <==> id == id' && n == m
  {
    if PartKey(head, id, n) == PartKey(head, id', m) {
      var front := head + "run=";
      var k, l := PartKey(head, id, n), PartKey(head, id', m);
      assert k[|front|..] == id + "/" + PartName(n) && l[|front|..] == id' + "/" + PartName(m);
      SlashEndsIt(id, PartName(n));
      SlashEndsIt(id', PartName(m));
      SameNameSamePart(head + "run=" + id + "/", n, m);
    }
  }

  lemma SlashFirst(a: string, x: string, b: string, y: string)
    requires '/' !in a && '/' !in b && a + "/" + x == b + "/" + y
    ensures a == b && x == y
  {
    SlashEndsIt(a, x);
    SlashEndsIt(b, y);
    var s := a + "/" + x;
    assert s[|a| + 1..] == x && (b + "/" + y)[|b| + 1..] == y;
  }

  lemma HeadGroups(prefix: string, dataset: string, date: string, tail: string)
    ensures KeyHead(prefix, dataset, date) + tail == (prefix + "/") + (dataset + "/" + ("dt=" + (date + "/" + tail)))
  {
  }

  // Under one prefix two part keys are equal exactly when dataset, date, run id and part number all are, for
  // datasets and dates free of slashes.
  lemma KeysIdentifyEverything(prefix: string, dataset: string, date: string, id: string, n: nat,
                               dataset': string, date': string, id': string, m: nat)
    requires '/' !in dataset && '/' !in dataset' && '/' !in date && '/' !in date' && Sanitized(id) && Sanitized(id')
    ensures PartKey(KeyHead(prefix, dataset, date), id, n) == PartKey(KeyHead(prefix, dataset', date'), id', m) <==>
            dataset == dataset' && date == date' && id == id' && n == m
  {
    var x, y := "run=" + id + "/" + PartName(n), "run=" + id' + "/" + PartName(m);
    var head, head' := KeyHead(prefix, dataset, date), KeyHead(prefix, dataset', date');
    assert PartKey(head, id, n) == head + x && PartKey(head', id', m) == head' + y;
    if PartKey(head, id, n) == PartKey(head', id', m) {
      HeadGroups(prefix, dataset, date, x);
      HeadGroups(prefix, dataset', date', y);
      var u, v := "dt=" + (date + "/" + x), "dt=" + (date' + "/" + y);
      DropFront(prefix + "/", dataset + "/" + u, dataset' + "/" + v);
      SlashFirst(dataset, u, dataset', v);
      DropFront("dt=", date + "/" + x, date' + "/" + y);
      SlashFirst(date, x, date', y);
      KeysIdentifyRunAndPart(head, id, n, id', m);
    }
  }

  lemma DropFront(a: string, x: string, y: string)
    requires a + x == a + y
    ensures x == y
  {
    assert (a + x)[|a|..] == x && (a + y)[|a|..] == y;
  }

  // For raw run ids: two usable ones write the same keys exactly when they sanitize to the same id,
  // which for ids that are already sanitized means that they are equal.
  lemma RawIdsShareKeys(head: string, x: string, y: string, n: nat)
    requires SanitizeRunId(x).Ok? && SanitizeRunId(y).Ok?
    ensures PartKey(head, SanitizeRunId(x).value, n) == PartKey(head, SanitizeRunId(y).value, n) <==>
            SanitizeRunId(x) == SanitizeRunId(y)
    ensures Sanitized(x) && Sanitized(y) ==>
              (PartKey(head, SanitizeRunId(x).value, n) == PartKey(head, SanitizeRunId(y).value, n) <==> x == y)
  {
    SanitizeIsIdempotent(x);
    SanitizeIsIdempotent(y);
    KeysIdentifyRunAndPart(head, SanitizeRunId(x).value, n, SanitizeRunId(y).value, n);
    if Sanitized(x) && Sanitized(y) {
      SanitizedStays(x);
      SanitizedStays(y);
    }
  }

  lemma SameNameSamePart(dir: string, m: nat, n: nat)
    requires dir + PartName(m) == dir + PartName(n)
    ensures m == n
  {
    var k, l := dir + PartName(m), dir + PartName(n);
    assert k[|dir|..] == PartName(m) && l[|dir|..] == PartName(n);
    assert PartName(m)[5..|PartName(m)| - 6] == Pad5(m);
    assert PartName(n)[5..|PartName(n)| - 6] == Pad5(n);
    PadReadsBack(m);
    PadReadsBack(n);
  }

  /******* Writing a run *******/

  datatype StagedSnapshot = StagedSnapshot(dataset: string, runId: string, parts: seq<string>, rowCount: nat)

  function KeysOf(head: string, id: string, n: nat): seq<string> {
    seq(n, i requires 0 <= i < n => PartKey(head, id, i + 1))
  }

  // What a run writes: its chunks, or one empty part for an empty extract.
  function PartsToWrite(records: seq<string>, size: nat): seq<Part>
    requires size >= 1
  {
    if records == [] then [Part("", 0)] else Chunks(records, size)
  }

  lemma KeyIsFresh(head: string, id: string, n: nat)
    ensures KeysOf(head, id, n + 1) == KeysOf(head, id, n) + [PartKey(head, id, n + 1)]
    ensures PartKey(head, id, n + 1) !in KeysOf(head, id, n)
  {
    if PartKey(head, id, n + 1) in KeysOf(head, id, n) {
      var i :| 0 <= i < n && KeysOf(head, id, n)[i] == PartKey(head, id, n + 1);
      SameNameSamePart(head + "run=" + id + "/", i + 1, n + 1);
    }
  }

  // The keys of one run are distinct.
  lemma {:induction false} KeysAreDistinct(head: string, id: string, n: nat)
    ensures forall i, j :: 0 <= i < j < n ==> KeysOf(head, id, n)[i] != KeysOf(head, id, n)[j]
  {
    if n > 0 {
      KeysAreDistinct(head, id, n - 1);
      KeyIsFresh(head, id, n - 1);
      assert forall i :: 0 <= i < n - 1 ==> KeysOf(head, id, n)[i] == KeysOf(head, id, n - 1)[i];
    }
  }

  // The keys hold the parts' text and every other key is as before.
  ghost predicate Wrote(before: map<string, string>, after: map<string, string>, keys: seq<string>, parts: seq<Part>) {
    && |keys| == |parts|
    && (forall i :: 0 <= i < |keys| ==> keys[i] in after && after[keys[i]] == parts[i].body)
    && (forall k :: k !in keys ==> (k in after <==> k in before) && (k in after ==> after[k] == before[k]))
  }

  lemma WroteNext(before: map<string, string>, after: map<string, string>, keys: seq<string>, parts: seq<Part>,
                  key: string, part: Part)
    requires Wrote(before, after, keys, parts) && key !in keys
    ensures Wrote(before, after[key := part.body], keys + [key], parts + [part])
  {
  }

  lemma {:induction false} RowsInAppend(parts: seq<Part>, part: Part)
    ensures RowsIn(parts + [part]) == RowsIn(parts) + part.rows
  {
    if parts != [] {
      assert (parts + [part])[1..] == parts[1..] + [part];
      RowsInAppend(parts[1..], part);
    }
  }

  lemma PutOne(before: map<string, string>, now: map<string, string>, keys: seq<string>, parts: seq<Part>, i: nat, key: string)
    requires i < |parts| && Wrote(before, now, keys, parts[..i]) && key !in keys
    ensures Wrote(before, now[key := parts[i].body], keys + [key], parts[..i + 1])
    ensures RowsIn(parts[..i + 1]) == RowsIn(parts[..i]) + parts[i].rows
  {
    WroteNext(before, now, keys, parts[..i], key, parts[i]);
    RowsInAppend(parts[..i], parts[i]);
    assert parts[..i + 1] == parts[..i] + [parts[i]];
  }

  class ObjectStore {
    var objects: map<string, string>

    constructor ()
      ensures objects == map[]
    {
      objects := map[];
    }

    // One object per part, in order, under one run's prefix.
    method PutParts(head: string, id: string, parts: seq<Part>) returns (written: seq<string>, total: nat)
      modifies this
      ensures written == KeysOf(head, id, |parts|) && total == RowsIn(parts)
      ensures Wrote(old(objects), objects, written, parts)
    {
      ghost var before := objects;
      written, total := [], 0;
      for i := 0 to |parts|
        invariant written == KeysOf(head, id, i)
        invariant total == RowsIn(parts[..i])
        invariant Wrote(before, objects, written, parts[..i])
      {
        var key := PartKey(head, id, |written| + 1);
        KeyIsFresh(head, id, i);
        PutOne(before, objects, written, parts, i, key);
        objects := objects[key := parts[i].body];
        written := written + [key];
        total := total + parts[i].rows;
      }
      assert parts[..|parts|] == parts;
    }

    // Each part goes to its own key under the run's prefix and nothing else is touched; an unusable
    // run id or chunk size writes nothing.
    method StageDataset(prefix: string, dataset: string, date: string, runId: string, records: seq<string>, chunkRows: int)
      returns (r: Result<StagedSnapshot, string>)
      modifies this
      ensures r.Err? <==> SanitizeRunId(runId).Err? || chunkRows < 1
      ensures r.Err? ==> objects == old(objects)
      ensures r.Ok? ==>
                var id, parts := SanitizeRunId(runId).value, PartsToWrite(records, chunkRows);
                r.value == StagedSnapshot(dataset, id, KeysOf(KeyHead(prefix, dataset, date), id, |parts|), |records|) &&
                Wrote(old(objects), objects, r.value.parts, parts)
    {
      var sanitized := SanitizeRunId(runId);
      if sanitized.Err? {
        return Err(sanitized.error);
      }
      var id, head := sanitized.value, KeyHead(prefix, dataset, date);
      var chunks := IterJsonlChunks(records, chunkRows);
      if chunks.Err? {
        return Err(chunks.error);
      }
      ChunksConserve(records, chunkRows);
      ChunkSizes(records, chunkRows);
      var written, total := PutParts(head, id, chunks.value);
      if written == [] {
        var key := PartKey(head, id, 1);
        objects := objects[key := ""];
        written := [key];
        assert KeysOf(head, id, 1) == [key];
      }
      return Ok(StagedSnapshot(dataset, id, written, total));
    }
  }
}
