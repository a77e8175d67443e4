/** The port-spec parser: `"25565-25570, 25578"` and back to a list of ports. */
module PortSpec {
  import opened Common
  import opened Strings
  import opened Sorting

  const MIN_PORT: nat := 1
  const MAX_PORT: nat := 65535

  datatype PortError =
    | EmptySpec
    | EmptySegment
    | NotANumber(text: string)
    | OutOfRange(port: nat)
    | NotARange(text: string)
    | Reversed(text: string)
    | Duplicate(port: nat)

  // ----- numerals -----

  lemma NumeralIsPlain(n: nat)
    ensures var s := Numeral(n);
            IsTrimmed(s) && '-' !in s && ',' !in s && forall k :: 0 <= k < |s| ==> !IsSpace(s[k])
  {
  }

  // ----- parsing -----

  function ParsePort(raw: string): (r: Result<nat, PortError>)
    ensures r.Ok? ==> MIN_PORT <= r.value <= MAX_PORT
  {
    var trimmed := Trim(raw);
    if trimmed == "" || !AllDigits(trimmed) then Err(NotANumber(raw))
    else
      var port := Decimal(trimmed);
      if port < MIN_PORT || port > MAX_PORT then Err(OutOfRange(port)) else Ok(port)
  }

  /** A run of ports, both ends included. */
  datatype Range = Range(lo: nat, hi: nat)

  predicate InRange(p: nat, r: Range) {
    r.lo <= p <= r.hi
  }

  function ParseSegment(segment: string): (r: Result<Range, PortError>)
    ensures r.Ok? ==> MIN_PORT <= r.value.lo <= r.value.hi <= MAX_PORT
  {
    var trimmed := Trim(segment);
    if trimmed == "" then Err(EmptySegment)
    else
      var dash := Find(trimmed, '-');
      if dash == |trimmed| then
        var port := ParsePort(trimmed);
        if port.Err? then Err(port.error) else Ok(Range(port.value, port.value))
      else
        var endRaw := trimmed[dash + 1..];
        if '-' in endRaw then Err(NotARange(trimmed))
        else
          var start := ParsePort(trimmed[..dash]);
          if start.Err? then Err(start.error)
          else
            var end := ParsePort(endRaw);
            if end.Err? then Err(end.error)
            else if end.value < start.value then Err(Reversed(trimmed))
            else Ok(Range(start.value, end.value))
  }

  // ----- what a segment means -----

  /** The text is the number of a port, apart from white space around it. */
  predicate IsPort(text: string, n: nat) {
    Trim(text) != "" && AllDigits(Trim(text)) && Decimal(Trim(text)) == n && 1 <= n <= 65535
  }

  lemma PortIsRead(text: string, n: nat)
    ensures ParsePort(text) == Ok(n) <==> IsPort(text, n)
    ensures ParsePort(text) == Err(NotANumber(text)) <==> Trim(text) == "" || !AllDigits(Trim(text))
    ensures ParsePort(text) == Err(OutOfRange(n)) <==>
              Trim(text) != "" && AllDigits(Trim(text)) && Decimal(Trim(text)) == n && !(1 <= n <= 65535)
  {
    hide Trim;
  }

  lemma TrimAgain(text: string)
    ensures Trim(Trim(text)) == Trim(text)
  {
    TrimIsTrimmed(text);
    TrimOfTrimmed(Trim(text));
  }

  /** A segment without a dash is one port. */
  lemma OnePortMeans(text: string, lo: nat, hi: nat)
    requires '-' !in Trim(text) && Trim(text) != ""
    ensures ParseSegment(text) == Ok(Range(lo, hi)) <==> IsPort(text, lo) && lo == hi
  {
    TrimAgain(text);
    PortIsRead(Trim(text), lo);
    hide Trim, ParsePort;
  }

  /**
   One with a dash is all ports from the first to the last, and refused when these are
   turned around or a second dash follows.
   */
  lemma RangeMeans(text: string, a: string, b: string, lo: nat, hi: nat)
    requires Trim(text) == a + ['-'] + b && '-' !in a
    ensures ParseSegment(text) == Ok(Range(lo, hi)) <==> '-' !in b && IsPort(a, lo) && IsPort(b, hi) && lo <= hi
    ensures ParseSegment(text) == Err(Reversed(Trim(text))) <==>
              '-' !in b && ParsePort(a).Ok? && ParsePort(b).Ok? && ParsePort(a).value > ParsePort(b).value
    ensures ParseSegment(text) == Err(NotARange(Trim(text))) <==> '-' in b
  {
    var t := Trim(text);
    assert t[..|a|] == a && t[|a|] == '-' && t[|a| + 1..] == b;
    FindIs(t, '-', |a|);
    PortIsRead(a, lo);
    PortIsRead(b, hi);
    OnlyPortErrors(a);
    OnlyPortErrors(b);
    DashedSegment(text, a, b);
    hide Trim, ParseSegment, ParsePort, IsPort, Find;
  }

  lemma DashedSegment(text: string, a: string, b: string)
    requires Trim(text) == a + ['-'] + b && Find(Trim(text), '-') == |a|
    ensures ParseSegment(text) ==
            if '-' in b then Err(NotARange(Trim(text)))
            else if ParsePort(a).Err? then Err(ParsePort(a).error)
            else if ParsePort(b).Err? then Err(ParsePort(b).error)
            else if ParsePort(b).value < ParsePort(a).value then Err(Reversed(Trim(text)))
            else Ok(Range(ParsePort(a).value, ParsePort(b).value))
  {
    hide Trim, ParsePort, Find;
    var t := Trim(text);
    assert t[..|a|] == a && t[|a|] == '-' && t[|a| + 1..] == b;
  }

  lemma OnlyPortErrors(text: string)
    ensures ParsePort(text).Err? ==> ParsePort(text).error.NotANumber? || ParsePort(text).error.OutOfRange?
  {
    hide Trim;
  }

  /** And nothing but white space is an error of its own. */
  lemma BlankSegmentIsRefused(text: string)
    ensures ParseSegment(text) == Err(EmptySegment) <==> Trim(text) == ""
  {
    hide Trim;
    OnlyPortErrors(Trim(text));
    if '-' in Trim(text) {
      OnlyPortErrors(Trim(text)[..Find(Trim(text), '-')]);
      OnlyPortErrors(Trim(text)[Find(Trim(text), '-') + 1..]);
    }
    hide ParsePort;
  }

  function Segments(input: string): seq<string> {
    Split(Trim(input), ',')
  }

  /** Port `p` belongs to one of the segments, each of which parses. */
  ghost predicate Covers(segments: seq<string>, p: nat) {
    exists k :: 0 <= k < |segments| && SegmentHas(segments[k], p)
  }

  ghost predicate SegmentHas(segment: string, p: nat) {
    ParseSegment(segment).Ok? && InRange(p, ParseSegment(segment).value)
  }

  /** Every segment parses and none shares a port with an earlier one. */
  ghost predicate Acceptable(segments: seq<string>) {
    && (forall k :: 0 <= k < |segments| ==> ParseSegment(segments[k]).Ok?)
    && (forall j, k, p :: 0 <= j < k < |segments| ==> !(SegmentHas(segments[j], p) && SegmentHas(segments[k], p)))
  }

  /** Segment `k` is the first that cannot be added, and `e` says why. */
  ghost predicate FailsAt(segments: seq<string>, k: nat, e: PortError) {
    && k < |segments| && Acceptable(segments[..k])
    && (ParseSegment(segments[k]) == Err(e)
        || (e.Duplicate? && SegmentHas(segments[k], e.port) && Covers(segments[..k], e.port)
            && forall p: nat :: p < e.port && SegmentHas(segments[k], p) ==> !Covers(segments[..k], p)))
  }

  predicate Increasing(s: seq<nat>) {
    forall i, j :: 0 <= i < j < |s| ==> s[i] < s[j]
  }

  /** The list being built: no port twice, and `seen` its set. */
  ghost predicate Distinct(ports: seq<nat>) {
    forall i, j :: 0 <= i < j < |ports| ==> ports[i] != ports[j]
  }

  method AddPort(ports: seq<nat>, seen: set<nat>, port: nat) returns (r: Result<(seq<nat>, set<nat>), PortError>)
    ensures port in seen ==> r == Err(Duplicate(port))
    ensures port !in seen ==> r == Ok((ports + [port], seen + {port}))
  {
    if port in seen {
      return Err(Duplicate(port));
    }
    r := Ok((ports + [port], seen + {port}));
  }

  /** Adds a segment's ports one at a time, up to the first that was there before. */
  method AddRange(ports: seq<nat>, seen: set<nat>, range: Range) returns (r: Result<(seq<nat>, set<nat>), PortError>)
    requires range.lo <= range.hi
    requires Distinct(ports) && forall p: nat :: p in seen <==> p in ports
    ensures r.Ok? <==> forall p: nat :: InRange(p, range) ==> p !in seen
    ensures r.Ok? ==> Distinct(r.value.0) && forall p: nat :: p in r.value.0 <==> p in ports || InRange(p, range)
    ensures r.Ok? ==> forall p :: p in r.value.1 <==> p in r.value.0
    ensures r.Err? ==>
              && r.error.Duplicate? && InRange(r.error.port, range) && r.error.port in seen
              && forall p: nat :: p < r.error.port && InRange(p, range) ==> p !in seen
  {
    var list, known := ports, seen;
    var port := range.lo;
    while port <= range.hi
      invariant range.lo <= port <= range.hi + 1
      invariant Distinct(list) && forall p: nat :: p in list <==> p in ports || (range.lo <= p < port)
      invariant forall p :: p in known <==> p in list
      invariant forall p: nat :: range.lo <= p < port ==> p !in seen
    {
      var added := AddPort(list, known, port);
      if added.Err? {
        return Err(added.error);
      }
      list, known := added.value.0, added.value.1;
      port := port + 1;
    }
    r := Ok((list, known));
  }

  function Id(p: nat): int {
    p
  }

  /**
   The spec is accepted exactly when its segments parse and are disjoint; the
   result then lists exactly their ports, in increasing order. Otherwise the
   error is that of the first segment that cannot be added.
   */
  method ParsePortSpec(input: string) returns (r: Result<seq<nat>, PortError>)
    ensures Trim(input) == "" ==> r == Err(EmptySpec)
    ensures Trim(input) != "" ==> (r.Ok? <==> Acceptable(Segments(input)))
    ensures r.Ok? ==> Increasing(r.value) && forall p: nat :: p in r.value <==> Covers(Segments(input), p)
    ensures r.Err? && Trim(input) != "" ==> exists k: nat :: FailsAt(Segments(input), k, r.error)
  {
    hide ParseSegment, Split, Trim, SortBy;
    var spec := Trim(input);
    if spec == "" {
      return Err(EmptySpec);
    }
    var segments := Split(spec, ',');
    var ports: seq<nat>, seen: set<nat> := [], {};
    var i := 0;
    while i < |segments|
      invariant 0 <= i <= |segments|
      invariant Acceptable(segments[..i])
      invariant Distinct(ports) && forall p: nat :: p in ports <==> Covers(segments[..i], p)
      invariant forall p :: p in seen <==> p in ports
    {
      var range := ParseSegment(segments[i]);
      if range.Err? {
        RefusedSegment(segments, i);
        assert FailsAt(segments, i, range.error);
        return Err(range.error);
      }
      var added := AddRange(ports, seen, range.value);
      if added.Err? {
        RefusedSegment(segments, i);
        assert FailsAt(segments, i, added.error);
        return Err(added.error);
      }
      OneMoreSegment(segments, i);
      ports, seen := added.value.0, added.value.1;
      i := i + 1;
    }
    assert segments[..i] == segments;
    SortByIsSorted(ports, Id);
    SortedPorts(ports, SortBy(ports, Id));
    r := Ok(SortBy(ports, Id));
  }

  lemma OneMoreSegment(segments: seq<string>, i: nat)
    requires i < |segments| && Acceptable(segments[..i]) && ParseSegment(segments[i]).Ok?
    requires forall p :: SegmentHas(segments[i], p) ==> !Covers(segments[..i], p)
    ensures Acceptable(segments[..i + 1])
    ensures forall p :: Covers(segments[..i + 1], p) <==> Covers(segments[..i], p) || SegmentHas(segments[i], p)
  {
    hide ParseSegment, SegmentHas;
    var less, more := segments[..i], segments[..i + 1];
    assert more == less + [segments[i]];
    forall j, k, p | 0 <= j < k < |more|
      ensures !(SegmentHas(more[j], p) && SegmentHas(more[k], p))
    {
      assert more[j] == less[j];
      if k == i {
        assert SegmentHas(more[j], p) ==> Covers(less, p);
      } else {
        assert more[k] == less[k];
      }
    }
    forall p
      ensures Covers(more, p) <==> Covers(less, p) || SegmentHas(segments[i], p)
    {
      assert forall k :: 0 <= k < i ==> more[k] == less[k];
      assert more[i] == segments[i];
    }
  }

  /** When segment `i` cannot be added, the whole list is not acceptable. */
  lemma RefusedSegment(segments: seq<string>, i: nat)
    requires i < |segments|
    ensures ParseSegment(segments[i]).Err? ==> !Acceptable(segments)
    ensures (exists p :: SegmentHas(segments[i], p) && Covers(segments[..i], p)) ==> !Acceptable(segments)
  {
    hide ParseSegment, SegmentHas;
    if p :| SegmentHas(segments[i], p) && Covers(segments[..i], p) {
      var j :| 0 <= j < i && SegmentHas(segments[..i][j], p);
      assert segments[j] == segments[..i][j];
    }
  }

  lemma SameElements(a: seq<nat>, b: seq<nat>)
    requires multiset(a) == multiset(b)
    ensures forall p :: p in a <==> p in b
  {
    forall p
      ensures p in a <==> p in b
    {
      assert p in multiset(a) <==> p in multiset(b);
    }
  }

  /** A sorted list of distinct ports is increasing. */
  lemma SortedPorts(ports: seq<nat>, sorted: seq<nat>)
    requires Distinct(ports) && SortedBy(sorted, Id) && multiset(sorted) == multiset(ports)
    ensures Increasing(sorted) && forall p :: p in sorted <==> p in ports
  {
    SameElements(sorted, ports);
    forall i, j | 0 <= i < j < |sorted|
      ensures sorted[i] < sorted[j]
    {
      assert Id(sorted[i]) <= Id(sorted[j]);
      if sorted[i] == sorted[j] {
        TwiceInMultiset(sorted, i, j);
        OnceInMultiset(ports, sorted[i]);
      }
    }
  }

  lemma {:induction false} OnceInMultiset(s: seq<nat>, p: nat)
    requires Distinct(s)
    ensures multiset(s)[p] <= 1
  {
    if s != [] {
      OnceInMultiset(s[1..], p);
      assert s == [s[0]] + s[1..];
      assert s[0] !in s[1..];
    }
  }

  /** An increasing list is determined by its elements. */
  lemma {:induction false} IncreasingIsUnique(a: seq<nat>, b: seq<nat>)
    requires Increasing(a) && Increasing(b) && forall p :: p in a <==> p in b
    ensures a == b
  {
    if a == [] {
      assert forall k :: 0 <= k < |b| ==> b[k] in b;
    } else {
      assert a[0] in b;
      assert b[0] in a;
      assert a[0] == b[0];
      forall p
        ensures p in a[1..] <==> p in b[1..]
      {
        assert p in a <==> p == a[0] || p in a[1..];
        assert p in b <==> p == b[0] || p in b[1..];
      }
      IncreasingIsUnique(a[1..], b[1..]);
    }
  }

  // ----- printing -----

  function RunText(r: Range): string {
    if r.lo == r.hi then Numeral(r.lo) else Numeral(r.lo) + "-" + Numeral(r.hi)
  }

  function RunTexts(runs: seq<Range>): (texts: seq<string>)
    ensures |texts| == |runs|
    ensures forall k :: 0 <= k < |runs| ==> texts[k] == RunText(runs[k])
  {
    seq(|runs|, k requires 0 <= k < |runs| => RunText(runs[k]))
  }

  /** The runs of `rest`, with the run from `start` to `prev` still open. */
  function RunsFrom(start: nat, prev: nat, rest: seq<nat>): seq<Range>
    decreases |rest|
  {
    if rest == [] then [Range(start, prev)]
    else if rest[0] == prev + 1 then RunsFrom(start, rest[0], rest[1..])
    else [Range(start, prev)] + RunsFrom(rest[0], rest[0], rest[1..])
  }

  function Runs(sorted: seq<nat>): seq<Range> {
    if sorted == [] then [] else RunsFrom(sorted[0], sorted[0], sorted[1..])
  }

  function Printed(ports: seq<nat>): string {
    Join(RunTexts(Runs(SortBy(ports, Id))), ", ")
  }

  lemma OneMoreRun(runs: seq<Range>, r: Range)
    ensures RunTexts(runs + [r]) == RunTexts(runs) + [RunText(r)]
  {
    hide RunText;
  }

  lemma Regrouped(runs: seq<Range>, r: Range, rest: seq<Range>)
    ensures runs + ([r] + rest) == (runs + [r]) + rest
  {
  }

  lemma RunsStep(start: nat, prev: nat, sorted: seq<nat>, i: nat)
    requires i <= |sorted|
    ensures RunsFrom(start, prev, sorted[i..]) ==
      if i == |sorted| then [Range(start, prev)]
      else if sorted[i] == prev + 1 then RunsFrom(start, sorted[i], sorted[i + 1..])
      else [Range(start, prev)] + RunsFrom(sorted[i], sorted[i], sorted[i + 1..])
  {
    if i < |sorted| {
      assert sorted[i..][1..] == sorted[i + 1..];
    }
  }

  lemma PrintsNothing()
    ensures Printed([]) == ""
  {
    assert RunTexts([]) == [];
  }

  method FormatPortsCompact(ports: seq<nat>) returns (text: string)
    ensures text == Printed(ports)
  {
    if |ports| == 0 {
      PrintsNothing();
      return "";
    }
    SortByIsSorted(ports, Id);
    hide SortBy, Numeral, Join, RunTexts, RunsFrom;
    var sorted := SortBy(ports, Id);
    var parts: seq<string> := [];
    var runStart, prev := sorted[0], sorted[0];
    ghost var runs: seq<Range> := [];
    var i := 1;
    while i < |sorted|
      invariant 1 <= i <= |sorted|
      invariant parts == RunTexts(runs)
      invariant runs + RunsFrom(runStart, prev, sorted[i..]) == Runs(sorted)
    {
      var port := sorted[i];
      RunsStep(runStart, prev, sorted, i);
      if port == prev + 1 {
        prev := port;
      } else {
        OneMoreRun(runs, Range(runStart, prev));
        Regrouped(runs, Range(runStart, prev), RunsFrom(port, port, sorted[i + 1..]));
        parts := parts + [if runStart == prev then Numeral(runStart) else Numeral(runStart) + "-" + Numeral(prev)];
        runs := runs + [Range(runStart, prev)];
        runStart, prev := port, port;
      }
      i := i + 1;
    }
    RunsStep(runStart, prev, sorted, i);
    OneMoreRun(runs, Range(runStart, prev));
    parts := parts + [if runStart == prev then Numeral(runStart) else Numeral(runStart) + "-" + Numeral(prev)];
    text := Join(parts, ", ");
  }

  predicate InRuns(runs: seq<Range>, p: nat) {
    exists k :: 0 <= k < |runs| && InRange(p, runs[k])
  }

  lemma InRunsCons(r: Range, runs: seq<Range>, p: nat)
    ensures InRuns([r] + runs, p) <==> InRange(p, r) || InRuns(runs, p)
  {
    var all := [r] + runs;
    assert all[0] == r && forall k :: 0 <= k < |runs| ==> all[k + 1] == runs[k];
    if k :| 0 <= k < |all| && InRange(p, all[k]) {
      assert k == 0 || all[k] == runs[k - 1];
    }
  }

  /** No two runs touch or overlap, so none could be merged. */
  predicate Separated(runs: seq<Range>) {
    && (forall k :: 0 <= k < |runs| ==> runs[k].lo <= runs[k].hi)
    && (forall k :: 0 < k < |runs| ==> runs[k - 1].hi + 1 < runs[k].lo)
  }

  /** The runs of an increasing list cover exactly its ports, and none could be merged. */
  lemma {:induction false} RunsFromMeaning(start: nat, prev: nat, rest: seq<nat>)
    requires start <= prev && Increasing([prev] + rest)
    ensures var runs := RunsFrom(start, prev, rest);
            && runs != [] && runs[0].lo == start && Separated(runs)
            && forall p: nat :: InRuns(runs, p) <==> start <= p <= prev || p in rest
    decreases |rest|
  {
    var runs := RunsFrom(start, prev, rest);
    if rest == [] {
      assert runs[0] == Range(start, prev);
      forall p: nat
        ensures InRuns(runs, p) <==> start <= p <= prev || p in rest
      {
        InRunsCons(Range(start, prev), [], p);
        assert runs == [Range(start, prev)] + [];
      }
    } else {
      var all := [prev] + rest;
      assert all[0] == prev && all[1] == rest[0];
      assert prev < rest[0];
      assert forall i :: 0 <= i < |rest| ==> rest[i] == all[i + 1];
      assert [rest[0]] + rest[1..] == rest;
      var from := if rest[0] == prev + 1 then start else rest[0];
      RunsFromMeaning(from, rest[0], rest[1..]);
      var tail := RunsFrom(from, rest[0], rest[1..]);
      forall p: nat
        ensures InRuns(runs, p) <==> start <= p <= prev || p in rest
      {
        InRunsCons(Range(start, prev), tail, p);
        assert p in rest <==> p == rest[0] || p in rest[1..];
      }
      if rest[0] != prev + 1 {
        assert forall k :: 0 < k < |runs| ==> runs[k] == tail[k - 1];
      }
    }
  }

  lemma RunsMeaning(sorted: seq<nat>)
    requires Increasing(sorted)
    ensures Separated(Runs(sorted)) && forall p: nat :: InRuns(Runs(sorted), p) <==> p in sorted
  {
    if sorted != [] {
      assert [sorted[0]] + sorted[1..] == sorted;
      RunsFromMeaning(sorted[0], sorted[0], sorted[1..]);
      assert forall p: nat :: p in sorted <==> p == sorted[0] || p in sorted[1..];
    }
  }

  // ----- reading back what was printed -----

  predicate ValidPort(p: nat) {
    MIN_PORT <= p <= MAX_PORT
  }

  lemma ParsePortNumeral(n: nat)
    ensures ParsePort(Numeral(n)) == if ValidPort(n) then Ok(n) else Err(OutOfRange(n))
  {
    NumeralIsPlain(n);
    TrimOfTrimmed(Numeral(n));
    DecimalNumeral(n);
  }

  lemma RunTextIsPlain(r: Range)
    ensures IsTrimmed(RunText(r)) && RunText(r) != "" && ',' !in RunText(r)
  {
    NumeralIsPlain(r.lo);
    NumeralIsPlain(r.hi);
  }

  lemma ParseRunText(r: Range, segment: string)
    requires r.lo <= r.hi && Trim(segment) == RunText(r)
    ensures ParseSegment(segment).Ok? <==> ValidPort(r.lo) && ValidPort(r.hi)
    ensures ParseSegment(segment).Ok? ==> ParseSegment(segment).value == r
  {
    var text := RunText(r);
    ParsePortNumeral(r.lo);
    ParsePortNumeral(r.hi);
    NumeralIsPlain(r.lo);
    NumeralIsPlain(r.hi);
    hide ParsePort, Numeral, Trim;
    if r.lo != r.hi {
      var n := |Numeral(r.lo)|;
      assert text[..n] == Numeral(r.lo) && text[n] == '-' && text[n + 1..] == Numeral(r.hi);
      FindIs(text, '-', n);
    }
  }

  /** The segments of a printed list: every text but the first has a space before it. */
  function Spaced(texts: seq<string>): seq<string> {
    seq(|texts|, k requires 0 <= k < |texts| => if k == 0 then texts[0] else " " + texts[k])
  }

  lemma {:induction false} JoinWithSpaces(texts: seq<string>)
    requires texts != []
    ensures Join(texts, ", ") == Join(Spaced(texts), ",")
    decreases |texts|
  {
    if |texts| > 1 {
      var more := [" " + texts[1]] + texts[2..];
      JoinTail(texts[1..], " ");
      assert [" " + texts[1..][0]] + texts[1..][1..] == more;
      JoinWithSpaces(more);
      assert Spaced(texts)[1..] == Spaced(more);
      assert texts[0] + ", " + Join(texts[1..], ", ") == texts[0] + "," + (" " + Join(texts[1..], ", "));
    }
  }

  lemma JoinTail(texts: seq<string>, prefix: string)
    requires texts != []
    ensures Join([prefix + texts[0]] + texts[1..], ", ") == prefix + Join(texts, ", ")
  {
    var more := [prefix + texts[0]] + texts[1..];
    assert more[1..] == texts[1..];
    if |texts| > 1 {
      assert prefix + texts[0] + ", " + Join(texts[1..], ", ") == prefix + (texts[0] + ", " + Join(texts[1..], ", "));
    }
  }

  lemma {:induction false} JoinedIsTrimmed(texts: seq<string>)
    requires texts != [] && forall k :: 0 <= k < |texts| ==> texts[k] != "" && IsTrimmed(texts[k])
    ensures var s := Join(texts, ", ");
            s != "" && s[0] == texts[0][0] && s[|s| - 1] == texts[|texts| - 1][|texts[|texts| - 1]| - 1]
  {
    if |texts| > 1 {
      JoinedIsTrimmed(texts[1..]);
    }
  }

  lemma SegmentsOfPrinted(runs: seq<Range>)
    requires runs != []
    ensures var s := Join(RunTexts(runs), ", ");
            && Trim(s) == s && s != ""
            && |Segments(s)| == |runs|
            && forall k :: 0 <= k < |runs| ==> Trim(Segments(s)[k]) == RunText(runs[k])
  {
    hide RunText, Trim;
    var texts := RunTexts(runs);
    var s := Join(texts, ", ");
    forall k | 0 <= k < |runs|
      ensures texts[k] != "" && IsTrimmed(texts[k]) && ',' !in texts[k] && ',' !in Spaced(texts)[k]
      ensures Trim(Spaced(texts)[k]) == texts[k]
    {
      RunTextIsPlain(runs[k]);
      TrimOfTrimmed(texts[k]);
      TrimOfSpaced(texts[k]);
    }
    JoinedIsTrimmed(texts);
    TrimOfTrimmed(s);
    JoinWithSpaces(texts);
    SplitJoin(Spaced(texts), ',');
  }

  /** What parsing a printed list of runs depends on. */
  lemma PrintedRuns(runs: seq<Range>)
    requires runs != [] && forall k :: 0 <= k < |runs| ==> runs[k].lo <= runs[k].hi
    ensures var s := Join(RunTexts(runs), ", ");
            && Trim(s) != "" && |Segments(s)| == |runs|
            && forall k :: 0 <= k < |runs| ==>
                 && (ParseSegment(Segments(s)[k]).Ok? <==> ValidPort(runs[k].lo) && ValidPort(runs[k].hi))
                 && forall p: nat :: ParseSegment(Segments(s)[k]).Ok? ==> (SegmentHas(Segments(s)[k], p) <==> InRange(p, runs[k]))
  {
    hide Segments, Trim, RunText, ParseSegment;
    SegmentsOfPrinted(runs);
    var s := Join(RunTexts(runs), ", ");
    forall k | 0 <= k < |runs|
      ensures ParseSegment(Segments(s)[k]).Ok? <==> ValidPort(runs[k].lo) && ValidPort(runs[k].hi)
      ensures forall p: nat :: ParseSegment(Segments(s)[k]).Ok? ==> (SegmentHas(Segments(s)[k], p) <==> InRange(p, runs[k]))
    {
      ParseRunText(runs[k], Segments(s)[k]);
    }
  }

  // ----- the round trip -----

  /** What the reading of a printed list turns out to be, from its runs alone. */
  ghost predicate GoodRuns(runs: seq<Range>) {
    && (forall k :: 0 <= k < |runs| ==> ValidPort(runs[k].lo) && ValidPort(runs[k].hi))
    && (forall j, k, p: nat :: 0 <= j < k < |runs| ==> !(InRange(p, runs[j]) && InRange(p, runs[k])))
  }

  lemma PrintedIsAcceptable(runs: seq<Range>)
    requires runs != [] && forall k :: 0 <= k < |runs| ==> runs[k].lo <= runs[k].hi
    ensures var s := Join(RunTexts(runs), ", ");
            && (Acceptable(Segments(s)) <==> GoodRuns(runs))
            && (Acceptable(Segments(s)) ==> forall p: nat :: Covers(Segments(s), p) <==> InRuns(runs, p))
  {
    hide Segments, Trim, RunText, ParseSegment, SegmentHas, Join;
    PrintedRuns(runs);
  }

  lemma {:induction false} SeparatedIsApart(runs: seq<Range>, j: nat, k: nat)
    requires Separated(runs) && j < k < |runs|
    ensures runs[j].hi < runs[k].lo
  {
    if j < k - 1 {
      SeparatedIsApart(runs, j, k - 1);
    }
  }

  /** Printing an increasing list of valid ports and parsing the text gives the list back. */
  lemma RunsAreGood(sorted: seq<nat>)
    requires sorted != [] && Increasing(sorted) && forall k :: 0 <= k < |sorted| ==> ValidPort(sorted[k])
    ensures Runs(sorted) != [] && Separated(Runs(sorted)) && GoodRuns(Runs(sorted))
    ensures forall p: nat :: InRuns(Runs(sorted), p) <==> p in sorted
  {
    hide Runs;
    var runs := Runs(sorted);
    RunsMeaning(sorted);
    assert InRuns(runs, sorted[0]);
    forall k | 0 <= k < |runs|
      ensures ValidPort(runs[k].lo) && ValidPort(runs[k].hi)
    {
      assert InRange(runs[k].lo, runs[k]) && InRange(runs[k].hi, runs[k]);
      assert InRuns(runs, runs[k].lo) && InRuns(runs, runs[k].hi);
    }
    forall j, k, p: nat | 0 <= j < k < |runs|
      ensures !(InRange(p, runs[j]) && InRange(p, runs[k]))
    {
      SeparatedIsApart(runs, j, k);
    }
  }

  lemma PrintedSortedReadsBack(sorted: seq<nat>)
    requires sorted != [] && Increasing(sorted) && forall k :: 0 <= k < |sorted| ==> ValidPort(sorted[k])
    ensures var s := Join(RunTexts(Runs(sorted)), ", ");
            && Trim(s) != "" && Acceptable(Segments(s)) && forall p: nat :: Covers(Segments(s), p) <==> p in sorted
  {
    hide Runs, GoodRuns, Acceptable, Covers, Segments, Join, Trim, RunTexts, Increasing, ParseSegment, SegmentHas, InRuns;
    RunsAreGood(sorted);
    PrintedRuns(Runs(sorted));
    PrintedIsAcceptable(Runs(sorted));
  }

  /** Every printed list of runs has ordered ends, and covers the ports it was printed from. */
  lemma {:induction false} RunsFromCover(start: nat, prev: nat, rest: seq<nat>)
    requires start <= prev
    ensures var runs := RunsFrom(start, prev, rest);
            && runs != [] && (forall k :: 0 <= k < |runs| ==> runs[k].lo <= runs[k].hi)
            && runs[0].lo == start && InRange(prev, runs[0])
            && forall i :: 0 <= i < |rest| ==> InRuns(runs, rest[i])
    decreases |rest|
  {
    if rest != [] {
      var from := if rest[0] == prev + 1 then start else rest[0];
      var tail := RunsFrom(from, rest[0], rest[1..]);
      RunsFromCover(from, rest[0], rest[1..]);
      assert InRuns(tail, rest[0]);
      forall i | 0 <= i < |rest|
        ensures InRuns(RunsFrom(start, prev, rest), rest[i])
      {
        assert i == 0 || rest[i] == rest[1..][i - 1];
        InRunsCons(Range(start, prev), tail, rest[i]);
      }
    }
  }

  /** A port listed twice in a row ends one run and begins the next. */
  lemma {:induction false} RepeatedPortOverlaps(start: nat, prev: nat, rest: seq<nat>, i: nat) returns (k: nat)
    requires start <= prev && i < |rest| && ([prev] + rest)[i] == rest[i]
    ensures var runs := RunsFrom(start, prev, rest);
            k + 1 < |runs| && InRange(rest[i], runs[k]) && InRange(rest[i], runs[k + 1])
    decreases |rest|
  {
    var from := if rest[0] == prev + 1 then start else rest[0];
    var tail := RunsFrom(from, rest[0], rest[1..]);
    RunsFromCover(from, rest[0], rest[1..]);
    if i == 0 {
      k := 0;
    } else {
      assert ([rest[0]] + rest[1..])[i - 1] == rest[i - 1] == rest[1..][i - 1];
      k := RepeatedPortOverlaps(from, rest[0], rest[1..], i - 1);
      if rest[0] != prev + 1 {
        k := k + 1;
      }
    }
  }

  lemma BadPortIsRefused(runs: seq<Range>, p: nat)
    requires InRuns(runs, p) && !ValidPort(p)
    ensures !GoodRuns(runs)
  {
  }

  /** A list that is sorted but not increasing has an adjacent repetition. */
  lemma {:induction false} NotIncreasing(s: seq<nat>) returns (i: nat)
    requires SortedBy(s, Id) && !Increasing(s)
    ensures 0 < i < |s| && s[i - 1] == s[i]
  {
    i := 1;
    var a, b :| 0 <= a < b < |s| && s[a] >= s[b];
    i := a + 1;
    assert Id(s[a]) <= Id(s[i]) && (i < b ==> Id(s[i]) <= Id(s[b])) && Id(s[a]) <= Id(s[b]);
  }

  /**
   The round trip, exactly: what `formatPortsCompact` prints for `ports` is
   accepted if and only if there is a port, none is repeated, and all are in
   range. The ports read are then those printed.
   */
  lemma RoundTrip(ports: seq<nat>)
    ensures Trim(Printed(ports)) != "" && Acceptable(Segments(Printed(ports)))
            <==> ports != [] && Distinct(ports) && forall k :: 0 <= k < |ports| ==> ValidPort(ports[k])
    ensures Trim(Printed(ports)) != "" && Acceptable(Segments(Printed(ports))) ==>
              forall p: nat :: Covers(Segments(Printed(ports)), p) <==> p in ports
  {
    hide Segments, Trim, RunTexts, Join, SortBy, Acceptable, Covers;
    var sorted := SortBy(ports, Id);
    var runs := Runs(sorted);
    SortByIsSorted(ports, Id);
    SameElements(sorted, ports);
    if ports == [] {
      PrintedNothing();
    } else if !Distinct(ports) {
      var i := RepeatedAfterSorting(ports, sorted);
      assert ([sorted[0]] + sorted[1..]) == sorted;
      var k := RepeatedPortOverlaps(sorted[0], sorted[0], sorted[1..], i - 1);
      RunsFromCover(sorted[0], sorted[0], sorted[1..]);
      PrintedIsAcceptable(runs);
    } else {
      SortedPorts(ports, sorted);
      RunsMeaning(sorted);
      assert InRuns(runs, sorted[0]);
      PrintedIsAcceptable(runs);
      if k :| 0 <= k < |ports| && !ValidPort(ports[k]) {
        BadPortIsRefused(runs, ports[k]);
      } else {
        forall k | 0 <= k < |sorted|
          ensures ValidPort(sorted[k])
        {
          assert sorted[k] in ports;
        }
        PrintedSortedReadsBack(sorted);
      }
    }
  }

  lemma PrintedNothing()
    ensures Trim(Printed([])) == ""
  {
    assert RunTexts([]) == [];
  }

  lemma RepeatedAfterSorting(ports: seq<nat>, sorted: seq<nat>) returns (i: nat)
    requires !Distinct(ports) && SortedBy(sorted, Id) && multiset(sorted) == multiset(ports)
    ensures 0 < i < |sorted| && sorted[i - 1] == sorted[i]
  {
    var a, b :| 0 <= a < b < |ports| && ports[a] == ports[b];
    TwiceInMultiset(ports, a, b);
    if Increasing(sorted) {
      OnceInMultiset(sorted, ports[a]);
      assert false;
    }
    i := NotIncreasing(sorted);
  }

  /** Parsing what was printed gives the ports in increasing order. */
  method FormatThenParse(ports: seq<nat>) returns (r: Result<seq<nat>, PortError>)
    ensures r.Ok? <==> ports != [] && Distinct(ports) && forall k :: 0 <= k < |ports| ==> ValidPort(ports[k])
    ensures r.Ok? ==> r.value == SortBy(ports, Id)
  {
    var text := FormatPortsCompact(ports);
    r := ParsePortSpec(text);
    RoundTrip(ports);
    if r.Ok? {
      SortByIsSorted(ports, Id);
      SortedPorts(ports, SortBy(ports, Id));
      IncreasingIsUnique(r.value, SortBy(ports, Id));
    }
  }

  /** The runs an accepted spec is printed as cover its ports and cannot be merged: the printed form is canonical. */
  method ParseThenFormat(input: string) returns (r: Result<string, PortError>, ghost runs: seq<Range>)
    ensures r.Ok? <==> Trim(input) != "" && Acceptable(Segments(input))
    ensures r.Ok? ==> r.value == Join(RunTexts(runs), ", ") && Separated(runs)
    ensures r.Ok? ==> forall p: nat :: InRuns(runs, p) <==> Covers(Segments(input), p)
  {
    var parsed := ParsePortSpec(input);
    if parsed.Err? {
      return Err(parsed.error), [];
    }
    var ports := parsed.value;
    var text := FormatPortsCompact(ports);
    SortByIsSorted(ports, Id);
    SortedPorts(ports, SortBy(ports, Id));
    IncreasingIsUnique(ports, SortBy(ports, Id));
    RunsMeaning(ports);
    r, runs := Ok(text), Runs(ports);
  }
}
