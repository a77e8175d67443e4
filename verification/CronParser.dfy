/**
 The five-field parser. `Reading` stands for the two built-ins the source leans
 on: `number` is `Number(text)` where that is an integer (and nothing
 otherwise), `lower` is `toLowerCase`. Every result holds for any reading.
 */
module CronParser {
  import opened Common
  import opened Strings
  import opened CronSearch

  datatype Reading = Reading(number: string -> Option<int>, lower: string -> string)

  datatype FieldSpec = FieldSpec(min: int, max: int, names: seq<string>, sundayIsSeven: bool)

  const MONTH_NAMES := ["jan", "feb", "mar", "apr", "may", "jun", "jul", "aug", "sep", "oct", "nov", "dec"]
  const DAY_NAMES := ["sun", "mon", "tue", "wed", "thu", "fri", "sat"]

  const FIELDS := [
    FieldSpec(0, 59, [], false),
    FieldSpec(0, 23, [], false),
    FieldSpec(1, 31, [], false),
    FieldSpec(1, 12, MONTH_NAMES, false),
    FieldSpec(0, 6, DAY_NAMES, true)]

  datatype CronError =
    | ScheduleRequired
    | WrongFieldCount(count: nat)
    | EmptyField
    | EmptyEntry
    | ManySteps(part: string)
    | BadStep(text: string)
    | Backwards(range: string)
    | BadValue(text: string)
    | OutOfRange(value: int)

  ghost predicate SpecOk(spec: FieldSpec) {
    && spec.min <= spec.max
    && spec.min + |spec.names| - 1 <= spec.max
    && (spec.sundayIsSeven ==> spec.min <= 0 <= spec.max)
  }

  lemma FieldSpecsOk()
    ensures forall k :: 0 <= k < |FIELDS| ==> SpecOk(FIELDS[k])
  {
  }

  function IndexOf(names: seq<string>, text: string): (r: Option<nat>)
    ensures r.Some? ==> r.value < |names| && names[r.value] == text
    ensures r.None? ==> text !in names
  {
    if names == [] then None
    else if names[0] == text then Some(0)
    else
      var r := IndexOf(names[1..], text);
      if r.Some? then Some(r.value + 1) else None
  }

  function ParseValue(reading: Reading, spec: FieldSpec, text: string): (r: Result<int, CronError>)
    ensures SpecOk(spec) && r.Ok? ==> spec.min <= r.value <= spec.max
  {
    var named := IndexOf(spec.names, text);
    if named.Some? then Ok(named.value + spec.min)
    else
      var value := reading.number(text);
      if value.None? then Err(BadValue(text))
      else if spec.sundayIsSeven && value.value == 7 then Ok(0)
      else if value.value < spec.min || value.value > spec.max then Err(OutOfRange(value.value))
      else Ok(value.value)
  }

  /** One entry of a list: the values `start`, `start + step`, ... up to `end`. */
  datatype Part = Part(start: int, end: int, step: int, everything: bool)

  predicate InPart(p: Part, v: int) {
    p.step > 0 && p.start <= v <= p.end && (v - p.start) % p.step == 0
  }

  function ParseStep(reading: Reading, pieces: seq<string>): (r: Result<int, CronError>)
    requires |pieces| >= 1
    ensures r.Ok? ==> r.value >= 1
  {
    if |pieces| < 2 then Ok(1)
    else
      var step := reading.number(pieces[1]);
      if step.None? || step.value < 1 then Err(BadStep(pieces[1])) else Ok(step.value)
  }

  function RangeFromEnds(reading: Reading, spec: FieldSpec, range: string, a: string, b: string): (r: Result<(int, int), CronError>)
    ensures SpecOk(spec) && r.Ok? ==> spec.min <= r.value.0 <= r.value.1 <= spec.max
  {
    var from := ParseValue(reading, spec, a);
    if from.Err? then Err(from.error)
    else
      var to := ParseValue(reading, spec, b);
      if to.Err? then Err(to.error)
      else if from.value > to.value then Err(Backwards(range))
      else Ok((from.value, to.value))
  }

  function ParseRange(reading: Reading, spec: FieldSpec, range: string, stepped: bool): (r: Result<(int, int), CronError>)
    ensures SpecOk(spec) && r.Ok? ==> spec.min <= r.value.0 <= r.value.1 <= spec.max
  {
    if range == "*" then Ok((spec.min, spec.max))
    else if '-' in range then
      var ends := Split(range, '-');
      RangeFromEnds(reading, spec, range, ends[0], ends[1])
    else
      var from := ParseValue(reading, spec, range);
      if from.Err? then Err(from.error)
      else Ok((from.value, if stepped then spec.max else from.value))
  }

  function ParsePart(reading: Reading, spec: FieldSpec, part: string): (r: Result<Part, CronError>)
    ensures SpecOk(spec) && r.Ok? ==>
              spec.min <= r.value.start <= r.value.end <= spec.max && r.value.step >= 1
    ensures r.Ok? && r.value.everything ==> part == "*" && r.value == Part(spec.min, spec.max, 1, true)
  {
    if part == "" then Err(EmptyEntry)
    else
      var pieces := Split(part, '/');
      if |pieces| > 2 then Err(ManySteps(part))
      else
        var step := ParseStep(reading, pieces);
        if step.Err? then Err(step.error)
        else
          var range := ParseRange(reading, spec, pieces[0], |pieces| == 2);
          if range.Err? then Err(range.error)
          else Ok(Part(range.value.0, range.value.1, step.value, pieces == ["*"]))
  }

  datatype Field = Field(values: set<int>, restricted: bool)

  /** The texts of a field's entries, after trimming and lower-casing. */
  function Entries(reading: Reading, raw: string): seq<string> {
    Split(reading.lower(Trim(raw)), ',')
  }

  ghost predicate Parses(reading: Reading, spec: FieldSpec, part: string) {
    ParsePart(reading, spec, part).Ok?
  }

  /** `v` is a value of this entry. */
  ghost predicate Names(reading: Reading, spec: FieldSpec, part: string, v: int) {
    Parses(reading, spec, part) && InPart(ParsePart(reading, spec, part).value, v)
  }

  /** `v` is named by one of the entries. */
  ghost predicate Denotes(reading: Reading, spec: FieldSpec, parts: seq<string>, v: int) {
    exists k :: 0 <= k < |parts| && Names(reading, spec, parts[k], v)
  }

  /** The values of one entry, added to `values` one step at a time. */
  method AddValues(values: set<int>, p: Part) returns (r: set<int>)
    requires p.step >= 1
    ensures forall v :: v in r <==> v in values || InPart(p, v)
  {
    r := values;
    var value := p.start;
    while value <= p.end
      invariant value >= p.start && (value - p.start) % p.step == 0
      invariant forall v :: v in r <==> v in values || (InPart(p, v) && v < value)
      decreases p.end - value
    {
      r := r + {value};
      forall v | InPart(p, v) && value < v < value + p.step
        ensures false
      {
        NextMultiple(value - p.start, v - p.start, p.step);
      }
      AddMultiple(value - p.start, p.step);
      value := value + p.step;
    }
  }

  lemma {:induction false} Grows(step: int, i: int, j: int)
    requires step >= 1
    ensures i <= j ==> step * i <= step * j
    ensures i < j ==> step * i + step <= step * j
    decreases j - i
  {
    if i < j {
      Grows(step, i, j - 1);
      assert step * j == step * (j - 1) + step;
    }
  }

  lemma NextMultiple(a: int, b: int, step: int)
    requires step >= 1 && a % step == 0 && b % step == 0 && a < b
    ensures b >= a + step
  {
    assert a == step * (a / step) && b == step * (b / step);
    Grows(step, b / step, a / step);
    Grows(step, a / step, b / step);
  }

  lemma AddMultiple(a: int, step: int)
    requires step >= 1 && a % step == 0
    ensures (a + step) % step == 0
  {
    var q, d, r := a / step + 1, (a + step) / step, (a + step) % step;
    assert step * q == step * d + r;
    Grows(step, q, d);
    Grows(step, d, q);
  }

  /** The field is not empty and each of its entries parses. */
  ghost predicate FieldParses(reading: Reading, spec: FieldSpec, raw: string) {
    && reading.lower(Trim(raw)) != ""
    && forall k :: 0 <= k < |Entries(reading, raw)| ==> Parses(reading, spec, Entries(reading, raw)[k])
  }

  /**
   `f` holds exactly the values the entries name, at least one and all within
   the field's range, and is unrestricted exactly when an entry is a bare star.
   */
  ghost predicate FieldIs(reading: Reading, spec: FieldSpec, raw: string, f: Field) {
    && (forall v :: v in f.values <==> Denotes(reading, spec, Entries(reading, raw), v))
    && (f.restricted <==> "*" !in Entries(reading, raw))
    && f.values != {} && forall v :: v in f.values ==> spec.min <= v <= spec.max
  }

  /**
   A field parses exactly when it is not empty and each entry parses; otherwise the
   error is the first bad entry's.
   */
  method ParseField(reading: Reading, spec: FieldSpec, raw: string) returns (r: Result<Field, CronError>)
    requires SpecOk(spec)
    ensures r.Ok? <==> FieldParses(reading, spec, raw)
    ensures r.Ok? ==> FieldIs(reading, spec, raw, r.value)
    ensures r.Err? && r.error != EmptyField ==>
              exists k :: 0 <= k < |Entries(reading, raw)| && ParsePart(reading, spec, Entries(reading, raw)[k]) == Err(r.error)
                          && forall j :: 0 <= j < k ==> Parses(reading, spec, Entries(reading, raw)[j])
  {
    hide ParsePart, InPart, Names, Trim, Split;
    var text := reading.lower(Trim(raw));
    if text == "" {
      return Err(EmptyField);
    }
    var parts := Split(text, ',');
    var values: set<int> := {};
    var restricted := true;
    var i := 0;
    while i < |parts|
      invariant 0 <= i <= |parts|
      invariant forall k :: 0 <= k < i ==> Parses(reading, spec, parts[k])
      invariant forall v :: v in values <==> Denotes(reading, spec, parts[..i], v)
      invariant forall v :: v in values ==> spec.min <= v <= spec.max
      invariant i > 0 ==> values != {}
      invariant restricted <==> "*" !in parts[..i]
    {
      var p := ParsePart(reading, spec, parts[i]);
      if p.Err? {
        assert Entries(reading, raw)[i] == parts[i] && !Parses(reading, spec, parts[i]);
        return Err(p.error);
      }
      if p.value.everything {
        restricted := false;
      }
      EntryMeaning(reading, spec, parts[i]);
      DenotesOneMore(reading, spec, parts, i);
      values := AddValues(values, p.value);
      assert p.value.start in values;
      i := i + 1;
    }
    assert parts[..i] == parts;
    r := Ok(Field(values, restricted));
  }

  lemma EntryMeaning(reading: Reading, spec: FieldSpec, part: string)
    requires SpecOk(spec) && Parses(reading, spec, part)
    ensures var p := ParsePart(reading, spec, part).value;
            && p.step >= 1 && InPart(p, p.start)
            && (p.everything <==> part == "*")
            && forall v :: (Names(reading, spec, part, v) <==> InPart(p, v)) && (InPart(p, v) ==> spec.min <= v <= spec.max)
  {
    if part == "*" {
      assert Split("*", '/') == ["*"];
    }
  }

  lemma DenotesOneMore(reading: Reading, spec: FieldSpec, parts: seq<string>, i: nat)
    requires i < |parts|
    ensures forall v :: Denotes(reading, spec, parts[..i + 1], v) <==>
                          Denotes(reading, spec, parts[..i], v) || Names(reading, spec, parts[i], v)
    ensures "*" in parts[..i + 1] <==> "*" in parts[..i] || parts[i] == "*"
  {
    hide Names;
    var less, more := parts[..i], parts[..i + 1];
    assert more == less + [parts[i]];
    assert forall k :: 0 <= k < i ==> more[k] == less[k];
    assert more[i] == parts[i];
  }

  // ----- the whole expression -----

  function WordEnd(s: string): (n: nat)
    ensures n <= |s| && (forall k :: 0 <= k < n ==> !IsSpace(s[k])) && (n < |s| ==> IsSpace(s[n]))
  {
    if s == "" || IsSpace(s[0]) then 0 else 1 + WordEnd(s[1..])
  }

  /** The fields of an expression: what is left between runs of white space. */
  function Words(s: string): seq<string>
    decreases |s|
  {
    if s == "" then []
    else if IsSpace(s[0]) then Words(s[1..])
    else [s[..WordEnd(s)]] + Words(s[WordEnd(s)..])
  }

  /** A field with a bare star among its entries holds its whole range. */
  lemma StarFills(reading: Reading, spec: FieldSpec, raw: string, f: Field)
    requires SpecOk(spec) && FieldIs(reading, spec, raw, f) && !f.restricted
    ensures forall v :: spec.min <= v <= spec.max ==> v in f.values
  {
    var parts := Entries(reading, raw);
    var k :| 0 <= k < |parts| && parts[k] == "*";
    assert Split("*", '/') == ["*"];
    assert ParsePart(reading, spec, "*") == Ok(Part(spec.min, spec.max, 1, true));
    forall v | spec.min <= v <= spec.max
      ensures Denotes(reading, spec, parts, v)
    {
      assert Names(reading, spec, parts[k], v);
    }
  }

  function Assemble(parsed: seq<Field>): CronExpression
    requires |parsed| == 5
  {
    CronExpression(parsed[0].values, parsed[1].values, parsed[2].values, parsed[3].values, parsed[4].values,
                   parsed[2].restricted, parsed[4].restricted)
  }

  /** Each of the five fields holds exactly the values its entries name. */
  ghost predicate FieldsAre(reading: Reading, words: seq<string>, parsed: seq<Field>) {
    && |words| == 5 && |parsed| <= 5
    && forall k :: 0 <= k < |parsed| ==> FieldIs(reading, FIELDS[k], words[k], parsed[k])
  }

  lemma AssembledIsWellFormed(reading: Reading, words: seq<string>, parsed: seq<Field>)
    requires FieldsAre(reading, words, parsed) && |parsed| == 5
    ensures WellFormed(Assemble(parsed))
  {
    hide Denotes, Entries;
    FieldSpecsOk();
    assert FIELDS[2].min == 1 && FIELDS[2].max == 31 && FIELDS[4].min == 0 && FIELDS[4].max == 6;
    assert FIELDS[0].min == 0 && FIELDS[0].max == 59 && FIELDS[1].min == 0 && FIELDS[1].max == 23;
    assert FIELDS[3].min == 1 && FIELDS[3].max == 12;
    if !parsed[2].restricted {
      StarFills(reading, FIELDS[2], words[2], parsed[2]);
    }
    if !parsed[4].restricted {
      StarFills(reading, FIELDS[4], words[4], parsed[4]);
    }
  }

  /**
   The fields of the expression in order, minute, hour, day of the month, month and
   day of the week, each with its own bounds and names; a day field counts as given
   unless an entry of it is a bare star.
   */
  ghost predicate Holds(reading: Reading, words: seq<string>, e: CronExpression)
    requires |words| == 5
  {
    && (forall v :: v in e.minute <==> Denotes(reading, FieldSpec(0, 59, [], false), Entries(reading, words[0]), v))
    && (forall v :: v in e.hour <==> Denotes(reading, FieldSpec(0, 23, [], false), Entries(reading, words[1]), v))
    && (forall v :: v in e.dayOfMonth <==> Denotes(reading, FieldSpec(1, 31, [], false), Entries(reading, words[2]), v))
    && (forall v :: v in e.month <==> Denotes(reading, FieldSpec(1, 12, MONTH_NAMES, false), Entries(reading, words[3]), v))
    && (forall v :: v in e.dayOfWeek <==> Denotes(reading, FieldSpec(0, 6, DAY_NAMES, true), Entries(reading, words[4]), v))
    && (e.domRestricted <==> "*" !in Entries(reading, words[2]))
    && (e.dowRestricted <==> "*" !in Entries(reading, words[4]))
  }

  lemma AssembledHolds(reading: Reading, words: seq<string>, parsed: seq<Field>)
    requires FieldsAre(reading, words, parsed) && |parsed| == 5
    ensures Holds(reading, words, Assemble(parsed))
  {
    hide Denotes, Entries;
    assert FieldIs(reading, FIELDS[0], words[0], parsed[0]) && FieldIs(reading, FIELDS[1], words[1], parsed[1]);
    assert FieldIs(reading, FIELDS[2], words[2], parsed[2]) && FieldIs(reading, FIELDS[3], words[3], parsed[3]);
    assert FieldIs(reading, FIELDS[4], words[4], parsed[4]);
  }

  /**
   An expression parses exactly when it has five fields and each of them does.
   What it parses to is well formed in the sense the search relies on, and each
   field holds exactly the values its entries name.
   */
  method ParseCron(reading: Reading, expression: string) returns (r: Result<CronExpression, CronError>)
    ensures Words(expression) == [] ==> r == Err(ScheduleRequired)
    ensures |Words(expression)| !in {0, 5} ==> r == Err(WrongFieldCount(|Words(expression)|))
    ensures r.Ok? <==> |Words(expression)| == 5 && forall k :: 0 <= k < 5 ==> FieldParses(reading, FIELDS[k], Words(expression)[k])
    ensures r.Ok? ==> WellFormed(r.value)
    ensures r.Ok? ==> exists parsed :: FieldsAre(reading, Words(expression), parsed) && |parsed| == 5 && r.value == Assemble(parsed)
    ensures r.Ok? ==> Holds(reading, Words(expression), r.value)
  {
    hide Words, FieldParses, FieldIs, WellFormed, Assemble;
    var parts := Words(expression);
    if |parts| == 0 {
      return Err(ScheduleRequired);
    }
    if |parts| != 5 {
      return Err(WrongFieldCount(|parts|));
    }
    var parsed: seq<Field> := [];
    var i := 0;
    while i < 5
      invariant 0 <= i <= 5 && |parsed| == i
      invariant forall k :: 0 <= k < i ==> FieldParses(reading, FIELDS[k], parts[k])
      invariant FieldsAre(reading, parts, parsed)
    {
      FieldSpecsOk();
      var field := ParseField(reading, FIELDS[i], parts[i]);
      if field.Err? {
        return Err(field.error);
      }
      parsed := parsed + [field.value];
      i := i + 1;
    }
    AssembledIsWellFormed(reading, parts, parsed);
    AssembledHolds(reading, parts, parsed);
    r := Ok(Assemble(parsed));
  }

  // ----- what a text means -----

  /** The words of an expression are what white space leaves between it, wherever it stands and however much of it. */
  lemma {:induction false} WordsAre(space: string, word: string, rest: string)
    requires forall k :: 0 <= k < |space| ==> IsSpace(space[k])
    requires word != "" && forall k :: 0 <= k < |word| ==> !IsSpace(word[k])
    requires rest != "" ==> IsSpace(rest[0])
    ensures Words(space + word + rest) == [word] + Words(rest)
    decreases |space|
  {
    hide IsSpace;
    if space == "" {
      var s := word + rest;
      assert space + word + rest == s && s[0] == word[0];
      WordEndIs(word, rest);
      assert s[..|word|] == word && s[|word|..] == rest;
    } else {
      var s := space + word + rest;
      assert s[0] == space[0] && s[1..] == space[1..] + word + rest;
      WordsAre(space[1..], word, rest);
    }
  }

  lemma WordEndIs(word: string, rest: string)
    requires forall k :: 0 <= k < |word| ==> !IsSpace(word[k])
    requires rest != "" ==> IsSpace(rest[0])
    ensures WordEnd(word + rest) == |word|
  {
    hide IsSpace;
    var s, n := word + rest, WordEnd(word + rest);
    assert forall k :: 0 <= k < |word| ==> s[k] == word[k];
    if rest != "" {
      assert s[|word|] == rest[0];
    }
  }

  lemma {:induction false} NoWords(space: string)
    requires forall k :: 0 <= k < |space| ==> IsSpace(space[k])
    ensures Words(space) == []
  {
    hide IsSpace;
    if space != "" {
      NoWords(space[1..]);
    }
  }

  /** The twelve months count from 1 and the seven days from Sunday as 0, by their first three letters. */
  lemma NamesAreNumbered(reading: Reading, k: nat)
    ensures k < 12 ==> ParseValue(reading, FIELDS[3], ["jan", "feb", "mar", "apr", "may", "jun", "jul", "aug", "sep", "oct", "nov", "dec"][k]) == Ok(k + 1)
    ensures k < 7 ==> ParseValue(reading, FIELDS[4], ["sun", "mon", "tue", "wed", "thu", "fri", "sat"][k]) == Ok(k)
  {
    if k < 12 {
      MonthIsNumbered(reading, k);
    }
    if k < 7 {
      DayIsNumbered(reading, k);
    }
    hide ParseValue;
  }

  lemma MonthIsNumbered(reading: Reading, k: nat)
    requires k < 12
    ensures ParseValue(reading, FIELDS[3], ["jan", "feb", "mar", "apr", "may", "jun", "jul", "aug", "sep", "oct", "nov", "dec"][k]) == Ok(k + 1)
  {
    hide IndexOf;
    NamesDiffer();
    NamedAt(MONTH_NAMES, k);
    assert FIELDS[3] == FieldSpec(1, 12, MONTH_NAMES, false);
  }

  lemma DayIsNumbered(reading: Reading, k: nat)
    requires k < 7
    ensures ParseValue(reading, FIELDS[4], ["sun", "mon", "tue", "wed", "thu", "fri", "sat"][k]) == Ok(k)
  {
    hide IndexOf;
    NamesDiffer();
    NamedAt(DAY_NAMES, k);
    assert FIELDS[4] == FieldSpec(0, 6, DAY_NAMES, true);
  }

  lemma NamesDiffer()
    ensures forall i, j :: 0 <= i < j < 12 ==> MONTH_NAMES[i] != MONTH_NAMES[j]
    ensures forall i, j :: 0 <= i < j < 7 ==> DAY_NAMES[i] != DAY_NAMES[j]
  {
  }

  lemma {:induction false} NamedAt(names: seq<string>, k: nat)
    requires k < |names| && forall i, j :: 0 <= i < j < |names| ==> names[i] != names[j]
    ensures IndexOf(names, names[k]) == Some(k)
  {
    if k > 0 {
      NamedAt(names[1..], k - 1);
      assert names[0] != names[k];
    }
  }

  /** A number stands for itself within the bounds of its field, 7 for 0 in the last one, and is refused otherwise. */
  lemma NumbersAreBounded(reading: Reading, field: nat, text: string)
    requires field < 5 && text !in MONTH_NAMES && text !in DAY_NAMES
    ensures var lows, highs := [0, 0, 1, 1, 0], [59, 23, 31, 12, 6];
            var n, r := reading.number(text), ParseValue(reading, FIELDS[field], text);
            if n.None? then r == Err(BadValue(text))
            else if field == 4 && n.value == 7 then r == Ok(0)
            else if lows[field] <= n.value <= highs[field] then r == Ok(n.value)
            else r == Err(OutOfRange(n.value))
  {
    hide IndexOf;
    match field {
      case 0 => assert FIELDS[0] == FieldSpec(0, 59, [], false);
      case 1 => assert FIELDS[1] == FieldSpec(0, 23, [], false);
      case 2 => assert FIELDS[2] == FieldSpec(1, 31, [], false);
      case 3 => assert FIELDS[3] == FieldSpec(1, 12, MONTH_NAMES, false);
      case _ => assert FIELDS[4] == FieldSpec(0, 6, DAY_NAMES, true);
    }
  }

  /** A text that can stand before or after the marks of an entry. */
  predicate Bare(text: string) {
    text != "" && '-' !in text && '/' !in text && text != "*"
  }

  /**
   What the entries of a field name, in terms of the values of their parts: a star
   all of them, a value itself, a range all from its start to its end and nothing
   when it runs backwards; a step every so many of them, from a single value to the
   end of the field.
   */
  lemma EntriesMean(reading: Reading, spec: FieldSpec, a: string, b: string, v: int)
    requires SpecOk(spec) && Bare(a) && Bare(b)
    ensures Names(reading, spec, "*", v) <==> spec.min <= v <= spec.max
    ensures Names(reading, spec, a, v) <==> ParseValue(reading, spec, a) == Ok(v)
    ensures Names(reading, spec, a + ['-'] + b, v) <==>
              var x, y := ParseValue(reading, spec, a), ParseValue(reading, spec, b);
              x.Ok? && y.Ok? && x.value <= v <= y.value
  {
    SplitPlain("*");
    SplitPlain(a);
    SplitPlain(b);
    RangeEntry(reading, spec, a, b);
    hide ParseValue, Split;
    forall n: int
      ensures n % 1 == 0
    {
    }
  }

  lemma SplitPlain(a: string)
    requires '/' !in a && '-' !in a
    ensures Split(a, '/') == [a] && Split(a, '-') == [a]
  {
  }

  lemma RangeEntry(reading: Reading, spec: FieldSpec, a: string, b: string)
    requires Bare(a) && Bare(b)
    ensures Split(a + ['-'] + b, '/') == [a + ['-'] + b]
    ensures forall stepped :: ParseRange(reading, spec, a + ['-'] + b, stepped) == RangeFromEnds(reading, spec, a + ['-'] + b, a, b)
  {
    assert Split(b, '-') == [b];
    forall stepped: bool
      ensures ParseRange(reading, spec, a + ['-'] + b, stepped) == RangeFromEnds(reading, spec, a + ['-'] + b, a, b)
    {
      DashedRange(reading, spec, a, b, stepped);
    }
  }

  /**
   With a step of `n`, written behind a slash, every `n`-th of those from the first on;
   a value alone then runs to the end of the field.
   */
  lemma SteppedEntriesMean(reading: Reading, spec: FieldSpec, a: string, b: string, step: string, v: int)
    requires SpecOk(spec) && Bare(a) && Bare(b) && '/' !in step
    ensures var x, y := ParseValue(reading, spec, a), ParseValue(reading, spec, b);
            && (Names(reading, spec, "*" + ['/'] + step, v) <==> Every(reading.number(step), spec.min, spec.max, v))
            && (Names(reading, spec, a + ['/'] + step, v) <==> x.Ok? && Every(reading.number(step), x.value, spec.max, v))
            && (Names(reading, spec, a + ['-'] + b + ['/'] + step, v) <==>
                  x.Ok? && y.Ok? && Every(reading.number(step), x.value, y.value, v))
  {
    hide ParseValue, ParseRange, Names;
    StarRange(reading, spec);
    ValueRange(reading, spec, a);
    RangeEntry(reading, spec, a, b);
    StepOf(reading, spec, "*", step, v);
    StepOf(reading, spec, a, step, v);
    StepOf(reading, spec, a + ['-'] + b, step, v);
    FromEnds(reading, spec, a, b);
    hide Split, RangeFromEnds, Bare, SpecOk;
  }

  /** `v` is one of `lo`, `lo + n`, `lo + 2n`, ... up to `hi`, for a whole number `n` of at least 1. */
  predicate Every(n: Option<int>, lo: int, hi: int, v: int) {
    n.Some? && n.value >= 1 && lo <= v <= hi && (v - lo) % n.value == 0
  }

  lemma FromEnds(reading: Reading, spec: FieldSpec, a: string, b: string)
    ensures var x, y := ParseValue(reading, spec, a), ParseValue(reading, spec, b);
            var r := RangeFromEnds(reading, spec, a + ['-'] + b, a, b);
            if x.Ok? && y.Ok? && x.value <= y.value then r == Ok((x.value, y.value)) else r.Err?
  {
    hide ParseValue;
  }

  lemma StarRange(reading: Reading, spec: FieldSpec)
    ensures ParseRange(reading, spec, "*", true) == Ok((spec.min, spec.max))
  {
  }

  lemma ValueRange(reading: Reading, spec: FieldSpec, a: string)
    requires Bare(a)
    ensures var x := ParseValue(reading, spec, a);
            ParseRange(reading, spec, a, true) == if x.Ok? then Ok((x.value, spec.max)) else Err(x.error)
  {
    hide ParseValue, Split;
  }

  lemma SplitStep(range: string, step: string)
    requires '/' !in range && '/' !in step
    ensures Split(range + ['/'] + step, '/') == [range, step]
  {
    SplitCons(range, step, '/');
  }

  lemma StepOf(reading: Reading, spec: FieldSpec, range: string, step: string, v: int)
    requires '/' !in range && '/' !in step
    ensures var r := ParseRange(reading, spec, range, true);
            Names(reading, spec, range + ['/'] + step, v) <==> r.Ok? && Every(reading.number(step), r.value.0, r.value.1, v)
  {
    SplitStep(range, step);
    hide ParseRange, Split;
  }

  /**
   An entry is refused when there is nothing in it, when it has a second step, or when
   its step is no whole number of at least 1.
   */
  lemma StepRefusals(reading: Reading, spec: FieldSpec, a: string, step: string, more: string)
    requires '/' !in a && '/' !in step
    ensures ParsePart(reading, spec, "") == Err(EmptyEntry)
    ensures var part := a + ['/'] + (step + ['/'] + more); ParsePart(reading, spec, part) == Err(ManySteps(part))
    ensures reading.number(step).None? || reading.number(step).value < 1 ==>
              ParsePart(reading, spec, a + ['/'] + step) == Err(BadStep(step))
  {
    hide ParsePart, Split;
    NothingIsRefused(reading, spec);
    SecondStepIsRefused(reading, spec, a, step, more);
    if reading.number(step).None? || reading.number(step).value < 1 {
      BadStepIsRefused(reading, spec, a, step);
    }
  }

  lemma NothingIsRefused(reading: Reading, spec: FieldSpec)
    ensures ParsePart(reading, spec, "") == Err(EmptyEntry)
  {
  }

  lemma SecondStepIsRefused(reading: Reading, spec: FieldSpec, a: string, step: string, more: string)
    requires '/' !in a && '/' !in step
    ensures var part := a + ['/'] + (step + ['/'] + more); ParsePart(reading, spec, part) == Err(ManySteps(part))
  {
    hide Split, ParseRange;
    SplitCons(a, step + ['/'] + more, '/');
    SplitCons(step, more, '/');
  }

  lemma BadStepIsRefused(reading: Reading, spec: FieldSpec, a: string, step: string)
    requires '/' !in a && '/' !in step && (reading.number(step).None? || reading.number(step).value < 1)
    ensures ParsePart(reading, spec, a + ['/'] + step) == Err(BadStep(step))
  {
    hide Split, ParseRange;
    SplitStep(a, step);
  }

  /** And when its range runs from the later to the earlier. */
  lemma BackwardsIsRefused(reading: Reading, spec: FieldSpec, a: string, b: string)
    requires Bare(a) && Bare(b) && ParseValue(reading, spec, a).Ok? && ParseValue(reading, spec, b).Ok?
    requires ParseValue(reading, spec, a).value > ParseValue(reading, spec, b).value
    ensures ParsePart(reading, spec, a + ['-'] + b) == Err(Backwards(a + ['-'] + b))
  {
    RangeEntry(reading, spec, a, b);
    hide Split, ParseRange, ParseValue;
    assert ParseStep(reading, [a + ['-'] + b]) == Ok(1);
  }

  // ----- two things the field comments do not say -----

  lemma DashedRange(reading: Reading, spec: FieldSpec, a: string, rest: string, stepped: bool)
    requires '-' !in a
    ensures ParseRange(reading, spec, a + ['-'] + rest, stepped) ==
            RangeFromEnds(reading, spec, a + ['-'] + rest, a, Split(rest, '-')[0])
  {
    var range := a + ['-'] + rest;
    SplitCons(a, rest, '-');
    assert range[|a|] == '-';
    assert '-' !in "*";
  }

  predicate SameRange(x: Result<(int, int), CronError>, y: Result<(int, int), CronError>) {
    if x.Ok? then x == y else y.Err?
  }

  /** A second dash and what follows it are dropped: `a-b-c` reads as `a-b`. */
  lemma SurplusDashIgnored(reading: Reading, spec: FieldSpec, a: string, b: string, c: string, stepped: bool)
    requires '-' !in a && '-' !in b
    ensures SameRange(ParseRange(reading, spec, a + ['-'] + b, stepped),
                      ParseRange(reading, spec, a + ['-'] + (b + ['-'] + c), stepped))
  {
    hide ParseRange, ParseValue, Split;
    DashedRange(reading, spec, a, b, stepped);
    DashedRange(reading, spec, a, b + ['-'] + c, stepped);
    FirstPiece(b, c);
  }

  lemma FirstPiece(b: string, c: string)
    requires '-' !in b
    ensures Split(b, '-')[0] == b && Split(b + ['-'] + c, '-')[0] == b
  {
    SplitCons(b, c, '-');
  }

  /** Seven is Sunday only at the end of a range that starts on Sunday: `5-7` is refused as backwards. */
  lemma RangeToSeven(reading: Reading, a: string, b: string, stepped: bool)
    requires '-' !in a && '-' !in b && b !in DAY_NAMES && reading.number(b) == Some(7)
    requires ParseValue(reading, FIELDS[4], a).Ok?
    ensures ParseRange(reading, FIELDS[4], a + ['-'] + b, stepped) ==
            if ParseValue(reading, FIELDS[4], a).value == 0 then Ok((0, 0)) else Err(Backwards(a + ['-'] + b))
  {
    DashedRange(reading, FIELDS[4], a, b, stepped);
    assert Split(b, '-') == [b];
    FieldSpecsOk();
  }
}
