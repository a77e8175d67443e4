/**
 The `.env` file as setup reads and edits it: one reading of a text as a map, one
 edit that sets a key in place, and the laws that connect them.
 */
module EnvFile {
  import opened Common
  import opened Strings

  type Env = map<string, string>

  predicate Quoted(value: string) {
    value != "" && value[0] == value[|value| - 1] && (value[0] == '"' || value[0] == '\'')
  }

  function StripQuotes(value: string): string {
    if Quoted(value) then if |value| == 1 then "" else value[1..|value| - 1] else value
  }

  // ----- reading -----

  /** What a line defines; blank lines, comments and lines without a key define nothing. */
  function ParseLine(raw: string): Option<(string, string)> {
    var line := Trim(raw);
    var separator := Find(line, '=');
    if line == "" || line[0] == '#' || separator < 1 || separator == |line| then None
    else Some((Trim(line[..separator]), StripQuotes(Trim(line[separator + 1..]))))
  }

  /** A later definition of a key replaces an earlier one. */
  function Meaning(lines: seq<string>): Env {
    if lines == [] then map[]
    else
      var before := Meaning(lines[..|lines| - 1]);
      var last := ParseLine(lines[|lines| - 1]);
      if last.None? then before else before[last.value.0 := last.value.1]
  }

  method ParseEnv(text: string) returns (values: Env)
    ensures values == Meaning(Split(text, '\n'))
  {
    hide ParseLine, Split;
    values := map[];
    var lines := Split(text, '\n');
    var i := 0;
    while i < |lines|
      invariant 0 <= i <= |lines| && values == Meaning(lines[..i])
    {
      var entry := ParseLine(lines[i]);
      if entry.Some? {
        values := values[entry.value.0 := entry.value.1];
      }
      assert lines[..i + 1][..i] == lines[..i];
      i := i + 1;
    }
    assert lines[..i] == lines;
  }

  // ----- editing -----

  /** Whether the edit takes this line for the definition of `key`. */
  predicate Defines(line: string, key: string) {
    var separator := Find(line, '=');
    1 <= separator < |line| && Trim(line[..separator]) == key
  }

  function Replacement(key: string, value: string): string {
    key + "=" + value
  }

  function SetLines(lines: seq<string>, key: string, value: string): (r: seq<string>) {
    var at := FirstDefinition(lines, key);
    if at < |lines| then lines[at := Replacement(key, value)]
    else
      var spaced := if lines != [] && Trim(lines[|lines| - 1]) != "" then lines + [""] else lines;
      spaced + [Replacement(key, value)]
  }

  function FirstDefinition(lines: seq<string>, key: string): (at: nat) {
    if lines == [] || Defines(lines[0], key) then 0 else 1 + FirstDefinition(lines[1..], key)
  }

  lemma {:induction false} FirstDefinitionIs(lines: seq<string>, key: string, at: nat)
    requires at <= |lines| && (at < |lines| ==> Defines(lines[at], key))
    requires forall k :: 0 <= k < at ==> !Defines(lines[k], key)
    ensures FirstDefinition(lines, key) == at
  {
    hide Defines;
    if at > 0 {
      FirstDefinitionIs(lines[1..], key, at - 1);
    }
  }

  lemma {:induction false} FirstDefinitionFinds(lines: seq<string>, key: string) returns (at: nat)
    ensures at == FirstDefinition(lines, key) && at <= |lines| && (at < |lines| ==> Defines(lines[at], key))
    ensures forall k :: 0 <= k < at ==> !Defines(lines[k], key)
  {
    hide Defines;
    if lines == [] || Defines(lines[0], key) {
      at := 0;
    } else {
      var rest := FirstDefinitionFinds(lines[1..], key);
      at := 1 + rest;
    }
  }

  function LinesOf(text: string): seq<string> {
    if text == "" then [] else Split(text, '\n')
  }

  method SetEnvValue(text: string, key: string, value: string) returns (edited: string)
    ensures edited == Join(SetLines(LinesOf(text), key, value), "\n")
  {
    hide Defines, Split, Join, Trim, LinesOf, FirstDefinition;
    var lines := LinesOf(text);
    var index := 0;
    while index < |lines|
      invariant 0 <= index <= |lines| && lines == LinesOf(text)
      invariant forall k :: 0 <= k < index ==> !Defines(lines[k], key)
    {
      if Defines(lines[index], key) {
        FirstDefinitionIs(lines, key, index);
        lines := lines[index := Replacement(key, value)];
        return Join(lines, "\n");
      }
      index := index + 1;
    }
    FirstDefinitionIs(lines, key, index);
    if |lines| > 0 && Trim(lines[|lines| - 1]) != "" {
      lines := lines + [""];
    }
    lines := lines + [Replacement(key, value)];
    edited := Join(lines, "\n");
  }

  // ----- trimming, once more -----

  ghost predicate AllSpace(s: string) {
    forall k :: 0 <= k < |s| ==> IsSpace(s[k])
  }

  lemma {:induction false} TrimDropsLead(space: string, s: string)
    requires AllSpace(space)
    ensures Trim(space + s) == Trim(s)
  {
    if space == "" {
      assert space + s == s;
    } else {
      hide IsSpace;
      assert (space + s)[1..] == space[1..] + s;
      assert AllSpace(space[1..]);
      TrimDropsLead(space[1..], s);
      assert IsSpace((space + s)[0]);
    }
  }

  lemma StartOfTrim(raw: string) returns (lead: string)
    ensures raw == lead + TrimStart(raw) && AllSpace(lead)
  {
    hide IsSpace;
    lead := raw[..|raw| - |TrimStart(raw)|];
  }

  lemma EndOfTrim(raw: string) returns (tail: string)
    ensures raw == TrimEnd(raw) + tail && AllSpace(tail)
  {
    hide IsSpace;
    tail := raw[|TrimEnd(raw)|..];
  }

  /** A line is its trimmed self between white space. */
  lemma Around(raw: string) returns (lead: string, tail: string)
    ensures raw == lead + Trim(raw) + tail && AllSpace(lead) && AllSpace(tail)
  {
    hide AllSpace, TrimStart, TrimEnd;
    lead := StartOfTrim(raw);
    tail := EndOfTrim(TrimStart(raw));
  }

  lemma {:induction false} TrimEndDrops(s: string, space: string)
    requires AllSpace(space)
    ensures TrimEnd(s + space) == TrimEnd(s)
    decreases |space|
  {
    if space == "" {
      assert s + space == s;
    } else {
      hide IsSpace;
      var init := space[..|space| - 1];
      assert (s + space)[..|s + space| - 1] == s + init;
      assert AllSpace(init);
      TrimEndDrops(s, init);
      assert IsSpace((s + space)[|s + space| - 1]);
    }
  }

  lemma TrimIs(lead: string, middle: string, tail: string)
    requires AllSpace(lead) && AllSpace(tail) && IsTrimmed(middle)
    ensures Trim(lead + middle + tail) == middle
  {
    hide IsSpace, AllSpace, Trim;
    assert lead + middle + tail == lead + (middle + tail);
    TrimDropsLead(lead, middle + tail);
    if middle == "" {
      assert middle + tail == tail + "";
      TrimDropsLead(tail, "");
      TrimOfTrimmed("");
    } else {
      TrimOfLeft(middle, tail);
    }
  }

  lemma TrimOfLeft(middle: string, tail: string)
    requires AllSpace(tail) && IsTrimmed(middle) && middle != ""
    ensures Trim(middle + tail) == middle
  {
    hide IsSpace, AllSpace, TrimStart, TrimEnd;
    assert (middle + tail)[0] == middle[0];
    TrimEndDrops(middle, tail);
  }

  lemma TrimDropsTail(s: string, tail: string)
    requires AllSpace(tail)
    ensures Trim(s + tail) == Trim(s)
  {
    hide IsSpace, Trim;
    var lead, rest := Around(s);
    TrimIsTrimmed(s);
    TrimIs(lead, Trim(s), rest + tail);
    assert s + tail == lead + Trim(s) + (rest + tail);
  }

  // ----- the edit and the reading see the same definitions -----

  /** A key a file can hold: what setup writes are such names. */
  ghost predicate PlainKey(key: string) {
    key != "" && IsTrimmed(key) && key[0] != '#' && '=' !in key && '\n' !in key
  }

  lemma NoEquals(space: string)
    requires AllSpace(space)
    ensures '=' !in space
  {
    assert !IsSpace('=');
  }

  /** The parts of a line that has an `=`. */
  lemma Parts(raw: string) returns (lead: string, k: string, v: string, tail: string)
    requires '=' in raw
    ensures AllSpace(lead) && AllSpace(tail) && '=' !in k
    ensures Trim(raw) == k + ['='] + v && raw == lead + (k + ['='] + v) + tail
    ensures Find(Trim(raw), '=') == |k| && Find(raw, '=') == |lead| + |k|
    ensures raw[..|lead| + |k|] == lead + k && Trim(raw)[..|k|] == k && Trim(raw)[|k| + 1..] == v
  {
    hide IsSpace, Trim, AllSpace;
    lead, tail := Around(raw);
    NoEquals(lead);
    NoEquals(tail);
    assert '=' in Trim(raw);
    k, v := CutAtFirst(Trim(raw), '=');
    FindIs(Trim(raw), '=', |k|);
    assert raw[..|lead| + |k|] == lead + k;
    FindIs(raw, '=', |lead| + |k|);
  }

  lemma HashStays(k: string)
    requires k != "" && k[0] == '#'
    ensures Trim(k) != "" && Trim(k)[0] == '#'
  {
    assert !IsSpace(k[0]);
  }

  lemma SameKey(raw: string, key: string)
    requires PlainKey(key)
    ensures Defines(raw, key) <==> ParseLine(raw).Some? && ParseLine(raw).value.0 == key
  {
    if '=' in raw {
      hide IsSpace, Trim, AllSpace, StripQuotes;
      var lead, k, v, tail := Parts(raw);
      TrimDropsLead(lead, k);
      if k == "" {
        assert Trim("") == "" by { TrimOfTrimmed(""); }
      } else {
        assert Trim(raw)[0] == k[0];
        if k[0] == '#' {
          HashStays(k);
        }
      }
    } else {
      hide Trim, IsSpace, StripQuotes;
      TrimIsTrimmed(raw);
      assert '=' !in Trim(raw);
    }
  }

  /** What a value reads back as once it is in the file. */
  function Read(value: string): string {
    StripQuotes(Trim(value))
  }

  /** A value reads back as itself exactly when it has no outer white space and no pair of quotes around it. */
  lemma ReadsBackExactlyWhen(value: string)
    ensures Read(value) == value <==> IsTrimmed(value) && !Quoted(value)
  {
    hide IsSpace;
    if IsTrimmed(value) {
      TrimOfTrimmed(value);
    } else {
      hide IsTrimmed, Trim;
      TrimIsTrimmed(value);
      var lead, tail := Around(value);
      assert Trim(value) != value;
      assert lead + Trim(value) + tail == value;
      assert |Trim(value)| == |value| ==> lead == "" && tail == "";
    }
  }

  /** One pair of double or of single quotes around a value is taken off, whatever it holds. */
  lemma QuotesAreTakenOff(v: string)
    ensures Read(['"'] + v + ['"']) == v && Read(['\''] + v + ['\'']) == v
  {
    forall q | q == '"' || q == '\''
      ensures Read([q] + v + [q]) == v
    {
      var quoted := [q] + v + [q];
      assert quoted[0] == q && quoted[|quoted| - 1] == q && quoted[1..|quoted| - 1] == v;
      TrimOfTrimmed(quoted);
    }
  }

  /** So is a quote that stands alone. */
  lemma LoneQuoteIsTakenOff(q: char)
    requires q == '"' || q == '\''
    ensures Read([q]) == ""
  {
    hide IsSpace, Trim;
    QuoteIsNoSpace(q);
    TrimOfTrimmed([q]);
  }

  lemma QuoteIsNoSpace(q: char)
    requires q == '"' || q == '\''
    ensures !IsSpace(q)
  {
  }

  /** Nothing else is: a value that begins and ends differently, or with something else, reads as it is trimmed. */
  lemma NothingElseIsTakenOff(value: string)
    requires var v := Trim(value); v == "" || v[0] != v[|v| - 1] || v[0] !in {'"', '\''}
    ensures Read(value) == Trim(value)
  {
    hide Trim;
  }

  /** A line defines nothing exactly when it is blank, a comment, or has no `=` after at least one character. */
  lemma DefinesNothingExactlyWhen(raw: string)
    ensures ParseLine(raw).None? <==> var line := Trim(raw); line == "" || line[0] == '#' || line[0] == '=' || '=' !in line
  {
    hide Trim, StripQuotes;
    var line := Trim(raw);
    if line != "" && line[0] == '=' {
      assert line[..0] == "";
      FindIs(line, '=', 0);
    }
  }

  lemma LeadIsEmpty(lead: string, raw: string)
    requires AllSpace(lead) && lead <= raw && raw != "" && !IsSpace(raw[0])
    ensures lead == ""
  {
    hide IsSpace;
  }

  lemma SameParts(k: string, v: string, tail: string, key: string, value: string)
    requires (k + ['='] + v) + tail == key + ['='] + value && |k| == |key|
    ensures k == key && v + tail == value
  {
    var whole := key + ['='] + value;
    assert whole[..|k|] == k && whole[|k| + 1..] == v + tail;
    assert whole[..|key|] == key && whole[|key| + 1..] == value;
  }

  lemma FindReplacement(key: string, value: string)
    requires PlainKey(key)
    ensures Find(Replacement(key, value), '=') == |key| && !IsSpace(Replacement(key, value)[0])
  {
    hide IsSpace;
    var raw := Replacement(key, value);
    assert raw[..|key|] == key && raw[|key|] == '=' && raw[0] == key[0];
    FindIs(raw, '=', |key|);
  }

  lemma ReplacementParts(key: string, value: string) returns (v: string, tail: string)
    requires PlainKey(key)
    ensures AllSpace(tail) && value == v + tail
    ensures var line := Trim(Replacement(key, value));
      line == key + ['='] + v && Find(line, '=') == |key| && line[..|key|] == key && line[|key| + 1..] == v
  {
    hide IsSpace, Trim, AllSpace, StripQuotes, TrimStart, TrimEnd, Find, PlainKey;
    var raw := Replacement(key, value);
    FindReplacement(key, value);
    var lead, k;
    lead, k, v, tail := Parts(raw);
    assert lead <= raw;
    LeadIsEmpty(lead, raw);
    assert lead + (k + ['='] + v) + tail == (k + ['='] + v) + tail;
    SameParts(k, v, tail, key, value);
  }

  lemma ReplacementReads(key: string, value: string)
    requires PlainKey(key)
    ensures ParseLine(Replacement(key, value)) == Some((key, Read(value)))
  {
    hide IsSpace, Trim, AllSpace, StripQuotes, Replacement;
    var v, tail := ReplacementParts(key, value);
    assert Trim(Replacement(key, value))[0] == key[0];
    TrimDropsTail(v, tail);
    TrimOfTrimmed(key);
  }

  // ----- the laws -----

  /** How many lines define `key`. */
  function Definitions(lines: seq<string>, key: string): nat {
    if lines == [] then 0
    else Definitions(lines[..|lines| - 1], key) + if Defines(lines[|lines| - 1], key) then 1 else 0
  }

  lemma MeaningAppend(lines: seq<string>, line: string)
    ensures Meaning(lines + [line]) ==
      if ParseLine(line).None? then Meaning(lines) else Meaning(lines)[ParseLine(line).value.0 := ParseLine(line).value.1]
  {
    hide ParseLine;
    assert (lines + [line])[..|lines|] == lines;
  }

  lemma {:induction false} DefinedIffCounted(lines: seq<string>, key: string)
    requires PlainKey(key)
    ensures key in Meaning(lines) <==> Definitions(lines, key) > 0
  {
    hide Defines, ParseLine, PlainKey;
    if lines != [] {
      DefinedIffCounted(lines[..|lines| - 1], key);
      SameKey(lines[|lines| - 1], key);
    }
  }

  /** Replacing the line at `at` that defines `key`: later definitions of `key`, if any, still win. */
  lemma {:induction false} Replaced(lines: seq<string>, at: nat, key: string, value: string)
    requires PlainKey(key) && at < |lines| && Defines(lines[at], key)
    requires forall k :: 0 <= k < at ==> !Defines(lines[k], key)
    ensures var after := lines[at := Replacement(key, value)];
      && Definitions(lines, key) >= 1
      && Meaning(after) == if Definitions(lines, key) == 1 then Meaning(lines)[key := Read(value)] else Meaning(lines)
  {
    hide Defines, ParseLine, PlainKey, Replacement, Read;
    var n := |lines| - 1;
    var after := lines[at := Replacement(key, value)];
    SameKey(lines[n], key);
    if at == n {
      NoneCounted(lines[..n], key);
      ReplacementReads(key, value);
      assert after[..n] == lines[..n];
    } else {
      Replaced(lines[..n], at, key, value);
      assert after[..n] == lines[..n][at := Replacement(key, value)];
      if Defines(lines[n], key) {
        DefinedIffCounted(lines[..n], key);
      }
    }
  }

  lemma {:induction false} NoneCounted(lines: seq<string>, key: string)
    requires forall k :: 0 <= k < |lines| ==> !Defines(lines[k], key)
    ensures Definitions(lines, key) == 0
  {
    hide Defines;
    if lines != [] {
      NoneCounted(lines[..|lines| - 1], key);
    }
  }

  lemma BlankLineMeansNothing()
    ensures ParseLine("") == None
  {
  }

  /** Setting a key and reading the file: the first definition is written, the last one is read. */
  lemma SetThenRead(lines: seq<string>, key: string, value: string)
    requires PlainKey(key)
    ensures Meaning(SetLines(lines, key, value)) ==
      if Definitions(lines, key) <= 1 then Meaning(lines)[key := Read(value)] else Meaning(lines)
  {
    hide Defines, ParseLine, PlainKey, Replacement, Read, Trim;
    var at := FirstDefinitionFinds(lines, key);
    if at < |lines| {
      Replaced(lines, at, key, value);
    } else {
      NoneCounted(lines, key);
      ReplacementReads(key, value);
      BlankLineMeansNothing();
      MeaningAppend(lines, "");
      MeaningAppend(lines, Replacement(key, value));
      MeaningAppend(lines + [""], Replacement(key, value));
    }
  }

  /** The edit is an update of the map exactly when the key has no second definition that says otherwise. */
  lemma UpdatesExactlyWhen(lines: seq<string>, key: string, value: string)
    requires PlainKey(key)
    ensures key in Meaning(lines) <==> Definitions(lines, key) > 0
    ensures Meaning(SetLines(lines, key, value)) == Meaning(lines)[key := Read(value)] <==>
      Definitions(lines, key) <= 1 || Meaning(lines)[key] == Read(value)
  {
    hide Meaning, SetLines, Definitions, Read, PlainKey;
    DefinedIffCounted(lines, key);
    SetThenRead(lines, key, value);
  }

  // ----- on texts -----

  predicate OneLine(s: string) {
    '\n' !in s
  }

  lemma SplitEmpty()
    ensures Split("", '\n') == [""]
  {
  }

  lemma BlankMeaning()
    ensures Meaning([""]) == map[] && Meaning([]) == map[]
  {
    hide ParseLine;
    BlankLineMeansNothing();
    MeaningAppend([], "");
    assert [] + [""] == [""];
  }

  lemma LinesBack(lines: seq<string>)
    requires lines != [] && forall k :: 0 <= k < |lines| ==> OneLine(lines[k])
    ensures Meaning(LinesOf(Join(lines, "\n"))) == Meaning(lines)
    ensures Join(lines, "\n") != "" ==> LinesOf(Join(lines, "\n")) == lines
  {
    SplitJoin(lines, '\n');
    if Join(lines, "\n") == "" {
      SplitEmpty();
      hide Split, ParseLine, Meaning;
      BlankMeaning();
    }
  }

  function Values(text: string): Env {
    Meaning(LinesOf(text))
  }

  /** The reader of a text splits even an empty one; that makes no difference. */
  lemma ReadsTheSame(text: string)
    ensures Meaning(Split(text, '\n')) == Values(text)
  {
    if text == "" {
      SplitEmpty();
      hide Split, ParseLine, Meaning;
      BlankMeaning();
    }
  }

  function Set(text: string, key: string, value: string): string {
    Join(SetLines(LinesOf(text), key, value), "\n")
  }

  ghost predicate AllOneLine(lines: seq<string>) {
    forall k :: 0 <= k < |lines| ==> OneLine(lines[k])
  }

  lemma SetLinesShape(lines: seq<string>, key: string, value: string)
    requires PlainKey(key) && OneLine(value) && AllOneLine(lines)
    ensures AllOneLine(SetLines(lines, key, value)) && Replacement(key, value) in SetLines(lines, key, value)
  {
    hide Defines, Trim;
    var at := FirstDefinitionFinds(lines, key);
    var after := SetLines(lines, key, value);
    assert after[if at < |lines| then at else |after| - 1] == Replacement(key, value);
  }

  lemma LinesAreLines(text: string)
    ensures AllOneLine(LinesOf(text))
  {
  }

  lemma {:induction false} JoinNotEmpty(parts: seq<string>, part: string)
    requires part in parts && part != ""
    ensures Join(parts, "\n") != ""
  {
    if |parts| > 1 && part != parts[0] {
      assert part in parts[1..];
      JoinNotEmpty(parts[1..], part);
    }
  }

  lemma SetKeepsLines(text: string, key: string, value: string)
    requires PlainKey(key) && OneLine(value)
    ensures LinesOf(Set(text, key, value)) == SetLines(LinesOf(text), key, value)
  {
    hide SetLines, LinesOf, Join, Split;
    LinesAreLines(text);
    SetLinesShape(LinesOf(text), key, value);
    var after := SetLines(LinesOf(text), key, value);
    JoinNotEmpty(after, Replacement(key, value));
    LinesBack(after);
  }

  lemma {:induction false} JoinSnoc(lines: seq<string>, last: string)
    requires lines != []
    ensures Join(lines + [last], "\n") == Join(lines, "\n") + "\n" + last
  {
    if |lines| > 1 {
      JoinSnoc(lines[1..], last);
      assert (lines + [last])[1..] == lines[1..] + [last];
    } else {
      assert (lines + [last])[1..] == [last];
    }
  }

  /** A key that no line defines is written at the end of the text, after a blank line. */
  lemma NewKeyIsAppended(text: string, key: string, value: string)
    requires forall line :: line in LinesOf(text) ==> !Defines(line, key)
    ensures Set(text, key, value) ==
      if text == "" then key + "=" + value
      else if Trim(LinesOf(text)[|LinesOf(text)| - 1]) == "" then text + "\n" + (key + "=" + value)
      else text + "\n\n" + (key + "=" + value)
  {
    var lines := LinesOf(text);
    FirstDefinitionIs(lines, key, |lines|);
    AppendedLines(lines, key, value);
    TextOfLines(text);
    hide Defines, Trim, FirstDefinition, SetLines, LinesOf, Join;
    if text != "" {
      AppendedText(lines, key + "=" + value);
    } else {
      JoinOne(key + "=" + value);
    }
  }

  lemma TextOfLines(text: string)
    ensures text == "" ==> LinesOf(text) == []
    ensures text != "" ==> LinesOf(text) != [] && Join(LinesOf(text), "\n") == text
  {
    if text != "" {
      JoinSplit(text, '\n');
    }
  }

  lemma JoinOne(entry: string)
    ensures Join([] + [entry], "\n") == entry
  {
    assert [] + [entry] == [entry];
  }

  lemma AppendedText(lines: seq<string>, entry: string)
    requires lines != []
    ensures Join(lines + [entry], "\n") == Join(lines, "\n") + "\n" + entry
    ensures Join(lines + [""] + [entry], "\n") == Join(lines, "\n") + "\n\n" + entry
  {
    JoinSnoc(lines, entry);
    JoinSnoc(lines, "");
    JoinSnoc(lines + [""], entry);
    hide Join;
    assert Join(lines, "\n") + "\n" + "" + "\n" + entry == Join(lines, "\n") + "\n\n" + entry;
  }

  lemma AppendedLines(lines: seq<string>, key: string, value: string)
    requires FirstDefinition(lines, key) == |lines|
    ensures SetLines(lines, key, value) ==
      (if lines != [] && Trim(lines[|lines| - 1]) != "" then lines + [""] else lines) + [Replacement(key, value)]
  {
    hide Trim, FirstDefinition;
  }

  /** Otherwise the first line that defines it becomes `key=value`, and no other line changes. */
  lemma OneLineIsReplaced(text: string, key: string, value: string, at: nat)
    requires PlainKey(key) && OneLine(value)
    requires at < |LinesOf(text)| && Defines(LinesOf(text)[at], key)
    requires forall k :: 0 <= k < at ==> !Defines(LinesOf(text)[k], key)
    ensures var before, after := LinesOf(text), LinesOf(Set(text, key, value));
      && |after| == |before| && after[at] == key + "=" + value
      && forall k :: 0 <= k < |before| && k != at ==> after[k] == before[k]
  {
    FirstDefinitionIs(LinesOf(text), key, at);
    SetKeepsLines(text, key, value);
    hide Defines, LinesOf, FirstDefinition, Set;
  }

  lemma SetLinesTwice(lines: seq<string>, key: string, first: string, second: string)
    requires PlainKey(key)
    ensures SetLines(SetLines(lines, key, first), key, second) == SetLines(lines, key, second)
  {
    hide Defines, Trim, PlainKey, Replacement, FirstDefinition;
    var at := FirstDefinitionFinds(lines, key);
    var once := SetLines(lines, key, first);
    DefinesReplacement(key, first);
    BlankDefinesNothing(key);
    if at < |lines| {
      FirstDefinitionIs(once, key, at);
    } else {
      FirstDefinitionIs(once, key, |once| - 1);
    }
  }

  /** Setting a key twice is setting it once to the second value, in the text itself. */
  lemma SetTwice(text: string, key: string, first: string, second: string)
    requires PlainKey(key) && OneLine(first)
    ensures Set(Set(text, key, first), key, second) == Set(text, key, second)
  {
    hide LinesOf, Join, SetLines, PlainKey;
    SetKeepsLines(text, key, first);
    SetLinesTwice(LinesOf(text), key, first, second);
  }

  lemma DefinesReplacement(key: string, value: string)
    requires PlainKey(key)
    ensures Defines(Replacement(key, value), key)
  {
    hide Defines, ParseLine;
    ReplacementReads(key, value);
    SameKey(Replacement(key, value), key);
  }

  lemma BlankDefinesNothing(key: string)
    ensures !Defines("", key)
  {
  }

  lemma {:induction false} OthersCounted(lines: seq<string>, at: nat, key: string, value: string, other: string)
    requires PlainKey(key) && PlainKey(other) && other != key && at < |lines| && Defines(lines[at], key)
    ensures Definitions(lines[at := Replacement(key, value)], other) == Definitions(lines, other)
  {
    hide Defines, ParseLine, PlainKey, Replacement, Read;
    var n := |lines| - 1;
    var after := lines[at := Replacement(key, value)];
    if at == n {
      ReplacementReads(key, value);
      SameKey(Replacement(key, value), other);
      SameKey(lines[n], key);
      SameKey(lines[n], other);
      assert after[..n] == lines[..n];
    } else {
      OthersCounted(lines[..n], at, key, value, other);
      assert after[..n] == lines[..n][at := Replacement(key, value)];
    }
  }

  lemma CountAppend(lines: seq<string>, line: string, key: string)
    ensures Definitions(lines + [line], key) == Definitions(lines, key) + if Defines(line, key) then 1 else 0
  {
    hide Defines;
    assert (lines + [line])[..|lines|] == lines;
  }

  lemma OtherKeysKeepCount(lines: seq<string>, key: string, value: string, other: string)
    requires PlainKey(key) && PlainKey(other) && other != key
    ensures Definitions(SetLines(lines, key, value), other) == Definitions(lines, other)
  {
    hide Defines, ParseLine, PlainKey, Replacement, Read, Trim, Definitions;
    var at := FirstDefinitionFinds(lines, key);
    if at < |lines| {
      OthersCounted(lines, at, key, value, other);
    } else {
      ReplacementReads(key, value);
      SameKey(Replacement(key, value), other);
      BlankDefinesNothing(other);
      CountAppend(lines, "", other);
      CountAppend(lines, Replacement(key, value), other);
      CountAppend(lines + [""], Replacement(key, value), other);
    }
  }

  // ----- the whole edit -----

  datatype Planned = Planned(key: string, value: string)

  function SetAll(text: string, planned: seq<Planned>): string
    decreases planned
  {
    if planned == [] then text else SetAll(Set(text, planned[0].key, planned[0].value), planned[1..])
  }

  function UpdateAll(env: Env, planned: seq<Planned>): Env
    decreases planned
  {
    if planned == [] then env else UpdateAll(env[planned[0].key := Read(planned[0].value)], planned[1..])
  }

  function Lookup(env: Env, key: string): Option<string> {
    if key in env then Some(env[key]) else None
  }

  /** What setup plans: plain keys, each once, with values that fit on a line. */
  ghost predicate Plan(planned: seq<Planned>) {
    && (forall k :: 0 <= k < |planned| ==> PlainKey(planned[k].key) && OneLine(planned[k].value))
    && (forall j, k :: 0 <= j < k < |planned| ==> planned[j].key != planned[k].key)
  }

  /** The edit for `p` shows: its key has no second line, or the last one already says so. */
  ghost predicate Shows(text: string, p: Planned) {
    Definitions(LinesOf(text), p.key) <= 1 || (p.key in Values(text) && Values(text)[p.key] == Read(p.value))
  }

  lemma SetMeaning(text: string, key: string, value: string)
    requires PlainKey(key) && OneLine(value)
    ensures Values(Set(text, key, value)) ==
      if Definitions(LinesOf(text), key) <= 1 then Values(text)[key := Read(value)] else Values(text)
    ensures key in Values(text) <==> Definitions(LinesOf(text), key) > 0
  {
    hide SetLines, Definitions, PlainKey, Read, LinesOf, Set, OneLine, Meaning;
    SetKeepsLines(text, key, value);
    SetThenRead(LinesOf(text), key, value);
    DefinedIffCounted(LinesOf(text), key);
  }

  /** An edit changes nothing about whether the edit of another key shows. */
  lemma ShowsAfter(text: string, first: Planned, p: Planned)
    requires PlainKey(first.key) && OneLine(first.value) && PlainKey(p.key) && p.key != first.key
    ensures Shows(Set(text, first.key, first.value), p) <==> Shows(text, p)
  {
    hide SetLines, Definitions, PlainKey, Read, LinesOf, Set, OneLine, Values;
    SetMeaning(text, first.key, first.value);
    SetKeepsLines(text, first.key, first.value);
    OtherKeysKeepCount(LinesOf(text), first.key, first.value, p.key);
  }

  lemma PlanTail(planned: seq<Planned>)
    requires planned != [] && Plan(planned)
    ensures Plan(planned[1..]) && PlainKey(planned[0].key) && OneLine(planned[0].value)
    ensures forall k :: 0 <= k < |planned| - 1 ==> PlainKey(planned[1..][k].key) && planned[1..][k].key != planned[0].key
  {
    hide PlainKey, OneLine;
  }

  /** A key that is not planned is read as before. */
  lemma {:induction false} UnplannedIsKept(text: string, planned: seq<Planned>, key: string)
    requires Plan(planned) && forall k :: 0 <= k < |planned| ==> planned[k].key != key
    ensures Lookup(Values(SetAll(text, planned)), key) == Lookup(Values(text), key)
    decreases planned
  {
    hide Set, Values, Read, Plan, PlainKey, OneLine;
    if planned != [] {
      PlanTail(planned);
      SetMeaning(text, planned[0].key, planned[0].value);
      UnplannedIsKept(Set(text, planned[0].key, planned[0].value), planned[1..], key);
    }
  }

  lemma {:induction false} UpdateKeeps(env: Env, planned: seq<Planned>, key: string)
    requires forall k :: 0 <= k < |planned| ==> planned[k].key != key
    ensures Lookup(UpdateAll(env, planned), key) == Lookup(env, key)
    decreases planned
  {
    hide Read;
    if planned != [] {
      UpdateKeeps(env[planned[0].key := Read(planned[0].value)], planned[1..], key);
    }
  }

  /**
   Writing every planned key and reading the file back is updating the map with all of
   them exactly when each edit shows.
   */
  lemma {:induction false} EveryPlannedKeyIsReadExactlyWhen(text: string, planned: seq<Planned>)
    requires Plan(planned)
    ensures Values(SetAll(text, planned)) == UpdateAll(Values(text), planned) <==>
      forall p :: p in planned ==> Shows(text, p)
    decreases planned
  {
    hide Set, Values, Read, Plan, PlainKey, OneLine, Shows;
    if planned != [] {
      var first, rest := planned[0], planned[1..];
      PlanTail(planned);
      var next := Set(text, first.key, first.value);
      forall p | p in rest
        ensures Shows(next, p) <==> Shows(text, p)
      {
        ShowsAfter(text, first, p);
      }
      assert forall p :: p in planned <==> p == first || p in rest;
      if Shows(text, first) {
        ShownIsUpdate(text, first);
        EveryPlannedKeyIsReadExactlyWhen(next, rest);
      } else {
        HiddenIsLost(text, first);
        UnplannedIsKept(next, rest, first.key);
        UpdateKeeps(Values(text)[first.key := Read(first.value)], rest, first.key);
      }
    }
  }

  lemma ShownIsUpdate(text: string, p: Planned)
    requires PlainKey(p.key) && OneLine(p.value) && Shows(text, p)
    ensures Values(Set(text, p.key, p.value)) == Values(text)[p.key := Read(p.value)]
  {
    hide Set, Values, Read, PlainKey, OneLine, Definitions, LinesOf;
    SetMeaning(text, p.key, p.value);
  }

  lemma HiddenIsLost(text: string, p: Planned)
    requires PlainKey(p.key) && OneLine(p.value) && !Shows(text, p)
    ensures Lookup(Values(Set(text, p.key, p.value)), p.key) != Some(Read(p.value))
  {
    hide Set, Values, Read, PlainKey, OneLine, Definitions, LinesOf;
    SetMeaning(text, p.key, p.value);
  }

  method Apply(text: string, planned: seq<Planned>) returns (written: string)
    ensures written == EnsureTrailingNewline(SetAll(text, planned))
    ensures var edited := SetAll(text, planned);
      written == edited || (written == edited + "\n" && (edited == "" || edited[|edited| - 1] != '\n'))
    ensures written != "" && written[|written| - 1] == '\n'
  {
    hide Set, EnsureTrailingNewline;
    written := text;
    var k := 0;
    while k < |planned|
      invariant 0 <= k <= |planned| && SetAll(text, planned) == SetAll(written, planned[k..])
    {
      assert planned[k..][1..] == planned[k + 1..];
      written := SetOnce(written, planned[k].key, planned[k].value);
      k := k + 1;
    }
    EndsOnce(written);
    written := EnsureTrailingNewline(written);
  }

  method SetOnce(text: string, key: string, value: string) returns (edited: string)
    ensures edited == Set(text, key, value)
  {
    edited := SetEnvValue(text, key, value);
  }

  function EnsureTrailingNewline(text: string): string {
    if text != "" && text[|text| - 1] == '\n' then text else text + "\n"
  }

  /** The text ends in a newline afterwards, and one is added only where there was none. */
  lemma EndsOnce(text: string)
    ensures var ended := EnsureTrailingNewline(text);
      && ended != "" && ended[|ended| - 1] == '\n'
      && (ended == text || (ended == text + "\n" && (text == "" || text[|text| - 1] != '\n')))
  {
  }

  /** The newline that is added at the end changes nothing that is read. */
  lemma TrailingNewlineIsRead(text: string)
    ensures Values(EnsureTrailingNewline(text)) == Values(text)
  {
    if !(text != "" && text[|text| - 1] == '\n') {
      var lines := Split(text, '\n');
      JoinSplit(text, '\n');
      var longer := lines + [""];
      JoinBlank(lines);
      assert Join(longer, "\n") == text + "\n";
      assert forall k :: 0 <= k < |longer| ==> '\n' !in longer[k];
      SplitJoin(longer, '\n');
      BlankLineMeansNothing();
      MeaningAppend(lines, "");
      ReadsTheSame(text);
    }
  }

  lemma {:induction false} JoinBlank(lines: seq<string>)
    requires lines != []
    ensures Join(lines + [""], "\n") == Join(lines, "\n") + "\n"
  {
    if |lines| > 1 {
      JoinBlank(lines[1..]);
      assert (lines + [""])[1..] == lines[1..] + [""];
    } else {
      assert (lines + [""])[1..] == [""];
    }
  }

  // ----- setting up without answers -----

  predicate IsBlank(value: Option<string>) {
    value.None? || Trim(value.value) == ""
  }

  /** `ensurePrompted` when nobody answers: what is planned for `key`, if anything. */
  function Prompted(env: Env, key: string, fallback: string, promptAlways: bool): Option<string> {
    var existing := Lookup(env, key);
    if !promptAlways && !IsBlank(existing) then None
    else
      var value := if IsBlank(existing) then fallback else existing.value;
      if Some(value) == existing then None else Some(value)
  }

  /**
   The database password falls back to the value it has, when there is a line for
   it at all. So a line that is there but empty, as in a new file, stays empty: a
   password is generated exactly when the key is missing.
   */
  lemma PasswordIsGeneratedExactlyWhenMissing(env: Env, generated: string)
    requires Trim(generated) != ""
    ensures var key := "POSTGRES_PASSWORD";
      Prompted(env, key, if key in env then env[key] else generated, true) == if key in env then None else Some(generated)
  {
  }

  /** The text once what is planned for `key` is written. */
  function Written(text: string, key: string, planned: Option<string>): string {
    if planned.Some? then Set(text, key, planned.value) else text
  }

  /**
   When nobody answers, a prompted key that was blank is blank afterwards, unless
   its default reads as something and it has no second line for it to be hidden by.
   */
  lemma KeyIsFilledExactlyWhen(text: string, key: string, fallback: string, promptAlways: bool)
    requires PlainKey(key) && OneLine(fallback)
    ensures var after := Values(Written(text, key, Prompted(Values(text), key, fallback, promptAlways)));
      !IsBlank(Lookup(after, key)) <==>
        || !IsBlank(Lookup(Values(text), key))
        || (Definitions(LinesOf(text), key) <= 1 && !IsBlank(Some(Read(fallback))))
    ensures !IsBlank(Lookup(Values(text), key)) ==> Written(text, key, Prompted(Values(text), key, fallback, promptAlways)) == text
    ensures IsBlank(Lookup(Values(text), key)) && !IsBlank(Some(fallback)) ==>
      Written(text, key, Prompted(Values(text), key, fallback, promptAlways)) == Set(text, key, fallback)
  {
    SetMeaning(text, key, fallback);
    BlankReadsBlank(fallback);
    hide Set, Values, Read, PlainKey, OneLine, Definitions, LinesOf, Trim;
  }

  lemma BlankReadsBlank(value: string)
    ensures IsBlank(Some(value)) ==> IsBlank(Some(Read(value)))
  {
    hide TrimStart, TrimEnd;
    TrimOfTrimmed("");
  }

  /** So a setup that nobody answers leaves the database password blank exactly when the file had a blank one. */
  lemma PasswordStaysBlankExactlyWhen(text: string, generated: string)
    requires OneLine(generated) && !IsBlank(Some(Read(generated)))
    ensures var key := "POSTGRES_PASSWORD";
      var env := Values(text);
      var after := Values(Written(text, key, Prompted(env, key, if key in env then env[key] else generated, true)));
      IsBlank(Lookup(after, key)) <==> key in env && IsBlank(Lookup(env, key))
  {
    var key := "POSTGRES_PASSWORD";
    PasswordKeyIsPlain();
    SetMeaning(text, key, generated);
    BlankReadsBlank(generated);
    PasswordIsGeneratedExactlyWhenMissing(Values(text), generated);
    hide Set, Values, Read, PlainKey, OneLine, Definitions, LinesOf, Trim, Prompted;
  }

  lemma PasswordKeyIsPlain()
    ensures PlainKey("POSTGRES_PASSWORD")
  {
  }
}
