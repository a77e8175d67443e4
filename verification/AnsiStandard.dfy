/**
 The Select Graphic Rendition sequence as ECMA-48 defines it (sections 5.4 and
 8.3.117), next to what the parser takes for one.
 */
module AnsiStandard {
  import opened Common
  import opened AnsiText
  import opened AnsiParser

  const SEMICOLON: Unit := 0x3b
  const COLON: Unit := 0x3a

  // ----- the standard -----

  /**
   Digits and the two separators. Bytes 0x3C to 0x3F open a private parameter string
   or are reserved, and bytes 0x20 to 0x2F are intermediate: they select another function.
   */
  predicate IsStandardParameter(u: Unit) {
    0x30 <= u <= 0x3b
  }

  /** A control sequence begins at `i` and its final byte `m` is at `j`, with nothing but parameters in between. */
  predicate IsSgr(input: Text, i: nat, j: nat) {
    && i + 2 <= j < |input| && input[i] == ESC && input[i + 1] == 0x5b && input[j] == 0x6d
    && forall k :: i + 2 <= k < j ==> IsStandardParameter(input[k])
  }

  /** The parameter sub-strings: what stands between semicolons. */
  function SubStrings(parameters: Text, part: Text): (r: seq<Text>)
    ensures r != []
    decreases |parameters|
  {
    if parameters == [] then [part]
    else if parameters[0] == SEMICOLON then [part] + SubStrings(parameters[1..], [])
    else SubStrings(parameters[1..], part + [parameters[0]])
  }

  /** An empty sub-string stands for the default, 0. A colon is inside a sub-string and separates none. */
  function StandardCodes(code: Text -> int, parameters: Text): seq<int> {
    Values(code, SubStrings(parameters, []))
  }

  function Values(code: Text -> int, parts: seq<Text>): (r: seq<int>)
    ensures |r| == |parts| && forall k :: 0 <= k < |parts| ==> r[k] == if parts[k] == [] then 0 else code(parts[k])
  {
    seq(|parts|, k requires 0 <= k < |parts| => if parts[k] == [] then 0 else code(parts[k]))
  }

  /** What the standard has a text do to the rendition at `i`, if anything. */
  ghost function StandardStyle(code: Text -> int, input: Text, i: nat): Option<seq<int>> {
    if exists j: nat :: IsSgr(input, i, j) then
      var j: nat :| IsSgr(input, i, j);
      Some(StandardCodes(code, input[i + 2..j]))
    else None
  }

  /** What the parser does to it. */
  function ParsedStyle(code: Text -> int, input: Text, i: nat): Option<seq<int>>
    requires i < |input|
  {
    var token := Scan(code, input, i).0;
    if token.Style? then Some(token.codes) else None
  }

  // ----- the parameter list -----

  ghost predicate NoneEmpty(parts: seq<Text>) {
    forall k :: 0 <= k < |parts| ==> |parts[k]| > 0
  }

  /** No colon, and either nothing at all or no sub-string left empty. */
  ghost predicate Plain(parameters: Text) {
    COLON !in parameters && (parameters == [] || NoneEmpty(SubStrings(parameters, [])))
  }

  lemma PrependNoneEmpty(part: Text, rest: seq<Text>)
    ensures NoneEmpty([part] + rest) <==> part != [] && NoneEmpty(rest)
  {
    var all := [part] + rest;
    assert all[0] == part && all[1..] == rest;
    assert forall k :: 0 < k < |all| ==> all[k] == rest[k - 1];
    assert forall k :: 0 <= k < |rest| ==> |rest[k]| == |all[k + 1]|;
  }

  /** Without colons the parser's pieces are the sub-strings, except that the empty ones are gone. */
  lemma {:induction false} PiecesAreSubStrings(parameters: Text, part: Text)
    requires COLON !in parameters
    ensures NoneEmpty(SubStrings(parameters, part)) ==> Pieces(parameters, part) == SubStrings(parameters, part)
    decreases |parameters|
  {
    if parameters != [] {
      if parameters[0] == SEMICOLON {
        PiecesAreSubStrings(parameters[1..], []);
        PrependNoneEmpty(part, SubStrings(parameters[1..], []));
      } else {
        PiecesAreSubStrings(parameters[1..], part + [parameters[0]]);
      }
    } else {
      assert SubStrings(parameters, part)[0] == part;
    }
  }

  /** No piece is empty or holds a colon. */
  lemma {:induction false} PiecesAreClean(parameters: Text, part: Text)
    requires COLON !in part
    ensures forall k :: 0 <= k < |Pieces(parameters, part)| ==> Pieces(parameters, part)[k] != [] && COLON !in Pieces(parameters, part)[k]
    decreases |parameters|
  {
    if parameters != [] {
      if parameters[0] == SEMICOLON || parameters[0] == COLON {
        PiecesAreClean(parameters[1..], []);
      } else {
        PiecesAreClean(parameters[1..], part + [parameters[0]]);
      }
    }
  }

  lemma {:induction false} ColonStaysInSubString(parameters: Text, part: Text) returns (k: nat)
    requires COLON in part || COLON in parameters
    ensures k < |SubStrings(parameters, part)| && COLON in SubStrings(parameters, part)[k]
    decreases |parameters|
  {
    if parameters == [] {
      k := 0;
    } else if parameters[0] == SEMICOLON {
      if COLON in part {
        k := 0;
      } else {
        var rest := ColonStaysInSubString(parameters[1..], []);
        k := rest + 1;
      }
    } else {
      assert COLON in part + [parameters[0]] || COLON in parameters[1..];
      k := ColonStaysInSubString(parameters[1..], part + [parameters[0]]);
    }
  }

  lemma {:induction false} SeveralUnlessAlone(parameters: Text, part: Text)
    ensures |SubStrings(parameters, part)| == 1 ==> SubStrings(parameters, part)[0] == part + parameters
    decreases |parameters|
  {
    if parameters != [] && parameters[0] != SEMICOLON {
      SeveralUnlessAlone(parameters[1..], part + [parameters[0]]);
      assert part + [parameters[0]] + parameters[1..] == part + parameters;
    } else if parameters == [] {
      assert part + parameters == part;
    }
  }

  /** A reading that tells sub-strings with a colon, other sub-strings and the default apart. */
  function Telling(): Text -> int {
    (t: Text) => if COLON in t then 2 else 1
  }

  lemma TellingTells(parameters: Text)
    requires !Plain(parameters)
    ensures Codes(Telling(), parameters) != StandardCodes(Telling(), parameters)
  {
    var pieces, parts := Pieces(parameters, []), SubStrings(parameters, []);
    var parsed, standard := Codes(Telling(), parameters), StandardCodes(Telling(), parameters);
    PiecesAreClean(parameters, []);
    assert forall k :: 0 <= k < |parsed| ==> parsed[k] == if pieces == [] then 0 else 1;
    hide Pieces, SubStrings;
    if COLON in parameters {
      var k := ColonStaysInSubString(parameters, []);
      assert standard[k] == 2;
    } else {
      var k :| 0 <= k < |parts| && parts[k] == [];
      assert standard[k] == 0;
      SeveralUnlessAlone(parameters, []);
      assert [] + parameters == parameters;
      assert |parts| > 1;
      assert pieces == [] ==> |parsed| == 1;
    }
  }

  lemma PlainReadsTheSame(code: Text -> int, parameters: Text)
    requires Plain(parameters)
    ensures Codes(code, parameters) == StandardCodes(code, parameters)
  {
    if parameters == [] {
      assert SubStrings([], []) == [[]] && Pieces([], []) == [];
    } else {
      PiecesAreSubStrings(parameters, []);
      hide Pieces, SubStrings;
    }
  }

  /** The parser reads a parameter list as the standard does, whatever its numbers, exactly when the list is plain. */
  lemma ListsAgreeExactlyWhen(parameters: Text)
    ensures (forall code: Text -> int :: Codes(code, parameters) == StandardCodes(code, parameters)) <==> Plain(parameters)
  {
    hide Codes, StandardCodes, Plain;
    if Plain(parameters) {
      forall code: Text -> int
        ensures Codes(code, parameters) == StandardCodes(code, parameters)
      {
        PlainReadsTheSame(code, parameters);
      }
    } else {
      TellingTells(parameters);
    }
  }

  // ----- the sequence -----

  /** The parameters of the control sequence at `i`, as far as they go. */
  function ParametersAt(input: Text, i: nat): Text
    requires i + 2 <= |input|
  {
    input[i + 2..ParametersEnd(input, i + 2)]
  }

  lemma EndIs(input: Text, i: nat, j: nat)
    requires i + 2 <= j < |input| && !IsParameter(input[j]) && forall k :: i + 2 <= k < j ==> IsParameter(input[k])
    ensures ParametersEnd(input, i + 2) == j
  {
    var end := ParametersEnd(input, i + 2);
    hide ParametersEnd;
    assert !(end < j) && !(j < end);
  }

  /** Every sequence the standard gives a meaning is one the parser takes. */
  lemma StandardIsParsed(code: Text -> int, input: Text, i: nat, j: nat)
    requires IsSgr(input, i, j)
    ensures ParsedStyle(code, input, i) == Some(Codes(code, input[i + 2..j])) && ParametersAt(input, i) == input[i + 2..j]
  {
    EndIs(input, i, j);
    hide ParametersEnd, Codes;
    var parameters := input[i + 2..j];
    assert forall k :: 0 <= k < |parameters| ==> parameters[k] == input[i + 2 + k] && IsStandardParameter(parameters[k]);
    assert QUESTION !in parameters;
  }

  lemma ParsedShape(code: Text -> int, input: Text, i: nat)
    requires i < |input| && ParsedStyle(code, input, i).Some?
    ensures var j := ParametersEnd(input, i + 2);
      && i + 2 <= j < |input| && input[i] == ESC && input[i + 1] == 0x5b && input[j] == 0x6d
      && ParsedStyle(code, input, i) == Some(Codes(code, ParametersAt(input, i)))
  {
    hide ParametersEnd, Codes, StringEnd;
  }

  /** The parameters hold digits and semicolons only, and none of several is left out. */
  ghost predicate Conforms(parameters: Text) {
    (forall k :: 0 <= k < |parameters| ==> IsStandardParameter(parameters[k])) && Plain(parameters)
  }

  lemma StandardIs(code: Text -> int, input: Text, i: nat, j: nat)
    requires IsSgr(input, i, j)
    ensures StandardStyle(code, input, i) == Some(StandardCodes(code, input[i + 2..j]))
  {
    forall other: nat | IsSgr(input, i, other)
      ensures other == j
    {
      hide IsStandardParameter;
      assert !IsStandardParameter(0x6d) by { NotAParameter(); }
      assert !(other < j) && !(j < other);
    }
  }

  lemma NotAParameter()
    ensures !IsStandardParameter(0x6d)
  {
  }

  lemma ConformingIsStandard(code: Text -> int, input: Text, i: nat)
    requires i < |input| && ParsedStyle(code, input, i).Some? && Conforms(ParametersAt(input, i))
    ensures IsSgr(input, i, ParametersEnd(input, i + 2))
  {
    ParsedShape(code, input, i);
    var j := ParametersEnd(input, i + 2);
    hide ParametersEnd, Plain, ParsedStyle, Codes;
    assert forall k :: i + 2 <= k < j ==> input[k] == ParametersAt(input, i)[k - (i + 2)];
  }

  lemma OtherwiseNotStandard(code: Text -> int, input: Text, i: nat)
    requires i < |input| && ParsedStyle(code, input, i).None?
    ensures StandardStyle(code, input, i) == None
  {
    hide ParsedStyle;
    if j: nat :| IsSgr(input, i, j) {
      StandardIsParsed(code, input, i, j);
    }
  }

  /**
   At any place in any text the parser styles what the standard says it should,
   however numbers are read, exactly when it sees no style sequence there or one
   whose parameters conform.
   */
  lemma AgreesWithStandardExactlyWhen(input: Text, i: nat)
    requires i < |input|
    ensures (forall code: Text -> int :: ParsedStyle(code, input, i) == StandardStyle(code, input, i)) <==>
            (ParsedStyle(Telling(), input, i).Some? ==> i + 2 <= |input| && Conforms(ParametersAt(input, i)))
  {
    hide Scan, Codes, StandardCodes, Conforms;
    if ParsedStyle(Telling(), input, i).None? {
      forall code: Text -> int
        ensures ParsedStyle(code, input, i) == StandardStyle(code, input, i)
      {
        SameKind(code, Telling(), input, i);
        OtherwiseNotStandard(code, input, i);
      }
    } else {
      ParsedShape(Telling(), input, i);
      StyledAgreesExactlyWhen(input, i);
    }
  }

  /** Whether there is a style sequence does not depend on how its numbers are read. */
  lemma SameKind(code: Text -> int, other: Text -> int, input: Text, i: nat)
    requires i < |input|
    ensures ParsedStyle(code, input, i).Some? <==> ParsedStyle(other, input, i).Some?
  {
    hide ParametersEnd, StringEnd, Codes;
  }

  lemma StyledAgreesExactlyWhen(input: Text, i: nat)
    requires i + 2 <= |input| && ParsedStyle(Telling(), input, i).Some?
    ensures (forall code: Text -> int :: ParsedStyle(code, input, i) == StandardStyle(code, input, i)) <==> Conforms(ParametersAt(input, i))
  {
    var parameters, j := ParametersAt(input, i), ParametersEnd(input, i + 2);
    hide Scan, Codes, StandardCodes, ParametersEnd, ParsedStyle, Plain;
    ParsedShape(Telling(), input, i);
    if Conforms(parameters) {
      ConformingIsStandard(Telling(), input, i);
      forall code: Text -> int
        ensures ParsedStyle(code, input, i) == StandardStyle(code, input, i)
      {
        SameKind(code, Telling(), input, i);
        ParsedShape(code, input, i);
        StandardIs(code, input, i, j);
        PlainReadsTheSame(code, parameters);
      }
    } else {
      TellsApart(input, i);
    }
  }

  lemma TellsApart(input: Text, i: nat)
    requires i + 2 <= |input| && ParsedStyle(Telling(), input, i).Some? && !Conforms(ParametersAt(input, i))
    ensures ParsedStyle(Telling(), input, i) != StandardStyle(Telling(), input, i)
  {
    hide Scan, Codes, StandardCodes, ParametersEnd, ParsedStyle, Plain;
    ParsedShape(Telling(), input, i);
    if j: nat :| IsSgr(input, i, j) {
      var parameters := ParametersAt(input, i);
      StandardIs(Telling(), input, i, j);
      StandardIsParsed(Telling(), input, i, j);
      assert forall k :: 0 <= k < |parameters| ==> parameters[k] == input[i + 2 + k];
      TellingTells(parameters);
    }
  }

  // ----- four sequences on which the two part -----

  ghost predicate NoSeparator(t: Text) {
    SEMICOLON !in t && COLON !in t
  }

  lemma {:induction false} GoesOn(t: Text, rest: Text, part: Text)
    requires NoSeparator(t)
    ensures Pieces(t + rest, part) == Pieces(rest, part + t)
    ensures SubStrings(t + rest, part) == SubStrings(rest, part + t)
    decreases |t|
  {
    if t == [] {
      assert t + rest == rest && part + t == part;
    } else {
      var more := t + rest;
      assert more[1..] == t[1..] + rest && more[0] == t[0] && NoSeparator(t[1..]);
      GoesOn(t[1..], rest, part + [t[0]]);
      assert part + [t[0]] + t[1..] == part + t;
    }
  }

  lemma Alone(t: Text)
    requires NoSeparator(t) && t != []
    ensures Pieces(t, []) == [t] && SubStrings(t, []) == [t]
  {
    GoesOn(t, [], []);
    assert t + [] == t && [] + t == t;
  }

  lemma TwoParts(t: Text, u: Text)
    requires NoSeparator(t) && NoSeparator(u) && t != []
    ensures Pieces(t + [SEMICOLON] + u, []) == if u == [] then [t] else [t, u]
    ensures SubStrings(t + [SEMICOLON] + u, []) == [t, u]
  {
    assert t + [SEMICOLON] + u == t + ([SEMICOLON] + u) && [] + t == t;
    GoesOn(t, [SEMICOLON] + u, []);
    assert ([SEMICOLON] + u)[1..] == u;
    if u != [] {
      Alone(u);
    }
  }

  /**
   `ESC [ > 4 ; 1 m` opens a private string and is stripped by the standard's reading;
   the parser resets and sets bold.
   */
  lemma PrivateParametersAreApplied(code: Text -> int)
    requires code([0x3e, 0x34]) == 0 && code([0x31]) == 1
    ensures var input := [ESC, 0x5b, 0x3e, 0x34, SEMICOLON, 0x31, 0x6d];
      ParsedStyle(code, input, 0) == Some([0, 1]) && StandardStyle(code, input, 0) == None
  {
    var input := [ESC, 0x5b, 0x3e, 0x34, SEMICOLON, 0x31, 0x6d];
    assert input[2..6] == [0x3e, 0x34] + [SEMICOLON] + [0x31];
    TwoParts([0x3e, 0x34], [0x31]);
    Shows(code, input, 6, [[0x3e, 0x34], [0x31]]);
    hide ParsedStyle, Pieces;
    assert ParsedStyle(code, input, 0).value == [0, 1];
    assert !IsStandardParameter(input[2]);
    NotStandard(code, input, 2);
  }

  lemma Shows(code: Text -> int, input: Text, j: nat, pieces: seq<Text>)
    requires 2 <= j < |input| && input[0] == ESC && input[1] == 0x5b && input[j] == 0x6d
    requires forall k :: 2 <= k < j ==> IsParameter(input[k]) && input[k] != QUESTION
    requires pieces != [] && Pieces(input[2..j], []) == pieces
    ensures var style := ParsedStyle(code, input, 0);
      style.Some? && |style.value| == |pieces| && forall k :: 0 <= k < |pieces| ==> style.value[k] == code(pieces[k])
  {
    EndIs(input, 0, j);
    hide ParametersEnd, Pieces;
    var parameters := input[2..j];
    assert forall k :: 0 <= k < |parameters| ==> parameters[k] == input[2 + k];
    assert QUESTION !in parameters;
  }

  /** A byte before the final one that is no parameter byte of the standard makes it another sequence. */
  lemma NotStandard(code: Text -> int, input: Text, at: nat)
    requires 2 <= at < |input| && !IsStandardParameter(input[at]) && input[at] != 0x6d
    requires forall k :: 2 <= k < at ==> input[k] != 0x6d
    ensures StandardStyle(code, input, 0) == None
  {
    forall j: nat
      ensures !IsSgr(input, 0, j)
    {
    }
  }

  /** `ESC [ 1 SP m` has an intermediate byte and so names another function; the parser sets bold. */
  lemma IntermediateBytesAreApplied(code: Text -> int)
    requires code([0x31, 0x20]) == 1
    ensures var input := [ESC, 0x5b, 0x31, 0x20, 0x6d];
      ParsedStyle(code, input, 0) == Some([1]) && StandardStyle(code, input, 0) == None
  {
    var input := [ESC, 0x5b, 0x31, 0x20, 0x6d];
    assert input[2..4] == [0x31, 0x20];
    Alone([0x31, 0x20]);
    Shows(code, input, 4, [[0x31, 0x20]]);
    hide ParsedStyle, Pieces;
    assert ParsedStyle(code, input, 0).value == [1];
    NotStandard(code, input, 3);
  }

  /** `ESC [ 3 1 ; m` ends with an empty parameter, a reset; the parser drops it and stays red. */
  lemma EmptyParametersAreDropped(code: Text -> int)
    requires code([0x33, 0x31]) == 31
    ensures var input := [ESC, 0x5b, 0x33, 0x31, SEMICOLON, 0x6d];
      ParsedStyle(code, input, 0) == Some([31]) && StandardStyle(code, input, 0) == Some([31, 0])
    ensures Sgr(FRESH, [31], 0) == FRESH.(fg := Some(Palette(1))) && Sgr(FRESH, [31, 0], 0) == FRESH
  {
    var input := [ESC, 0x5b, 0x33, 0x31, SEMICOLON, 0x6d];
    assert input[2..5] == [0x33, 0x31] + [SEMICOLON] + [];
    TwoParts([0x33, 0x31], []);
    Shows(code, input, 5, [[0x33, 0x31]]);
    StandardIs(code, input, 0, 5);
    hide ParsedStyle, Pieces, SubStrings;
    assert ParsedStyle(code, input, 0).value == [31];
    assert StandardCodes(code, input[2..5]) == [31, 0];
    RedThenReset();
  }

  lemma RedThenReset()
    ensures Sgr(FRESH, [31], 0) == FRESH.(fg := Some(Palette(1))) && Sgr(FRESH, [31, 0], 0) == FRESH
  {
    assert Sgr(FRESH, [31], 0) == Sgr(Simple(FRESH, 31), [31], 1);
    assert Sgr(FRESH, [31, 0], 0) == Sgr(Simple(FRESH, 31), [31, 0], 1) == Sgr(FRESH, [31, 0], 2);
  }

  /** `ESC [ 4 : 3 m` is one parameter with a colon in it; the parser reads two, underline and italic. */
  lemma ColonsAreSeparators(code: Text -> int)
    requires code([0x34]) == 4 && code([0x33]) == 3
    ensures var input := [ESC, 0x5b, 0x34, COLON, 0x33, 0x6d];
      ParsedStyle(code, input, 0) == Some([4, 3]) && StandardStyle(code, input, 0) == Some([code([0x34, COLON, 0x33])])
  {
    var input := [ESC, 0x5b, 0x34, COLON, 0x33, 0x6d];
    var parameters: Text := [0x34, COLON, 0x33];
    assert input[2..5] == parameters;
    AroundColon([0x34], [0x33], parameters);
    Shows(code, input, 5, [[0x34], [0x33]]);
    StandardIs(code, input, 0, 5);
    hide ParsedStyle, Pieces, SubStrings;
    assert ParsedStyle(code, input, 0).value == [4, 3];
    assert StandardCodes(code, parameters) == [code(parameters)];
  }

  lemma AroundColon(t: Text, u: Text, both: Text)
    requires NoSeparator(t) && NoSeparator(u) && t != [] && u != [] && both == t + ([COLON] + u)
    ensures Pieces(both, []) == [t, u] && SubStrings(both, []) == [both]
  {
    assert [] + t == t && ([COLON] + u)[1..] == u;
    GoesOn(t, [COLON] + u, []);
    Alone(u);
    assert Pieces([COLON] + u, t) == [t] + Pieces(u, []);
    assert SubStrings([COLON] + u, t) == SubStrings(u, t + [COLON]);
    GoesOn(u, [], t + [COLON]);
    assert u + [] == u && t + [COLON] + u == both;
  }
}
