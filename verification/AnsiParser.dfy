/** The scan of a terminal text: escape sequences consumed, text kept with its style. */
module AnsiParser {
  import opened Common
  import opened AnsiText

  const ESC: Unit := 0x1b
  const BEL: Unit := 0x07
  const BACKSLASH: Unit := 0x5c
  const QUESTION: Unit := 0x3f

  datatype Run = Run(text: Text, style: Option<Css>)

  predicate IsPrintable(u: Unit) {
    u == 0x09 || (u >= 0x20 && u != 0x7f)
  }

  predicate IsParameter(u: Unit) {
    0x20 <= u <= 0x3f
  }

  // ----- where a sequence ends -----

  function ParametersEnd(input: Text, j: nat): (end: nat)
    requires j <= |input|
    ensures j <= end <= |input|
    ensures forall k :: j <= k < end ==> IsParameter(input[k])
    ensures end < |input| ==> !IsParameter(input[end])
    decreases |input| - j
  {
    if j < |input| && IsParameter(input[j]) then ParametersEnd(input, j + 1) else j
  }

  /** `ESC \`, or also BEL when `bell` is set; the end of the text when there is none. */
  function StringEnd(input: Text, j: nat, bell: bool): (end: nat)
    requires j <= |input|
    ensures j <= end <= |input|
    decreases |input| - j
  {
    if j >= |input| then j
    else if bell && input[j] == BEL then j + 1
    else if input[j] == ESC && j + 1 < |input| && input[j + 1] == BACKSLASH then j + 2
    else StringEnd(input, j + 1, bell)
  }

  // ----- one token -----

  datatype Token = Letter(unit: Unit) | Style(codes: seq<int>) | Nothing

  /** The non-empty pieces between `;` and `:`, each read as a number; one 0 when there are none. */
  function Pieces(parameters: Text, piece: Text): seq<Text>
    decreases |parameters|
  {
    var done := if piece == [] then [] else [piece];
    if parameters == [] then done
    else if parameters[0] == 0x3b || parameters[0] == 0x3a then done + Pieces(parameters[1..], [])
    else Pieces(parameters[1..], piece + [parameters[0]])
  }

  function Codes(code: Text -> int, parameters: Text): (codes: seq<int>)
    ensures codes != []
  {
    var pieces := Pieces(parameters, []);
    if pieces == [] then [0] else seq(|pieces|, k requires 0 <= k < |pieces| => code(pieces[k]))
  }

  function Control(code: Text -> int, input: Text, i: nat): (r: (Token, nat))
    requires i + 1 < |input| && input[i] == ESC && input[i + 1] == 0x5b
    ensures i < r.1 <= |input| && !r.0.Letter?
  {
    var j := ParametersEnd(input, i + 2);
    if j < |input| && 0x40 <= input[j] <= 0x7e then
      (if input[j] == 0x6d && QUESTION !in input[i + 2..j] then Style(Codes(code, input[i + 2..j])) else Nothing, j + 1)
    else (Nothing, i + 1)
  }

  predicate OpensString(u: Unit) {
    u == 0x50 || u == 0x58 || u == 0x5e || u == 0x5f
  }

  /** The token at `i`, and where the next one begins. */
  function Scan(code: Text -> int, input: Text, i: nat): (r: (Token, nat))
    requires i < |input|
    ensures i < r.1 <= |input|
    ensures r.0.Letter? ==> r.0.unit == input[i] && IsPrintable(input[i])
  {
    if input[i] != ESC then (if IsPrintable(input[i]) then Letter(input[i]) else Nothing, i + 1)
    else if i + 1 == |input| then (Nothing, i + 1)
    else if input[i + 1] == 0x5b then Control(code, input, i)
    else if input[i + 1] == 0x5d then (Nothing, StringEnd(input, i + 2, true))
    else if OpensString(input[i + 1]) then (Nothing, StringEnd(input, i + 2, false))
    else (Nothing, i + 2)
  }

  // ----- the scan -----

  function Flush(text: Text, state: State): seq<Run> {
    if text == [] then [] else [Run(text, StyleFor(state))]
  }

  /** The runs still to come at `i`, with `text` not yet flushed. */
  function Runs(code: Text -> int, input: Text, i: nat, text: Text, state: State): seq<Run>
    requires i <= |input|
    decreases |input| - i
  {
    if i == |input| then Flush(text, state)
    else
      var (token, next) := Scan(code, input, i);
      match token
      case Letter(u) => Runs(code, input, next, text + [u], state)
      case Style(codes) => Flush(text, state) + Runs(code, input, next, [], Sgr(state, codes, 0))
      case Nothing => Runs(code, input, next, text, state)
  }

  method SkipString(input: Text, start: nat, bell: bool) returns (j: nat)
    requires start <= |input|
    ensures j == StringEnd(input, start, bell)
  {
    j := start;
    while j < |input|
      invariant start <= j <= |input| && StringEnd(input, j, bell) == StringEnd(input, start, bell)
    {
      if bell && input[j] == BEL {
        return j + 1;
      }
      if input[j] == ESC && j + 1 < |input| && input[j + 1] == BACKSLASH {
        return j + 2;
      }
      j := j + 1;
    }
  }

  lemma RunsStep(code: Text -> int, input: Text, i: nat, text: Text, state: State, runs: seq<Run>)
    requires i < |input|
    ensures var token, next := Scan(code, input, i).0, Scan(code, input, i).1;
      runs + Runs(code, input, i, text, state) ==
        if token.Letter? then runs + Runs(code, input, next, text + [token.unit], state)
        else if token.Style? then (runs + Flush(text, state)) + Runs(code, input, next, [], Sgr(state, token.codes, 0))
        else runs + Runs(code, input, next, text, state)
  {
    hide Scan, Flush, Sgr;
    if Scan(code, input, i).0.Style? {
      var rest := Runs(code, input, Scan(code, input, i).1, [], Sgr(state, Scan(code, input, i).0.codes, 0));
      assert runs + (Flush(text, state) + rest) == (runs + Flush(text, state)) + rest;
    }
  }

  lemma RunsEnd(code: Text -> int, input: Text, text: Text, state: State)
    ensures Runs(code, input, |input|, text, state) == Flush(text, state)
  {
  }

  method SkipParameters(input: Text, start: nat) returns (j: nat)
    requires start <= |input|
    ensures j == ParametersEnd(input, start)
  {
    j := start;
    while j < |input| && IsParameter(input[j])
      invariant start <= j <= |input| && ParametersEnd(input, j) == ParametersEnd(input, start)
    {
      j := j + 1;
    }
  }

  method ParseAnsi(code: Text -> int, input: Text) returns (runs: seq<Run>)
    ensures runs == Runs(code, input, 0, [], FRESH)
  {
    hide Codes, StyleFor, Sgr, ParametersEnd, StringEnd, Runs;
    runs := [];
    var state := new SgrState();
    var text: Text := [];
    var i: nat := 0;
    while i < |input|
      invariant i <= |input| && fresh(state)
      invariant runs + Runs(code, input, i, text, state.Value()) == Runs(code, input, 0, [], FRESH)
      decreases |input| - i
    {
      ghost var before := runs + Runs(code, input, i, text, state.Value());
      RunsStep(code, input, i, text, state.Value(), runs);
      if input[i] == ESC {
        if i + 1 < |input| && input[i + 1] == 0x5b {
          var j := SkipParameters(input, i + 2);
          if j < |input| && 0x40 <= input[j] <= 0x7e {
            var parameters := input[i + 2..j];
            if input[j] == 0x6d && QUESTION !in parameters {
              if text != [] {
                runs := runs + [Run(text, StyleFor(state.Value()))];
                text := [];
              }
              state.ApplySGR(Codes(code, parameters));
            }
            i := j + 1;
          } else {
            i := i + 1;
          }
        } else if i + 1 < |input| && input[i + 1] == 0x5d {
          i := SkipString(input, i + 2, true);
        } else if i + 1 < |input| && OpensString(input[i + 1]) {
          i := SkipString(input, i + 2, false);
        } else if i + 1 < |input| {
          i := i + 2;
        } else {
          i := i + 1;
        }
      } else {
        if IsPrintable(input[i]) {
          text := text + [input[i]];
        }
        i := i + 1;
      }
      assert runs + Runs(code, input, i, text, state.Value()) == before;
    }
    RunsEnd(code, input, text, state.Value());
    if text != [] {
      runs := runs + [Run(text, StyleFor(state.Value()))];
    }
  }
}
