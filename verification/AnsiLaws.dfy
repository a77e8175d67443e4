/** What the runs of a terminal text promise: which text is kept, and with which style. */
module AnsiLaws {
  import opened Common
  import opened AnsiText
  import opened AnsiParser

  /** The tokens from `i` on: what the text is, read without any style. */
  function Tokens(code: Text -> int, input: Text, i: nat): seq<Token>
    requires i <= |input|
    decreases |input| - i
  {
    if i == |input| then []
    else
      var (token, next) := Scan(code, input, i);
      [token] + Tokens(code, input, next)
  }

  function Letters(tokens: seq<Token>): Text {
    if tokens == [] then []
    else (if tokens[0].Letter? then [tokens[0].unit] else []) + Letters(tokens[1..])
  }

  /** The style state after `tokens`. */
  function Fold(s: State, tokens: seq<Token>): State
    decreases tokens
  {
    if tokens == [] then s
    else Fold(if tokens[0].Style? then Sgr(s, tokens[0].codes, 0) else s, tokens[1..])
  }

  datatype Cell = Cell(unit: Unit, style: Option<Css>)

  function Cells(runs: seq<Run>): seq<Cell> {
    if runs == [] then [] else Styled(runs[0].text, runs[0].style) + Cells(runs[1..])
  }

  function Styled(text: Text, style: Option<Css>): seq<Cell> {
    seq(|text|, k requires 0 <= k < |text| => Cell(text[k], style))
  }

  function TextOf(runs: seq<Run>): Text {
    if runs == [] then [] else runs[0].text + TextOf(runs[1..])
  }

  function CellsOf(tokens: seq<Token>, s: State): seq<Cell> {
    if tokens == [] then []
    else match tokens[0]
      case Letter(u) => [Cell(u, StyleFor(s))] + CellsOf(tokens[1..], s)
      case Style(codes) => CellsOf(tokens[1..], Sgr(s, codes, 0))
      case Nothing => CellsOf(tokens[1..], s)
  }

  // ----- the runs are the tokens -----

  lemma CellsOfFlush(text: Text, s: State, rest: seq<Run>)
    ensures Cells(Flush(text, s) + rest) == Styled(text, StyleFor(s)) + Cells(rest)
  {
    hide StyleFor;
    if text != [] {
      assert (Flush(text, s) + rest)[1..] == rest;
    } else {
      assert Flush(text, s) + rest == rest;
    }
  }

  lemma {:induction false} RunsAreTokens(code: Text -> int, input: Text, i: nat, text: Text, s: State)
    requires i <= |input|
    ensures Cells(Runs(code, input, i, text, s)) == Styled(text, StyleFor(s)) + CellsOf(Tokens(code, input, i), s)
    decreases |input| - i
  {
    hide Scan, StyleFor, Sgr, Flush, Cells;
    if i == |input| {
      CellsOfFlush(text, s, []);
      assert Flush(text, s) + [] == Flush(text, s);
      assert Cells([]) == [] by { NoCells(); }
    } else {
      var (token, next) := Scan(code, input, i);
      match token
      case Letter(u) =>
        RunsAreTokens(code, input, next, text + [u], s);
        assert Styled(text + [u], StyleFor(s)) == Styled(text, StyleFor(s)) + [Cell(u, StyleFor(s))];
      case Style(codes) =>
        RunsAreTokens(code, input, next, [], Sgr(s, codes, 0));
        CellsOfFlush(text, s, Runs(code, input, next, [], Sgr(s, codes, 0)));
      case Nothing =>
        RunsAreTokens(code, input, next, text, s);
    }
  }

  lemma NoCells()
    ensures Cells([]) == []
  {
  }

  lemma {:induction false} CellOfLetter(tokens: seq<Token>, s: State, k: nat)
    requires k < |tokens| && tokens[k].Letter?
    ensures |Letters(tokens[..k])| < |CellsOf(tokens, s)|
    ensures CellsOf(tokens, s)[|Letters(tokens[..k])|] == Cell(tokens[k].unit, StyleFor(Fold(s, tokens[..k])))
  {
    hide StyleFor, Sgr;
    if k > 0 {
      CellOfLetter(tokens[1..], if tokens[0].Style? then Sgr(s, tokens[0].codes, 0) else s, k - 1);
      assert tokens[..k][1..] == tokens[1..][..k - 1];
    }
  }

  /**
   Every letter comes out once, in order, and its style is that of all the complete
   style sequences before it, applied one after the other to a fresh terminal.
   */
  lemma EachLetterHasTheFoldedStyle(code: Text -> int, input: Text, k: nat)
    requires k < |Tokens(code, input, 0)| && Tokens(code, input, 0)[k].Letter?
    ensures var tokens, cells := Tokens(code, input, 0), Cells(Runs(code, input, 0, [], FRESH));
      var at := |Letters(tokens[..k])|;
      at < |cells| && cells[at] == Cell(tokens[k].unit, StyleFor(Fold(FRESH, tokens[..k])))
  {
    hide Tokens, Runs, StyleFor, Cells, CellsOf, Fold, Letters;
    RunsAreTokens(code, input, 0, [], FRESH);
    assert Styled([], StyleFor(FRESH)) == [];
    CellOfLetter(Tokens(code, input, 0), FRESH, k);
  }

  /** A token changes the style exactly when it is `ESC [`, parameters without `?`, and a final `m`. */
  lemma StyleTokenExactlyWhen(code: Text -> int, input: Text, i: nat)
    requires i < |input|
    ensures Scan(code, input, i).0.Style? <==>
      && i + 1 < |input| && input[i] == ESC && input[i + 1] == 0x5b
      && exists j :: i + 2 <= j < |input| && input[j] == 0x6d
           && forall k :: i + 2 <= k < j ==> IsParameter(input[k]) && input[k] != QUESTION
  {
    hide Codes, StringEnd;
    if i + 1 < |input| && input[i] == ESC && input[i + 1] == 0x5b {
      var end := ParametersEnd(input, i + 2);
      hide ParametersEnd;
      assert forall k :: i + 2 <= k < end ==> input[k] == input[i + 2..end][k - (i + 2)];
      if j :| i + 2 <= j < |input| && input[j] == 0x6d
              && forall k :: i + 2 <= k < j ==> IsParameter(input[k]) && input[k] != QUESTION {
        assert !IsParameter(input[j]);
        assert j == end;
      }
    }
  }

  // ----- the text that is kept -----

  lemma TextOfFlush(text: Text, s: State, rest: seq<Run>)
    ensures TextOf(Flush(text, s) + rest) == text + TextOf(rest) && TextOf([]) == []
  {
    hide StyleFor;
    if text != [] {
      assert (Flush(text, s) + rest)[1..] == rest;
    } else {
      assert Flush(text, s) + rest == rest;
    }
  }

  lemma {:induction false} TextIsLetters(code: Text -> int, input: Text, i: nat, text: Text, s: State)
    requires i <= |input|
    ensures TextOf(Runs(code, input, i, text, s)) == text + Letters(Tokens(code, input, i))
    decreases |input| - i
  {
    hide Scan, StyleFor, Sgr, Flush, TextOf;
    if i == |input| {
      TextOfFlush(text, s, []);
      assert Flush(text, s) + [] == Flush(text, s) && Letters([]) == [];
    } else {
      var (token, next) := Scan(code, input, i);
      match token
      case Letter(u) => TextIsLetters(code, input, next, text + [u], s);
      case Style(codes) =>
        TextIsLetters(code, input, next, [], Sgr(s, codes, 0));
        TextOfFlush(text, s, Runs(code, input, next, [], Sgr(s, codes, 0)));
      case Nothing => TextIsLetters(code, input, next, text, s);
    }
  }

  ghost predicate AllPrintable(text: Text) {
    forall k :: 0 <= k < |text| ==> IsPrintable(text[k])
  }

  /** The places in the input that the letters come from. */
  lemma {:induction false} LettersAreKept(code: Text -> int, input: Text, i: nat) returns (places: seq<nat>)
    requires i <= |input|
    ensures |places| == |Letters(Tokens(code, input, i))| && AllPrintable(Letters(Tokens(code, input, i)))
    ensures forall k :: 0 <= k < |places| ==> i <= places[k] < |input| && Letters(Tokens(code, input, i))[k] == input[places[k]]
    ensures forall j, k :: 0 <= j < k < |places| ==> places[j] < places[k]
    decreases |input| - i
  {
    hide Scan;
    places := [];
    if i < |input| {
      var (token, next) := Scan(code, input, i);
      var rest := LettersAreKept(code, input, next);
      assert ([token] + Tokens(code, input, next))[1..] == Tokens(code, input, next);
      places := if token.Letter? then [i] + rest else rest;
    }
  }

  /** The text of the runs is what is left of the input when some of it is struck out, and holds no control but tab. */
  lemma TextIsPrintableSubsequence(code: Text -> int, input: Text) returns (places: seq<nat>)
    ensures var text := TextOf(Runs(code, input, 0, [], FRESH));
      && |places| == |text| && AllPrintable(text)
      && (forall k :: 0 <= k < |places| ==> places[k] < |input| && text[k] == input[places[k]])
      && (forall j, k :: 0 <= j < k < |places| ==> places[j] < places[k])
  {
    hide Runs, Tokens, Letters, TextOf;
    TextIsLetters(code, input, 0, [], FRESH);
    places := LettersAreKept(code, input, 0);
  }

  lemma {:induction false} PlainTextIsOneRun(code: Text -> int, input: Text, i: nat, text: Text, s: State)
    requires i <= |input| && AllPrintable(input)
    ensures Runs(code, input, i, text, s) == Flush(text + input[i..], s)
    decreases |input| - i
  {
    hide StyleFor, Sgr, Control, StringEnd;
    if i < |input| {
      assert IsPrintable(input[i]) && input[i] != ESC;
      PlainTextIsOneRun(code, input, i + 1, text + [input[i]], s);
      assert text + [input[i]] + input[i + 1..] == text + input[i..];
    } else {
      assert text + input[i..] == text;
    }
  }

  /** Parsing the text of the runs again gives it back whole, as one run without a style. */
  lemma StrippedTextIsPlain(code: Text -> int, input: Text)
    ensures var text := TextOf(Runs(code, input, 0, [], FRESH));
      Runs(code, text, 0, [], FRESH) == if text == [] then [] else [Run(text, None)]
  {
    hide Runs, TextOf;
    var text := TextOf(Runs(code, input, 0, [], FRESH));
    var places := TextIsPrintableSubsequence(code, input);
    PlainTextIsOneRun(code, text, 0, [], FRESH);
    assert [] + text[0..] == text;
    UnstyledExactlyWhenFresh(FRESH);
  }

  lemma {:induction false} NoEmptyRun(code: Text -> int, input: Text, i: nat, text: Text, s: State)
    requires i <= |input|
    ensures forall k :: 0 <= k < |Runs(code, input, i, text, s)| ==> Runs(code, input, i, text, s)[k].text != []
    decreases |input| - i
  {
    hide Scan, StyleFor, Sgr;
    if i < |input| {
      var (token, next) := Scan(code, input, i);
      match token
      case Letter(u) => NoEmptyRun(code, input, next, text + [u], s);
      case Style(codes) => NoEmptyRun(code, input, next, [], Sgr(s, codes, 0));
      case Nothing => NoEmptyRun(code, input, next, text, s);
    }
  }

  // ----- colors -----

  predicate InPalette(c: Option<Color>) {
    c.Some? ==>
      match c.value
      case Palette(n) => 0 <= n < 16
      case Hex(r, g, b) => 0 <= r <= 255 && 0 <= g <= 255 && 0 <= b <= 255
      case _ => true
  }

  lemma SimpleStaysInPalette(s: State, c: int)
    requires InPalette(s.fg) && InPalette(s.bg)
    ensures InPalette(Simple(s, c).fg) && InPalette(Simple(s, c).bg)
  {
    hide Attribute;
  }

  lemma ExtendedStaysInPalette(s: State, codes: seq<int>, i: nat)
    requires IsExtended(codes, i) && InPalette(s.fg) && InPalette(s.bg)
    ensures InPalette(Extended(s, codes, i).fg) && InPalette(Extended(s, codes, i).bg)
  {
    hide Color256;
  }

  lemma {:induction false} SgrStaysInPalette(s: State, codes: seq<int>, i: nat)
    requires InPalette(s.fg) && InPalette(s.bg)
    ensures InPalette(Sgr(s, codes, i).fg) && InPalette(Sgr(s, codes, i).bg)
    decreases |codes| - i
  {
    hide Simple, Extended, InPalette;
    if i < |codes| {
      if IsExtended(codes, i) {
        ExtendedStaysInPalette(s, codes, i);
        SgrStaysInPalette(Extended(s, codes, i), codes, if codes[i + 1] == 5 then i + 3 else i + 5);
      } else {
        SimpleStaysInPalette(s, codes[i]);
        SgrStaysInPalette(Simple(s, codes[i]), codes, i + 1);
      }
    }
  }

  /**
   No color of a run points outside the palette or has a channel above 255, unless it
   was given channel by channel.
   */
  lemma {:induction false} FoldStaysInPalette(s: State, tokens: seq<Token>)
    requires InPalette(s.fg) && InPalette(s.bg)
    ensures InPalette(Fold(s, tokens).fg) && InPalette(Fold(s, tokens).bg)
    decreases tokens
  {
    hide Sgr, InPalette;
    if tokens != [] {
      if tokens[0].Style? {
        SgrStaysInPalette(s, tokens[0].codes, 0);
      }
      FoldStaysInPalette(if tokens[0].Style? then Sgr(s, tokens[0].codes, 0) else s, tokens[1..]);
    }
  }
}
