/**
 Terminal output as a program writes it, piece by piece, and what the parser makes
 of it: every piece is read as what it was written as, wherever it stands.
 */
module AnsiGrammar {
  import opened Common
  import opened AnsiText
  import opened AnsiParser
  import opened AnsiLaws

  /** A character, or one escape sequence with the bytes that belong to it. */
  datatype Piece =
    | Shown(unit: Unit)
    | Silent(unit: Unit)
    | ControlSequence(parameters: Text, final: Unit)
    | OperatingSystemCommand(body: Text, bell: bool)
    | ControlString(opener: Unit, body: Text)
    | Pair(unit: Unit)

  /** `ESC \` does not occur in the text. */
  ghost predicate NoTerminator(body: Text) {
    forall k :: 0 <= k < |body| - 1 ==> !(body[k] == 0x1b && body[k + 1] == 0x5c)
  }

  /** What each piece may be made of. */
  ghost predicate Fits(p: Piece) {
    match p
    case Shown(u) => u == 0x09 || 0x20 <= u <= 0x7e || u >= 0x80
    case Silent(u) => u == 0x7f || (u < 0x20 && u != 0x09 && u != 0x1b)
    case ControlSequence(parameters, final) =>
      0x40 <= final <= 0x7e && forall k :: 0 <= k < |parameters| ==> 0x20 <= parameters[k] <= 0x3f
    case OperatingSystemCommand(body, _) => NoTerminator(body) && 0x07 !in body
    case ControlString(opener, body) => opener in {0x50, 0x58, 0x5e, 0x5f} && NoTerminator(body)
    case Pair(u) => u !in {0x50, 0x58, 0x5b, 0x5d, 0x5e, 0x5f}
  }

  function Render(p: Piece): Text {
    match p
    case Shown(u) => [u]
    case Silent(u) => [u]
    case ControlSequence(parameters, final) => [0x1b, 0x5b] + parameters + [final]
    case OperatingSystemCommand(body, bell) => [0x1b, 0x5d] + body + (if bell then [0x07] else [0x1b, 0x5c])
    case ControlString(opener, body) => [0x1b, opener] + body + [0x1b, 0x5c]
    case Pair(u) => [0x1b, u]
  }

  function RenderAll(pieces: seq<Piece>): Text {
    if pieces == [] then [] else Render(pieces[0]) + RenderAll(pieces[1..])
  }

  /** Only a character is shown, and only a control sequence that ends in `m`, and has no `?`, changes the style. */
  function TokenOf(code: Text -> int, p: Piece): Token {
    match p
    case Shown(u) => Letter(u)
    case ControlSequence(parameters, final) =>
      if final == 0x6d && 0x3f !in parameters then Style(Codes(code, parameters)) else Nothing
    case _ => Nothing
  }

  function TokensOf(code: Text -> int, pieces: seq<Piece>): seq<Token> {
    if pieces == [] then [] else [TokenOf(code, pieces[0])] + TokensOf(code, pieces[1..])
  }

  // ----- one piece -----

  lemma {:induction false} ParametersEndIs(input: Text, j: nat, end: nat)
    requires j <= end < |input| && !IsParameter(input[end])
    requires forall k :: j <= k < end ==> IsParameter(input[k])
    ensures ParametersEnd(input, j) == end
    decreases end - j
  {
    if j < end {
      ParametersEndIs(input, j + 1, end);
    }
  }

  /** A string ends with its first terminator. */
  lemma {:induction false} StringEndIs(input: Text, j: nat, end: nat, bell: bool)
    requires j <= end < |input|
    requires forall k :: j <= k < end ==> !(input[k] == 0x1b && input[k + 1] == 0x5c) && !(bell && input[k] == 0x07)
    requires (bell && input[end] == 0x07) || (input[end] == 0x1b && end + 1 < |input| && input[end + 1] == 0x5c)
    ensures StringEnd(input, j, bell) == if bell && input[end] == 0x07 then end + 1 else end + 2
    decreases end - j
  {
    if j < end {
      StringEndIs(input, j + 1, end, bell);
    }
  }

  /** `Render(p)` stands at `i`. */
  ghost predicate StandsAt(input: Text, i: nat, p: Piece) {
    i + |Render(p)| <= |input| && input[i..i + |Render(p)|] == Render(p)
  }

  lemma UnitsAt(input: Text, i: nat, p: Piece)
    requires StandsAt(input, i, p)
    ensures forall k :: 0 <= k < |Render(p)| ==> input[i + k] == Render(p)[k]
  {
    forall k | 0 <= k < |Render(p)|
      ensures input[i + k] == Render(p)[k]
    {
      assert input[i..i + |Render(p)|][k] == input[i + k];
    }
  }

  lemma ScanCharacter(code: Text -> int, input: Text, i: nat, p: Piece)
    requires StandsAt(input, i, p) && Fits(p) && (p.Shown? || p.Silent? || p.Pair?)
    ensures Scan(code, input, i) == (TokenOf(code, p), i + |Render(p)|)
  {
    UnitsAt(input, i, p);
    assert input[i + 0] == Render(p)[0];
    if p.Pair? {
      assert input[i + 1] == Render(p)[1];
    }
    hide Control, StringEnd;
  }

  lemma ScanControlSequence(code: Text -> int, input: Text, i: nat, p: Piece)
    requires StandsAt(input, i, p) && Fits(p) && p.ControlSequence?
    ensures Scan(code, input, i) == (TokenOf(code, p), i + |Render(p)|)
  {
    UnitsAt(input, i, p);
    var end := i + 2 + |p.parameters|;
    assert forall k :: 0 <= k < |p.parameters| ==> Render(p)[k + 2] == p.parameters[k];
    forall k | i + 2 <= k < end
      ensures input[k] == p.parameters[k - i - 2]
    {
      assert input[i + (k - i)] == Render(p)[k - i];
    }
    assert Render(p)[|p.parameters| + 2] == p.final;
    assert input[end] == p.final;
    assert input[i + 0] == Render(p)[0] && input[i + 1] == Render(p)[1];
    assert |Render(p)| == |p.parameters| + 3;
    SequenceScans(code, input, i, end, p.parameters);
  }

  lemma SequenceScans(code: Text -> int, input: Text, i: nat, end: nat, parameters: Text)
    requires i + 2 <= end < |input| && input[i] == 0x1b && input[i + 1] == 0x5b && 0x40 <= input[end] <= 0x7e
    requires |parameters| == end - i - 2 && forall k :: i + 2 <= k < end ==> input[k] == parameters[k - i - 2]
    requires forall k :: 0 <= k < |parameters| ==> 0x20 <= parameters[k] <= 0x3f
    ensures Scan(code, input, i) ==
            (if input[end] == 0x6d && 0x3f !in parameters then Style(Codes(code, parameters)) else Nothing, end + 1)
  {
    ParametersEndIs(input, i + 2, end);
    assert input[i + 2..end] == parameters;
    hide Codes, StringEnd, ParametersEnd;
  }

  lemma BodyAt(input: Text, i: nat, p: Piece, body: Text)
    requires StandsAt(input, i, p) && |Render(p)| > |body| + 2 && Render(p)[2..|body| + 2] == body
    ensures forall k :: i + 2 <= k < i + 2 + |body| ==> input[k] == body[k - i - 2]
    ensures forall k :: |body| + 2 <= k < |Render(p)| ==> input[i + k] == Render(p)[k]
  {
    UnitsAt(input, i, p);
    forall k | i + 2 <= k < i + 2 + |body|
      ensures input[k] == body[k - i - 2]
    {
      assert Render(p)[2..|body| + 2][k - i - 2] == Render(p)[k - i];
      assert input[i + (k - i)] == Render(p)[k - i];
    }
    hide StandsAt;
  }

  lemma ScanCommand(code: Text -> int, input: Text, i: nat, p: Piece)
    requires StandsAt(input, i, p) && Fits(p) && p.OperatingSystemCommand?
    ensures Scan(code, input, i) == (TokenOf(code, p), i + |Render(p)|)
  {
    UnitsAt(input, i, p);
    var end := i + 2 + |p.body|;
    assert Render(p)[2..|p.body| + 2] == p.body;
    BodyAt(input, i, p, p.body);
    assert input[end] == Render(p)[|p.body| + 2];
    if !p.bell {
      assert input[end + 1] == Render(p)[|p.body| + 3];
    }
    StringEndIs(input, i + 2, end, true);
    assert input[i + 0] == Render(p)[0] && input[i + 1] == Render(p)[1];
    StringScans(code, input, i, true);
  }

  /** The scan of a string is decided by the two characters that open it. */
  lemma StringScans(code: Text -> int, input: Text, i: nat, bell: bool)
    requires i + 2 <= |input| && input[i] == 0x1b && if bell then input[i + 1] == 0x5d else input[i + 1] in {0x50, 0x58, 0x5e, 0x5f}
    ensures Scan(code, input, i) == (Nothing, StringEnd(input, i + 2, bell))
  {
    hide Control, StringEnd;
  }

  lemma ScanControlString(code: Text -> int, input: Text, i: nat, p: Piece)
    requires StandsAt(input, i, p) && Fits(p) && p.ControlString?
    ensures Scan(code, input, i) == (TokenOf(code, p), i + |Render(p)|)
  {
    UnitsAt(input, i, p);
    var end := i + 2 + |p.body|;
    assert Render(p)[2..|p.body| + 2] == p.body;
    BodyAt(input, i, p, p.body);
    assert input[end] == Render(p)[|p.body| + 2];
    assert input[end + 1] == Render(p)[|p.body| + 3];
    StringEndIs(input, i + 2, end, false);
    assert input[i + 0] == Render(p)[0] && input[i + 1] == Render(p)[1];
    StringScans(code, input, i, false);
  }

  lemma ScanPiece(code: Text -> int, input: Text, i: nat, p: Piece)
    requires StandsAt(input, i, p) && Fits(p)
    ensures i < |input| && Scan(code, input, i) == (TokenOf(code, p), i + |Render(p)|)
  {
    hide Scan, StandsAt, Fits, TokenOf;
    match p
    case ControlSequence(_, _) => ScanControlSequence(code, input, i, p);
    case OperatingSystemCommand(_, _) => ScanCommand(code, input, i, p);
    case ControlString(_, _) => ScanControlString(code, input, i, p);
    case _ => ScanCharacter(code, input, i, p);
    SomethingStands(input, i, p);
  }

  lemma SomethingStands(input: Text, i: nat, p: Piece)
    requires StandsAt(input, i, p)
    ensures i < |input|
  {
  }

  // ----- all of them -----

  lemma {:induction false} TokensOfPieces(code: Text -> int, input: Text, i: nat, pieces: seq<Piece>)
    requires i <= |input| && input[i..] == RenderAll(pieces)
    requires forall k :: 0 <= k < |pieces| ==> Fits(pieces[k])
    ensures Tokens(code, input, i) == TokensOf(code, pieces)
    decreases pieces
  {
    hide Scan, Render, Fits, TokenOf;
    if pieces != [] {
      var p, rest := pieces[0], pieces[1..];
      var next := i + |Render(p)|;
      assert input[i..] == Render(p) + RenderAll(rest);
      assert |input| - i == |Render(p)| + |RenderAll(rest)|;
      assert input[i..next] == input[i..][..|Render(p)|] == Render(p);
      assert input[next..] == input[i..][|Render(p)|..] == RenderAll(rest);
      ScanPiece(code, input, i, p);
      TokensOfPieces(code, input, next, rest);
    } else {
      assert |input[i..]| == 0;
    }
  }

  /**
   Whatever is written, in whatever order, comes out as it was meant: the characters
   are shown, each in the style that the style sequences before it add up to, and
   nothing of any other sequence is left.
   */
  lemma WrittenIsShown(code: Text -> int, pieces: seq<Piece>)
    requires forall k :: 0 <= k < |pieces| ==> Fits(pieces[k])
    ensures var runs := Runs(code, RenderAll(pieces), 0, [], FRESH);
            Cells(runs) == CellsOf(TokensOf(code, pieces), FRESH) && TextOf(runs) == Letters(TokensOf(code, pieces))
  {
    hide Runs, Cells, CellsOf, TextOf, Letters, Tokens, TokensOf, Fits, StyleFor;
    hide RenderAll, TokenOf, Render;
    var input := RenderAll(pieces);
    assert input[0..] == input;
    TokensOfPieces(code, input, 0, pieces);
    hide Styled;
    RunsAreTokens(code, input, 0, [], FRESH);
    NothingStyled(StyleFor(FRESH), CellsOf(Tokens(code, input, 0), FRESH));
    TextIsLetters(code, input, 0, [], FRESH);
  }

  lemma NothingStyled(style: Option<Css>, cells: seq<Cell>)
    ensures Styled([], style) + cells == cells
  {
    assert Styled([], style) == [];
  }

  // ----- what is cut short -----

  lemma {:induction false} StringNeverEnds(input: Text, j: nat, bell: bool)
    requires j <= |input| && NoTerminator(input[j..]) && (bell ==> 0x07 !in input[j..])
    ensures StringEnd(input, j, bell) == |input|
    decreases |input| - j
  {
    if j < |input| {
      var rest := input[j..];
      assert rest[0] == input[j] && input[j + 1..] == rest[1..];
      assert |rest| > 1 ==> rest[1] == input[j + 1];
      forall k | 0 <= k < |rest| - 2
        ensures !(rest[1..][k] == 0x1b && rest[1..][k + 1] == 0x5c)
      {
        assert !(rest[k + 1] == 0x1b && rest[k + 2] == 0x5c);
      }
      StringNeverEnds(input, j + 1, bell);
    }
  }

  /** A string that is never terminated takes the rest of the text with it, and a last escape character is dropped. */
  lemma UnterminatedTakesTheRest(code: Text -> int, input: Text, i: nat)
    requires i < |input| && input[i] == 0x1b
    ensures i + 1 == |input| ==> Scan(code, input, i) == (Nothing, |input|)
    ensures i + 1 < |input| && input[i + 1] == 0x5d && NoTerminator(input[i + 2..]) && 0x07 !in input[i + 2..] ==>
              Scan(code, input, i) == (Nothing, |input|)
    ensures i + 1 < |input| && input[i + 1] in {0x50, 0x58, 0x5e, 0x5f} && NoTerminator(input[i + 2..]) ==>
              Scan(code, input, i) == (Nothing, |input|)
  {
    if i + 1 < |input| && NoTerminator(input[i + 2..]) {
      if 0x07 !in input[i + 2..] {
        StringNeverEnds(input, i + 2, true);
      }
      StringNeverEnds(input, i + 2, false);
    }
    hide StringEnd, Control;
  }

  /** Of a control sequence without a final byte only the escape character is dropped; what follows it is read again. */
  lemma MalformedIsReadAgain(code: Text -> int, input: Text, i: nat, end: nat)
    requires i + 2 <= end <= |input| && input[i] == 0x1b && input[i + 1] == 0x5b
    requires forall k :: i + 2 <= k < end ==> 0x20 <= input[k] <= 0x3f
    requires end < |input| ==> input[end] < 0x20 || input[end] > 0x7e
    ensures Scan(code, input, i) == (Nothing, i + 1)
  {
    if end < |input| {
      ParametersEndIs(input, i + 2, end);
    } else {
      AllParameters(input, i + 2);
    }
    hide StringEnd, ParametersEnd, Codes;
  }

  lemma {:induction false} AllParameters(input: Text, j: nat)
    requires j <= |input| && forall k :: j <= k < |input| ==> IsParameter(input[k])
    ensures ParametersEnd(input, j) == |input|
    decreases |input| - j
  {
    if j < |input| {
      AllParameters(input, j + 1);
    }
  }
}
