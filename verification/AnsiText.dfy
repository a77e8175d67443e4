/**
 Terminal text with escape sequences (ECMA-48) turned into styled runs. Text is a
 sequence of UTF-16 code units; `Code` stands for reading a parameter as a number.
 */
module AnsiText {
  import opened Common

  newtype Unit = x: int | 0 <= x < 0x1_0000

  type Text = seq<Unit>

  // ----- styles -----

  datatype Color =
    | Palette(n: int)
    | Hex(r: int, g: int, b: int)
    | Rgb(red: int, green: int, blue: int)
    | DefaultForeground
    | DefaultBackground

  datatype Flags = Flags(
    bold: bool, dim: bool, italic: bool, underline: bool, strikethrough: bool, inverse: bool, hidden: bool)

  datatype State = State(fg: Option<Color>, bg: Option<Color>, flags: Flags)

  const FRESH: State := State(None, None, Flags(false, false, false, false, false, false, false))

  datatype Opacity = Half | Zero

  datatype Css = Css(
    color: Option<Color>, background: Option<Color>,
    bold: bool, opacity: Option<Opacity>, italic: bool, underline: bool, lineThrough: bool)

  function Level(x: int): int {
    if x == 0 then 0 else 55 + x * 40
  }

  /** An index outside the palette counts as its nearer end. */
  function Color256(index: int): (c: Color)
    ensures c.Palette? || c.Hex?
    ensures c.Palette? ==> 0 <= c.n < 16
    ensures c.Hex? ==> 0 <= c.r <= 255 && 0 <= c.g <= 255 && 0 <= c.b <= 255
  {
    var n := if index < 0 then 0 else if index > 255 then 255 else index;
    if n < 16 then Palette(n)
    else if n >= 232 then
      var v := 8 + (n - 232) * 10;
      Hex(v, v, v)
    else
      var i := n - 16;
      Hex(Level(i / 36 % 6), Level(i / 6 % 6), Level(i % 6))
  }

  lemma LevelsAre(x: int)
    requires 0 <= x < 6
    ensures Level(x) == [0, 95, 135, 175, 215, 255][x]
  {
  }

  /** The cube holds every combination of the six levels once, in order. */
  lemma CubeIsAddressed(r: int, g: int, b: int)
    requires 0 <= r < 6 && 0 <= g < 6 && 0 <= b < 6
    ensures var levels := [0, 95, 135, 175, 215, 255];
            Color256(16 + 36 * r + 6 * g + b) == Hex(levels[r], levels[g], levels[b])
  {
    LevelsAre(r);
    LevelsAre(g);
    LevelsAre(b);
    var i := 36 * r + 6 * g + b;
    hide Level;
    assert i / 36 == r && i / 36 % 6 == r;
    assert i / 6 == 6 * r + g && i / 6 % 6 == g;
    assert i % 6 == b;
  }

  lemma LevelsDiffer(x: int, y: int)
    requires 0 <= x < 6 && 0 <= y < 6
    ensures [0, 95, 135, 175, 215, 255][x] == [0, 95, 135, 175, 215, 255][y] ==> x == y
  {
  }

  lemma CubeAddress(n: int) returns (r: int, g: int, b: int)
    requires 16 <= n < 232
    ensures 0 <= r < 6 && 0 <= g < 6 && 0 <= b < 6 && n == 16 + 36 * r + 6 * g + b
  {
    var i := n - 16;
    r, g, b := i / 36, i / 6 % 6, i % 6;
    assert i / 6 / 6 == i / 36;
  }

  /** No two indices of the cube give one color. */
  lemma CubeIsInjective(m: int, n: int)
    requires 16 <= m < 232 && 16 <= n < 232 && Color256(m) == Color256(n)
    ensures m == n
  {
    var r, g, b := CubeAddress(m);
    var u, v, w := CubeAddress(n);
    hide Color256;
    CubeIsAddressed(r, g, b);
    CubeIsAddressed(u, v, w);
    LevelsDiffer(r, u);
    LevelsDiffer(g, v);
    LevelsDiffer(b, w);
  }

  // ----- SGR codes -----

  function Attribute(s: Flags, c: int): Flags {
    if c == 1 then s.(bold := true)
    else if c == 2 then s.(dim := true)
    else if c == 3 then s.(italic := true)
    else if c == 4 then s.(underline := true)
    else if c == 7 then s.(inverse := true)
    else if c == 8 then s.(hidden := true)
    else if c == 9 then s.(strikethrough := true)
    else if c == 22 then s.(bold := false, dim := false)
    else if c == 23 then s.(italic := false)
    else if c == 24 then s.(underline := false)
    else if c == 27 then s.(inverse := false)
    else if c == 28 then s.(hidden := false)
    else if c == 29 then s.(strikethrough := false)
    else s
  }

  function Tint(s: State, c: int): State {
    if c == 39 then s.(fg := None)
    else if c == 49 then s.(bg := None)
    else if 30 <= c <= 37 then s.(fg := Some(Palette(c - 30)))
    else if 40 <= c <= 47 then s.(bg := Some(Palette(c - 40)))
    else if 90 <= c <= 97 then s.(fg := Some(Palette(c - 90 + 8)))
    else if 100 <= c <= 107 then s.(bg := Some(Palette(c - 100 + 8)))
    else s
  }

  function Simple(s: State, c: int): State {
    if c == 0 then FRESH else if c < 30 then s.(flags := Attribute(s.flags, c)) else Tint(s, c)
  }

  function At(codes: seq<int>, i: nat): int {
    if i < |codes| then codes[i] else 0
  }

  /** An extended color: 38 or 48, then the mode 5 or 2. */
  predicate IsExtended(codes: seq<int>, i: nat) {
    i + 1 < |codes| && (codes[i] == 38 || codes[i] == 48) && (codes[i + 1] == 5 || codes[i + 1] == 2)
  }

  function Extended(s: State, codes: seq<int>, i: nat): State
    requires IsExtended(codes, i)
  {
    var color := if codes[i + 1] == 5 then Color256(At(codes, i + 2)) else Rgb(At(codes, i + 2), At(codes, i + 3), At(codes, i + 4));
    if codes[i] == 38 then s.(fg := Some(color)) else s.(bg := Some(color))
  }

  function Sgr(s: State, codes: seq<int>, i: nat): State
    decreases |codes| - i
  {
    if i >= |codes| then s
    else if IsExtended(codes, i) then Sgr(Extended(s, codes, i), codes, if codes[i + 1] == 5 then i + 3 else i + 5)
    else Sgr(Simple(s, codes[i]), codes, i + 1)
  }

  class SgrState {
    var fg: Option<Color>
    var bg: Option<Color>
    var bold: bool
    var dim: bool
    var italic: bool
    var underline: bool
    var strikethrough: bool
    var inverse: bool
    var hidden: bool

    function Value(): State
      reads this
    {
      State(fg, bg, Flags(bold, dim, italic, underline, strikethrough, inverse, hidden))
    }

    constructor ()
      ensures Value() == FRESH
    {
      fg, bg := None, None;
      bold, dim, italic, underline, strikethrough, inverse, hidden := false, false, false, false, false, false, false;
    }

    method Assign(s: State)
      modifies this
      ensures Value() == s
    {
      fg, bg, bold, dim, italic := s.fg, s.bg, s.flags.bold, s.flags.dim, s.flags.italic;
      underline, strikethrough, inverse, hidden := s.flags.underline, s.flags.strikethrough, s.flags.inverse, s.flags.hidden;
    }

    method SetFlag(c: int)
      requires c < 22
      modifies this`bold, this`dim, this`italic, this`underline, this`strikethrough, this`inverse, this`hidden
      ensures Value() == old(Value()).(flags := Attribute(old(Value()).flags, c))
    {
      if c == 1 { bold := true; }
      else if c == 2 { dim := true; }
      else if c == 3 { italic := true; }
      else if c == 4 { underline := true; }
      else if c == 7 { inverse := true; }
      else if c == 8 { hidden := true; }
      else if c == 9 { strikethrough := true; }
    }

    method ClearFlag(c: int)
      requires c >= 22
      modifies this`bold, this`dim, this`italic, this`underline, this`strikethrough, this`inverse, this`hidden
      ensures Value() == old(Value()).(flags := Attribute(old(Value()).flags, c))
    {
      if c == 22 { bold := false; dim := false; }
      else if c == 23 { italic := false; }
      else if c == 24 { underline := false; }
      else if c == 27 { inverse := false; }
      else if c == 28 { hidden := false; }
      else if c == 29 { strikethrough := false; }
    }

    method SwitchColor(c: int)
      modifies this`fg, this`bg
      ensures Value() == Tint(old(Value()), c)
    {
      if c == 39 { fg := None; }
      else if c == 49 { bg := None; }
      else if 30 <= c <= 37 { fg := Some(Palette(c - 30)); }
      else if 40 <= c <= 47 { bg := Some(Palette(c - 40)); }
      else if 90 <= c <= 97 { fg := Some(Palette(c - 90 + 8)); }
      else if 100 <= c <= 107 { bg := Some(Palette(c - 100 + 8)); }
    }

    method Switch(c: int)
      modifies this
      ensures Value() == Simple(old(Value()), c)
    {
      hide Attribute, Tint;
      if c == 0 {
        Assign(FRESH);
      } else if c < 22 {
        SetFlag(c);
      } else if c < 30 {
        ClearFlag(c);
      } else {
        SwitchColor(c);
      }
    }

    method ApplySGR(codes: seq<int>)
      modifies this
      ensures Value() == Sgr(old(Value()), codes, 0)
    {
      var i: nat := 0;
      while i < |codes|
        invariant Sgr(Value(), codes, i) == Sgr(old(Value()), codes, 0)
        decreases |codes| - i
      {
        var c := codes[i];
        if (c == 38 || c == 48) && i + 1 < |codes| && codes[i + 1] == 5 {
          var color := Color256(At(codes, i + 2));
          if c == 38 { fg := Some(color); } else { bg := Some(color); }
          i := i + 3;
        } else if (c == 38 || c == 48) && i + 1 < |codes| && codes[i + 1] == 2 {
          var color := Rgb(At(codes, i + 2), At(codes, i + 3), At(codes, i + 4));
          if c == 38 { fg := Some(color); } else { bg := Some(color); }
          i := i + 5;
        } else {
          Switch(c);
          i := i + 1;
        }
      }
    }
  }

  /**
   Wherever 38 or 48 is not followed by a known color mode, it is passed over alone:
   what follows is applied as codes of its own.
   */
  lemma UnknownModeIsApplied(s: State, codes: seq<int>, i: nat)
    requires i < |codes| && (codes[i] == 38 || codes[i] == 48) && !IsExtended(codes, i)
    ensures Sgr(s, codes, i) == Sgr(s, codes, i + 1)
  {
  }

  /** A code that does nothing, wherever it stands. */
  predicate Inert(c: int) {
    && c !in {0, 1, 2, 3, 4, 7, 8, 9, 22, 23, 24, 27, 28, 29, 38, 39, 48, 49}
    && !(30 <= c <= 37) && !(40 <= c <= 47) && !(90 <= c <= 97) && !(100 <= c <= 107)
  }

  lemma {:induction false} SgrOfSuffix(s: State, codes: seq<int>, i: nat, k: nat)
    requires k <= i <= |codes|
    ensures Sgr(s, codes, i) == Sgr(s, codes[k..], i - k)
    decreases |codes| - i
  {
    hide Simple, Color256;
    if i < |codes| {
      assert IsExtended(codes, i) <==> IsExtended(codes[k..], i - k);
      if IsExtended(codes, i) {
        assert Extended(s, codes, i) == Extended(s, codes[k..], i - k);
        var next := if codes[i + 1] == 5 then i + 3 else i + 5;
        if next <= |codes| {
          SgrOfSuffix(Extended(s, codes, i), codes, next, k);
        }
      } else {
        SgrOfSuffix(Simple(s, codes[i]), codes, i + 1, k);
      }
    }
  }

  /** Every code but an inert one changes some terminal. */
  lemma ActiveCodeShows(c: int) returns (s: State)
    requires !Inert(c) && c != 38 && c != 48
    ensures Simple(s, c) != s
  {
    var on := Flags(true, true, true, true, true, true, true);
    s := if c < 10 && c != 0 then FRESH else State(Some(Rgb(0, 0, 0)), Some(Rgb(0, 0, 0)), on);
  }

  /**
   Skipping an unknown color mode, as the comment has it, is what happens exactly when
   its number is a code without effect.
   */
  lemma ModeIsSkippedExactlyWhenInert(c: int, mode: int)
    requires (c == 38 || c == 48) && mode != 5 && mode != 2
    ensures (forall s: State, rest: seq<int> :: Sgr(s, [c, mode] + rest, 0) == Sgr(s, rest, 0)) <==> Inert(mode)
  {
    if Inert(mode) {
      forall s: State, rest: seq<int>
        ensures Sgr(s, [c, mode] + rest, 0) == Sgr(s, rest, 0)
      {
        SkipsInert(s, c, mode, rest);
      }
    } else if mode == 38 || mode == 48 {
      NotSkippedBeforeColor(c, mode);
    } else {
      var s := ActiveCodeShows(mode);
      AppliesMode(s, c, mode);
      assert Sgr(s, [c, mode] + [], 0) != Sgr(s, [], 0);
    }
  }

  lemma SkipsInert(s: State, c: int, mode: int, rest: seq<int>)
    requires (c == 38 || c == 48) && mode != 5 && mode != 2 && Inert(mode)
    ensures Sgr(s, [c, mode] + rest, 0) == Sgr(s, rest, 0)
  {
    var codes := [c, mode] + rest;
    UnknownModeIsApplied(s, codes, 0);
    assert Simple(s, mode) == s;
    assert Sgr(s, codes, 1) == Sgr(s, codes, 2) by {
      assert codes[1] == mode;
    }
    SgrOfSuffix(s, codes, 2, 2);
    assert codes[2..] == rest;
  }

  lemma AppliesMode(s: State, c: int, mode: int)
    requires (c == 38 || c == 48) && mode != 5 && mode != 2 && mode != 38 && mode != 48
    ensures Sgr(s, [c, mode] + [], 0) == Simple(s, mode)
  {
    var codes := [c, mode] + [];
    UnknownModeIsApplied(s, codes, 0);
    assert codes == [c, mode] && Sgr(s, codes, 1) == Sgr(Simple(s, mode), codes, 2);
  }

  lemma NotSkippedBeforeColor(c: int, mode: int)
    requires (c == 38 || c == 48) && (mode == 38 || mode == 48)
    ensures Sgr(FRESH, [c, mode] + [5, 1], 0) != Sgr(FRESH, [5, 1], 0)
  {
    var codes := [c, mode] + [5, 1];
    assert codes == [c, mode, 5, 1];
    UnknownModeIsApplied(FRESH, codes, 0);
    assert Sgr(FRESH, codes, 1) == Extended(FRESH, codes, 1);
    assert Sgr(FRESH, [5, 1], 0) == Sgr(FRESH, [5, 1], 1) == Simple(FRESH, 1);
  }

  /** Whatever went before, a sequence that starts with 0 gives what it gives on a fresh terminal. */
  lemma ResetForgets(s: State, t: State, codes: seq<int>)
    requires codes != [] && codes[0] == 0
    ensures Sgr(s, codes, 0) == Sgr(t, codes, 0)
  {
    assert Sgr(s, codes, 0) == Sgr(FRESH, codes, 1);
    assert Sgr(t, codes, 0) == Sgr(FRESH, codes, 1);
  }

  function StyleFor(s: State): Option<Css> {
    var f := s.flags;
    var fg := if f.inverse && s.fg.None? then Some(DefaultForeground) else s.fg;
    var bg := if f.inverse && s.bg.None? then Some(DefaultBackground) else s.bg;
    var css := Css(if f.inverse then bg else fg, if f.inverse then fg else bg, f.bold,
                   if f.hidden then Some(Zero) else if f.dim then Some(Half) else None,
                   f.italic, f.underline, f.strikethrough);
    if css == Css(None, None, false, None, false, false, false) then None else Some(css)
  }

  lemma UnstyledExactlyWhenFresh(s: State)
    ensures StyleFor(s) == None <==> s == FRESH
  {
  }
}
