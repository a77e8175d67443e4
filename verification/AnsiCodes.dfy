/**
 What a list of SGR codes leaves a terminal in, told from the end of the list: the
 last code that speaks of something decides it.
 */
module AnsiCodes {
  import opened Common
  import opened AnsiText

  /** No extended color in the list: each code stands for itself. */
  predicate Plain(codes: seq<int>) {
    forall c :: c in codes ==> c != 38 && c != 48
  }

  lemma {:induction false} PlainFold(s: State, codes: seq<int>, last: int, i: nat)
    requires Plain(codes + [last]) && i <= |codes|
    ensures Sgr(s, codes + [last], i) == Simple(Sgr(s, codes, i), last)
    decreases |codes| - i
  {
    hide Simple;
    var all := codes + [last];
    assert all[i] in all;
    if i < |codes| {
      assert codes[i] == all[i];
      PlainFold(Simple(s, codes[i]), codes, last, i + 1);
    } else {
      assert Sgr(s, all, i) == Sgr(Simple(s, last), all, i + 1);
    }
  }

  // ----- attributes -----

  /** Whether something that `on` switches on, and `off` and 0 switch off, is on after the codes. */
  function IsOn(was: bool, codes: seq<int>, on: int, off: int): bool
    decreases |codes|
  {
    if codes == [] then was
    else
      var last := codes[|codes| - 1];
      if last == on then true else if last == off || last == 0 then false else IsOn(was, codes[..|codes| - 1], on, off)
  }

  /**
   The color after the codes: one of the eight from `base` on, one of the bright eight
   from `bright` on, or none since `base + 9` or 0.
   */
  function ColorAfter(was: Option<Color>, codes: seq<int>, base: int, bright: int): Option<Color>
    decreases |codes|
  {
    if codes == [] then was
    else
      var last := codes[|codes| - 1];
      if base <= last <= base + 7 then Some(Palette(last - base))
      else if bright <= last <= bright + 7 then Some(Palette(8 + (last - bright)))
      else if last == base + 9 || last == 0 then None
      else ColorAfter(was, codes[..|codes| - 1], base, bright)
  }

  /**
   Every attribute, and both colors, are what the last code that speaks of them
   says: 1 to 9 switch on, 22 to 29 off, 30 to 37 and 90 to 97 color the text, 40 to
   47 and 100 to 107 what is behind it, 39 and 49 give the defaults back, and 0 all.
   */
  lemma {:induction false} LastCodeDecides(s: State, codes: seq<int>)
    requires Plain(codes)
    ensures var t := Sgr(s, codes, 0);
            && t.flags.bold == IsOn(s.flags.bold, codes, 1, 22)
            && t.flags.dim == IsOn(s.flags.dim, codes, 2, 22)
            && t.flags.italic == IsOn(s.flags.italic, codes, 3, 23)
            && t.flags.underline == IsOn(s.flags.underline, codes, 4, 24)
            && t.flags.inverse == IsOn(s.flags.inverse, codes, 7, 27)
            && t.flags.hidden == IsOn(s.flags.hidden, codes, 8, 28)
            && t.flags.strikethrough == IsOn(s.flags.strikethrough, codes, 9, 29)
            && t.fg == ColorAfter(s.fg, codes, 30, 90)
            && t.bg == ColorAfter(s.bg, codes, 40, 100)
    decreases |codes|
  {
    if codes != [] {
      var init, last := codes[..|codes| - 1], codes[|codes| - 1];
      assert codes == init + [last];
      assert forall c :: c in init ==> c in codes;
      LastCodeDecides(s, init);
      PlainFold(s, init, last, 0);
      OneCode(Sgr(s, init, 0), last);
      hide Simple, Sgr, Plain;
    }
  }

  lemma OneCode(s: State, c: int)
    ensures var t := Simple(s, c);
            && t.flags.bold == (c == 1 || (c != 22 && c != 0 && s.flags.bold))
            && t.flags.dim == (c == 2 || (c != 22 && c != 0 && s.flags.dim))
            && t.flags.italic == (c == 3 || (c != 23 && c != 0 && s.flags.italic))
            && t.flags.underline == (c == 4 || (c != 24 && c != 0 && s.flags.underline))
            && t.flags.inverse == (c == 7 || (c != 27 && c != 0 && s.flags.inverse))
            && t.flags.hidden == (c == 8 || (c != 28 && c != 0 && s.flags.hidden))
            && t.flags.strikethrough == (c == 9 || (c != 29 && c != 0 && s.flags.strikethrough))
            && t.fg == (if 30 <= c <= 37 then Some(Palette(c - 30)) else if 90 <= c <= 97 then Some(Palette(8 + (c - 90)))
                        else if c == 39 || c == 0 then None else s.fg)
            && t.bg == (if 40 <= c <= 47 then Some(Palette(c - 40)) else if 100 <= c <= 107 then Some(Palette(8 + (c - 100)))
                        else if c == 49 || c == 0 then None else s.bg)
  {
    if c != 0 && c < 30 {
      OneAttribute(s.flags, c);
    } else if c != 0 {
      OneTint(s, c);
    }
    hide Attribute, Tint;
  }

  lemma OneAttribute(f: Flags, c: int)
    requires c < 30 && c != 0
    ensures var t := Attribute(f, c);
            && t.bold == (c == 1 || (c != 22 && f.bold)) && t.dim == (c == 2 || (c != 22 && f.dim))
            && t.italic == (c == 3 || (c != 23 && f.italic)) && t.underline == (c == 4 || (c != 24 && f.underline))
            && t.inverse == (c == 7 || (c != 27 && f.inverse)) && t.hidden == (c == 8 || (c != 28 && f.hidden))
            && t.strikethrough == (c == 9 || (c != 29 && f.strikethrough))
  {
    if c < 22 {
      AttributeOn(f, c);
    } else {
      AttributeOff(f, c);
    }
    hide Attribute;
  }

  lemma AttributeOn(f: Flags, c: int)
    requires c < 22
    ensures Attribute(f, c) ==
            Flags(c == 1 || f.bold, c == 2 || f.dim, c == 3 || f.italic, c == 4 || f.underline, c == 9 || f.strikethrough,
                  c == 7 || f.inverse, c == 8 || f.hidden)
  {
  }

  lemma AttributeOff(f: Flags, c: int)
    requires 22 <= c
    ensures Attribute(f, c) ==
            Flags(c != 22 && f.bold, c != 22 && f.dim, c != 23 && f.italic, c != 24 && f.underline, c != 29 && f.strikethrough,
                  c != 27 && f.inverse, c != 28 && f.hidden)
  {
  }

  lemma OneTint(s: State, c: int)
    requires c >= 30
    ensures var t := Tint(s, c);
            && t.flags == s.flags
            && t.fg == (if c <= 37 then Some(Palette(c - 30)) else if 90 <= c <= 97 then Some(Palette(8 + (c - 90)))
                        else if c == 39 then None else s.fg)
            && t.bg == (if 40 <= c <= 47 then Some(Palette(c - 40)) else if 100 <= c <= 107 then Some(Palette(8 + (c - 100)))
                        else if c == 49 then None else s.bg)
  {
  }

  // ----- extended colors -----

  /**
   An indexed color takes up three codes, and a color of red, green and blue takes up
   five; what follows them is applied as usual.
   */
  lemma ExtendedColorsAreTaken(s: State, n: int, r: int, g: int, b: int, rest: seq<int>)
    ensures Sgr(s, [38, 5, n] + rest, 0) == Sgr(s.(fg := Some(Color256(n))), rest, 0)
    ensures Sgr(s, [48, 5, n] + rest, 0) == Sgr(s.(bg := Some(Color256(n))), rest, 0)
    ensures Sgr(s, [38, 2, r, g, b] + rest, 0) == Sgr(s.(fg := Some(Rgb(r, g, b))), rest, 0)
    ensures Sgr(s, [48, 2, r, g, b] + rest, 0) == Sgr(s.(bg := Some(Rgb(r, g, b))), rest, 0)
  {
    forall c | c == 38 || c == 48
      ensures Sgr(s, [c, 5, n] + rest, 0) == Sgr(if c == 38 then s.(fg := Some(Color256(n))) else s.(bg := Some(Color256(n))), rest, 0)
      ensures Sgr(s, [c, 2, r, g, b] + rest, 0) ==
              Sgr(if c == 38 then s.(fg := Some(Rgb(r, g, b))) else s.(bg := Some(Rgb(r, g, b))), rest, 0)
    {
      IndexedIsTaken(s, c, n, rest);
      RgbIsTaken(s, c, r, g, b, rest);
    }
  }

  lemma IndexedIsTaken(s: State, c: int, n: int, rest: seq<int>)
    requires c == 38 || c == 48
    ensures Sgr(s, [c, 5, n] + rest, 0) == Sgr(if c == 38 then s.(fg := Some(Color256(n))) else s.(bg := Some(Color256(n))), rest, 0)
  {
    hide Color256;
    var codes := [c, 5, n] + rest;
    var t := Extended(s, codes, 0);
    assert Sgr(s, codes, 0) == Sgr(t, codes, 3);
    SgrOfSuffix(t, codes, 3, 3);
    assert codes[3..] == rest;
  }

  lemma RgbIsTaken(s: State, c: int, r: int, g: int, b: int, rest: seq<int>)
    requires c == 38 || c == 48
    ensures Sgr(s, [c, 2, r, g, b] + rest, 0) ==
            Sgr(if c == 38 then s.(fg := Some(Rgb(r, g, b))) else s.(bg := Some(Rgb(r, g, b))), rest, 0)
  {
    var codes := [c, 2, r, g, b] + rest;
    var t := Extended(s, codes, 0);
    assert Sgr(s, codes, 0) == Sgr(t, codes, 5);
    SgrOfSuffix(t, codes, 5, 5);
    assert codes[5..] == rest;
  }

  /** Numbers that an extended color leaves out count as 0. */
  lemma MissingNumbersAreZero(s: State)
    ensures Sgr(s, [38, 5], 0) == s.(fg := Some(Palette(0))) && Sgr(s, [48, 5], 0) == s.(bg := Some(Palette(0)))
    ensures Sgr(s, [38, 2], 0) == s.(fg := Some(Rgb(0, 0, 0)))
    ensures forall r :: Sgr(s, [38, 2, r], 0) == s.(fg := Some(Rgb(r, 0, 0)))
    ensures forall r, g :: Sgr(s, [38, 2, r, g], 0) == s.(fg := Some(Rgb(r, g, 0)))
  {
    assert Color256(0) == Palette(0);
    forall r
      ensures Sgr(s, [38, 2, r], 0) == s.(fg := Some(Rgb(r, 0, 0)))
    {
      assert Sgr(s, [38, 2, r], 0) == Sgr(Extended(s, [38, 2, r], 0), [38, 2, r], 5);
    }
    forall r, g
      ensures Sgr(s, [38, 2, r, g], 0) == s.(fg := Some(Rgb(r, g, 0)))
    {
      assert Sgr(s, [38, 2, r, g], 0) == Sgr(Extended(s, [38, 2, r, g], 0), [38, 2, r, g], 5);
    }
  }

  /** The sixteen of the palette, the ramp of greys, and what lies outside either end. */
  lemma IndexedColorsAre(n: int)
    ensures 0 <= n < 16 ==> Color256(n) == Palette(n)
    ensures 232 <= n <= 255 ==> var grey := 8 + 10 * (n - 232); Color256(n) == Hex(grey, grey, grey) && 8 <= grey <= 238
    ensures n < 0 ==> Color256(n) == Palette(0)
    ensures n > 255 ==> Color256(n) == Hex(238, 238, 238)
  {
  }

  // ----- what is shown -----

  /**
   The style of a terminal shows each of its attributes; inverse swaps the two colors,
   with the defaults for those that are not set, and hidden outdoes dim.
   */
  lemma StyleShows(s: State)
    requires s != FRESH
    ensures StyleFor(s).Some?
    ensures var css, f := StyleFor(s).value, s.flags;
            && css.bold == f.bold && css.italic == f.italic && css.underline == f.underline && css.lineThrough == f.strikethrough
            && (css.opacity == Some(Zero) <==> f.hidden) && (css.opacity == Some(Half) <==> f.dim && !f.hidden)
            && (!f.inverse ==> css.color == s.fg && css.background == s.bg)
            && (f.inverse && s.fg.Some? ==> css.background == s.fg)
            && (f.inverse && s.fg.None? ==> css.background == Some(DefaultForeground))
            && (f.inverse && s.bg.Some? ==> css.color == s.bg)
            && (f.inverse && s.bg.None? ==> css.color == Some(DefaultBackground))
  {
    UnstyledExactlyWhenFresh(s);
  }
}
