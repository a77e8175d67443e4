/** The order on game versions, and the newest of a list. */
module GameVersions {
  import opened Common
  import Strings

  /** The number a piece starts with, added to `value` times the digits it has; 0 when it starts with none. */
  function LeadingNumber(piece: string, value: nat): nat {
    if piece != "" && Strings.IsDigit(piece[0]) then LeadingNumber(piece[1..], value * 10 + (piece[0] as int - '0' as int)) else value
  }

  function Numbers(pieces: seq<string>): (r: seq<nat>)
    ensures |r| == |pieces|
  {
    seq(|pieces|, k requires 0 <= k < |pieces| => LeadingNumber(pieces[k], 0))
  }

  function Segments(version: string): seq<nat> {
    Numbers(Strings.Split(version, '.'))
  }

  predicate PreRelease(version: string) {
    exists k :: 0 <= k < |version| && !Strings.IsDigit(version[k]) && version[k] != '.'
  }

  function At(segments: seq<nat>, i: nat): nat {
    if i < |segments| then segments[i] else 0
  }

  function CompareFrom(left: seq<nat>, right: seq<nat>, i: nat): int
    decreases Max(|left|, |right|) - i
  {
    if i >= Max(|left|, |right|) then 0
    else if At(left, i) != At(right, i) then At(left, i) - At(right, i)
    else CompareFrom(left, right, i + 1)
  }

  method CompareGameVersions(a: string, b: string) returns (r: int)
    ensures r == Compare(a, b)
  {
    var left, right := Segments(a), Segments(b);
    var i: nat := 0;
    while i < Max(|left|, |right|)
      invariant CompareFrom(left, right, i) == CompareFrom(left, right, 0)
      decreases Max(|left|, |right|) - i
    {
      var x: int, y: int := At(left, i), At(right, i);
      if x != y {
        return x - y;
      }
      i := i + 1;
    }
    if PreRelease(a) != PreRelease(b) {
      return if PreRelease(a) then -1 else 1;
    }
    return 0;
  }

  function Compare(a: string, b: string): int {
    var c := CompareFrom(Segments(a), Segments(b), 0);
    if c != 0 then c
    else if PreRelease(a) == PreRelease(b) then 0
    else if PreRelease(a) then -1 else 1
  }

  // ----- a total preorder -----

  lemma {:induction false} Opposite(a: seq<nat>, b: seq<nat>, i: nat)
    ensures CompareFrom(a, b, i) == -CompareFrom(b, a, i)
    decreases Max(|a|, |b|) - i
  {
    if i < Max(|a|, |b|) {
      Opposite(a, b, i + 1);
    }
  }

  lemma Reflexive(a: seq<nat>, i: nat)
    ensures CompareFrom(a, a, i) == 0
    decreases Max(|a|, |a|) - i
  {
    if i < |a| {
      Reflexive(a, i + 1);
    }
  }

  /** Both comparisons that come out equal to zero agree on every later position, past the shorter list too. */
  lemma {:induction false} Chain(a: seq<nat>, b: seq<nat>, c: seq<nat>, i: nat)
    requires CompareFrom(a, b, i) <= 0 && CompareFrom(b, c, i) <= 0
    ensures CompareFrom(a, c, i) <= 0
    ensures CompareFrom(a, c, i) == 0 ==> CompareFrom(a, b, i) == 0 && CompareFrom(b, c, i) == 0
    decreases Max(Max(|a|, |b|), |c|) - i
  {
    if i < Max(Max(|a|, |b|), |c|) {
      assert At(a, i) <= At(b, i) <= At(c, i);
      if At(a, i) == At(c, i) {
        assert CompareFrom(a, b, i + 1) == CompareFrom(a, b, i);
        assert CompareFrom(b, c, i + 1) == CompareFrom(b, c, i);
        Chain(a, b, c, i + 1);
        assert CompareFrom(a, c, i + 1) == CompareFrom(a, c, i);
      }
    }
  }

  /** Reflexive, opposite when turned around, transitive: so any two versions compare and no cycle exists. */
  lemma IsTotalPreorder(a: string, b: string, c: string)
    ensures Compare(a, a) == 0
    ensures Compare(a, b) == -Compare(b, a)
    ensures Compare(a, b) <= 0 && Compare(b, c) <= 0 ==> Compare(a, c) <= 0
  {
    hide Segments, PreRelease;
    Reflexive(Segments(a), 0);
    Opposite(Segments(a), Segments(b), 0);
    if Compare(a, b) <= 0 && Compare(b, c) <= 0 {
      Chain(Segments(a), Segments(b), Segments(c), 0);
    }
  }

  lemma {:induction false} ZerosChangeNothing(a: seq<nat>, zeros: seq<nat>, b: seq<nat>, i: nat)
    requires forall k :: 0 <= k < |zeros| ==> zeros[k] == 0
    ensures CompareFrom(a + zeros, b, i) == CompareFrom(a, b, i)
    decreases Max(|a + zeros|, |b|) - i
  {
    if i < Max(|a + zeros|, |b|) {
      assert At(a + zeros, i) == At(a, i);
      ZerosChangeNothing(a, zeros, b, i + 1);
      if i >= Max(|a|, |b|) {
        assert At(a, i) == 0 && At(b, i) == 0;
      }
    }
  }

  /** A version with `.0` after it is the same version to everything it is compared with. */
  lemma TrailingZeroIsIgnored(a: string, b: string)
    ensures Compare(a + ".0", b) == Compare(a, b)
  {
    hide Strings.Split;
    SplitZero(a);
    var pieces := Strings.Split(a, '.');
    assert Numbers(pieces + ["0"]) == Numbers(pieces) + [0] by {
      assert LeadingNumber("0", 0) == 0;
    }
    ZerosChangeNothing(Segments(a), [0], Segments(b), 0);
    SamePreRelease(a);
  }

  lemma SamePreRelease(a: string)
    ensures PreRelease(a + ".0") == PreRelease(a)
  {
    var b := a + ".0";
    assert b[|a|] == '.' && b[|a| + 1] == '0';
    if PreRelease(a) {
      var k :| 0 <= k < |a| && !Strings.IsDigit(a[k]) && a[k] != '.';
      assert b[k] == a[k];
    }
  }

  lemma SplitZeroCons(first: string, rest: string)
    requires '.' !in first && Strings.Split(rest + ".0", '.') == Strings.Split(rest, '.') + ["0"]
    ensures Strings.Split(first + ['.'] + rest + ".0", '.') == Strings.Split(first + ['.'] + rest, '.') + ["0"]
  {
    hide Strings.Split;
    Strings.SplitCons(first, rest, '.');
    Strings.SplitCons(first, rest + ".0", '.');
    assert first + ['.'] + rest + ".0" == first + ['.'] + (rest + ".0");
  }

  lemma SplitPlain(a: string)
    requires '.' !in a
    ensures Strings.Split(a, '.') == [a]
  {
  }

  lemma NoDotInZero()
    ensures '.' !in "0"
  {
  }

  lemma SplitZeroAlone(a: string)
    requires '.' !in a
    ensures Strings.Split(a + ".0", '.') == Strings.Split(a, '.') + ["0"]
  {
    hide Strings.Split;
    SplitPlain(a);
    NoDotInZero();
    SplitPlain("0");
    Strings.SplitCons(a, "0", '.');
    assert a + ".0" == a + ['.'] + "0";
  }

  lemma {:induction false} SplitZero(a: string)
    ensures Strings.Split(a + ".0", '.') == Strings.Split(a, '.') + ["0"]
    decreases |a|
  {
    hide Strings.Split;
    if '.' in a {
      var first, rest := Strings.CutAtFirst(a, '.');
      SplitZero(rest);
      SplitZeroCons(first, rest);
    } else {
      SplitZeroAlone(a);
    }
  }

  // ----- what the order is -----

  /** A version as releases are named: numbers between dots. */
  function Written(segments: seq<nat>): string
    requires segments != []
  {
    if |segments| == 1 then Strings.Numeral(segments[0])
    else Strings.Numeral(segments[0]) + "." + Written(segments[1..])
  }

  lemma {:induction false} LeadingDigits(s: string, rest: string, value: nat)
    requires Strings.AllDigits(s) && (rest != "" ==> !Strings.IsDigit(rest[0]))
    ensures LeadingNumber(s + rest, value) == LeadingNumber(s, value)
  {
    if s == "" {
      assert s + rest == rest;
    } else {
      assert (s + rest)[1..] == s[1..] + rest;
      LeadingDigits(s[1..], rest, value * 10 + (s[0] as int - '0' as int));
    }
  }

  lemma {:induction false} LeadingSnoc(s: string, c: char, value: nat)
    requires Strings.AllDigits(s) && Strings.IsDigit(c)
    ensures LeadingNumber(s + [c], value) == LeadingNumber(s, value) * 10 + (c as int - '0' as int)
  {
    if s == "" {
      assert s + [c] == [c] && [c][1..] == "";
    } else {
      assert (s + [c])[1..] == s[1..] + [c];
      LeadingSnoc(s[1..], c, value * 10 + (s[0] as int - '0' as int));
    }
  }

  lemma {:induction false} LeadingIsDecimal(s: string)
    requires Strings.AllDigits(s)
    ensures LeadingNumber(s, 0) == Strings.Decimal(s)
  {
    if s != "" {
      var init := s[..|s| - 1];
      assert s == init + [s[|s| - 1]];
      LeadingIsDecimal(init);
      LeadingSnoc(init, s[|s| - 1], 0);
    }
  }

  lemma NumberIsRead(n: nat, rest: string)
    requires rest != "" ==> !Strings.IsDigit(rest[0])
    ensures LeadingNumber(Strings.Numeral(n) + rest, 0) == n && '.' !in Strings.Numeral(n)
  {
    hide LeadingNumber;
    LeadingDigits(Strings.Numeral(n), rest, 0);
    LeadingIsDecimal(Strings.Numeral(n));
    Strings.DecimalNumeral(n);
  }

  /** A name after the numbers, as in `1.21.4-pre2`; none at all for a release. */
  predicate IsSuffix(suffix: string) {
    '.' !in suffix && (suffix != "" ==> !Strings.IsDigit(suffix[0]))
  }

  lemma {:induction false} SegmentsAre(segments: seq<nat>, suffix: string)
    requires segments != [] && IsSuffix(suffix)
    ensures Segments(Written(segments) + suffix) == segments
    ensures PreRelease(Written(segments) + suffix) <==> suffix != ""
  {
    hide LeadingNumber, Strings.Numeral, Strings.Split;
    var first := Strings.Numeral(segments[0]);
    if |segments| == 1 {
      NumberIsRead(segments[0], suffix);
      SplitPlain(first + suffix);
      SuffixTells(first, suffix);
    } else {
      var rest := Written(segments[1..]) + suffix;
      NumberIsRead(segments[0], "");
      assert first + "" == first;
      SegmentsAre(segments[1..], suffix);
      Strings.SplitCons(first, rest, '.');
      assert Written(segments) + suffix == first + ['.'] + rest;
      var pieces := Strings.Split(rest, '.');
      assert Numbers([first] + pieces) == [segments[0]] + Numbers(pieces);
      DottedTells(first, rest);
    }
  }

  lemma SuffixTells(digits: string, suffix: string)
    requires Strings.AllDigits(digits) && IsSuffix(suffix)
    ensures PreRelease(digits + suffix) <==> suffix != ""
  {
    if suffix != "" {
      assert (digits + suffix)[|digits|] == suffix[0] && suffix[0] in suffix;
    }
  }

  lemma DottedTells(digits: string, rest: string)
    requires Strings.AllDigits(digits)
    ensures PreRelease(digits + ['.'] + rest) <==> PreRelease(rest)
  {
    var all := digits + ['.'] + rest;
    if PreRelease(rest) {
      var k :| 0 <= k < |rest| && !Strings.IsDigit(rest[k]) && rest[k] != '.';
      assert all[|digits| + 1 + k] == rest[k];
    }
    if PreRelease(all) {
      var k :| 0 <= k < |all| && !Strings.IsDigit(all[k]) && all[k] != '.';
      assert k > |digits| && all[k] == rest[k - |digits| - 1];
    }
  }

  /** The number at a place of a version, 0 past its end. */
  function NumberAt(segments: seq<nat>, i: nat): nat {
    (segments + seq(i + 1, _ => 0))[i]
  }

  /** `a` has the greater number at the first place where the two differ. */
  ghost predicate Greater(a: seq<nat>, b: seq<nat>) {
    exists i: nat :: NumberAt(a, i) > NumberAt(b, i) && forall j: nat :: j < i ==> NumberAt(a, j) == NumberAt(b, j)
  }

  lemma FirstDecides(a: seq<nat>, b: seq<nat>, i: nat)
    requires NumberAt(a, i) != NumberAt(b, i) && forall j: nat :: j < i ==> NumberAt(a, j) == NumberAt(b, j)
    ensures Greater(a, b) <==> NumberAt(a, i) > NumberAt(b, i)
  {
    hide NumberAt;
    if k: nat :| NumberAt(a, k) > NumberAt(b, k) && forall j: nat :: j < k ==> NumberAt(a, j) == NumberAt(b, j) {
      assert k == i;
    }
  }

  lemma {:induction false} ComparesFrom(a: seq<nat>, b: seq<nat>, i: nat)
    requires forall j: nat :: j < i ==> NumberAt(a, j) == NumberAt(b, j)
    ensures CompareFrom(a, b, i) > 0 <==> Greater(a, b)
    decreases Max(|a|, |b|) - i
  {
    if i < Max(|a|, |b|) {
      if NumberAt(a, i) == NumberAt(b, i) {
        ComparesFrom(a, b, i + 1);
      } else {
        FirstDecides(a, b, i);
      }
    } else {
      NothingPastTheEnd(a, b, i);
    }
  }

  lemma NothingPastTheEnd(a: seq<nat>, b: seq<nat>, i: nat)
    requires i >= Max(|a|, |b|) && forall j: nat :: j < i ==> NumberAt(a, j) == NumberAt(b, j)
    ensures !Greater(a, b)
  {
    forall k: nat
      ensures NumberAt(a, k) == NumberAt(b, k)
    {
      if k >= i {
        assert NumberAt(a, k) == 0 && NumberAt(b, k) == 0;
      }
    }
  }

  /**
   Versions are ordered by their numbers, the first different one deciding, and a
   pre-release comes just below the release of the same numbers.
   */
  lemma OrderedByNumbers(a: seq<nat>, b: seq<nat>, suffixA: string, suffixB: string)
    requires a != [] && b != [] && IsSuffix(suffixA) && IsSuffix(suffixB)
    ensures Compare(Written(a) + suffixA, Written(b) + suffixB) > 0 <==>
              Greater(a, b) || (!Greater(b, a) && suffixA == "" && suffixB != "")
  {
    hide Greater, Segments, PreRelease;
    SegmentsAre(a, suffixA);
    SegmentsAre(b, suffixB);
    ComparesFrom(a, b, 0);
    ComparesFrom(b, a, 0);
    Opposite(a, b, 0);
  }

  // ----- the newest -----

  /** `reduce`: a later version replaces the best so far only when it is strictly newer. */
  function Newest(versions: seq<string>): Option<string> {
    if versions == [] then None
    else
      var n := |versions| - 1;
      var best := Newest(versions[..n]);
      if best.None? || Compare(versions[n], best.value) > 0 then Some(versions[n]) else best
  }

  /** The newest is the first of the versions that no other exceeds. */
  lemma {:induction false} NewestIsFirstMaximal(versions: seq<string>) returns (k: nat)
    requires versions != []
    ensures k < |versions| && Newest(versions) == Some(versions[k])
    ensures forall j :: 0 <= j < |versions| ==> Compare(versions[j], versions[k]) <= 0
    ensures forall j :: 0 <= j < k ==> Compare(versions[j], versions[k]) < 0
  {
    hide Compare;
    var n := |versions| - 1;
    IsTotalPreorder(versions[n], versions[n], versions[n]);
    if n == 0 {
      k := 0;
    } else {
      var before := NewestIsFirstMaximal(versions[..n]);
      k := if Compare(versions[n], versions[before]) > 0 then n else before;
      forall j | 0 <= j < |versions|
        ensures Compare(versions[j], versions[k]) <= 0
        ensures j < k ==> Compare(versions[j], versions[k]) < 0
      {
        if j < n {
          assert versions[..n][j] == versions[j];
          IsTotalPreorder(versions[j], versions[before], versions[n]);
          IsTotalPreorder(versions[n], versions[j], versions[before]);
        }
        IsTotalPreorder(versions[before], versions[n], versions[n]);
      }
    }
  }
}
