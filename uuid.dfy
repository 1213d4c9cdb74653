/** The random identifiers both data layers give new rows: the version-4 UUID text template
    of section 4.4 of RFC 4122, whose `x` positions take a random hexadecimal digit and whose
    `y` position takes a digit with the variant bits `10` of section 4.1.1. */
module Uuid {

  /** A draw of `Math.random()`: a number in [0, 1). */
  type Unit = x: real | 0.0 <= x < 1.0

  const Template := "xxxxxxxx-xxxx-4xxx-yxxx-xxxxxxxxxxxx"

  /** `Math.random() * 16 | 0`: the draw scaled to [0, 16) and truncated. */
  function Nibble(x: Unit): (n: nat)
    ensures n < 16
    ensures n as real <= x * 16.0 < n as real + 1.0
  {
    (x * 16.0).Floor
  }

  /** `r & 0x3 | 0x8`: the two low bits of r under the variant bits `10`. */
  function Variant(r: nat): (v: nat)
    requires r < 16
    ensures 8 <= v < 12 && v % 4 == r % 4
  {
    (((r as bv8) & 3) | 8) as nat
  }

  /** `v.toString(16)` for a single digit: lower-case hexadecimal. */
  function HexDigit(n: nat): (c: char)
    requires n < 16
    ensures IsLowerHex(c)
  {
    if n < 10 then (n + 48) as char else (n + 87) as char
  }

  predicate IsLowerHex(c: char) {
    '0' <= c <= '9' || 'a' <= c <= 'f'
  }

  /** The digit a lower-case hexadecimal character stands for. */
  function HexValue(c: char): nat {
    if '0' <= c <= '9' then c as nat - 48 else if 'a' <= c <= 'f' then c as nat - 87 else 0
  }

  lemma HexRoundTrip(n: nat)
    requires n < 16
    ensures HexValue(HexDigit(n)) == n
  {
  }

  predicate IsHole(c: char) {
    c == 'x' || c == 'y'
  }

  /** The callback's result for a matched `x` or `y`. */
  function Cell(c: char, draw: Unit): char {
    var r := Nibble(draw);
    HexDigit(if c == 'x' then r else Variant(r))
  }

  /** The number of `x` and `y` positions, one draw each. */
  function Holes(t: string): nat {
    if t == [] then 0 else (if IsHole(t[0]) then 1 else 0) + Holes(t[1..])
  }

  /** `t.replace(/[xy]/g, ...)`: the callback runs once per match, left to right, each run
      taking the next draw. */
  function Fill(t: string, draws: seq<Unit>): (id: string)
    requires |draws| == Holes(t)
    ensures |id| == |t|
  {
    if t == [] then []
    else if IsHole(t[0]) then [Cell(t[0], draws[0])] + Fill(t[1..], draws[1..])
    else [t[0]] + Fill(t[1..], draws)
  }

  /** `generateId()`, given the 31 draws it makes. */
  function GenerateId(draws: seq<Unit>): string
    requires |draws| == 31
  {
    TemplateHoles();
    Fill(Template, draws)
  }

  // ---------------------------------------------------------------------------
  // The template, piece by piece

  predicate AllX(t: string) {
    forall i :: 0 <= i < |t| ==> t[i] == 'x'
  }

  /** The digits of a run of `x` positions. */
  function Digits(draws: seq<Unit>): (s: string)
    ensures |s| == |draws|
  {
    if draws == [] then [] else [HexDigit(Nibble(draws[0]))] + Digits(draws[1..])
  }

  lemma {:induction false} DigitsAt(draws: seq<Unit>, i: nat)
    requires i < |draws|
    ensures Digits(draws)[i] == HexDigit(Nibble(draws[i]))
  {
    if i > 0 { DigitsAt(draws[1..], i - 1); }
  }

  lemma TemplateSplit()
    ensures Template == "xxxxxxxx" + "-" + "xxxx" + "-4" + "xxx" + "-y" + "xxx" + "-" + "xxxxxxxxxxxx"
    ensures AllX("xxxxxxxx") && AllX("xxxx") && AllX("xxx") && AllX("xxxxxxxxxxxx")
  {
  }

  lemma SeparatorHoles()
    ensures Holes("-") == 0 && Holes("-4") == 0 && Holes("-y") == 1
    ensures Fill("-", []) == "-" && Fill("-4", []) == "-4"
    ensures forall x: Unit :: Fill("-y", [x]) == "-" + [HexDigit(Variant(Nibble(x)))]
  {
    assert "-4"[1..] == "4";
    assert "-y"[1..] == "y";
    forall x: Unit ensures Fill("-y", [x]) == "-" + [HexDigit(Variant(Nibble(x)))] {
      assert [x][1..] == [];
    }
  }

  lemma {:induction false} HolesAppend(a: string, b: string)
    ensures Holes(a + b) == Holes(a) + Holes(b)
  {
    if a == [] {
      assert a + b == b;
    } else {
      assert (a + b)[1..] == a[1..] + b;
      HolesAppend(a[1..], b);
    }
  }

  /** A run of `x` positions takes one draw per position and shows each draw's digit. */
  lemma {:induction false} FillRun(t: string, draws: seq<Unit>)
    requires AllX(t)
    ensures Holes(t) == |t|
    ensures |draws| == |t| ==> Fill(t, draws) == Digits(draws)
  {
    if t != [] {
      assert AllX(t[1..]) by {
        forall i | 0 <= i < |t| - 1 ensures t[1..][i] == 'x' { assert t[1..][i] == t[i + 1]; }
      }
      if |draws| == |t| {
        FillRun(t[1..], draws[1..]);
      } else {
        FillRun(t[1..], []);
      }
    }
  }

  lemma TemplateHoles()
    ensures Holes(Template) == 31
  {
    TemplateSplit();
    SeparatorHoles();
    var x8, x4, x3, x12 := "xxxxxxxx", "xxxx", "xxx", "xxxxxxxxxxxx";
    FillRun(x8, []); FillRun(x4, []); FillRun(x3, []); FillRun(x12, []);
    var p := x8 + "-"; HolesAppend(x8, "-");
    var q := p + x4; HolesAppend(p, x4);
    var r := q + "-4"; HolesAppend(q, "-4");
    var s := r + x3; HolesAppend(r, x3);
    var t := s + "-y"; HolesAppend(s, "-y");
    var u := t + x3; HolesAppend(t, x3);
    var v := u + "-"; HolesAppend(u, "-");
    var w := v + x12; HolesAppend(v, x12);
    assert Template == w;
  }

  lemma {:induction false} FillAppend(a: string, b: string, draws: seq<Unit>)
    requires |draws| == Holes(a) + Holes(b)
    ensures Holes(a + b) == Holes(a) + Holes(b)
    ensures Fill(a + b, draws) == Fill(a, draws[..Holes(a)]) + Fill(b, draws[Holes(a)..])
  {
    HolesAppend(a, b);
    if a == [] {
      assert a + b == b;
    } else {
      var h := if IsHole(a[0]) then 1 else 0;
      var rest := draws[h..];
      assert (a + b)[1..] == a[1..] + b;
      HolesAppend(a[1..], b);
      FillAppend(a[1..], b, rest);
      assert draws[..Holes(a)][h..] == rest[..Holes(a[1..])];
      assert rest[Holes(a[1..])..] == draws[Holes(a)..];
    }
  }

  /** `Fill` of a concatenation, with its draws split the same way. */
  lemma FillJoin(a: string, b: string, da: seq<Unit>, db: seq<Unit>)
    requires |da| == Holes(a) && |db| == Holes(b)
    ensures Holes(a + b) == Holes(a) + Holes(b)
    ensures Fill(a + b, da + db) == Fill(a, da) + Fill(b, db)
  {
    HolesAppend(a, b);
    FillAppend(a, b, da + db);
    assert (da + db)[..Holes(a)] == da && (da + db)[Holes(a)..] == db;
  }

  /** `g` is a run of n `x`s as far as `Fill` can tell: n holes, showing the digits of `d`. */
  predicate Filled(g: string, n: nat, d: seq<Unit>) {
    Holes(g) == n && |d| == n && Fill(g, d) == Digits(d)
  }

  /** The first two groups and the version digit. */
  lemma LeftParts(g1: string, g2: string, d: seq<Unit>)
    requires |d| == 12 && Filled(g1, 8, d[..8]) && Filled(g2, 4, d[8..])
    ensures Holes(g1 + "-" + g2 + "-4") == 12
    ensures Fill(g1 + "-" + g2 + "-4", d) == Digits(d[..8]) + "-" + Digits(d[8..]) + "-4"
  {
    assert d[..8] + [] == d[..8] && d[..8] + d[8..] == d && d + [] == d;
    SeparatorHoles();
    FillJoin(g1, "-", d[..8], []);
    FillJoin(g1 + "-", g2, d[..8], d[8..]);
    FillJoin(g1 + "-" + g2, "-4", d, []);
  }

  /** The third group, the variant digit and the fourth group. */
  lemma MiddleParts(g3: string, g4: string, d: seq<Unit>)
    requires |d| == 7 && Filled(g3, 3, d[..3]) && Filled(g4, 3, d[4..])
    ensures Holes(g3 + "-y" + g4) == 7
    ensures Fill(g3 + "-y" + g4, d) == Digits(d[..3]) + "-" + [HexDigit(Variant(Nibble(d[3])))] + Digits(d[4..])
  {
    assert d[..3] + [d[3]] == d[..4] && d[..4] + d[4..] == d;
    SeparatorHoles();
    FillJoin(g3, "-y", d[..3], [d[3]]);
    FillJoin(g3 + "-y", g4, d[..4], d[4..]);
  }

  /** The third group onwards. */
  lemma RightParts(mid: string, g5: string, d: seq<Unit>)
    requires |d| == 19 && Holes(mid) == 7 && Filled(g5, 12, d[7..])
    requires Fill(mid, d[..7]) == Digits(d[..3]) + "-" + [HexDigit(Variant(Nibble(d[3])))] + Digits(d[4..7])
    ensures Holes(mid + "-" + g5) == 19
    ensures Fill(mid + "-" + g5, d) ==
      Digits(d[..3]) + "-" + [HexDigit(Variant(Nibble(d[3])))] + Digits(d[4..7]) + "-" + Digits(d[7..])
  {
    var d7 := d[..7];
    assert d7 + [] == d7 && d7 + d[7..] == d;
    SeparatorHoles();
    FillJoin(mid, "-", d7, []);
    FillJoin(mid + "-", g5, d7, d[7..]);
  }

  /** The first two groups, the hyphen after them and the version digit. */
  function LeftGroups(d: seq<Unit>): string
    requires |d| == 31
  {
    Digits(d[..8]) + "-" + Digits(d[8..12]) + "-4"
  }

  /** The last three groups after the version digit. */
  function RightGroups(d: seq<Unit>): string
    requires |d| == 31
  {
    Digits(d[12..15]) + "-" + [HexDigit(Variant(Nibble(d[15])))] + Digits(d[16..19]) + "-" + Digits(d[19..])
  }

  /** The five groups of a template whose runs are g1, g2, g3, g3 and g5. */
  lemma LayoutParts(g1: string, g2: string, g3: string, g5: string, d: seq<Unit>)
    requires |d| == 31 && Filled(g1, 8, d[..8]) && Filled(g2, 4, d[8..12])
    requires Filled(g3, 3, d[12..15]) && Filled(g3, 3, d[16..19]) && Filled(g5, 12, d[19..])
    ensures Holes((g1 + "-" + g2 + "-4") + (g3 + "-y" + g3 + "-" + g5)) == 31
    ensures Fill((g1 + "-" + g2 + "-4") + (g3 + "-y" + g3 + "-" + g5), d) ==
      LeftGroups(d) + RightGroups(d)
  {
    var e := d[12..];
    LayoutSlices(d);
    var left, mid := g1 + "-" + g2 + "-4", g3 + "-y" + g3;
    LeftParts(g1, g2, d[..12]);
    MiddleParts(g3, g3, e[..7]);
    RightParts(mid, g5, e);
    FillJoin(left, mid + "-" + g5, d[..12], e);
  }

  lemma LayoutSlices(d: seq<Unit>)
    requires |d| == 31
    ensures d[..12] + d[12..] == d
    ensures d[..12][..8] == d[..8] && d[..12][8..] == d[8..12]
    ensures d[12..][..7][..3] == d[12..15] && d[12..][..7][3] == d[15] && d[12..][..7][4..] == d[16..19]
    ensures d[12..][7..] == d[19..] && d[12..][..3] == d[12..15] && d[12..][3] == d[15] && d[12..][4..7] == d[16..19]
  {
  }

  /** The identifier as its five groups. */
  lemma GenerateIdParts(d: seq<Unit>)
    requires |d| == 31
    ensures GenerateId(d) == LeftGroups(d) + RightGroups(d)
  {
    TemplateSplit();
    var g1, g2, g3, g5 := "xxxxxxxx", "xxxx", "xxx", "xxxxxxxxxxxx";
    FillRun(g1, d[..8]); FillRun(g2, d[8..12]); FillRun(g3, d[12..15]); FillRun(g3, d[16..19]); FillRun(g5, d[19..]);
    LayoutParts(g1, g2, g3, g5, d);
    assert Template == (g1 + "-" + g2 + "-4") + (g3 + "-y" + g3 + "-" + g5);
  }

  /** Where the k-th draw lands in the identifier. */
  function DigitPosition(k: nat): nat
    requires k < 31
  {
    if k < 8 then k else if k < 12 then k + 1 else if k < 15 then k + 3 else if k < 19 then k + 4 else k + 5
  }

  /** The fixed characters of the layout. */
  lemma Separators(d: seq<Unit>)
    requires |d| == 31
    ensures |GenerateId(d)| == 36
    ensures GenerateId(d)[8] == '-' && GenerateId(d)[13] == '-' && GenerateId(d)[18] == '-' && GenerateId(d)[23] == '-'
    ensures GenerateId(d)[14] == '4'
  {
    GenerateIdParts(d);
  }

  /** Where a draw of the first two groups lands. */
  lemma LeftDrawShown(d: seq<Unit>, k: nat)
    requires |d| == 31 && k < 12
    ensures |LeftGroups(d)| == 15 && LeftGroups(d)[DigitPosition(k)] == HexDigit(Nibble(d[k]))
  {
    var p1, p2 := Digits(d[..8]), Digits(d[8..12]);
    if k < 8 {
      DigitsAt(d[..8], k);
      assert LeftGroups(d)[k] == p1[k];
    } else {
      DigitsAt(d[8..12], k - 8);
      assert LeftGroups(d)[k + 1] == p2[k - 8];
    }
  }

  /** Where a draw of the last three groups lands, counted from the start of the third. */
  lemma RightDrawShown(d: seq<Unit>, k: nat)
    requires |d| == 31 && 12 <= k < 31
    ensures |RightGroups(d)| == 21
    ensures RightGroups(d)[DigitPosition(k) - 15] ==
      if k == 15 then HexDigit(Variant(Nibble(d[15]))) else HexDigit(Nibble(d[k]))
  {
    var p3, p4, p5 := Digits(d[12..15]), Digits(d[16..19]), Digits(d[19..]);
    if k < 15 {
      DigitsAt(d[12..15], k - 12);
      assert RightGroups(d)[k - 12] == p3[k - 12];
    } else if k == 15 {
    } else if k < 19 {
      DigitsAt(d[16..19], k - 16);
      assert RightGroups(d)[k - 11] == p4[k - 16];
    } else {
      DigitsAt(d[19..], k - 19);
      assert RightGroups(d)[k - 10] == p5[k - 19];
    }
  }

  /** The character the k-th draw becomes. */
  lemma DrawShown(d: seq<Unit>, k: nat)
    requires |d| == 31 && k < 31
    ensures |GenerateId(d)| == 36
    ensures GenerateId(d)[DigitPosition(k)] ==
      if k == 15 then HexDigit(Variant(Nibble(d[15]))) else HexDigit(Nibble(d[k]))
  {
    GenerateIdParts(d);
    if k < 12 {
      LeftDrawShown(d, k);
    } else {
      RightDrawShown(d, k);
    }
  }

  /** The RFC 4122 version-4 layout: 36 characters, hyphens at 8, 13, 18 and 23, the version
      digit `4` at 14, a variant digit `8`, `9`, `a` or `b` at 19, lower-case hexadecimal
      elsewhere. */
  lemma IdShape(d: seq<Unit>)
    requires |d| == 31
    ensures |GenerateId(d)| == 36
    ensures GenerateId(d)[8] == '-' && GenerateId(d)[13] == '-' && GenerateId(d)[18] == '-' && GenerateId(d)[23] == '-'
    ensures GenerateId(d)[14] == '4'
    ensures GenerateId(d)[19] in {'8', '9', 'a', 'b'}
    ensures forall i :: 0 <= i < 36 && i !in {8, 13, 14, 18, 19, 23} ==> IsLowerHex(GenerateId(d)[i])
  {
    Separators(d);
    var id := GenerateId(d);
    DrawShown(d, 15);
    var v := Variant(Nibble(d[15]));
    assert v == 8 || v == 9 || v == 10 || v == 11;
    forall i | 0 <= i < 36 && i !in {8, 13, 14, 18, 19, 23} ensures IsLowerHex(id[i]) {
      var k := if i < 8 then i else if i < 13 then i - 1 else if i < 18 then i - 3 else if i < 23 then i - 4 else i - 5;
      DrawShown(d, k);
      assert DigitPosition(k) == i;
    }
  }

  /** Every draw can be read back from the identifier: the digit at its position is its
      nibble, and the variant digit keeps the low two bits of its draw. */
  lemma IdDigits(d: seq<Unit>)
    requires |d| == 31
    ensures |GenerateId(d)| == 36
    ensures forall k :: 0 <= k < 31 && k != 15 ==> HexValue(GenerateId(d)[DigitPosition(k)]) == Nibble(d[k])
    ensures HexValue(GenerateId(d)[19]) == 8 + Nibble(d[15]) % 4
  {
    Separators(d);
    forall k | 0 <= k < 31 && k != 15 ensures HexValue(GenerateId(d)[DigitPosition(k)]) == Nibble(d[k]) {
      DrawShown(d, k);
      HexRoundTrip(Nibble(d[k]));
    }
    DrawShown(d, 15);
    HexRoundTrip(Variant(Nibble(d[15])));
  }

  // ---------------------------------------------------------------------------

  /** The global `Math.random()` generator: an infinite stream of draws and how many of them
      have been taken. */
  class Entropy {
    const source: nat -> Unit
    var drawn: nat

    constructor (source: nat -> Unit)
      ensures this.source == source && drawn == 0
    {
      this.source := source;
      drawn := 0;
    }

    /** The 31 draws starting at `from`. */
    function Window(from: nat): (w: seq<Unit>)
      ensures |w| == 31 && forall i :: 0 <= i < 31 ==> w[i] == source(from + i)
    {
      seq(31, i requires 0 <= i < 31 => source(from + i))
    }

    /** The identifier `generateId()` returns when `from` draws have been taken. */
    function IdAt(from: nat): (id: string)
      ensures |id| == 36
    {
      GenerateId(Window(from))
    }

    /** One call of `generateId()`. */
    method NextId() returns (id: string)
      modifies this
      ensures id == IdAt(old(drawn)) && drawn == old(drawn) + 31
    {
      id := GenerateId(Window(drawn));
      drawn := drawn + 31;
    }
  }
}
