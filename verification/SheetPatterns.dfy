/** Equal patterns mean the same formula copied. */
module SheetPatterns {
  import opened Basics
  import opened SheetFormulas
  import opened SheetReading
  import opened Text

  // ---- copying a formula to another cell ----

  /** A token as it reads after the formula is copied by so many columns and rows: relative parts
      move, absolute parts and text stay. */
  function Moved(t: Token, cols: int, rows: int): Token {
    match t
    case Char(_) => t
    case Ref(absCol, c, absRow, r) => Ref(absCol, if absCol then c else c + cols, absRow, if absRow then r else r + rows)
  }

  function Copied(ts: seq<Token>, cols: int, rows: int): (r: seq<Token>)
    ensures |r| == |ts| && forall k :: 0 <= k < |ts| ==> r[k] == Moved(ts[k], cols, rows)
  {
    seq(|ts|, k requires 0 <= k < |ts| => Moved(ts[k], cols, rows))
  }

  /** fb in cell b is fa of cell a, copied. */
  ghost predicate CopyOf(fa: string, a: Place, fb: string, b: Place) {
    Formula(fb) == Copied(Formula(fa), b.col - a.col, b.row - a.row)
  }

  function PatternAt(f: string, at: Place): string {
    Pattern(f, at.col, at.row)
  }

  function RelativeTo(ts: seq<Token>, at: Place): (r: seq<Token>)
    ensures |r| == |ts| && forall k :: 0 <= k < |ts| ==> r[k] == Relative(ts[k], at.col, at.row)
  {
    RelativeAll(ts, at.col, at.row)
  }

  lemma RelativeOfMoved(t: Token, u: Token, a: Place, b: Place)
    ensures Relative(u, b.col, b.row) == Relative(t, a.col, a.row) <==> u == Moved(t, b.col - a.col, b.row - a.row)
  {
  }

  /** Token by token: two cells read the same relative to themselves exactly when one formula is the
      other copied by the distance between them. */
  lemma SameRelativeIffCopied(ta: seq<Token>, tb: seq<Token>, a: Place, b: Place)
    ensures RelativeTo(tb, b) == RelativeTo(ta, a) <==> tb == Copied(ta, b.col - a.col, b.row - a.row)
  {
    var ra, rb := RelativeTo(ta, a), RelativeTo(tb, b);
    if rb == ra {
      assert |ta| == |tb|;
      forall k | 0 <= k < |ta|
        ensures tb[k] == Moved(ta[k], b.col - a.col, b.row - a.row)
      {
        assert rb[k] == ra[k];
        RelativeOfMoved(ta[k], tb[k], a, b);
      }
    }
    if tb == Copied(ta, b.col - a.col, b.row - a.row) {
      forall k | 0 <= k < |ta|
        ensures rb[k] == ra[k]
      {
        RelativeOfMoved(ta[k], tb[k], a, b);
      }
    }
  }

  /** Copying a formula never changes its pattern. */
  lemma CopyKeepsPattern(fa: string, a: Place, fb: string, b: Place)
    requires CopyOf(fa, a, fb, b)
    ensures PatternAt(fb, b) == PatternAt(fa, a)
  {
    SameRelativeIffCopied(Formula(fa), Formula(fb), a, b);
  }

  // ---- where references stand ----

  /** A column and a row the scanner can have read. */
  predicate OnSheet(t: Token) {
    t.Ref? ==> (t.col == -1 || 1 <= t.col <= MAX_COLUMNS) && 0 <= t.row <= MAX_INT
  }

  function Absolute(t: Token, at: Place): Token {
    Moved(t, at.col, at.row)
  }

  predicate MayStart(before: Before, absCol: bool) {
    before == Free || (before == Dollar && absCol)
  }

  predicate MayFollow(text: string) {
    text == "" || (!IsNameChar(text[0]) && text[0] != '(')
  }

  predicate MayEnd(ts: seq<Token>) {
    ts == [] || (ts[0].Char? && !IsNameChar(ts[0].c) && ts[0].c != '(')
  }

  /** References stand where the scanner finds references. */
  predicate Placed(ts: seq<Token>, before: Before, inString: bool) {
    ts == [] ||
    match ts[0]
    case Char(c) => Placed(ts[1..], Next(before, c), NextQuote(c, inString))
    case Ref(absCol, _, _, _) => !inString && MayStart(before, absCol) && MayEnd(ts[1..]) && Placed(ts[1..], Name, false)
  }

  /** Tokens relative to a cell, all on the sheet as seen from there. */
  predicate AllOnSheet(ts: seq<Token>, at: Place) {
    forall k :: 0 <= k < |ts| ==> OnSheet(Absolute(ts[k], at))
  }

  predicate Sound(ts: seq<Token>, before: Before, inString: bool, at: Place) {
    Placed(ts, before, inString) && AllOnSheet(ts, at)
  }

  const ORIGIN := Place(0, 0)

  lemma {:induction false} LettersPositive(s: string, a: nat, b: nat)
    requires a < b <= |s| && forall k :: a <= k < b ==> IsUpper(s[k])
    ensures LettersValue(s, a, b) >= 1
  {
    if a < b - 1 { LettersPositive(s, a, b - 1); }
  }

  lemma {:induction false} DigitsPositive(s: string, c: nat, d: nat)
    requires c <= d <= |s| && forall k :: c <= k < d ==> IsDigit(s[k])
    ensures DigitsValue(s, c, d) >= 0
  {
    if c < d { DigitsPositive(s, c, d - 1); }
  }

  lemma MatchOnSheet(s: string, i: nat)
    requires i < |s| && MatchRef(s, i).Match?
    ensures OnSheet(MatchRef(s, i).ref) && (MatchRef(s, i).ref.absCol <==> s[i] == '$')
  {
    var a := AfterDollar(s, i);
    var b := LettersEnd(s, a, 3);
    var c := AfterDollar(s, b);
    var d := DigitsEnd(s, c);
    forall k | a <= k < b
      ensures IsUpper(s[k])
    {
      LettersAreUpper(s, a, 3, k);
    }
    LettersPositive(s, a, b);
    forall k | c <= k < d
      ensures IsDigit(s[k])
    {
      DigitsAreDigits(s, c, k);
    }
    DigitsPositive(s, c, d);
  }

  /** Before a position after a $ that was read as text, no reference starts with that $. */
  predicate DollarIsText(s: string, i: nat, before: Before, inString: bool)
    requires i <= |s|
  {
    before == Dollar && !inString ==> i > 0 && s[i - 1] == '$' && !Fits(s, i - 1)
  }

  lemma DollarTaken(s: string, i: nat)
    requires 0 < i < |s| && s[i - 1] == '$' && Fits(s, i) && !Fits(s, i - 1)
    ensures s[i] == '$'
  {
    if s[i] != '$' { DollarFits(s, i - 1); }
  }

  lemma {:induction false} ReadIsSound(s: string, i: nat, before: Before, inString: bool)
    requires i <= |s| && DollarIsText(s, i, before, inString)
    ensures Sound(Read(s, i, before, inString), before, inString, ORIGIN)
    decreases |s| - i
  {
    if i < |s| {
      if !inString && before != Name && Fits(s, i) {
        ReadIsSound(s, MatchRef(s, i).end, Name, false);
        MatchOnSheet(s, i);
        if before == Dollar { DollarTaken(s, i); }
      } else {
        ReadIsSound(s, i + 1, Next(before, s[i]), NextQuote(s[i], inString));
      }
    }
  }

  /** Whether tokens are placed does not depend on which cells and whether they are relative. */
  lemma {:induction false} SamePlaces(ts: seq<Token>, us: seq<Token>, before: Before, inString: bool)
    requires Placed(ts, before, inString) && |us| == |ts|
    requires forall k :: 0 <= k < |ts| ==> if ts[k].Char? then us[k] == ts[k] else us[k].Ref? && us[k].absCol == ts[k].absCol
    ensures Placed(us, before, inString)
  {
    if ts != [] {
      match ts[0]
      case Char(c) => SamePlaces(ts[1..], us[1..], Next(before, c), NextQuote(c, inString));
      case Ref(_, _, _, _) => SamePlaces(ts[1..], us[1..], Name, false);
    }
  }

  lemma RelativeSound(ts: seq<Token>, before: Before, inString: bool, at: Place)
    requires Sound(ts, before, inString, ORIGIN)
    ensures Sound(RelativeTo(ts, at), before, inString, at)
  {
    var rs := RelativeTo(ts, at);
    SamePlaces(ts, rs, before, inString);
    forall k | 0 <= k < |rs|
      ensures OnSheet(Absolute(rs[k], at))
    {
      assert Absolute(rs[k], at) == ts[k] == Absolute(ts[k], ORIGIN);
    }
  }

  // ---- look-alikes ----

  /** The text begins with the R1C1 spelling of a reference that a formula in cell `at` could have
      here: it may start here, is not continued, and is on the sheet. */
  predicate LooksLike(text: string, before: Before, x: Token, at: Place) {
    x.Ref? && MayStart(before, x.absCol) && OnSheet(Absolute(x, at)) && Spell(x) <= text && MayFollow(text[|Spell(x)|..])
  }

  /** The spelling of these tokens begins with a look-alike. */
  ghost predicate Misleads(ts: seq<Token>, before: Before, at: Place) {
    exists x :: LooksLike(SpellAll(ts), before, x, at)
  }

  /** No text of these tokens, outside quotes, looks like a reference. */
  ghost predicate Unmistaken(ts: seq<Token>, before: Before, inString: bool, at: Place) {
    ts == [] ||
    match ts[0]
    case Char(c) =>
      (!inString ==> !Misleads(ts, before, at)) && Unmistaken(ts[1..], Next(before, c), NextQuote(c, inString), at)
    case Ref(_, _, _, _) => Unmistaken(ts[1..], Name, inString, at)
  }

  /** No text in the pattern that f has in cell `here` looks like a reference of a formula in cell
      `there`. */
  ghost predicate Plain(f: string, here: Place, there: Place) {
    Unmistaken(RelativeTo(Formula(f), here), Free, false, there)
  }

  // ---- numbers are read back uniquely ----

  predicate NoDigitFirst(s: string) {
    s == "" || !IsDigit(s[0])
  }

  lemma DecimalUnique(m: nat, n: nat, u: string, v: string)
    requires Decimal(m) + u == Decimal(n) + v && NoDigitFirst(u) && NoDigitFirst(v)
    ensures m == n && u == v
  {
    var a, b := Decimal(m), Decimal(n);
    DecimalDigits(m);
    DecimalDigits(n);
    DecimalNotLonger(a, b, u, v);
    DecimalNotLonger(b, a, v, u);
    assert a == (a + u)[..|a|] && b == (b + v)[..|b|];
    assert u == (a + u)[|a|..] && v == (b + v)[|b|..];
    DecimalInjective(m, n);
  }

  lemma DecimalNotLonger(a: string, b: string, u: string, v: string)
    requires a + u == b + v && NoDigitFirst(u) && forall k :: 0 <= k < |b| ==> IsDigit(b[k])
    ensures |b| <= |a|
  {
    assert u != "" ==> (a + u)[|a|] == u[0];
  }

  lemma DropFirst(a: string, b: string, u: string, v: string)
    requires |a| == |b| && a + u == b + v
    ensures a == b && u == v
  {
    assert a == (a + u)[..|a|] && b == (b + v)[..|b|];
    assert u == (a + u)[|a|..] && v == (b + v)[|b|..];
  }

  lemma IntFirst(n: int)
    ensures IntText(n) != "" && (IntText(n)[0] == '-' <==> n < 0) && (n >= 0 ==> IsDigit(IntText(n)[0]))
    ensures IntText(n)[0] == '-' || IsDigit(IntText(n)[0])
  {
    if n >= 0 { DecimalDigits(n); }
  }

  lemma IntUnique(m: int, n: int, u: string, v: string)
    requires IntText(m) + u == IntText(n) + v && NoDigitFirst(u) && NoDigitFirst(v)
    ensures m == n && u == v
  {
    IntFirst(m);
    IntFirst(n);
    assert (IntText(m) + u)[0] == IntText(m)[0] && (IntText(n) + v)[0] == IntText(n)[0];
    if m < 0 {
      Regroup("-", Decimal(-m), u);
      Regroup("-", Decimal(-n), v);
      DropFirst("-", "-", Decimal(-m) + u, Decimal(-n) + v);
      DecimalUnique(-m, -n, u, v);
    } else {
      DecimalUnique(m, n, u, v);
    }
  }

  lemma PartFirst(absolute: bool, n: int)
    ensures Part(absolute, n) != "" && (Part(absolute, n)[0] == '[' <==> !absolute)
  {
    IntFirst(n);
  }

  lemma Bracketed(x: string, u: string)
    ensures ("[" + x + "]") + u == "[" + (x + ("]" + u))
  {
  }

  lemma Lettered(p: string, q: string, u: string)
    ensures ("R" + p + "C" + q) + u == "R" + (p + ("C" + (q + u)))
  {
  }

  lemma PartUnique(p: bool, m: int, q: bool, n: int, u: string, v: string)
    requires Part(p, m) + u == Part(q, n) + v && NoDigitFirst(u) && NoDigitFirst(v)
    ensures p == q && m == n && u == v
  {
    PartFirst(p, m);
    PartFirst(q, n);
    assert (Part(p, m) + u)[0] == Part(p, m)[0] && (Part(q, n) + v)[0] == Part(q, n)[0];
    if p {
      IntUnique(m, n, u, v);
    } else {
      Bracketed(IntText(m), u);
      Bracketed(IntText(n), v);
      DropFirst("[", "[", IntText(m) + ("]" + u), IntText(n) + ("]" + v));
      IntUnique(m, n, "]" + u, "]" + v);
      DropFirst("]", "]", u, v);
    }
  }

  lemma RefUnique(x: Token, y: Token, u: string, v: string)
    requires x.Ref? && y.Ref? && Spell(x) + u == Spell(y) + v && NoDigitFirst(u) && NoDigitFirst(v)
    ensures x == y && u == v
  {
    var cu, cv := "C" + (Part(x.absCol, x.col) + u), "C" + (Part(y.absCol, y.col) + v);
    Lettered(Part(x.absRow, x.row), Part(x.absCol, x.col), u);
    Lettered(Part(y.absRow, y.row), Part(y.absCol, y.col), v);
    DropFirst("R", "R", Part(x.absRow, x.row) + cu, Part(y.absRow, y.row) + cv);
    PartUnique(x.absRow, x.row, y.absRow, y.row, cu, cv);
    DropFirst("C", "C", Part(x.absCol, x.col) + u, Part(y.absCol, y.col) + v);
    PartUnique(x.absCol, x.col, y.absCol, y.col, u, v);
  }

  // ---- so patterns are read back uniquely ----

  lemma SpellFirst(ts: seq<Token>)
    ensures ts == [] <==> SpellAll(ts) == ""
    ensures ts != [] ==> SpellAll(ts)[0] == if ts[0].Char? then ts[0].c else 'R'
  {
    if ts != [] {
      assert Spell(ts[0]) != "";
      assert SpellAll(ts) == Spell(ts[0]) + Flat(Spell, ts[1..]);
    }
  }

  lemma MayFollowSpelled(ts: seq<Token>)
    requires MayEnd(ts)
    ensures MayFollow(SpellAll(ts)) && NoDigitFirst(SpellAll(ts))
  {
    SpellFirst(ts);
  }

  /** The tokens' first reference is what their spelling begins with. */
  lemma RefLooksLike(ts: seq<Token>, before: Before, at: Place)
    requires ts != [] && ts[0].Ref? && Sound(ts, before, false, at)
    ensures LooksLike(SpellAll(ts), before, ts[0], at)
    ensures SpellAll(ts)[|Spell(ts[0])|..] == SpellAll(ts[1..])
  {
    MayFollowSpelled(ts[1..]);
    assert SpellAll(ts) == Spell(ts[0]) + SpellAll(ts[1..]);
  }

  /** A character cannot be mistaken for a reference, so equal spellings begin with the same token. */
  lemma SameHead(ta: seq<Token>, tb: seq<Token>, before: Before, inString: bool, a: Place, b: Place)
    requires ta != [] && tb != [] && SpellAll(ta) == SpellAll(tb)
    requires Sound(ta, before, inString, a) && Unmistaken(ta, before, inString, b)
    requires Sound(tb, before, inString, b) && Unmistaken(tb, before, inString, a)
    ensures ta[0] == tb[0] && SpellAll(ta[1..]) == SpellAll(tb[1..])
  {
    if ta[0].Char? && tb[0].Char? {
      DropFirst([ta[0].c], [tb[0].c], SpellAll(ta[1..]), SpellAll(tb[1..]));
    } else if ta[0].Ref? && tb[0].Ref? {
      MayFollowSpelled(ta[1..]);
      MayFollowSpelled(tb[1..]);
      RefUnique(ta[0], tb[0], SpellAll(ta[1..]), SpellAll(tb[1..]));
    } else if ta[0].Char? {
      RefLooksLike(tb, before, b);
      assert Misleads(ta, before, b);
    } else {
      RefLooksLike(ta, before, a);
      assert Misleads(tb, before, a);
    }
  }

  lemma {:induction false} SpellInjective(ta: seq<Token>, tb: seq<Token>, before: Before, inString: bool, a: Place, b: Place)
    requires Sound(ta, before, inString, a) && Unmistaken(ta, before, inString, b)
    requires Sound(tb, before, inString, b) && Unmistaken(tb, before, inString, a)
    requires SpellAll(ta) == SpellAll(tb)
    ensures ta == tb
  {
    SpellFirst(ta);
    SpellFirst(tb);
    if ta != [] {
      SameHead(ta, tb, before, inString, a, b);
      match ta[0] {
        case Char(c) => SpellInjective(ta[1..], tb[1..], Next(before, c), NextQuote(c, inString), a, b);
        case Ref(_, _, _, _) => SpellInjective(ta[1..], tb[1..], Name, false, a, b);
      }
      assert ta == [ta[0]] + ta[1..] && tb == [tb[0]] + tb[1..];
    }
  }

  /** Tokens of a cell's formula, with no look-alike of a reference in the other cell. */
  ghost predicate Legible(ts: seq<Token>, here: Place, there: Place) {
    Sound(RelativeTo(ts, here), Free, false, here) && Unmistaken(RelativeTo(ts, here), Free, false, there)
  }

  lemma FormulaIsSound(f: string, at: Place)
    ensures Sound(RelativeTo(Formula(f), at), Free, false, at)
  {
    FormulaIsRead(f);
    ReadIsSound(f, 0, Free, false);
    RelativeSound(Formula(f), Free, false, at);
  }

  lemma FormulaLegible(f: string, here: Place, there: Place)
    requires Plain(f, here, there)
    ensures Legible(Formula(f), here, there)
  {
    FormulaIsSound(f, here);
  }

  lemma SameSpellingMeansCopied(ta: seq<Token>, a: Place, tb: seq<Token>, b: Place)
    requires Legible(ta, a, b) && Legible(tb, b, a) && SpellAll(RelativeTo(tb, b)) == SpellAll(RelativeTo(ta, a))
    ensures tb == Copied(ta, b.col - a.col, b.row - a.row)
  {
    SameRelativeIffCopied(ta, tb, a, b);
    SpellInjective(RelativeTo(ta, a), RelativeTo(tb, b), Free, false, a, b);
  }

  lemma SamePatternMeansCopied(fa: string, a: Place, fb: string, b: Place)
    requires Plain(fa, a, b) && Plain(fb, b, a) && PatternAt(fb, b) == PatternAt(fa, a)
    ensures CopyOf(fa, a, fb, b)
  {
    FormulaLegible(fa, a, b);
    FormulaLegible(fb, b, a);
    SameSpellingMeansCopied(Formula(fa), a, Formula(fb), b);
  }

  /** For formulas without look-alikes: two cells have the same pattern exactly when one formula is
      the other copied by the distance between them. */
  lemma SamePatternIffCopied(fa: string, a: Place, fb: string, b: Place)
    requires Plain(fa, a, b) && Plain(fb, b, a)
    ensures PatternAt(fb, b) == PatternAt(fa, a) <==> CopyOf(fa, a, fb, b)
  {
    if PatternAt(fb, b) == PatternAt(fa, a) { SamePatternMeansCopied(fa, a, fb, b); }
    if CopyOf(fa, a, fb, b) { CopyKeepsPattern(fa, a, fb, b); }
  }
}
