/** Look-alikes are exactly what keeps patterns from being read back: a formula with one has the pattern
    of another formula, in which the look-alike is the reference it spells. */
module SheetLookalikes {
  import opened Basics
  import opened SheetFormulas
  import opened SheetPatterns
  import opened SheetReading
  import opened Text

  // ---- writing tokens as a formula ----

  function Letter(k: nat): char
    requires k < 26
  {
    ('A' as int + k) as char
  }

  /** The letters of a column: 1 is A, 27 is AA. */
  function ColumnName(c: nat): string {
    if c == 0 then "" else ColumnName((c - 1) / 26) + [Letter((c - 1) % 26)]
  }

  lemma {:induction false} ColumnLetters(c: nat)
    ensures forall k :: 0 <= k < |ColumnName(c)| ==> IsUpper(ColumnName(c)[k])
  {
    if c > 0 { ColumnLetters((c - 1) / 26); }
  }

  /** Three letters beyond the last column stand for -1. */
  function ColumnText(c: int): (s: string)
    requires c == -1 || 1 <= c <= MAX_COLUMNS
    ensures s != ""
  {
    if c == -1 then "ZZZ" else ColumnName(c)
  }

  lemma ColumnTextUpper(c: int)
    requires c == -1 || 1 <= c <= MAX_COLUMNS
    ensures forall k :: 0 <= k < |ColumnText(c)| ==> IsUpper(ColumnText(c)[k])
  {
    if c != -1 { ColumnLetters(c); }
  }

  function DollarText(absolute: bool): string {
    if absolute then "$" else ""
  }

  function TokenText(t: Token): string
    requires OnSheet(t)
  {
    match t
    case Char(c) => [c]
    case Ref(absCol, c, absRow, r) => DollarText(absCol) + (ColumnText(c) + (DollarText(absRow) + Decimal(r)))
  }

  // ---- a printed reference is read back ----

  lemma {:induction false} LettersFound(s: string, i: nat, j: nat, most: nat)
    requires i <= j <= |s| && j <= i + most && (forall k :: i <= k < j ==> IsUpper(s[k]))
    requires j == |s| || !IsUpper(s[j])
    ensures LettersEnd(s, i, most) == j
    decreases most
  {
    if i < j { LettersFound(s, i + 1, j, most - 1); }
  }

  lemma {:induction false} DigitsFound(s: string, i: nat, j: nat)
    requires i <= j <= |s| && (forall k :: i <= k < j ==> IsDigit(s[k])) && (j == |s| || !IsDigit(s[j]))
    ensures DigitsEnd(s, i) == j
    decreases j - i
  {
    if i < j { DigitsFound(s, i + 1, j); }
  }

  /** w stands in s at position i. */
  ghost predicate StandsAt(s: string, i: nat, w: string) {
    i + |w| <= |s| && forall k :: 0 <= k < |w| ==> s[i + k] == w[k]
  }

  lemma {:induction false} ColumnValue(s: string, i: nat, c: nat)
    requires StandsAt(s, i, ColumnName(c))
    ensures LettersValue(s, i, i + |ColumnName(c)|) == c
    decreases c
  {
    if c > 0 {
      var w, v := ColumnName(c), ColumnName((c - 1) / 26);
      assert forall k :: 0 <= k < |v| ==> w[k] == v[k];
      ColumnValue(s, i, (c - 1) / 26);
      assert s[i + |v|] == w[|v|] == Letter((c - 1) % 26);
    }
  }

  lemma {:induction false} DecimalValue(s: string, i: nat, n: nat)
    requires StandsAt(s, i, Decimal(n))
    ensures DigitsValue(s, i, i + |Decimal(n)|) == n
    decreases n
  {
    var w := Decimal(n);
    if n < 10 {
      assert s[i] == w[0] == Digit(n);
    } else {
      var v := Decimal(n / 10);
      assert forall k :: 0 <= k < |v| ==> w[k] == v[k];
      DecimalValue(s, i, n / 10);
      assert s[i + |v|] == w[|v|] == Digit(n % 10);
    }
  }

  lemma ColumnShort(c: nat)
    requires c <= MAX_COLUMNS
    ensures |ColumnName(c)| <= 3
  {
    var d := if c == 0 then 0 else (c - 1) / 26;
    var e := if d == 0 then 0 else (d - 1) / 26;
    assert e <= 26;
    assert e > 0 ==> (e - 1) / 26 == 0;
    assert |ColumnName(e)| <= 1;
    assert |ColumnName(d)| <= 2;
  }

  lemma ColumnRead(s: string, i: nat, c: int)
    requires (c == -1 || 1 <= c <= MAX_COLUMNS) && StandsAt(s, i, ColumnText(c))
    ensures |ColumnText(c)| <= 3 && ColumnNumber(LettersValue(s, i, i + |ColumnText(c)|)) == c
  {
    if c == -1 {
      var w := ColumnText(c);
      assert s[i + 0] == w[0] && s[i + 1] == w[1] && s[i + 2] == w[2];
      assert LettersValue(s, i, i) == 0;
      assert LettersValue(s, i, i + 1) == 26;
      assert LettersValue(s, i, i + 2) == 702;
      assert LettersValue(s, i, i + 3) == 18278;
    } else {
      ColumnShort(c);
      ColumnValue(s, i, c);
    }
  }

  lemma DollarRead(s: string, i: nat, absolute: bool, j: nat)
    requires StandsAt(s, i, DollarText(absolute)) && j == i + |DollarText(absolute)| && (j < |s| ==> s[j] != '$')
    ensures AfterDollar(s, i) == j
  {
    if absolute { assert s[i + 0] == DollarText(absolute)[0]; }
  }

  lemma LettersRead(s: string, i: nat, w: string, j: nat)
    requires StandsAt(s, i, w) && j == i + |w| && |w| <= 3 && (j < |s| ==> !IsUpper(s[j]))
    requires forall k :: 0 <= k < |w| ==> IsUpper(w[k])
    ensures LettersEnd(s, i, 3) == j
  {
    forall k | i <= k < j
      ensures IsUpper(s[k])
    {
      assert s[i + (k - i)] == w[k - i];
    }
    LettersFound(s, i, j, 3);
  }

  lemma DigitsRead(s: string, i: nat, w: string, j: nat)
    requires StandsAt(s, i, w) && j == i + |w| && (j < |s| ==> !IsDigit(s[j]))
    requires forall k :: 0 <= k < |w| ==> IsDigit(w[k])
    ensures DigitsEnd(s, i) == j
  {
    forall k | i <= k < j
      ensures IsDigit(s[k])
    {
      assert s[i + (k - i)] == w[k - i];
    }
    DigitsFound(s, i, j);
  }

  /** The four parts of a printed reference stand where the match looks for them. */
  lemma PartsFound(s: string, t: Token, a: nat, b: nat, c: nat, d: nat)
    requires t.Ref? && OnSheet(t)
    requires a == |DollarText(t.absCol)| && b == a + |ColumnText(t.col)|
    requires c == b + |DollarText(t.absRow)| && d == c + |Decimal(t.row)| && d <= |s|
    requires StandsAt(s, 0, DollarText(t.absCol)) && StandsAt(s, a, ColumnText(t.col))
    requires StandsAt(s, b, DollarText(t.absRow)) && StandsAt(s, c, Decimal(t.row))
    requires d < |s| ==> !IsDigit(s[d])
    ensures s != "" && AfterDollar(s, 0) == a && LettersEnd(s, a, 3) == b && AfterDollar(s, b) == c && DigitsEnd(s, c) == d
  {
    ColumnRead(s, a, t.col);
    ColumnTextUpper(t.col);
    DecimalDigits(t.row);
    assert s[a + 0] == ColumnText(t.col)[0] && s[c + 0] == Decimal(t.row)[0];
    DollarRead(s, 0, t.absCol, a);
    if t.absRow { assert s[b + 0] == DollarText(t.absRow)[0]; }
    LettersRead(s, a, ColumnText(t.col), b);
    DollarRead(s, b, t.absRow, c);
    DigitsRead(s, c, Decimal(t.row), d);
  }

  /** So the reference is what matches. */
  lemma PartsMatch(s: string, t: Token, a: nat, b: nat, c: nat, d: nat)
    requires t.Ref? && OnSheet(t) && s != "" && a < b <= c < d <= |s|
    requires AfterDollar(s, 0) == a && LettersEnd(s, a, 3) == b && AfterDollar(s, b) == c && DigitsEnd(s, c) == d
    requires (a > 0 <==> t.absCol) && (c > b <==> t.absRow)
    requires ColumnNumber(LettersValue(s, a, b)) == t.col && DigitsValue(s, c, d) == t.row
    ensures MatchRef(s, 0) == Match(t, d)
  {
  }

  lemma StandsInTwo(w: string, v: string, s: string, i: nat)
    requires StandsAt(s, i, w + v)
    ensures StandsAt(s, i, w) && StandsAt(s, i + |w|, v)
  {
    forall k | 0 <= k < |w|
      ensures s[i + k] == w[k]
    {
      assert (w + v)[k] == w[k];
    }
    forall k | 0 <= k < |v|
      ensures s[i + |w| + k] == v[k]
    {
      assert (w + v)[|w| + k] == v[k];
    }
  }

  lemma StandsInFour(w: string, x: string, y: string, z: string, s: string)
    requires StandsAt(s, 0, w + (x + (y + z)))
    ensures StandsAt(s, 0, w) && StandsAt(s, |w|, x) && StandsAt(s, |w| + |x|, y) && StandsAt(s, |w| + |x| + |y|, z)
  {
    StandsInTwo(w, x + (y + z), s, 0);
    StandsInTwo(x, y + z, s, |w|);
    StandsInTwo(y, z, s, |w| + |x|);
  }

  lemma StandingIsMatched(s: string, t: Token, a: nat, b: nat, c: nat, d: nat)
    requires t.Ref? && OnSheet(t)
    requires a == |DollarText(t.absCol)| && b == a + |ColumnText(t.col)|
    requires c == b + |DollarText(t.absRow)| && d == c + |Decimal(t.row)| && d <= |s|
    requires StandsAt(s, 0, DollarText(t.absCol)) && StandsAt(s, a, ColumnText(t.col))
    requires StandsAt(s, b, DollarText(t.absRow)) && StandsAt(s, c, Decimal(t.row))
    requires d < |s| ==> !IsDigit(s[d])
    ensures s != "" && MatchRef(s, 0) == Match(t, d)
  {
    PartsFound(s, t, a, b, c, d);
    ColumnRead(s, a, t.col);
    DecimalValue(s, c, t.row);
    PartsMatch(s, t, a, b, c, d);
  }

  lemma FourParts(s: string, t: Token, w: string, x: string, y: string, z: string, n: nat)
    requires t.Ref? && OnSheet(t) && StandsAt(s, 0, w + (x + (y + z))) && n == |w| + |x| + |y| + |z| && (n < |s| ==> !IsDigit(s[n]))
    requires w == DollarText(t.absCol) && x == ColumnText(t.col) && y == DollarText(t.absRow) && z == Decimal(t.row)
    ensures s != "" && MatchRef(s, 0) == Match(t, n)
  {
    StandsInFour(w, x, y, z, s);
    StandingIsMatched(s, t, |w|, |w| + |x|, |w| + |x| + |y|, n);
  }

  lemma PrintedMatches(t: Token, s: string, n: nat)
    requires t.Ref? && OnSheet(t) && StandsAt(s, 0, TokenText(t)) && n == |TokenText(t)| && (n < |s| ==> !IsDigit(s[n]))
    ensures s != "" && MatchRef(s, 0) == Match(t, n)
  {
    FourParts(s, t, DollarText(t.absCol), ColumnText(t.col), DollarText(t.absRow), Decimal(t.row), n);
  }

  lemma PrintedIsMatched(t: Token, rest: string, s: string, n: nat)
    requires t.Ref? && OnSheet(t) && MayFollow(rest) && s == TokenText(t) + rest && n == |TokenText(t)|
    ensures s != "" && MatchRef(s, 0) == Match(t, n) && !Continues(s, n)
  {
    assert n < |s| ==> s[n] == rest[0];
    PrintedMatches(t, s, n);
  }

  // ---- reading depends only on what is left ----

  /** t is what s has from position k on. */
  ghost predicate Tail(s: string, k: nat, t: string) {
    |s| == k + |t| && forall j :: 0 <= j < |t| ==> s[k + j] == t[j]
  }

  lemma {:induction false} LettersLater(s: string, k: nat, t: string, i: nat, most: nat)
    requires Tail(s, k, t) && i <= |t|
    ensures LettersEnd(s, k + i, most) == k + LettersEnd(t, i, most)
    decreases most
  {
    if most > 0 && i < |t| && IsUpper(t[i]) { LettersLater(s, k, t, i + 1, most - 1); }
  }

  lemma {:induction false} DigitsLater(s: string, k: nat, t: string, i: nat)
    requires Tail(s, k, t) && i <= |t|
    ensures DigitsEnd(s, k + i) == k + DigitsEnd(t, i)
    decreases |t| - i
  {
    if i < |t| && IsDigit(t[i]) { DigitsLater(s, k, t, i + 1); }
  }

  lemma {:induction false} LettersValueLater(s: string, k: nat, t: string, a: nat, b: nat)
    requires Tail(s, k, t) && a <= b <= |t|
    ensures LettersValue(s, k + a, k + b) == LettersValue(t, a, b)
    decreases b
  {
    if a < b { LettersValueLater(s, k, t, a, b - 1); }
  }

  lemma {:induction false} DigitsValueLater(s: string, k: nat, t: string, a: nat, b: nat)
    requires Tail(s, k, t) && a <= b <= |t|
    ensures DigitsValue(s, k + a, k + b) == DigitsValue(t, a, b)
    decreases b
  {
    if a < b { DigitsValueLater(s, k, t, a, b - 1); }
  }

  function Later(m: Match, k: nat): Match {
    if m.NoMatch? then m else m.(end := k + m.end)
  }

  lemma PartsLater(s: string, k: nat, t: string, i: nat, a: nat, b: nat, c: nat, d: nat)
    requires |s| == k + |t| && i < |t| && a <= b <= c <= d <= |t|
    requires a == AfterDollar(t, i) && b == LettersEnd(t, a, 3) && c == AfterDollar(t, b) && d == DigitsEnd(t, c)
    requires k + a == AfterDollar(s, k + i) && k + b == LettersEnd(s, k + a, 3)
    requires k + c == AfterDollar(s, k + b) && k + d == DigitsEnd(s, k + c)
    requires LettersValue(s, k + a, k + b) == LettersValue(t, a, b) && DigitsValue(s, k + c, k + d) == DigitsValue(t, c, d)
    ensures MatchRef(s, k + i) == Later(MatchRef(t, i), k)
  {
  }

  lemma MatchLater(s: string, k: nat, t: string, i: nat)
    requires Tail(s, k, t) && i < |t|
    ensures MatchRef(s, k + i) == Later(MatchRef(t, i), k)
  {
    var a := AfterDollar(t, i);
    var b := LettersEnd(t, a, 3);
    var c := AfterDollar(t, b);
    var d := DigitsEnd(t, c);
    LettersLater(s, k, t, a, 3);
    DigitsLater(s, k, t, c);
    LettersValueLater(s, k, t, a, b);
    DigitsValueLater(s, k, t, c, d);
    PartsLater(s, k, t, i, a, b, c, d);
  }

  lemma FitsLater(s: string, k: nat, t: string, i: nat)
    requires Tail(s, k, t) && i < |t|
    ensures Fits(s, k + i) == Fits(t, i)
  {
    MatchLater(s, k, t, i);
  }

  lemma ReadRef(s: string, i: nat, before: Before, t: Token, end: nat)
    requires i < |s| && before != Name && MatchRef(s, i) == Match(t, end) && !Continues(s, end)
    ensures Read(s, i, before, false) == [t] + Read(s, end, Name, false)
  {
  }

  lemma ReadChar(s: string, i: nat, before: Before, inString: bool)
    requires i < |s| && (inString || before == Name || !Fits(s, i))
    ensures Read(s, i, before, inString) == [Char(s[i])] + Read(s, i + 1, Next(before, s[i]), NextQuote(s[i], inString))
  {
  }

  // ---- tokens that are read back from what they print ----

  /** w is how t may be written: whatever may follow it, t is what is read there. */
  ghost predicate Prints(t: Token, w: string) {
    match t
    case Char(c) => w == [c]
    case Ref(absCol, _, _, _) =>
      && w != "" && (if absCol then w[0] == '$' else IsUpper(w[0]))
      && forall rest :: MayFollow(rest) ==> MatchRef(w + rest, 0) == Match(t, |w|)
  }

  ghost predicate AllPrint(ts: seq<Token>, ws: seq<string>) {
    |ts| == |ws| && (ts == [] || (Prints(ts[0], ws[0]) && AllPrint(ts[1..], ws[1..])))
  }

  function Concat(ws: seq<string>): string {
    if ws == [] then "" else ws[0] + Concat(ws[1..])
  }

  /** The texts ws of the tokens ts, one after the other, hold no reference but theirs. */
  ghost predicate Real(ts: seq<Token>, ws: seq<string>, before: Before, inString: bool)
    requires AllPrint(ts, ws)
  {
    ts == [] ||
    match ts[0]
    case Char(c) =>
      && (inString || before == Name || !Fits(Concat(ws), 0))
      && Real(ts[1..], ws[1..], Next(before, c), NextQuote(c, inString))
    case Ref(_, _, _, _) => !inString && before != Name && MayEnd(ts[1..]) && Real(ts[1..], ws[1..], Name, false)
  }

  lemma ConcatFirst(ts: seq<Token>, ws: seq<string>)
    requires AllPrint(ts, ws)
    ensures ts == [] <==> Concat(ws) == ""
    ensures ts != [] && ts[0].Char? ==> Concat(ws)[0] == ts[0].c
  {
  }

  lemma TailNext(s: string, i: nat, w: string, rest: string)
    requires Tail(s, i, w + rest)
    ensures Tail(s, i + |w|, rest)
  {
    forall j | 0 <= j < |rest|
      ensures s[i + |w| + j] == rest[j]
    {
      assert (w + rest)[|w| + j] == rest[j];
    }
  }

  lemma CharIsRead(s: string, i: nat, c: char, text: string, before: Before, inString: bool)
    requires Tail(s, i, text) && text != "" && text[0] == c && (inString || before == Name || !Fits(text, 0))
    ensures i < |s| && Read(s, i, before, inString) == [Char(c)] + Read(s, i + 1, Next(before, c), NextQuote(c, inString))
  {
    assert s[i + 0] == c;
    FitsLater(s, i, text, 0);
    ReadChar(s, i, before, inString);
  }

  lemma RefIsRead(s: string, i: nat, t: Token, text: string, before: Before, n: nat)
    requires Tail(s, i, text) && text != "" && n <= |text| && MatchRef(text, 0) == Match(t, n) && !Continues(text, n)
    requires before != Name
    ensures i + n <= |s| && Read(s, i, before, false) == [t] + Read(s, i + n, Name, false)
  {
    MatchLater(s, i, text, 0);
    FitsLater(s, i, text, 0);
    ReadRef(s, i, before, t, i + n);
  }

  lemma CharThenRest(s: string, i: nat, ts: seq<Token>, text: string, before: Before, inString: bool)
    requires ts != [] && ts[0].Char? && text != "" && text[0] == ts[0].c && Tail(s, i, text) && i < |s|
    requires inString || before == Name || !Fits(text, 0)
    requires Read(s, i + 1, Next(before, ts[0].c), NextQuote(ts[0].c, inString)) == ts[1..]
    ensures Read(s, i, before, inString) == ts
  {
    CharIsRead(s, i, ts[0].c, text, before, inString);
    HeadAndTail(ts);
  }

  lemma RefThenRest(s: string, i: nat, ts: seq<Token>, w: string, rest: string, before: Before)
    requires ts != [] && ts[0].Ref? && Prints(ts[0], w) && MayFollow(rest) && before != Name
    requires Tail(s, i, w + rest) && Read(s, i + |w|, Name, false) == ts[1..]
    ensures Read(s, i, before, false) == ts
  {
    assert !Continues(w + rest, |w|) by { assert rest != "" ==> (w + rest)[|w|] == rest[0]; }
    RefIsRead(s, i, ts[0], w + rest, before, |w|);
    HeadAndTail(ts);
  }

  lemma TailOfTexts(s: string, i: nat, ws: seq<string>)
    requires ws != [] && Tail(s, i, Concat(ws))
    ensures Tail(s, i + |ws[0]|, Concat(ws[1..]))
  {
    TailNext(s, i, ws[0], Concat(ws[1..]));
  }

  lemma {:induction false} RealChar(s: string, i: nat, ts: seq<Token>, ws: seq<string>, before: Before, inString: bool)
    requires AllPrint(ts, ws) && Tail(s, i, Concat(ws)) && Real(ts, ws, before, inString) && ts != [] && ts[0].Char?
    ensures Read(s, i, before, inString) == ts
    decreases |ts|, 0
  {
    var c := ts[0].c;
    ConcatFirst(ts, ws);
    TailOfTexts(s, i, ws);
    RealIsReadAt(s, i + 1, ts[1..], ws[1..], Next(before, c), NextQuote(c, inString));
    CharThenRest(s, i, ts, Concat(ws), before, inString);
  }

  lemma {:induction false} RealRef(s: string, i: nat, ts: seq<Token>, ws: seq<string>, before: Before)
    requires AllPrint(ts, ws) && Tail(s, i, Concat(ws)) && Real(ts, ws, before, false) && ts != [] && ts[0].Ref?
    ensures Read(s, i, before, false) == ts
    decreases |ts|, 0
  {
    ConcatFirst(ts[1..], ws[1..]);
    TailOfTexts(s, i, ws);
    RealIsReadAt(s, i + |ws[0]|, ts[1..], ws[1..], Name, false);
    RefThenRest(s, i, ts, ws[0], Concat(ws[1..]), before);
  }

  lemma {:induction false} RealIsReadAt(s: string, i: nat, ts: seq<Token>, ws: seq<string>, before: Before, inString: bool)
    requires AllPrint(ts, ws) && Tail(s, i, Concat(ws)) && Real(ts, ws, before, inString)
    ensures Read(s, i, before, inString) == ts
    decreases |ts|, 1
  {
    if ts != [] {
      if ts[0].Char? {
        RealChar(s, i, ts, ws, before, inString);
      } else {
        RealRef(s, i, ts, ws, before);
      }
    }
  }

  lemma RealIsFormula(ts: seq<Token>, ws: seq<string>)
    requires AllPrint(ts, ws) && Real(ts, ws, Free, false)
    ensures Formula(Concat(ws)) == ts
  {
    FormulaIsRead(Concat(ws));
    RealIsReadAt(Concat(ws), 0, ts, ws, Free, false);
  }

  lemma TokenPrints(t: Token)
    requires OnSheet(t)
    ensures Prints(t, TokenText(t))
  {
    if t.Ref? {
      var w := TokenText(t);
      forall rest | MayFollow(rest)
        ensures MatchRef(w + rest, 0) == Match(t, |w|)
      {
        PrintedIsMatched(t, rest, w + rest, |w|);
      }
      FirstOfFour(DollarText(t.absCol), ColumnText(t.col), DollarText(t.absRow) + Decimal(t.row));
      ColumnTextUpper(t.col);
    }
  }

  lemma FirstOfFour(w: string, x: string, rest: string)
    requires x != ""
    ensures w + (x + rest) != "" && (w + (x + rest))[0] == if w != "" then w[0] else x[0]
  {
  }
}
