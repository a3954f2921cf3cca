/** Reading the cell references of a worksheet formula: the two scanners, and what they have in common. */
module SheetFormulas {
  import opened Basics
  import opened Text

  /** A formula as the scanners read it: text, character by character, and cell references. */
  datatype Token = Char(c: char) | Ref(absCol: bool, col: int, absRow: bool, row: int)

  const MAX_COLUMNS := 16384

  predicate IsUpper(c: char) {
    'A' <= c <= 'Z'
  }

  predicate IsNameChar(c: char) {
    c == '_' || c == '.' || IsUpper(c) || 'a' <= c <= 'z' || IsDigit(c)
  }

  // ---- one reference ----

  /** Where the run of upper-case letters from i ends, at most `most` of them. */
  function LettersEnd(s: string, i: nat, most: nat): (j: nat)
    requires i <= |s|
    ensures i <= j <= |s| && j <= i + most && (i < j ==> IsUpper(s[i]))
    decreases most
  {
    if most == 0 || i == |s| || !IsUpper(s[i]) then i else LettersEnd(s, i + 1, most - 1)
  }

  function DigitsEnd(s: string, i: nat): (j: nat)
    requires i <= |s|
    ensures i <= j <= |s| && (i < j ==> IsDigit(s[i]) && IsDigit(s[j - 1])) && (j < |s| ==> !IsDigit(s[j]))
    decreases |s| - i
  {
    if i == |s| || !IsDigit(s[i]) then i else DigitsEnd(s, i + 1)
  }

  function AfterDollar(s: string, i: nat): (j: nat)
    requires i <= |s|
    ensures i <= j <= |s| && j <= i + 1
  {
    if i < |s| && s[i] == '$' then i + 1 else i
  }

  /** The column the letters s[a..b] spell: A is 1, AA is 27. */
  function LettersValue(s: string, a: nat, b: nat): int
    requires a <= b <= |s|
  {
    if a == b then 0 else 26 * LettersValue(s, a, b - 1) + (s[b - 1] as int - 'A' as int + 1)
  }

  /** The number the digits s[c..d] spell. */
  function DigitsValue(s: string, c: nat, d: nat): int
    requires c <= d <= |s|
  {
    if c == d then 0 else 10 * DigitsValue(s, c, d - 1) + (s[d - 1] as int - '0' as int)
  }

  /** excelize.ColumnNameToNumber, whose error the scanners drop: -1 beyond the last column. */
  function ColumnNumber(value: int): int {
    if value > MAX_COLUMNS then -1 else value
  }

  /** strconv.Atoi, whose error the scanners drop: it saturates. */
  function RowNumber(value: int): int {
    if value > MAX_INT then MAX_INT else value
  }

  /** What $?[A-Z]{1,3}$?[0-9]+ matched at a position, and where that ends. */
  datatype Match = NoMatch | Match(ref: Token, end: nat)

  function MatchRef(s: string, i: nat): (m: Match)
    requires i < |s|
    ensures m.Match? ==> i < m.end <= |s| && IsDigit(s[m.end - 1]) && (m.end < |s| ==> !IsDigit(s[m.end]))
    ensures m.Match? ==> m.ref.Ref? && (s[i] == '$' || IsUpper(s[i]))
  {
    var a := AfterDollar(s, i);
    var b := LettersEnd(s, a, 3);
    var c := AfterDollar(s, b);
    var d := DigitsEnd(s, c);
    if a == b || c == d then NoMatch
    else Match(Ref(a > i, ColumnNumber(LettersValue(s, a, b)), c > b, RowNumber(DigitsValue(s, c, d))), d)
  }

  // ---- the whole formula ----

  /** A reference may start at i: something matches there and the character before is no name's. */
  predicate Starts(s: string, i: nat)
    requires i < |s|
  {
    MatchRef(s, i).Match? && !(i > 0 && IsNameChar(s[i - 1]))
  }

  /** What matched is part of a longer name or a function's name. */
  predicate Continues(s: string, end: nat)
    requires end <= |s|
  {
    end < |s| && (s[end] == '(' || IsNameChar(s[end]))
  }

  function Chars(s: string): (ts: seq<Token>)
    ensures |ts| == |s| && forall k :: 0 <= k < |s| ==> ts[k] == Char(s[k])
  {
    seq(|s|, k requires 0 <= k < |s| => Char(s[k]))
  }

  /** One step of a scan: the tokens read, the next position, and whether that is inside a text. */
  datatype Scan = Scan(head: seq<Token>, next: nat, inString: bool)

  function Step(s: string, i: nat, inString: bool): (r: Scan)
    requires i < |s|
    ensures i < r.next <= |s|
  {
    if s[i] == '"' then Scan([Char('"')], i + 1, !inString)
    else if inString || !Starts(s, i) then Scan([Char(s[i])], i + 1, inString)
    else
      var m := MatchRef(s, i);
      Scan(if Continues(s, m.end) then Chars(s[i..m.end]) else [m.ref], m.end, inString)
  }

  /** The tokens from position i on; inString: inside a quoted text. */
  function Tokens(s: string, i: nat, inString: bool): seq<Token>
    requires i <= |s|
    decreases |s| - i
  {
    if i == |s| then []
    else
      var r := Step(s, i, inString);
      r.head + Tokens(s, r.next, r.inString)
  }

  function Formula(s: string): seq<Token> {
    Tokens(s, 0, false)
  }

  // ---- relativeFormula ----

  function IntText(n: int): string {
    if n < 0 then "-" + Decimal(-n) else Decimal(n)
  }

  function Part(absolute: bool, n: int): string {
    if absolute then IntText(n) else "[" + IntText(n) + "]"
  }

  /** A reference made relative to its cell in its relative parts. */
  function Relative(t: Token, col: int, row: int): Token {
    match t
    case Char(_) => t
    case Ref(absCol, c, absRow, r) => Ref(absCol, if absCol then c else c - col, absRow, if absRow then r else r - row)
  }

  function RelativeAll(ts: seq<Token>, col: int, row: int): (r: seq<Token>)
    ensures |r| == |ts| && forall k :: 0 <= k < |ts| ==> r[k] == Relative(ts[k], col, row)
  {
    seq(|ts|, k requires 0 <= k < |ts| => Relative(ts[k], col, row))
  }

  /** R1C1 spelling of one relative token. */
  function Spell(t: Token): string {
    match t
    case Char(c) => [c]
    case Ref(absCol, c, absRow, r) => "R" + Part(absRow, r) + "C" + Part(absCol, c)
  }

  /** The texts of the tokens, one after the other. */
  function Flat(f: Token -> string, ts: seq<Token>): string {
    if ts == [] then "" else f(ts[0]) + Flat(f, ts[1..])
  }

  function SpellAll(ts: seq<Token>): string {
    Flat(Spell, ts)
  }

  function Pattern(s: string, col: int, row: int): string {
    SpellAll(RelativeAll(Formula(s), col, row))
  }

  lemma FlatCons(f: Token -> string, t: Token, rest: seq<Token>)
    ensures Flat(f, [t] + rest) == f(t) + Flat(f, rest)
  {
    assert ([t] + rest)[1..] == rest;
  }

  lemma {:induction false} FlatConcat(f: Token -> string, a: seq<Token>, b: seq<Token>)
    ensures Flat(f, a + b) == Flat(f, a) + Flat(f, b)
  {
    if a == [] {
      assert a + b == b;
    } else {
      FlatConcat(f, a[1..], b);
      assert a + b == [a[0]] + (a[1..] + b);
      FlatCons(f, a[0], a[1..] + b);
      Regroup(f(a[0]), Flat(f, a[1..]), Flat(f, b));
    }
  }

  lemma {:induction false} FlatChars(f: Token -> string, s: string)
    requires forall c :: f(Char(c)) == [c]
    ensures Flat(f, Chars(s)) == s
  {
    if s != "" {
      FlatChars(f, s[1..]);
      assert Chars(s) == [Char(s[0])] + Chars(s[1..]);
      FlatCons(f, Char(s[0]), Chars(s[1..]));
    }
  }

  lemma RelativeConcat(a: seq<Token>, b: seq<Token>, col: int, row: int)
    ensures RelativeAll(a + b, col, row) == RelativeAll(a, col, row) + RelativeAll(b, col, row)
  {
  }

  /** What the rest of the scan will write. */
  function PatternFrom(s: string, i: nat, inString: bool, col: int, row: int): string
    requires i <= |s|
  {
    SpellAll(RelativeAll(Tokens(s, i, inString), col, row))
  }

  lemma PatternStep(s: string, i: nat, inString: bool, col: int, row: int)
    requires i < |s|
    ensures var r := Step(s, i, inString);
      PatternFrom(s, i, inString, col, row) ==
      SpellAll(RelativeAll(r.head, col, row)) + PatternFrom(s, r.next, r.inString, col, row)
  {
    var r := Step(s, i, inString);
    var tail := Tokens(s, r.next, r.inString);
    RelativeConcat(r.head, tail, col, row);
    FlatConcat(Spell, RelativeAll(r.head, col, row), RelativeAll(tail, col, row));
  }

  lemma SpellOne(t: Token, col: int, row: int)
    ensures SpellAll(RelativeAll([t], col, row)) == Spell(Relative(t, col, row))
  {
    var r := Relative(t, col, row);
    assert RelativeAll([t], col, row) == [r] + [];
    FlatCons(Spell, r, []);
  }

  lemma SpellText(text: string, col: int, row: int)
    ensures SpellAll(RelativeAll(Chars(text), col, row)) == text
  {
    assert RelativeAll(Chars(text), col, row) == Chars(text);
    FlatChars(Spell, text);
  }

  /** One character or one match of the scan. */
  method RelativeStep(s: string, i: nat, inString: bool, col: int, row: int) returns (text: string, j: nat, next: bool)
    requires i < |s|
    ensures var r := Step(s, i, inString);
      j == r.next && next == r.inString && text == SpellAll(RelativeAll(r.head, col, row))
  {
    var ch := s[i];
    if ch == '"' {
      SpellOne(Char(ch), col, row);
      return [ch], i + 1, !inString;
    }
    if inString || !Starts(s, i) {
      SpellOne(Char(ch), col, row);
      return [ch], i + 1, inString;
    }
    var m := MatchRef(s, i);
    if Continues(s, m.end) {
      SpellText(s[i..m.end], col, row);
      return s[i..m.end], m.end, inString;
    }
    SpellOne(m.ref, col, row);
    text := RefText(m.ref.absCol, m.ref.col, m.ref.absRow, m.ref.row, col, row);
    return text, m.end, inString;
  }

  method RefText(absCol: bool, c: int, absRow: bool, r: int, col: int, row: int) returns (text: string)
    ensures text == Spell(Relative(Ref(absCol, c, absRow, r), col, row))
  {
    if absRow {
      text := "R" + IntText(r);
    } else {
      text := "R" + ("[" + IntText(r - row) + "]");
    }
    if absCol {
      text := text + "C" + IntText(c);
    } else {
      text := text + "C" + ("[" + IntText(c - col) + "]");
    }
  }

  method RelativeFormula(s: string, col: int, row: int) returns (out: string)
    ensures out == Pattern(s, col, row)
  {
    out := "";
    var inString, i := false, 0;
    while i < |s|
      invariant 0 <= i <= |s| && out + PatternFrom(s, i, inString, col, row) == Pattern(s, col, row)
    {
      PatternStep(s, i, inString, col, row);
      ghost var r := Step(s, i, inString);
      var text;
      text, i, inString := RelativeStep(s, i, inString, col, row);
      Regroup(out, text, PatternFrom(s, i, inString, col, row));
      out := out + text;
    }
    assert SpellAll(RelativeAll([], col, row)) == "";
  }

  // ---- refSkeleton ----

  const BLANK := '\U{00}'

  function BlankChar(t: Token): char {
    if t.Char? then t.c else BLANK
  }

  /** The text with every reference blanked out. */
  function Skeleton(ts: seq<Token>): (r: string)
    ensures |r| == |ts| && forall k :: 0 <= k < |ts| ==> r[k] == BlankChar(ts[k])
  {
    seq(|ts|, k requires 0 <= k < |ts| => BlankChar(ts[k]))
  }

  datatype Place = Place(col: int, row: int)

  /** The references, at their absolute positions. */
  function Places(ts: seq<Token>): seq<Place> {
    if ts == [] then []
    else PlaceOf(ts[0]) + Places(ts[1..])
  }

  function PlaceOf(t: Token): seq<Place> {
    if t.Ref? then [Place(t.col, t.row)] else []
  }

  lemma PlacesCons(t: Token, rest: seq<Token>)
    ensures Places([t] + rest) == PlaceOf(t) + Places(rest)
  {
    assert ([t] + rest)[1..] == rest;
  }

  lemma {:induction false} PlacesConcat(a: seq<Token>, b: seq<Token>)
    ensures Places(a + b) == Places(a) + Places(b)
  {
    if a == [] {
      assert a + b == b;
    } else {
      PlacesConcat(a[1..], b);
      assert a + b == [a[0]] + (a[1..] + b);
      PlacesCons(a[0], a[1..] + b);
      Regroup(PlaceOf(a[0]), Places(a[1..]), Places(b));
    }
  }

  lemma {:induction false} PlacesOfChars(s: string)
    ensures Places(Chars(s)) == []
  {
    if s != "" {
      PlacesOfChars(s[1..]);
      assert Chars(s)[1..] == Chars(s[1..]);
    }
  }

  /** One step of the second scanner, which tests for a quote before it tests for a reference. */
  method SkeletonTurn(s: string, i: nat, inString0: bool) returns (text: string, refs: seq<Place>, j: nat, inString: bool)
    requires i < |s|
    ensures var r := Step(s, i, inString0);
      j == r.next && inString == r.inString && text == Skeleton(r.head) && refs == Places(r.head)
  {
    var ch := s[i];
    inString := inString0;
    if ch == '"' {
      inString := !inString;
    }
    if inString || !Starts(s, i) {
      SkeletonOne(Char(ch));
      return [ch], [], i + 1, inString;
    }
    var m := MatchRef(s, i);
    if Continues(s, m.end) {
      SkeletonOfChars(s[i..m.end]);
      return s[i..m.end], [], m.end, inString;
    }
    SkeletonOne(m.ref);
    return [BLANK], [Place(m.ref.col, m.ref.row)], m.end, inString;
  }

  /** The second scanner finds the same text and the same references as the first. */
  method RefSkeleton(s: string) returns (out: string, refs: seq<Place>)
    ensures out == Skeleton(Formula(s)) && refs == Places(Formula(s))
  {
    out, refs := "", [];
    var inString, i := false, 0;
    while i < |s|
      invariant 0 <= i <= |s|
      invariant out + Skeleton(Tokens(s, i, inString)) == Skeleton(Formula(s))
      invariant refs + Places(Tokens(s, i, inString)) == Places(Formula(s))
    {
      ghost var r := Step(s, i, inString);
      SkeletonStep(r.head, Tokens(s, r.next, r.inString));
      var text, found;
      text, found, i, inString := SkeletonTurn(s, i, inString);
      Regroup(out, text, Skeleton(Tokens(s, i, inString)));
      Regroup(refs, found, Places(Tokens(s, i, inString)));
      out, refs := out + text, refs + found;
    }
  }

  lemma SkeletonStep(head: seq<Token>, tail: seq<Token>)
    ensures Skeleton(head + tail) == Skeleton(head) + Skeleton(tail) && Places(head + tail) == Places(head) + Places(tail)
  {
    PlacesConcat(head, tail);
  }

  lemma SkeletonOne(t: Token)
    ensures Skeleton([t]) == [BlankChar(t)]
    ensures Places([t]) == PlaceOf(t)
  {
    assert [t][1..] == [];
    assert Places([t][1..]) == [];
  }

  lemma SkeletonOfChars(s: string)
    ensures Skeleton(Chars(s)) == s && Places(Chars(s)) == []
  {
    PlacesOfChars(s);
  }
}
