/** What the scanners read, told from the characters of the formula alone. */
module SheetScanner {
  import opened SheetFormulas
  import opened SheetLookalikes
  import opened SheetReading

  /** A character of a name. */
  predicate NameCharacter(c: char) {
    'A' <= c <= 'Z' || 'a' <= c <= 'z' || '0' <= c <= '9' || c == '_' || c == '.'
  }

  /** How many quotes stand before position i. */
  function Quotes(s: string, i: nat): nat
    requires i <= |s|
  {
    if i == 0 then 0 else Quotes(s, i - 1) + if s[i - 1] == '"' then 1 else 0
  }

  /** From i to d stands a reference: $ or not, the letters from a to b, $ or not, the digits from c to d. It is
      outside quotes, no name's character stands before it, and after it neither that nor a parenthesis
      that opens. */
  ghost predicate ReferenceAt(s: string, i: nat, a: nat, b: nat, c: nat, d: nat) {
    && i <= a < b <= c < d <= |s| && b <= a + 3
    && (a == i || (a == i + 1 && s[i] == '$')) && (c == b || (c == b + 1 && s[b] == '$'))
    && (forall k :: a <= k < b ==> 'A' <= s[k] <= 'Z') && (forall k :: c <= k < d ==> '0' <= s[k] <= '9')
    && Quotes(s, i) % 2 == 0
    && (i > 0 ==> !NameCharacter(s[i - 1])) && (d < |s| ==> !NameCharacter(s[d]) && s[d] != '(')
  }

  ghost predicate SomeReferenceAt(s: string, i: nat) {
    exists a: nat, b: nat, c: nat, d: nat :: ReferenceAt(s, i, a, b, c, d)
  }

  lemma LettersStop(s: string, i: nat, most: nat)
    requires i <= |s|
    ensures forall k :: i <= k < LettersEnd(s, i, most) ==> 'A' <= s[k] <= 'Z'
  {
    forall k | i <= k < LettersEnd(s, i, most)
      ensures 'A' <= s[k] <= 'Z'
    {
      LettersAreUpper(s, i, most, k);
    }
  }

  lemma DigitsStop(s: string, i: nat)
    requires i <= |s|
    ensures forall k :: i <= k < DigitsEnd(s, i) ==> '0' <= s[k] <= '9'
  {
    forall k | i <= k < DigitsEnd(s, i)
      ensures '0' <= s[k] <= '9'
    {
      DigitsAreDigits(s, i, k);
    }
  }

  /** Where the parts of a reference end is where the match finds their ends. */
  lemma PartsEnd(s: string, i: nat, a: nat, b: nat, c: nat, d: nat)
    requires ReferenceAt(s, i, a, b, c, d)
    ensures AfterDollar(s, i) == a && LettersEnd(s, a, 3) == b && AfterDollar(s, b) == c && DigitsEnd(s, c) == d
  {
    assert 'A' <= s[a] <= 'Z' && '0' <= s[c] <= '9';
    LettersFound(s, a, b, 3);
    DigitsFound(s, c, d);
  }

  lemma ReferenceFits(s: string, i: nat, a: nat, b: nat, c: nat, d: nat)
    requires ReferenceAt(s, i, a, b, c, d)
    ensures i < |s| && Fits(s, i) && MatchRef(s, i).end == d
    ensures MatchRef(s, i).ref ==
      Ref(a > i, ColumnNumber(LettersValue(s, a, b)), c > b, RowNumber(DigitsValue(s, c, d)))
  {
    PartsEnd(s, i, a, b, c, d);
  }

  lemma FitsIsReference(s: string, i: nat)
    requires i < |s| && Fits(s, i) && Quotes(s, i) % 2 == 0 && !Named(s, i)
    ensures SomeReferenceAt(s, i)
  {
    var a := AfterDollar(s, i);
    var b := LettersEnd(s, a, 3);
    var c := AfterDollar(s, b);
    var d := DigitsEnd(s, c);
    LettersStop(s, a, 3);
    DigitsStop(s, c);
    assert ReferenceAt(s, i, a, b, c, d);
  }

  /** Position by position: the reference that stands there, or the character. */
  ghost function Plainly(s: string, i: nat): seq<Token>
    requires i <= |s|
    decreases |s| - i
  {
    if i == |s| then []
    else if SomeReferenceAt(s, i) then
      var a: nat, b: nat, c: nat, d: nat :| ReferenceAt(s, i, a, b, c, d);
      [Ref(a > i, ColumnNumber(LettersValue(s, a, b)), c > b, RowNumber(DigitsValue(s, c, d)))] + Plainly(s, d)
    else [Char(s[i])] + Plainly(s, i + 1)
  }

  lemma {:induction false} QuotesOver(s: string, i: nat, j: nat)
    requires i <= j <= |s| && forall k :: i <= k < j ==> s[k] != '"'
    ensures Quotes(s, j) == Quotes(s, i)
    decreases j
  {
    if i < j { QuotesOver(s, i, j - 1); }
  }

  lemma QuotesOverMatch(s: string, i: nat)
    requires i < |s| && MatchRef(s, i).Match?
    ensures Quotes(s, MatchRef(s, i).end) == Quotes(s, i)
  {
    forall k | i <= k < MatchRef(s, i).end
      ensures s[k] != '"'
    {
      DollarInMatch(s, i, k);
    }
    QuotesOver(s, i, MatchRef(s, i).end);
  }

  /** A reference stands exactly where one is read. */
  lemma ReferenceIff(s: string, i: nat, before: Before, inString: bool)
    requires i < |s| && (before == Name <==> Named(s, i)) && (inString <==> Quotes(s, i) % 2 == 1)
    ensures SomeReferenceAt(s, i) <==> !inString && before != Name && Fits(s, i)
  {
    if SomeReferenceAt(s, i) {
      var a: nat, b: nat, c: nat, d: nat :| ReferenceAt(s, i, a, b, c, d);
      ReferenceFits(s, i, a, b, c, d);
    } else if !inString && before != Name && Fits(s, i) {
      FitsIsReference(s, i);
    }
  }

  lemma {:induction false} ReadIsPlain(s: string, i: nat, before: Before, inString: bool)
    requires i <= |s| && (before == Name <==> Named(s, i)) && (inString <==> Quotes(s, i) % 2 == 1)
    ensures Read(s, i, before, inString) == Plainly(s, i)
    decreases |s| - i
  {
    if i < |s| {
      ReferenceIff(s, i, before, inString);
      if SomeReferenceAt(s, i) {
        QuotesOverMatch(s, i);
        ReadIsPlain(s, MatchRef(s, i).end, Name, false);
        PlainlyRef(s, i);
      } else {
        ReadIsPlain(s, i + 1, Next(before, s[i]), NextQuote(s[i], inString));
      }
    }
  }

  lemma PlainlyRef(s: string, i: nat)
    requires i < |s| && SomeReferenceAt(s, i)
    ensures MatchRef(s, i).Match? && Plainly(s, i) == [MatchRef(s, i).ref] + Plainly(s, MatchRef(s, i).end)
  {
    var a: nat, b: nat, c: nat, d: nat :| ReferenceAt(s, i, a, b, c, d) && Plainly(s, i) ==
      [Ref(a > i, ColumnNumber(LettersValue(s, a, b)), c > b, RowNumber(DigitsValue(s, c, d)))] + Plainly(s, d);
    ReferenceFits(s, i, a, b, c, d);
  }

  /** The tokens of a formula are the references that stand in it, and between them its characters. */
  lemma FormulaIsPlain(s: string)
    ensures Formula(s) == Plainly(s, 0)
  {
    FormulaIsRead(s);
    ReadIsPlain(s, 0, Free, false);
  }
}
