/** Reading a formula one character or reference at a time, and that the scanners, which skip longer
    names in one step, find the same. */
module SheetReading {
  import opened Basics
  import opened SheetFormulas
  import opened Text

  /** What stands before a position, as far as a reference there is concerned: the end of a name or
      of a reference, a $ that a reference would take in, or neither. */
  datatype Before = Free | Name | Dollar

  function Next(before: Before, c: char): Before {
    if IsNameChar(c) then Name else if c == '$' && before != Name then Dollar else Free
  }

  function NextQuote(c: char, inString: bool): bool {
    if c == '"' then !inString else inString
  }

  /** A reference that is not part of a longer name matches at i. */
  predicate Fits(s: string, i: nat)
    requires i < |s|
  {
    MatchRef(s, i).Match? && !Continues(s, MatchRef(s, i).end)
  }

  /** The tokens from position i on, given what stands before it and whether it is inside quotes. */
  function Read(s: string, i: nat, before: Before, inString: bool): seq<Token>
    requires i <= |s|
    decreases |s| - i
  {
    if i == |s| then []
    else if !inString && before != Name && Fits(s, i) then
      [MatchRef(s, i).ref] + Read(s, MatchRef(s, i).end, Name, false)
    else [Char(s[i])] + Read(s, i + 1, Next(before, s[i]), NextQuote(s[i], inString))
  }

  // ---- what a match looks like ----

  lemma {:induction false} LettersAreUpper(s: string, i: nat, most: nat, k: nat)
    requires i <= |s| && i <= k < LettersEnd(s, i, most)
    ensures k < |s| && IsUpper(s[k])
    decreases most
  {
    if i < k { LettersAreUpper(s, i + 1, most - 1, k); }
  }

  lemma {:induction false} DigitsAreDigits(s: string, i: nat, k: nat)
    requires i <= |s| && i <= k < DigitsEnd(s, i)
    ensures IsDigit(s[k])
    decreases |s| - i
  {
    if i < k { DigitsAreDigits(s, i + 1, k); }
  }

  /** Where $ stands in a match: at its start, before a letter, or before the digits. */
  lemma DollarInMatch(s: string, i: nat, j: nat)
    requires i <= j && i < |s| && MatchRef(s, i).Match? && j < MatchRef(s, i).end
    ensures s[j] == '$' || IsNameChar(s[j])
    ensures j > i && s[j] == '$' ==> j + 1 < MatchRef(s, i).end && IsDigit(s[j + 1])
    ensures j == i && s[j] == '$' ==> i + 1 < MatchRef(s, i).end && IsUpper(s[i + 1])
  {
    var a := AfterDollar(s, i);
    var b := LettersEnd(s, a, 3);
    var c := AfterDollar(s, b);
    if a <= j < b { LettersAreUpper(s, a, 3, j); }
    if c <= j { DigitsAreDigits(s, c, j); }
  }

  /** A $ before a reference without one belongs to it. */
  lemma DollarFits(s: string, i: nat)
    requires i + 1 < |s| && s[i] == '$' && s[i + 1] != '$'
    ensures Fits(s, i) <==> Fits(s, i + 1)
  {
  }

  lemma DigitFitsNot(s: string, i: nat)
    requires i < |s| && IsDigit(s[i])
    ensures !Fits(s, i)
  {
    assert AfterDollar(s, i) == i && LettersEnd(s, i, 3) == i;
  }

  /** Inside something that matched but goes on as a longer name, no reference begins. */
  lemma NoneInside(s: string, i: nat, j: nat)
    requires i < j < |s| && MatchRef(s, i).Match? && !Fits(s, i) && j < MatchRef(s, i).end
    ensures IsNameChar(s[j - 1]) || !Fits(s, j)
  {
    DollarInMatch(s, i, j - 1);
    if s[j - 1] == '$' {
      if j == i + 1 {
        DollarFits(s, i);
      } else {
        DigitFitsNot(s, j);
      }
    }
  }

  // ---- longer names ----

  /** What stands before position j, reading one character at a time from i. */
  function BeforeAt(s: string, i: nat, before: Before, j: nat): Before
    requires i <= j <= |s|
    decreases j
  {
    if j == i then before else Next(BeforeAt(s, i, before, j - 1), s[j - 1])
  }

  /** Readings that each differ from the next by one character. */
  lemma {:induction false} CharByChar(rs: seq<seq<Token>>, cs: string)
    requires |rs| == |cs| + 1 && forall k :: 0 <= k < |cs| ==> rs[k] == [Char(cs[k])] + rs[k + 1]
    ensures rs[0] == Chars(cs) + rs[|cs|]
  {
    if cs != "" {
      CharByChar(rs[1..], cs[1..]);
      assert Chars(cs) == [Char(cs[0])] + Chars(cs[1..]);
      Glue(rs[0], [Char(cs[0])], rs[1], Chars(cs[1..]), rs[|cs|], Chars(cs));
    }
  }

  /** What is read from each position up to end on. */
  ghost function Readings(s: string, i: nat, before: Before, end: nat): (rs: seq<seq<Token>>)
    requires i <= end <= |s|
    ensures |rs| == end - i + 1
    ensures forall k :: 0 <= k <= end - i ==> rs[k] == Read(s, i + k, BeforeAt(s, i, before, i + k), false)
  {
    seq(end - i + 1, k requires 0 <= k <= end - i => Read(s, i + k, BeforeAt(s, i, before, i + k), false))
  }

  lemma LongerOne(s: string, i: nat, before: Before, j: nat)
    requires i <= j && i < |s| && MatchRef(s, i).Match? && !Fits(s, i) && j < MatchRef(s, i).end
    ensures Read(s, j, BeforeAt(s, i, before, j), false) ==
      [Char(s[j])] + Read(s, j + 1, BeforeAt(s, i, before, j + 1), false)
  {
    if i < j { NoneInside(s, i, j); }
    DollarInMatch(s, i, j);
  }

  lemma Stretch(rs: seq<seq<Token>>, s: string, i: nat, end: nat)
    requires i <= end <= |s| && |rs| == end - i + 1
    requires forall k :: 0 <= k < end - i ==> rs[k] == [Char(s[i + k])] + rs[k + 1]
    ensures rs[0] == Chars(s[i..end]) + rs[end - i]
  {
    CharByChar(rs, s[i..end]);
  }

  lemma LongerRow(s: string, i: nat, before: Before, end: nat, rs: seq<seq<Token>>, k: nat)
    requires i < |s| && MatchRef(s, i).Match? && !Fits(s, i) && end == MatchRef(s, i).end
    requires rs == Readings(s, i, before, end) && i + k < end
    ensures rs[k] == [Char(s[i + k])] + rs[k + 1]
  {
    LongerOne(s, i, before, i + k);
  }

  lemma LongerByChar(s: string, i: nat, before: Before, end: nat, rs: seq<seq<Token>>)
    requires i < |s| && MatchRef(s, i).Match? && !Fits(s, i) && end == MatchRef(s, i).end
    requires rs == Readings(s, i, before, end)
    ensures rs[0] == Chars(s[i..end]) + rs[end - i]
  {
    forall k | 0 <= k < end - i
      ensures rs[k] == [Char(s[i + k])] + rs[k + 1]
    {
      LongerRow(s, i, before, end, rs, k);
    }
    Stretch(rs, s, i, end);
  }

  /** A longer name is read one character at a time. */
  lemma ReadLonger(s: string, i: nat, before: Before, end: nat)
    requires i < |s| && MatchRef(s, i).Match? && !Fits(s, i) && end == MatchRef(s, i).end
    ensures Read(s, i, before, false) == Chars(s[i..end]) + Read(s, end, Name, false)
  {
    LongerByChar(s, i, before, end, Readings(s, i, before, end));
    assert BeforeAt(s, i, before, end) == Name;
  }

  // ---- the scanners ----

  predicate Named(s: string, i: nat)
    requires i <= |s|
  {
    i > 0 && IsNameChar(s[i - 1])
  }

  /** What stands before the position a step leads to. */
  function After(s: string, i: nat, before: Before, next: nat): Before
    requires i < |s|
  {
    if next == i + 1 then Next(before, s[i]) else Name
  }

  lemma LongEnough(s: string, i: nat)
    requires i < |s| && MatchRef(s, i).Match?
    ensures MatchRef(s, i).end > i + 1
  {
  }

  lemma MatchReads(s: string, i: nat, before: Before)
    requires i < |s| && MatchRef(s, i).Match? && before != Name
    ensures var m := MatchRef(s, i);
      Read(s, i, before, false) ==
      (if Continues(s, m.end) then Chars(s[i..m.end]) else [m.ref]) + Read(s, m.end, Name, false)
  {
    if !Fits(s, i) { ReadLonger(s, i, before, MatchRef(s, i).end); }
  }

  /** One step reads the first tokens. */
  lemma StepReads(s: string, i: nat, before: Before, inString: bool)
    requires i < |s| && (before == Name <==> Named(s, i))
    ensures var r := Step(s, i, inString); var after := After(s, i, before, r.next);
      (after == Name <==> Named(s, r.next)) && Read(s, i, before, inString) == r.head + Read(s, r.next, after, r.inString)
  {
    if s[i] != '"' && !inString && Starts(s, i) {
      LongEnough(s, i);
      MatchReads(s, i, before);
    }
  }

  lemma {:induction false} TokensAreRead(s: string, i: nat, before: Before, inString: bool)
    requires i <= |s| && (before == Name <==> Named(s, i))
    ensures Tokens(s, i, inString) == Read(s, i, before, inString)
    decreases |s| - i
  {
    if i < |s| {
      var r := Step(s, i, inString);
      StepReads(s, i, before, inString);
      TokensAreRead(s, r.next, After(s, i, before, r.next), r.inString);
    }
  }

  /** The scanners find the tokens that reading one by one finds. */
  lemma FormulaIsRead(s: string)
    ensures Formula(s) == Read(s, 0, Free, false)
  {
    TokensAreRead(s, 0, Free, false);
  }
}
