/** A formula with a look-alike has a twin: another formula with its pattern, in which every look-alike is
    the reference it spells. So having no look-alike is exactly what makes a pattern unmistakable. */
module SheetTwins {
  import opened Basics
  import opened SheetFormulas
  import opened SheetLookalikes
  import opened SheetPatterns
  import opened SheetReading
  import opened Text

  // ---- reading look-alikes as references ----

  ghost function Lookalike(ts: seq<Token>, before: Before, at: Place): (x: Token)
    requires Misleads(ts, before, at)
    ensures LooksLike(SpellAll(ts), before, x, at) && |Spell(x)| > 0
  {
    var x :| LooksLike(SpellAll(ts), before, x, at);
    x
  }

  function DropUpTo(ts: seq<Token>, n: nat): seq<Token> {
    if n <= |ts| then ts[n..] else []
  }

  /** The tokens with every look-alike read as a reference. */
  ghost function Fixed(ts: seq<Token>, before: Before, inString: bool, at: Place): seq<Token>
    decreases |ts|
  {
    if ts == [] then []
    else if ts[0].Ref? then [ts[0]] + Fixed(ts[1..], Name, inString, at)
    else if !inString && Misleads(ts, before, at) then
      var x := Lookalike(ts, before, at);
      [x] + Fixed(DropUpTo(ts, |Spell(x)|), Name, false, at)
    else [ts[0]] + Fixed(ts[1..], Next(before, ts[0].c), NextQuote(ts[0].c, inString), at)
  }

  // ---- a look-alike is made of characters ----

  predicate NumberChar(c: char) {
    IsDigit(c) || c == '-' || c == '[' || c == ']'
  }

  lemma IntChars(n: int)
    ensures forall k :: 0 <= k < |IntText(n)| ==> NumberChar(IntText(n)[k])
  {
    DecimalDigits(if n < 0 then -n else n);
  }

  lemma PartChars(absolute: bool, n: int)
    ensures forall k :: 0 <= k < |Part(absolute, n)| ==> NumberChar(Part(absolute, n)[k])
  {
    IntChars(n);
  }

  predicate NoQuoteNoR(w: string) {
    forall k :: 0 <= k < |w| ==> w[k] != 'R' && w[k] != '"'
  }

  lemma FourthsPlain(p: string, q: string)
    requires (forall k :: 0 <= k < |p| ==> NumberChar(p[k])) && (forall k :: 0 <= k < |q| ==> NumberChar(q[k]))
    ensures NoQuoteNoR(p + ("C" + q))
  {
  }

  /** A reference's spelling is an R and then no other, and no quote. */
  lemma SpellShape(x: Token) returns (w: string)
    requires x.Ref?
    ensures Spell(x) == "R" + w && NoQuoteNoR(w)
  {
    var p, q := Part(x.absRow, x.row), Part(x.absCol, x.col);
    PartChars(x.absRow, x.row);
    PartChars(x.absCol, x.col);
    w := p + ("C" + q);
    FourthsPlain(p, q);
    assert Spell(x) == "R" + w;
  }

  lemma SpellCons(ts: seq<Token>)
    requires ts != []
    ensures SpellAll(ts) == Spell(ts[0]) + SpellAll(ts[1..])
  {
  }

  lemma FirstIsChar(ts: seq<Token>, c: char, rest: string)
    requires SpellAll(ts) == [c] + rest && c != 'R'
    ensures ts != [] && ts[0] == Char(c) && SpellAll(ts[1..]) == rest
  {
    SpellFirst(ts);
    assert SpellAll(ts)[0] == c;
    SpellCons(ts);
    DropFirst(Spell(ts[0]), [c], SpellAll(ts[1..]), rest);
  }

  /** Text without an R comes from characters. */
  lemma {:induction false} CharsAhead(ts: seq<Token>, w: string, rest: string)
    requires SpellAll(ts) == w + rest && NoQuoteNoR(w)
    ensures |w| <= |ts| && ts[..|w|] == Chars(w) && SpellAll(ts[|w|..]) == rest
    decreases |w|
  {
    if w == "" {
      assert w + rest == rest && ts[0..] == ts;
    } else {
      assert w + rest == [w[0]] + (w[1..] + rest);
      FirstIsChar(ts, w[0], w[1..] + rest);
      CharsAhead(ts[1..], w[1..], rest);
      PutCharFirst(ts, w);
    }
  }

  lemma PutCharFirst(ts: seq<Token>, w: string)
    requires w != "" && |w| <= |ts| && ts[0] == Char(w[0]) && ts[1..][..|w| - 1] == Chars(w[1..])
    ensures ts[..|w|] == Chars(w) && ts[1..][|w| - 1..] == ts[|w|..]
  {
    forall k | 0 <= k < |w|
      ensures ts[k] == Char(w[k])
    {
      if k > 0 { assert ts[1..][..|w| - 1][k - 1] == Chars(w[1..])[k - 1]; }
    }
  }

  lemma AfterTheR(ts: seq<Token>, w: string, rest: string)
    requires ts != [] && ts[0].Char? && SpellAll(ts) == ("R" + w) + rest
    ensures ts[0] == Char('R') && SpellAll(ts[1..]) == w + rest
  {
    SpellCons(ts);
    Regroup("R", w, rest);
    DropFirst([ts[0].c], "R", SpellAll(ts[1..]), w + rest);
  }

  lemma CharsFromR(ts: seq<Token>, w: string, rest: string, n: nat)
    requires ts != [] && ts[0].Char? && SpellAll(ts) == ("R" + w) + rest && NoQuoteNoR(w) && n == 1 + |w|
    ensures n <= |ts| && ts[..n] == Chars("R" + w) && SpellAll(ts[n..]) == rest
  {
    AfterTheR(ts, w, rest);
    CharsAhead(ts[1..], w, rest);
    assert ("R" + w)[1..] == w;
    PutCharFirst(ts, "R" + w);
  }

  /** Tokens that begin with a character and whose spelling begins with a look-alike begin with its
      characters. */
  lemma LookalikeChars(ts: seq<Token>, before: Before, x: Token, at: Place, n: nat)
    requires ts != [] && ts[0].Char? && LooksLike(SpellAll(ts), before, x, at) && n == |Spell(x)|
    ensures 0 < n <= |ts| && ts[..n] == Chars(Spell(x)) && SpellAll(ts) == Spell(x) + SpellAll(ts[n..])
    ensures MayEnd(ts[n..])
  {
    var w := SpellShape(x);
    var rest := SpellAll(ts)[n..];
    assert SpellAll(ts) == Spell(x) + rest;
    CharsFromR(ts, w, rest, n);
    SpellFirst(ts[n..]);
  }

  lemma NoQuoteInSpell(x: Token)
    requires x.Ref?
    ensures forall k :: 0 <= k < |Spell(x)| ==> Spell(x)[k] != '"'
  {
    var w := SpellShape(x);
    assert forall k :: 0 < k < |Spell(x)| ==> Spell(x)[k] == w[k - 1];
  }

  // ---- what reading look-alikes keeps ----

  lemma SameSpelling(ts: seq<Token>, us: seq<Token>, first: string, rest: string)
    requires ts != [] && us != [] && SpellAll(ts) == first + rest && Spell(us[0]) == first && SpellAll(us[1..]) == rest
    ensures SpellAll(us) == SpellAll(ts)
  {
    SpellCons(us);
  }

  /** Reading look-alikes does not change the spelling. */
  lemma {:induction false} FixedSpells(ts: seq<Token>, before: Before, inString: bool, at: Place)
    ensures SpellAll(Fixed(ts, before, inString, at)) == SpellAll(ts)
    decreases |ts|
  {
    if ts != [] {
      var us := Fixed(ts, before, inString, at);
      SpellCons(ts);
      if ts[0].Ref? {
        FixedSpells(ts[1..], Name, inString, at);
        SameSpelling(ts, us, Spell(ts[0]), SpellAll(ts[1..]));
      } else if !inString && Misleads(ts, before, at) {
        var x := Lookalike(ts, before, at);
        LookalikeChars(ts, before, x, at, |Spell(x)|);
        FixedSpells(ts[|Spell(x)|..], Name, false, at);
        SameSpelling(ts, us, Spell(x), SpellAll(ts[|Spell(x)|..]));
      } else {
        FixedSpells(ts[1..], Next(before, ts[0].c), NextQuote(ts[0].c, inString), at);
        SameSpelling(ts, us, Spell(ts[0]), SpellAll(ts[1..]));
      }
    }
  }

  /** And leaves none. */
  lemma {:induction false} FixedUnmistaken(ts: seq<Token>, before: Before, inString: bool, at: Place)
    ensures Unmistaken(Fixed(ts, before, inString, at), before, inString, at)
    decreases |ts|
  {
    if ts != [] {
      var us := Fixed(ts, before, inString, at);
      FixedSpells(ts, before, inString, at);
      if ts[0].Ref? {
        FixedUnmistaken(ts[1..], Name, inString, at);
        assert us[1..] == Fixed(ts[1..], Name, inString, at);
      } else if !inString && Misleads(ts, before, at) {
        var x := Lookalike(ts, before, at);
        FixedUnmistaken(DropUpTo(ts, |Spell(x)|), Name, false, at);
        assert us[1..] == Fixed(DropUpTo(ts, |Spell(x)|), Name, false, at);
      } else {
        var c := ts[0].c;
        FixedUnmistaken(ts[1..], Next(before, c), NextQuote(c, inString), at);
        assert us[1..] == Fixed(ts[1..], Next(before, c), NextQuote(c, inString), at);
        assert Misleads(us, before, at) == Misleads(ts, before, at);
      }
    }
  }

  /** What stands before the rest once look-alikes are read as references, and what stood before it:
      the same, or a $ that is now free, or the end of a reference where a name could not go on. */
  predicate Akin(was: Before, now: Before, inString: bool, rest: seq<Token>) {
    !inString ==> was == now || (was == Dollar && now == Free) || (now == Name && MayEnd(rest))
  }

  lemma AkinNext(ts: seq<Token>, was: Before, now: Before, inString: bool, c: char)
    requires ts != [] && ts[0] == Char(c) && Placed(ts, was, inString) && Akin(was, now, inString, ts)
    ensures Akin(Next(was, c), Next(now, c), NextQuote(c, inString), ts[1..])
    ensures Placed(ts[1..], Next(was, c), NextQuote(c, inString))
  {
  }

  /** What stands before what follows w. */
  function Past(before: Before, w: string): Before
    decreases |w|
  {
    if w == "" then before else Past(Next(before, w[0]), w[1..])
  }

  lemma {:induction false} PlacedPast(ts: seq<Token>, w: string, before: Before)
    requires Placed(ts, before, false) && |w| <= |ts| && ts[..|w|] == Chars(w) && forall k :: 0 <= k < |w| ==> w[k] != '"'
    ensures Placed(ts[|w|..], Past(before, w), false)
    decreases |w|
  {
    if w == "" {
      assert ts[0..] == ts;
    } else {
      assert ts[0] == Chars(w)[0];
      assert ts[1..][..|w| - 1] == Chars(w[1..]) by { CharsTail(ts, w); }
      PlacedPast(ts[1..], w[1..], Next(before, w[0]));
      assert ts[1..][|w| - 1..] == ts[|w|..];
    }
  }

  lemma CharsTail(ts: seq<Token>, w: string)
    requires w != "" && |w| <= |ts| && ts[..|w|] == Chars(w)
    ensures ts[0] == Char(w[0]) && ts[1..][..|w| - 1] == Chars(w[1..])
  {
    forall k | 0 <= k < |w|
      ensures ts[k] == Char(w[k])
    {
      assert ts[..|w|][k] == Chars(w)[k];
    }
  }

  /** After a reference nothing is read as one. */
  lemma FixedMayEnd(ts: seq<Token>, at: Place)
    requires MayEnd(ts)
    ensures MayEnd(Fixed(ts, Name, false, at))
  {
  }

  lemma {:induction false} FixedPlaced(ts: seq<Token>, was: Before, now: Before, inString: bool, at: Place)
    requires Placed(ts, was, inString) && Akin(was, now, inString, ts)
    ensures Placed(Fixed(ts, now, inString, at), now, inString)
    decreases |ts|
  {
    if ts != [] {
      var us := Fixed(ts, now, inString, at);
      if ts[0].Ref? {
        FixedMayEnd(ts[1..], at);
        FixedPlaced(ts[1..], Name, Name, false, at);
        assert us[1..] == Fixed(ts[1..], Name, inString, at);
      } else if !inString && Misleads(ts, now, at) {
        var x := Lookalike(ts, now, at);
        var n := |Spell(x)|;
        LookalikeChars(ts, now, x, at, n);
        NoQuoteInSpell(x);
        PlacedPast(ts, Spell(x), was);
        FixedMayEnd(ts[n..], at);
        FixedPlaced(ts[n..], Past(was, Spell(x)), Name, false, at);
        assert us[1..] == Fixed(ts[n..], Name, false, at);
      } else {
        var c := ts[0].c;
        AkinNext(ts, was, now, inString, c);
        FixedPlaced(ts[1..], Next(was, c), Next(now, c), NextQuote(c, inString), at);
        assert us[1..] == Fixed(ts[1..], Next(now, c), NextQuote(c, inString), at);
      }
    }
  }

  lemma {:induction false} FixedOnSheet(ts: seq<Token>, before: Before, inString: bool, at: Place)
    requires AllOnSheet(ts, at)
    ensures AllOnSheet(Fixed(ts, before, inString, at), at)
    decreases |ts|
  {
    if ts != [] {
      if ts[0].Ref? {
        FixedOnSheet(ts[1..], Name, inString, at);
      } else if !inString && Misleads(ts, before, at) {
        var x := Lookalike(ts, before, at);
        FixedOnSheet(DropUpTo(ts, |Spell(x)|), Name, false, at);
      } else {
        FixedOnSheet(ts[1..], Next(before, ts[0].c), NextQuote(ts[0].c, inString), at);
      }
    }
  }

  // ---- what the twin prints holds no reference but its own ----

  function AbsoluteAll(ts: seq<Token>, at: Place): (r: seq<Token>)
    ensures |r| == |ts| && forall k :: 0 <= k < |ts| ==> r[k] == Absolute(ts[k], at)
  {
    seq(|ts|, k requires 0 <= k < |ts| => Absolute(ts[k], at))
  }

  function Texts(ts: seq<Token>): (ws: seq<string>)
    requires AllOnSheet(ts, ORIGIN)
    ensures |ws| == |ts| && forall k :: 0 <= k < |ts| ==> OnSheet(ts[k]) && ws[k] == TokenText(ts[k])
  {
    assert forall k :: 0 <= k < |ts| ==> Absolute(ts[k], ORIGIN) == ts[k];
    seq(|ts|, k requires 0 <= k < |ts| => TokenText(ts[k]))
  }

  lemma {:induction false} TextsPrint(ts: seq<Token>)
    requires AllOnSheet(ts, ORIGIN)
    ensures AllPrint(ts, Texts(ts))
  {
    if ts != [] {
      TokenPrints(ts[0]);
      TextsPrint(ts[1..]);
      assert Texts(ts)[1..] == Texts(ts[1..]);
    }
  }

  /** The first n tokens are characters. */
  predicate CharsFirst(ts: seq<Token>, n: nat) {
    n <= |ts| && forall k :: 0 <= k < n ==> ts[k].Char?
  }

  /** Leading characters print as themselves, and a reference after them begins with a $ or a
      letter. */
  lemma {:induction false} CharsPrint(ts: seq<Token>, ws: seq<string>, n: nat)
    requires AllPrint(ts, ws) && CharsFirst(ts, n)
    ensures |Concat(ws)| >= n && forall k :: 0 <= k < n ==> Concat(ws)[k] == ts[k].c
    ensures |Concat(ws)| == n <==> n == |ts|
    ensures n < |ts| && ts[n].Char? ==> Concat(ws)[n] == ts[n].c
    ensures n < |ts| && ts[n].Ref? ==> if ts[n].absCol then Concat(ws)[n] == '$' else IsUpper(Concat(ws)[n])
    decreases n
  {
    ConcatFirst(ts, ws);
    if n > 0 {
      CharsPrint(ts[1..], ws[1..], n - 1);
      ConsText(ts, ws, n);
    }
  }

  lemma ConsText(ts: seq<Token>, ws: seq<string>, n: nat)
    requires ws != [] && |ws[0]| == 1
    ensures |Concat(ws)| == 1 + |Concat(ws[1..])| && Concat(ws)[0] == ws[0][0]
    ensures forall k :: 1 <= k < |Concat(ws)| ==> Concat(ws)[k] == Concat(ws[1..])[k - 1]
  {
  }

  /** A reference after characters stands after no name, and after a lone $ it has one of its own. */
  lemma {:induction false} RefAfterChars(ts: seq<Token>, before: Before, n: nat)
    requires Placed(ts, before, false) && 0 < n < |ts| && CharsFirst(ts, n) && ts[n].Ref?
    requires forall k :: 0 <= k < n ==> ts[k].c != '"'
    ensures !IsNameChar(ts[n - 1].c)
    ensures n == 1 && ts[0].c == '$' && before != Name ==> ts[1].absCol
    decreases n
  {
    if n > 1 { RefAfterChars(ts[1..], Next(before, ts[0].c), n - 1); }
  }

  /** The characters before the first reference, or all. */
  function Lead(ts: seq<Token>): (n: nat)
    ensures CharsFirst(ts, n) && (n < |ts| ==> ts[n].Ref?)
  {
    if ts == [] || ts[0].Ref? then 0 else 1 + Lead(ts[1..])
  }

  lemma MatchStaysBefore(ts: seq<Token>, ws: seq<string>, before: Before, n: nat, text: string)
    requires AllPrint(ts, ws) && text == Concat(ws) && Placed(ts, before, false) && before != Name
    requires 0 < n < |ts| && CharsFirst(ts, n) && ts[n].Ref? && text != "" && MatchRef(text, 0).Match?
    ensures MatchRef(text, 0).end < n
  {
    var end := MatchRef(text, 0).end;
    CharsPrint(ts, ws, n);
    if n <= end {
      forall k | 0 <= k < n
        ensures ts[k].c != '"'
      {
        DollarInMatch(text, 0, k);
      }
      RefAfterChars(ts, before, n);
      DollarInMatch(text, 0, n - 1);
    }
  }

  /** If the text matches where it begins with a character, only characters match, and a character or
      nothing follows. */
  lemma MatchIsChars(ts: seq<Token>, ws: seq<string>, before: Before, text: string, end: nat)
    requires AllPrint(ts, ws) && text == Concat(ws) && Placed(ts, before, false) && before != Name
    requires ts != [] && ts[0].Char? && text != "" && MatchRef(text, 0).Match? && end == MatchRef(text, 0).end
    ensures CharsFirst(ts, end) && (forall k :: 0 <= k < end ==> text[k] == ts[k].c)
    ensures if end == |ts| then end == |text| else CharsFirst(ts, end + 1) && end < |text| && text[end] == ts[end].c
  {
    var n := Lead(ts);
    CharsPrint(ts, ws, n);
    if n < |ts| { MatchStaysBefore(ts, ws, before, n, text); }
  }

  // ---- because the formula itself holds none there ----

  lemma FixedNonempty(ts: seq<Token>, now: Before, inString: bool, at: Place)
    ensures ts != [] ==> Fixed(ts, now, inString, at) != []
  {
  }

  /** A character that is left is the formula's. */
  lemma FixedCharHead(ts: seq<Token>, now: Before, inString: bool, at: Place, us: seq<Token>)
    requires us == Fixed(ts, now, inString, at) && us != [] && us[0].Char?
    ensures ts != [] && ts[0] == us[0] && us[1..] == Fixed(ts[1..], Next(now, us[0].c), NextQuote(us[0].c, inString), at)
  {
  }

  lemma {:induction false} FixedPrefix(ts: seq<Token>, now: Before, at: Place, us: seq<Token>, n: nat)
    requires us == Fixed(ts, now, false, at) && CharsFirst(us, n) && forall k :: 0 <= k < n - 1 ==> us[k].c != '"'
    ensures CharsFirst(ts, n) && (forall k :: 0 <= k < n ==> ts[k] == us[k])
    ensures |us| == n ==> |ts| == n
    decreases n
  {
    FixedNonempty(ts, now, false, at);
    if n > 0 {
      FixedCharHead(ts, now, false, at, us);
      var c := us[0].c;
      if n > 1 {
        FixedPrefix(ts[1..], Next(now, c), at, us[1..], n - 1);
        assert forall k :: 1 <= k < n ==> ts[k] == ts[1..][k - 1] && us[k] == us[1..][k - 1];
      } else {
        FixedNonempty(ts[1..], Next(now, c), NextQuote(c, false), at);
      }
    }
  }

  lemma {:induction false} ReadPrefix(s: string, i: nat, was: Before, ts: seq<Token>, n: nat)
    requires i <= |s| && ts == Read(s, i, was, false) && CharsFirst(ts, n) && forall k :: 0 <= k < n - 1 ==> ts[k].c != '"'
    ensures i + n <= |s| && (forall k :: 0 <= k < n ==> s[i + k] == ts[k].c) && (|ts| == n ==> i + n == |s|)
    decreases n
  {
    if n > 0 {
      assert i < |s| && ts[0] == Char(s[i]);
      var rest := Read(s, i + 1, Next(was, s[i]), NextQuote(s[i], false));
      assert ts[1..] == rest;
      if n > 1 {
        ReadPrefix(s, i + 1, Next(was, s[i]), rest, n - 1);
        assert forall k :: 1 <= k < n ==> ts[k] == rest[k - 1];
        forall k | 0 <= k < n
          ensures s[i + k] == ts[k].c
        {
          if k > 0 { assert s[i + 1 + (k - 1)] == rest[k - 1].c; }
        }
      }
    }
  }

  /** The two texts agree up to the end of the match and on what follows it. */
  ghost predicate Agree(text: string, s: string, i: nat, end: nat) {
    && end <= |text| && i + end <= |s| && (forall k :: 0 <= k < end ==> text[k] == s[i + k])
    && (if end == |text| then i + end == |s| else i + end < |s| && text[end] == s[i + end])
  }

  lemma {:induction false} LettersAgree(text: string, s: string, i: nat, end: nat, a: nat, most: nat)
    requires Agree(text, s, i, end) && a <= end && LettersEnd(text, a, most) < end
    ensures LettersEnd(s, i + a, most) == i + LettersEnd(text, a, most)
    decreases most
  {
    if most > 0 && IsUpper(text[a]) { LettersAgree(text, s, i, end, a + 1, most - 1); }
  }

  lemma {:induction false} DigitsAgree(text: string, s: string, i: nat, end: nat, c: nat)
    requires Agree(text, s, i, end) && c <= end && DigitsEnd(text, c) == end
    ensures DigitsEnd(s, i + c) == i + end
    decreases end - c
  {
    if c < end { DigitsAgree(text, s, i, end, c + 1); }
  }

  lemma MatchAgrees(text: string, s: string, i: nat, end: nat)
    requires text != "" && MatchRef(text, 0).Match? && end == MatchRef(text, 0).end && Agree(text, s, i, end)
    ensures i < |s| && MatchRef(s, i).Match? && MatchRef(s, i).end == i + end
  {
    var a := AfterDollar(text, 0);
    var b := LettersEnd(text, a, 3);
    var c := AfterDollar(text, b);
    assert s[i + 0] == text[0];
    LettersAgree(text, s, i, end, a, 3);
    assert AfterDollar(s, i) == i + a && AfterDollar(s, i + b) == i + c;
    DigitsAgree(text, s, i, end, c);
  }

  lemma FitsAgrees(text: string, s: string, i: nat, end: nat)
    requires text != "" && Fits(text, 0) && end == MatchRef(text, 0).end && Agree(text, s, i, end)
    ensures i < |s| && Fits(s, i)
  {
    MatchAgrees(text, s, i, end);
  }

  /** Characters are the same in the formula, relative to its cell, read with look-alikes, and in the
      twin's cell. */
  ghost predicate Stages(s: string, i: nat, was: Before, now: Before, inString: bool, here: Place, there: Place,
                         tokens: seq<Token>, ts: seq<Token>, us: seq<Token>, ys: seq<Token>) {
    && i <= |s| && tokens == Read(s, i, was, inString) && ts == RelativeTo(tokens, here)
    && us == Fixed(ts, now, inString, here) && ys == AbsoluteAll(us, there)
  }

  lemma AgreesWithFormula(s: string, i: nat, was: Before, now: Before, here: Place, there: Place,
                          tokens: seq<Token>, ts: seq<Token>, us: seq<Token>, ys: seq<Token>, text: string, end: nat)
    requires Stages(s, i, was, now, false, here, there, tokens, ts, us, ys)
    requires CharsFirst(ys, end) && end <= |text| && forall k :: 0 <= k < end ==> text[k] == ys[k].c && text[k] != '"'
    requires if end == |ys| then end == |text| else CharsFirst(ys, end + 1) && end < |text| && text[end] == ys[end].c
    ensures Agree(text, s, i, end)
  {
    var n := if end == |ys| then end else end + 1;
    forall k | 0 <= k < n
      ensures us[k] == ys[k] && us[k].Char?
    {
      assert ys[k] == Absolute(us[k], there);
    }
    FixedPrefix(ts, now, here, us, n);
    forall k | 0 <= k < n
      ensures tokens[k] == ts[k] == us[k]
    {
      assert ts[k] == Relative(tokens[k], here.col, here.row);
    }
    ReadPrefix(s, i, was, tokens, n);
  }

  /** So where the twin begins with a character and a reference could start, none fits. */
  lemma NoneFits(s: string, i: nat, was: Before, now: Before, here: Place, there: Place,
                 tokens: seq<Token>, ts: seq<Token>, us: seq<Token>, ys: seq<Token>, ws: seq<string>)
    requires Stages(s, i, was, now, false, here, there, tokens, ts, us, ys) && AllPrint(ys, ws)
    requires i < |s| && !Fits(s, i) && now != Name && Placed(ys, now, false) && ys != [] && ys[0].Char?
    ensures Concat(ws) != "" && !Fits(Concat(ws), 0)
  {
    var text := Concat(ws);
    ConcatFirst(ys, ws);
    if Fits(text, 0) {
      var end := MatchRef(text, 0).end;
      MatchIsChars(ys, ws, now, text, end);
      forall k | 0 <= k < end
        ensures text[k] != '"'
      {
        DollarInMatch(text, 0, k);
      }
      AgreesWithFormula(s, i, was, now, here, there, tokens, ts, us, ys, text, end);
      FitsAgrees(text, s, i, end);
    }
  }

  // ---- so the twin is read as it is printed ----

  lemma ReadCharHead(s: string, i: nat, was: Before, inString: bool, tokens: seq<Token>)
    requires i <= |s| && tokens == Read(s, i, was, inString) && tokens != [] && tokens[0].Char?
    ensures i < |s| && s[i] == tokens[0].c && (inString || was == Name || !Fits(s, i))
    ensures tokens[1..] == Read(s, i + 1, Next(was, s[i]), NextQuote(s[i], inString))
  {
  }

  lemma {:induction false} ReadPast(s: string, i: nat, was: Before, ts: seq<Token>, w: string)
    requires i <= |s| && ts == Read(s, i, was, false) && |w| <= |ts| && ts[..|w|] == Chars(w)
    requires forall k :: 0 <= k < |w| ==> w[k] != '"'
    ensures i + |w| <= |s| && Read(s, i + |w|, Past(was, w), false) == ts[|w|..]
    decreases |w|
  {
    if w == "" {
      assert ts[0..] == ts;
    } else {
      CharsTail(ts, w);
      ReadCharHead(s, i, was, false, ts);
      ReadPast(s, i + 1, Next(was, w[0]), ts[1..], w[1..]);
      PastOneMore(s, i, was, ts, w);
    }
  }

  lemma PastOneMore(s: string, i: nat, was: Before, ts: seq<Token>, w: string)
    requires w != "" && |w| <= |ts| && i + |w| <= |s|
    requires Read(s, i + 1 + |w[1..]|, Past(Next(was, w[0]), w[1..]), false) == ts[1..][|w[1..]|..]
    ensures Read(s, i + |w|, Past(was, w), false) == ts[|w|..]
  {
    DropOneMore(ts, |w|);
    assert i + 1 + |w[1..]| == i + |w|;
  }

  lemma DropOneMore(ts: seq<Token>, n: nat)
    requires 0 < n <= |ts|
    ensures ts[1..][n - 1..] == ts[n..]
  {
  }

  lemma TailsOfStages(ts: seq<Token>, us: seq<Token>, n: nat, here: Place, there: Place)
    requires n <= |ts| && us != []
    ensures RelativeTo(ts, here)[n..] == RelativeTo(ts[n..], here) && AbsoluteAll(us, there)[1..] == AbsoluteAll(us[1..], there)
  {
  }

  /** The stages after the first tokens. */
  lemma {:induction false} RealFrom(s: string, i: nat, was: Before, now: Before, inString: bool, here: Place, there: Place,
                                    tokens: seq<Token>, ts: seq<Token>, us: seq<Token>, ys: seq<Token>, ws: seq<string>)
    requires Stages(s, i, was, now, inString, here, there, tokens, ts, us, ys) && AllPrint(ys, ws)
    requires Placed(ts, was, inString) && Akin(was, now, inString, ts)
    ensures Real(ys, ws, now, inString)
    decreases |ts|, 2
  {
    if ts != [] {
      if ts[0].Ref? {
        RealFromRef(s, i, was, now, here, there, tokens, ts, us, ys, ws);
      } else if !inString && Misleads(ts, now, here) {
        RealFromLookalike(s, i, was, now, here, there, tokens, ts, us, ys, ws);
      } else {
        RealFromChar(s, i, was, now, inString, here, there, tokens, ts, us, ys, ws);
      }
    }
  }

  lemma {:induction false} RealFromRef(s: string, i: nat, was: Before, now: Before, here: Place, there: Place,
                                       tokens: seq<Token>, ts: seq<Token>, us: seq<Token>, ys: seq<Token>, ws: seq<string>)
    requires Stages(s, i, was, now, false, here, there, tokens, ts, us, ys) && AllPrint(ys, ws)
    requires Placed(ts, was, false) && Akin(was, now, false, ts) && ts != [] && ts[0].Ref?
    ensures Real(ys, ws, now, false)
    decreases |ts|, 1
  {
    var end := MatchRef(s, i).end;
    assert tokens[1..] == Read(s, end, Name, false) && us[1..] == Fixed(ts[1..], Name, false, here);
    TailsOfStages(tokens, us, 1, here, there);
    RealFrom(s, end, Name, Name, false, here, there, tokens[1..], ts[1..], us[1..], ys[1..], ws[1..]);
    FixedMayEnd(ts[1..], here);
  }

  lemma StagesPast(s: string, i: nat, was: Before, now: Before, here: Place, there: Place,
                   tokens: seq<Token>, ts: seq<Token>, us: seq<Token>, ys: seq<Token>, x: Token, n: nat)
    requires Stages(s, i, was, now, false, here, there, tokens, ts, us, ys) && ts != [] && ts[0].Char?
    requires Misleads(ts, now, here) && x == Lookalike(ts, now, here) && n == |Spell(x)|
    ensures n <= |ts| && us != [] && i + n <= |s|
    ensures Stages(s, i + n, Past(was, Spell(x)), Name, false, here, there, tokens[n..], ts[n..], us[1..], ys[1..])
  {
    LookalikeChars(ts, now, x, here, n);
    NoQuoteInSpell(x);
    TokensPast(s, i, was, here, tokens, ts, Spell(x), n);
    TailsOfStages(tokens, us, n, here, there);
  }

  lemma TokensPast(s: string, i: nat, was: Before, here: Place, tokens: seq<Token>, ts: seq<Token>, w: string, n: nat)
    requires i <= |s| && tokens == Read(s, i, was, false) && ts == RelativeTo(tokens, here)
    requires n == |w| <= |ts| && ts[..n] == Chars(w) && forall k :: 0 <= k < |w| ==> w[k] != '"'
    ensures i + n <= |s| && Read(s, i + n, Past(was, w), false) == tokens[n..]
  {
    CharsAreKept(tokens, ts, here, n, w);
    ReadPast(s, i, was, tokens, w);
  }

  lemma {:induction false} RealFromLookalike(s: string, i: nat, was: Before, now: Before, here: Place, there: Place,
                                             tokens: seq<Token>, ts: seq<Token>, us: seq<Token>, ys: seq<Token>, ws: seq<string>)
    requires Stages(s, i, was, now, false, here, there, tokens, ts, us, ys) && AllPrint(ys, ws)
    requires Placed(ts, was, false) && Akin(was, now, false, ts) && ts != [] && ts[0].Char? && Misleads(ts, now, here)
    ensures Real(ys, ws, now, false)
    decreases |ts|, 1
  {
    var x := Lookalike(ts, now, here);
    var n := |Spell(x)|;
    LookalikeChars(ts, now, x, here, n);
    RealPast(s, i, was, now, here, there, tokens, ts, us, ys, ws, x, n);
    FixedMayEnd(ts[n..], here);
    RealRefFirst(us, ys, ws, now, here, there, ts[n..], x);
  }

  lemma {:induction false} RealPast(s: string, i: nat, was: Before, now: Before, here: Place, there: Place,
                                    tokens: seq<Token>, ts: seq<Token>, us: seq<Token>, ys: seq<Token>, ws: seq<string>, x: Token, n: nat)
    requires Stages(s, i, was, now, false, here, there, tokens, ts, us, ys) && AllPrint(ys, ws)
    requires Placed(ts, was, false) && ts != [] && ts[0].Char? && Misleads(ts, now, here)
    requires x == Lookalike(ts, now, here) && n == |Spell(x)| <= |ts| && ts[..n] == Chars(Spell(x)) && MayEnd(ts[n..])
    ensures |ys| > 0 && Real(ys[1..], ws[1..], Name, false)
    decreases |ts|, 0
  {
    StagesPast(s, i, was, now, here, there, tokens, ts, us, ys, x, n);
    PlacedPastLookalike(ts, was, x, n);
    RealFrom(s, i + n, Past(was, Spell(x)), Name, false, here, there, tokens[n..], ts[n..], us[1..], ys[1..], ws[1..]);
  }

  lemma PlacedPastLookalike(ts: seq<Token>, was: Before, x: Token, n: nat)
    requires Placed(ts, was, false) && x.Ref? && n == |Spell(x)| <= |ts| && ts[..n] == Chars(Spell(x))
    ensures Placed(ts[n..], Past(was, Spell(x)), false)
  {
    NoQuoteInSpell(x);
    PlacedPast(ts, Spell(x), was);
  }

  lemma RealRefFirst(us: seq<Token>, ys: seq<Token>, ws: seq<string>, now: Before, here: Place, there: Place,
                     rest: seq<Token>, x: Token)
    requires AllPrint(ys, ws) && us == [x] + Fixed(rest, Name, false, here) && ys == AbsoluteAll(us, there)
    requires x.Ref? && now != Name && MayEnd(Fixed(rest, Name, false, here)) && Real(ys[1..], ws[1..], Name, false)
    ensures Real(ys, ws, now, false)
  {
    assert ys[0] == Absolute(x, there);
    assert us[1..] == Fixed(rest, Name, false, here);
    if ys[1..] != [] { assert ys[1] == Absolute(us[1], there); }
  }

  lemma CharsAreKept(tokens: seq<Token>, ts: seq<Token>, here: Place, n: nat, w: string)
    requires ts == RelativeTo(tokens, here) && n == |w| <= |ts| && ts[..n] == Chars(w)
    ensures tokens[..n] == Chars(w)
  {
    forall k | 0 <= k < n
      ensures tokens[k] == Char(w[k])
    {
      assert ts[..n][k] == Chars(w)[k];
    }
  }

  lemma StagesNext(s: string, i: nat, was: Before, now: Before, inString: bool, here: Place, there: Place,
                   tokens: seq<Token>, ts: seq<Token>, us: seq<Token>, ys: seq<Token>, c: char)
    requires Stages(s, i, was, now, inString, here, there, tokens, ts, us, ys)
    requires ts != [] && ts[0] == Char(c) && (inString || !Misleads(ts, now, here))
    ensures i < |s| && us != [] && us[0] == Char(c) && ys[0] == Char(c) && (inString || was == Name || !Fits(s, i))
    ensures Stages(s, i + 1, Next(was, c), Next(now, c), NextQuote(c, inString), here, there, tokens[1..], ts[1..], us[1..], ys[1..])
  {
    ReadCharHead(s, i, was, inString, tokens);
    TailsOfStages(tokens, us, 1, here, there);
  }

  lemma CharFits(s: string, i: nat, was: Before, now: Before, here: Place, there: Place,
                 tokens: seq<Token>, ts: seq<Token>, us: seq<Token>, ys: seq<Token>, ws: seq<string>)
    requires Stages(s, i, was, now, false, here, there, tokens, ts, us, ys) && AllPrint(ys, ws)
    requires Placed(ts, was, false) && Akin(was, now, false, ts) && now != Name
    requires i < |s| && !Fits(s, i) && ys != [] && ys[0].Char?
    ensures Concat(ws) != "" && !Fits(Concat(ws), 0)
  {
    FixedPlaced(ts, was, now, false, here);
    SamePlaces(us, ys, now, false);
    NoneFits(s, i, was, now, here, there, tokens, ts, us, ys, ws);
  }

  lemma {:induction false} RealFromChar(s: string, i: nat, was: Before, now: Before, inString: bool, here: Place, there: Place,
                                        tokens: seq<Token>, ts: seq<Token>, us: seq<Token>, ys: seq<Token>, ws: seq<string>)
    requires Stages(s, i, was, now, inString, here, there, tokens, ts, us, ys) && AllPrint(ys, ws)
    requires Placed(ts, was, inString) && Akin(was, now, inString, ts)
    requires ts != [] && ts[0].Char? && (inString || !Misleads(ts, now, here))
    ensures Real(ys, ws, now, inString)
    decreases |ts|, 1
  {
    var c := ts[0].c;
    StagesNext(s, i, was, now, inString, here, there, tokens, ts, us, ys, c);
    RealNext(s, i, was, now, inString, here, there, tokens, ts, us, ys, ws, c);
    if !inString && now != Name { CharFits(s, i, was, now, here, there, tokens, ts, us, ys, ws); }
    RealCharFirst(ys, ws, now, inString, c);
  }

  lemma {:induction false} RealNext(s: string, i: nat, was: Before, now: Before, inString: bool, here: Place, there: Place,
                                    tokens: seq<Token>, ts: seq<Token>, us: seq<Token>, ys: seq<Token>, ws: seq<string>, c: char)
    requires Stages(s, i, was, now, inString, here, there, tokens, ts, us, ys) && AllPrint(ys, ws)
    requires Placed(ts, was, inString) && Akin(was, now, inString, ts)
    requires ts != [] && ts[0] == Char(c) && (inString || !Misleads(ts, now, here))
    ensures |ys| > 0 && Real(ys[1..], ws[1..], Next(now, c), NextQuote(c, inString))
    decreases |ts|, 0
  {
    var was1, now1, quoted := NextStage(s, i, was, now, inString, here, there, tokens, ts, us, ys, c);
    RealFrom(s, i + 1, was1, now1, quoted, here, there, tokens[1..], ts[1..], us[1..], ys[1..], ws[1..]);
  }

  lemma NextStage(s: string, i: nat, was: Before, now: Before, inString: bool, here: Place, there: Place,
                  tokens: seq<Token>, ts: seq<Token>, us: seq<Token>, ys: seq<Token>, c: char)
    returns (was1: Before, now1: Before, quoted: bool)
    requires Stages(s, i, was, now, inString, here, there, tokens, ts, us, ys)
    requires Placed(ts, was, inString) && Akin(was, now, inString, ts)
    requires ts != [] && ts[0] == Char(c) && (inString || !Misleads(ts, now, here))
    ensures i < |s| && us != [] && now1 == Next(now, c) && quoted == NextQuote(c, inString)
    ensures Stages(s, i + 1, was1, now1, quoted, here, there, tokens[1..], ts[1..], us[1..], ys[1..])
    ensures Placed(ts[1..], was1, quoted) && Akin(was1, now1, quoted, ts[1..])
  {
    was1, now1, quoted := Next(was, c), Next(now, c), NextQuote(c, inString);
    StagesNext(s, i, was, now, inString, here, there, tokens, ts, us, ys, c);
    AkinNext(ts, was, now, inString, c);
  }

  lemma RealCharFirst(ys: seq<Token>, ws: seq<string>, now: Before, inString: bool, c: char)
    requires AllPrint(ys, ws) && ys != [] && ys[0] == Char(c)
    requires inString || now == Name || (Concat(ws) != "" && !Fits(Concat(ws), 0))
    requires Real(ys[1..], ws[1..], Next(now, c), NextQuote(c, inString))
    ensures Real(ys, ws, now, inString)
  {
    ConcatFirst(ys, ws);
  }

  // ---- the twin ----

  /** The formula read with its look-alikes as references of its cell. */
  ghost function Reading(f: string, here: Place): seq<Token> {
    Fixed(RelativeTo(Formula(f), here), Free, false, here)
  }

  lemma PrintedTwin(f: string, here: Place, there: Place) returns (g: string)
    requires AllOnSheet(Reading(f, here), there)
    ensures Formula(g) == AbsoluteAll(Reading(f, here), there)
  {
    var tokens := Formula(f);
    var ts := RelativeTo(tokens, here);
    var us := Reading(f, here);
    var ys := AbsoluteAll(us, there);
    FormulaIsRead(f);
    FormulaIsSound(f, here);
    assert AllOnSheet(ys, ORIGIN) by {
      assert forall k :: 0 <= k < |ys| ==> Absolute(ys[k], ORIGIN) == ys[k] == Absolute(us[k], there);
    }
    TextsPrint(ys);
    RealFrom(f, 0, Free, Free, false, here, there, tokens, ts, us, ys, Texts(ys));
    RealIsFormula(ys, Texts(ys));
    g := Concat(Texts(ys));
  }

  lemma RelativeOfAbsolute(us: seq<Token>, at: Place)
    ensures RelativeTo(AbsoluteAll(us, at), at) == us
  {
  }

  lemma TwinSpells(f: string, here: Place, g: string, there: Place)
    requires Formula(g) == AbsoluteAll(Reading(f, here), there)
    ensures RelativeTo(Formula(g), there) == Reading(f, here) && PatternAt(g, there) == PatternAt(f, here)
  {
    RelativeOfAbsolute(Reading(f, here), there);
    FixedSpells(RelativeTo(Formula(f), here), Free, false, here);
  }

  lemma TwinIsNoCopy(f: string, here: Place, g: string, there: Place)
    requires !Plain(f, here, here) && RelativeTo(Formula(g), there) == Reading(f, here)
    ensures !CopyOf(f, here, g, there)
  {
    FixedUnmistaken(RelativeTo(Formula(f), here), Free, false, here);
    SameRelativeIffCopied(Formula(f), Formula(g), here, there);
  }

  /** Every formula with a look-alike has a twin in every cell its references reach: a formula with the
      same pattern that is no copy of it. In its own cell the twin has no look-alike. */
  lemma LookalikeHasTwin(f: string, here: Place, there: Place) returns (g: string)
    requires !Plain(f, here, here) && AllOnSheet(Reading(f, here), there)
    ensures PatternAt(g, there) == PatternAt(f, here) && !CopyOf(f, here, g, there)
    ensures there == here ==> Plain(g, here, here)
  {
    g := PrintedTwin(f, here, there);
    TwinSpells(f, here, g, there);
    TwinIsNoCopy(f, here, g, there);
    FixedUnmistaken(RelativeTo(Formula(f), here), Free, false, here);
  }

  lemma CopiedNowhere(ts: seq<Token>)
    ensures Copied(ts, 0, 0) == ts
  {
  }

  lemma CopyInPlace(f: string, g: string, at: Place)
    ensures CopyOf(f, at, g, at) <==> Formula(g) == Formula(f)
  {
    CopiedNowhere(Formula(f));
  }

  lemma ReadingOnSheet(f: string, at: Place)
    ensures AllOnSheet(Reading(f, at), at)
  {
    FormulaIsSound(f, at);
    FixedOnSheet(RelativeTo(Formula(f), at), Free, false, at);
  }

  /** g has no look-alike and f's pattern, and is not f. */
  ghost predicate Mistakable(f: string, g: string, at: Place) {
    Plain(g, at, at) && PatternAt(g, at) == PatternAt(f, at) && Formula(g) != Formula(f)
  }

  lemma PlainIsUnmistakable(f: string, g: string, at: Place)
    requires Plain(f, at, at)
    ensures !Mistakable(f, g, at)
  {
    CopyInPlace(f, g, at);
    if Plain(g, at, at) { SamePatternIffCopied(f, at, g, at); }
  }

  lemma LookalikeIsMistakable(f: string, at: Place) returns (g: string)
    requires !Plain(f, at, at)
    ensures Mistakable(f, g, at)
  {
    ReadingOnSheet(f, at);
    g := LookalikeHasTwin(f, at, at);
    CopyInPlace(f, g, at);
  }

  /** A formula has no look-alike exactly when no other formula without one has its pattern in that
      cell. */
  lemma PlainIffUnmistakable(f: string, at: Place)
    ensures Plain(f, at, at) <==> forall g :: !Mistakable(f, g, at)
  {
    if Plain(f, at, at) {
      forall g ensures !Mistakable(f, g, at) { PlainIsUnmistakable(f, g, at); }
    } else {
      var g := LookalikeIsMistakable(f, at);
    }
  }

  // ---- a look-alike ----

  /** A reference on its own is read as that reference. */
  lemma RefFormula(t: Token)
    requires t.Ref? && OnSheet(t)
    ensures Formula(TokenText(t)) == [t]
  {
    TokenPrints(t);
    var ts, ws := [t], [TokenText(t)];
    assert ts[1..] == [] && ws[1..] == [];
    assert Concat(ws) == TokenText(t) + "" == TokenText(t);
    RealIsFormula(ts, ws);
  }

  lemma ReadsAbsolute()
    ensures Formula("$A$1") == [Ref(true, 1, true, 1)]
  {
    var t := Ref(true, 1, true, 1);
    assert ColumnName(0) == "" && ColumnName(1) == "A" && Decimal(1) == "1";
    assert TokenText(t) == "$A$1";
    RefFormula(t);
  }

  lemma ReadsC1(s: string)
    requires s == "R1C1"
    ensures Tokens(s, 2, false) == [Char('C')] + [Char('1')]
  {
    assert Step(s, 3, false) == Scan([Char('1')], 4, false);
    assert Tokens(s, 3, false) == [Char('1')] + Tokens(s, 4, false);
    assert Step(s, 2, false) == Scan([Char('C')], 3, false);
  }

  lemma ReadsR1(s: string)
    requires s == "R1C1"
    ensures Step(s, 0, false) == Scan(Chars(s[0..2]), 2, false)
  {
    assert LettersEnd(s, 0, 3) == 1 && DigitsEnd(s, 1) == 2;
  }

  lemma ReadsLookalike()
    ensures Formula("R1C1") == Chars("R1C1")
  {
    var s := "R1C1";
    ReadsR1(s);
    ReadsC1(s);
    assert Tokens(s, 0, false) == Chars(s[0..2]) + ([Char('C')] + [Char('1')]);
  }

  lemma SpelledR1C1(at: Place)
    ensures SpellAll(Chars("R1C1")) == "R1C1" == Spell(Ref(true, 1, true, 1))
    ensures RelativeTo(Chars("R1C1"), at) == Chars("R1C1")
    ensures SpellAll(RelativeTo([Ref(true, 1, true, 1)], at)) == "R1C1"
  {
    assert Decimal(1) == "1";
    SpellText("R1C1", at.col, at.row);
    SpellOne(Ref(true, 1, true, 1), at.col, at.row);
    assert RelativeTo(Chars("R1C1"), at) == Chars("R1C1");
  }

  lemma MisleadingR1C1(ts: seq<Token>, at: Place)
    requires ts == Chars("R1C1") && SpellAll(ts) == "R1C1" == Spell(Ref(true, 1, true, 1))
    ensures Misleads(ts, Free, at)
  {
    assert LooksLike(SpellAll(ts), Free, Ref(true, 1, true, 1), at);
  }

  /** The name R1C1 has the pattern of $A$1 in every cell and is no copy of it. */
  lemma LookalikeIsNotACopy(at: Place)
    ensures PatternAt("R1C1", at) == PatternAt("$A$1", at)
    ensures !CopyOf("$A$1", at, "R1C1", at) && !Plain("R1C1", at, at)
  {
    ReadsAbsolute();
    ReadsLookalike();
    SpelledR1C1(at);
    MisleadingR1C1(RelativeTo(Chars("R1C1"), at), at);
  }

  // ---- names that merely contain one ----

  /** Every R of the text stands inside a name. */
  predicate NoFreeR(s: string) {
    forall i :: 0 <= i < |s| && s[i] == 'R' ==> Named(s, i)
  }

  lemma OnlyRMisleads(ts: seq<Token>, before: Before, at: Place)
    requires ts != [] && ts[0].Char? && (ts[0].c == 'R' ==> before == Name)
    ensures !Misleads(ts, before, at)
  {
    SpellFirst(ts);
    forall x
      ensures !LooksLike(SpellAll(ts), before, x, at)
    {
      if LooksLike(SpellAll(ts), before, x, at) {
        var w := SpellShape(x);
      }
    }
  }

  lemma {:induction false} NamesUnmistaken(s: string, i: nat, before: Before, inString: bool, here: Place, there: Place,
                                           tokens: seq<Token>, ts: seq<Token>)
    requires i <= |s| && NoFreeR(s) && (before == Name <==> Named(s, i))
    requires tokens == Read(s, i, before, inString) && ts == RelativeTo(tokens, here)
    ensures Unmistaken(ts, before, inString, there)
    decreases |s| - i
  {
    if tokens != [] {
      assert ts[1..] == RelativeTo(tokens[1..], here);
      if tokens[0].Char? {
        ReadCharHead(s, i, before, inString, tokens);
        OnlyRMisleads(ts, before, there);
        NamesUnmistaken(s, i + 1, Next(before, s[i]), NextQuote(s[i], inString), here, there, tokens[1..], ts[1..]);
      } else {
        assert tokens[1..] == Read(s, MatchRef(s, i).end, Name, false);
        NamesUnmistaken(s, MatchRef(s, i).end, Name, false, here, there, tokens[1..], ts[1..]);
      }
    }
  }

  /** A formula whose every R stands inside a name, as in YEAR2024, has no look-alike. */
  lemma NamesAreNoLookalikes(f: string, here: Place, there: Place)
    requires NoFreeR(f)
    ensures Plain(f, here, there)
  {
    FormulaIsRead(f);
    NamesUnmistaken(f, 0, Free, false, here, there, Formula(f), RelativeTo(Formula(f), here));
  }
}
