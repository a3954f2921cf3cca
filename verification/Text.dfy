/** The little of Go's strings package the model needs, over ASCII letters. */
module Text {

  function LowerChar(c: char): char {
    if 'A' <= c <= 'Z' then ((c as int) + 32) as char else c
  }

  function Lower(s: string): string {
    seq(|s|, i requires 0 <= i < |s| => LowerChar(s[i]))
  }

  predicate IsSpace(c: char) {
    c in {' ', '\t', '\n', '\r', '\U{0B}', '\U{0C}'}
  }

  function TrimLeft(s: string): string {
    if s != "" && IsSpace(s[0]) then TrimLeft(s[1..]) else s
  }

  function TrimRight(s: string): string {
    if s != "" && IsSpace(s[|s| - 1]) then TrimRight(s[..|s| - 1]) else s
  }

  /** How a metric or grid name is compared everywhere: trimmed and lower-cased. */
  function Key(s: string): string {
    Lower(TrimRight(TrimLeft(s)))
  }

  /** The first and last characters of s that are no white space are at i and j - 1; there are none if
      i == j. */
  ghost predicate CoreIs(s: string, i: nat, j: nat) {
    && i <= j <= |s|
    && (forall k :: 0 <= k < i || j <= k < |s| ==> s[k] in {' ', '\t', '\n', '\r', '\U{0B}', '\U{0C}'})
    && (i < j ==> s[i] !in {' ', '\t', '\n', '\r', '\U{0B}', '\U{0C}'} && s[j - 1] !in {' ', '\t', '\n', '\r', '\U{0B}', '\U{0C}'})
  }

  lemma {:induction false} TrimLeftIs(s: string, i: nat, j: nat)
    requires CoreIs(s, i, j) && i < j
    ensures TrimLeft(s) == s[i..]
    decreases i
  {
    if i > 0 {
      var rest := s[1..];
      assert forall k :: 0 <= k < |rest| ==> rest[k] == s[k + 1];
      TrimLeftIs(rest, i - 1, j - 1);
    }
  }

  lemma {:induction false} TrimRightIs(s: string, j: nat)
    requires 0 < j <= |s| && !IsSpace(s[j - 1]) && forall k :: j <= k < |s| ==> IsSpace(s[k])
    ensures TrimRight(s) == s[..j]
    decreases |s|
  {
    if j < |s| {
      var rest := s[..|s| - 1];
      TrimRightIs(rest, j);
      assert rest[..j] == s[..j];
    }
  }

  lemma {:induction false} TrimBlank(s: string)
    requires forall k :: 0 <= k < |s| ==> IsSpace(s[k])
    ensures TrimLeft(s) == ""
  {
    if s != "" { TrimBlank(s[1..]); }
  }

  /** A key is the text between the outer white space, with capital letters made small. */
  lemma KeyIsCore(s: string, i: nat, j: nat)
    requires CoreIs(s, i, j)
    ensures |Key(s)| == j - i
    ensures forall k :: 0 <= k < j - i ==>
      Key(s)[k] == if 'A' <= s[i + k] <= 'Z' then (s[i + k] as int + 32) as char else s[i + k]
  {
    if i < j {
      TrimLeftIs(s, i, j);
      TrimRightIs(s[i..], j - i);
    } else {
      assert forall k :: 0 <= k < |s| ==> IsSpace(s[k]);
      TrimBlank(s);
    }
  }

  function Digit(d: nat): char
    requires d < 10
  {
    ('0' as int + d) as char
  }

  predicate IsDigit(c: char) {
    '0' <= c <= '9'
  }

  /** Decimal digits, as %d prints them. */
  function Decimal(n: nat): (s: string)
    ensures s != ""
  {
    if n < 10 then [Digit(n)] else Decimal(n / 10) + [Digit(n % 10)]
  }

  lemma {:induction false} DecimalDigits(n: nat)
    ensures forall i :: 0 <= i < |Decimal(n)| ==> IsDigit(Decimal(n)[i])
  {
    if n >= 10 { DecimalDigits(n / 10); }
  }

  /** What the digits spell. */
  function Number(s: string): int {
    if s == "" then 0 else 10 * Number(s[..|s| - 1]) + (s[|s| - 1] as int - '0' as int)
  }

  lemma {:induction false} NumberOfDecimal(n: nat)
    ensures Number(Decimal(n)) == n
  {
    if n < 10 {
      assert Decimal(n)[..0] == "";
    } else {
      NumberOfDecimal(n / 10);
      assert Decimal(n)[..|Decimal(n)| - 1] == Decimal(n / 10);
    }
  }

  lemma DecimalInjective(m: nat, n: nat)
    requires Decimal(m) == Decimal(n)
    ensures m == n
  {
    NumberOfDecimal(m);
    NumberOfDecimal(n);
  }
}
