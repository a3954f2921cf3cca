/** The percent-unit checker. A percentage metric holds 6 where the fraction is 0.06, so a product with
    one as a factor has to be divided by 100 to be right. */
module PercentFactor {
  import opened Basics
  import opened Formulas
  import opened Text

  predicate IsChain(n: Node) {
    n.BinaryExpr? && (n.op == "*" || n.op == "/")
  }

  predicate IsPercent(percents: set<string>, n: Node) {
    n.Ident? && Lower(n.name) in percents
  }

  function Sign(num: bool): int {
    if num then 1 else -1
  }

  /** The power of 100 the checker counts in one chain of × and ÷; num: in the numerator. */
  function ChainPower(percents: set<string>, n: Node, num: bool): int {
    if IsChain(n) then
      ChainPower(percents, n.left, num) + ChainPower(percents, n.right, if n.op == "*" then num else !num)
    else if n == NumberLit(100.0) || IsPercent(percents, n) then Sign(num)
    else if n == NumberLit(0.01) then -Sign(num)
    else 0
  }

  /** The percentage metrics among the chain's numerator factors. */
  function ChainPercents(percents: set<string>, n: Node, num: bool): (names: seq<string>)
    ensures forall i :: 0 <= i < |names| ==> Lower(names[i]) in percents
  {
    if IsChain(n) then
      ChainPercents(percents, n.left, num) + ChainPercents(percents, n.right, if n.op == "*" then num else !num)
    else if num && IsPercent(percents, n) then [n.name]
    else []
  }

  /** The chain's factors that are neither numbers nor names: what lies beyond it. */
  function ChainOthers(n: Node): (others: seq<Node>)
    ensures forall i :: 0 <= i < |others| ==> others[i] == n || others[i] < n
    ensures IsChain(n) ==> forall i :: 0 <= i < |others| ==> others[i] < n
  {
    if IsChain(n) then ChainOthers(n.left) + ChainOthers(n.right)
    else if n.NumberLit? || n.Ident? then []
    else [n]
  }

  /** A chain that multiplies a percentage and holds more factors of 100 than its result should. */
  predicate Misused(percents: set<string>, want: int, n: Node) {
    ChainPercents(percents, n, true) != [] && ChainPower(percents, n, true) > want
  }

  // ---- the checker as it runs ----

  class ChainTally {
    var pct: seq<string>
    var power: int
    var others: seq<Node>

    constructor ()
      ensures pct == [] && power == 0 && others == []
    {
      pct, power, others := [], 0, [];
    }

    /** Adds one chain to the tally. */
    method Count(percents: set<string>, n: Node, num: bool)
      modifies this
      ensures pct == old(pct) + ChainPercents(percents, n, num)
      ensures power == old(power) + ChainPower(percents, n, num)
      ensures others == old(others) + ChainOthers(n)
      decreases n
    {
      var sign := if num then 1 else -1;
      match n
      case BinaryExpr(op, left, right) =>
        if op == "*" {
          Count(percents, left, num);
          Count(percents, right, num);
        } else if op == "/" {
          Count(percents, left, num);
          Count(percents, right, !num);
        } else {
          others := others + [n];
        }
      case NumberLit(val) =>
        if val == 100.0 {
          power := power + sign;
        } else if val == 0.01 {
          power := power - sign;
        }
      case Ident(name) =>
        if Lower(name) in percents {
          power := power + sign;
          if num {
            pct := pct + [name];
          }
        }
      case _ =>
        others := others + [n];
    }
  }

  /** What the checker reports for a tree: "" or a metric. */
  function Report(percents: set<string>, want: int, n: Node): string
    decreases n
  {
    if IsChain(n) then
      if Misused(percents, want, n) then ChainPercents(percents, n, true)[0]
      else FirstReport(percents, want, n, ChainOthers(n))
    else match n
      case BinaryExpr(_, left, right) => FirstReport(percents, want, n, [left, right])
      case UnaryExpr(_, e) => Report(percents, want, e)
      case CallExpr(_, args) => FirstReport(percents, want, n, args)
      case _ => ""
  }

  /** The first report among parts of n. */
  function FirstReport(percents: set<string>, want: int, n: Node, parts: seq<Node>): string
    requires forall i :: 0 <= i < |parts| ==> parts[i] < n
    decreases n, |parts|
  {
    if parts == [] then ""
    else
      var s := Report(percents, want, parts[0]);
      if s != "" then s else FirstReport(percents, want, n, parts[1..])
  }

  lemma FirstOfTwo(percents: set<string>, want: int, n: Node, a: Node, b: Node)
    requires a < n && b < n
    ensures FirstReport(percents, want, n, [a, b]) ==
      if Report(percents, want, a) != "" then Report(percents, want, a) else Report(percents, want, b)
  {
    assert [a, b][1..] == [b] && [b][1..] == [];
    assert FirstReport(percents, want, n, [b]) == Report(percents, want, b);
  }

  method Walk(percents: set<string>, want: int, n: Node) returns (s: string)
    ensures s == Report(percents, want, n)
    decreases n
  {
    if IsChain(n) {
      var tally := new ChainTally();
      tally.Count(percents, n, true);
      if tally.pct != [] && tally.power > want {
        return tally.pct[0];
      }
      assert tally.pct == ChainPercents(percents, n, true) && tally.others == ChainOthers(n);
      s := WalkParts(percents, want, n, tally.others);
      return;
    }
    match n
    case BinaryExpr(_, left, right) =>
      s := Walk(percents, want, left);
      if s == "" {
        s := Walk(percents, want, right);
      }
      FirstOfTwo(percents, want, n, left, right);
    case UnaryExpr(_, e) =>
      s := Walk(percents, want, e);
    case CallExpr(_, args) =>
      s := WalkParts(percents, want, n, args);
    case _ =>
      s := "";
  }

  method WalkParts(percents: set<string>, want: int, n: Node, parts: seq<Node>) returns (s: string)
    requires forall i :: 0 <= i < |parts| ==> parts[i] < n
    ensures s == FirstReport(percents, want, n, parts)
    decreases n, |parts|
  {
    s := "";
    for i := 0 to |parts|
      invariant s == ""
      invariant FirstReport(percents, want, n, parts) == FirstReport(percents, want, n, parts[i..])
    {
      s := Walk(percents, want, parts[i]);
      if s != "" {
        return s;
      }
      assert parts[i..][1..] == parts[i + 1..];
    }
  }

  /** The checker on a formula parameter; one the parser refuses has nothing to report. */
  method PercentFactorMisuse(formula: FormulaText, percents: set<string>, resultIsPercent: bool) returns (s: string)
    ensures s == if formula.Parsed? then Report(percents, if resultIsPercent then 1 else 0, formula.node) else ""
    ensures "" !in percents && formula.Parsed? ==>
      (s != "" <==> MisusedAnywhere(percents, if resultIsPercent then 1 else 0, formula.node))
  {
    if "" !in percents && formula.Parsed? {
      ReportedIffMisusedAnywhere(percents, if resultIsPercent then 1 else 0, formula.node);
    }
    if !formula.Parsed? {
      return "";
    }
    s := Walk(percents, if resultIsPercent then 1 else 0, formula.node);
  }

  // ---- completeness: every maximal chain is looked at ----

  /** All maximal ×/÷ chains of a tree, outermost first, left to right; inside: the parent is itself
      part of a chain. */
  function MaximalChains(n: Node, inside: bool): seq<Node>
    decreases n
  {
    if IsChain(n) then
      (if inside then [] else [n]) + (MaximalChains(n.left, true) + MaximalChains(n.right, true))
    else match n
      case BinaryExpr(_, left, right) => MaximalChains(left, false) + MaximalChains(right, false)
      case UnaryExpr(_, e) => MaximalChains(e, false)
      case CallExpr(_, args) => ChainsOfParts(n, args)
      case _ => []
  }

  function ChainsOfParts(n: Node, parts: seq<Node>): seq<Node>
    requires forall i :: 0 <= i < |parts| ==> parts[i] < n
    decreases n, |parts|
  {
    if parts == [] then [] else MaximalChains(parts[0], false) + ChainsOfParts(n, parts[1..])
  }

  // ---- the chains, told from where they stand ----

  /** The node where the path leads multiplies or divides, and is no operand of one that does. */
  ghost predicate MaximalAt(n: Node, path: seq<nat>, c: Node) {
    && Stands(n, path, c) && c.BinaryExpr? && (c.op == "*" || c.op == "/")
    && forall p :: path != [] && Stands(n, path[..|path| - 1], p) ==> !(p.BinaryExpr? && (p.op == "*" || p.op == "/"))
  }

  /** As MaximalAt, for a part that stands inside a chain or not. */
  ghost predicate MaximalIn(n: Node, inside: bool, path: seq<nat>, c: Node) {
    MaximalAt(n, path, c) && (path == [] ==> !inside)
  }

  lemma {:induction false} StandsUnique(n: Node, path: seq<nat>, a: Node, b: Node)
    requires Stands(n, path, a) && Stands(n, path, b)
    ensures a == b
    decreases n
  {
    if path != [] { StandsUnique(Children(n)[path[0]], path[1..], a, b); }
  }

  lemma MaximalThroughChild(n: Node, i: nat, path: seq<nat>, c: Node)
    requires i < |Children(n)|
    ensures MaximalAt(n, [i] + path, c) <==> MaximalIn(Children(n)[i], IsChain(n), path, c)
  {
    var longer := [i] + path;
    assert longer[1..] == path;
    if path == [] {
      assert longer[..0] == [];
      assert Stands(n, [], n);
    } else {
      var m := path[..|path| - 1];
      assert longer[..|longer| - 1] == [i] + m && ([i] + m)[1..] == m;
      assert forall p :: Stands(n, [i] + m, p) <==> Stands(Children(n)[i], m, p);
    }
  }

  /** The child's chains are among the node's. */
  lemma {:induction false} PartsHold(n: Node, parts: seq<Node>, c: Node)
    requires forall i :: 0 <= i < |parts| ==> parts[i] < n
    ensures c in ChainsOfParts(n, parts) <==> exists i :: 0 <= i < |parts| && c in MaximalChains(parts[i], false)
    decreases |parts|
  {
    if parts != [] {
      PartsHold(n, parts[1..], c);
      var rest := parts[1..];
      assert forall i :: 0 <= i < |rest| ==> rest[i] == parts[i + 1];
      if c in ChainsOfParts(n, rest) {
        var i :| 0 <= i < |rest| && c in MaximalChains(rest[i], false);
        assert c in MaximalChains(parts[i + 1], false);
      }
      if i :| 0 <= i < |parts| && c in MaximalChains(parts[i], false) && i > 0 {
        assert c in MaximalChains(rest[i - 1], false);
      }
    }
  }

  /** Child i holds the chain c. */
  predicate ChildHolds(n: Node, i: int, c: Node) {
    0 <= i < |Children(n)| && c in MaximalChains(Children(n)[i], IsChain(n))
  }

  lemma ChildrenHold(n: Node, inside: bool, c: Node)
    ensures c in MaximalChains(n, inside) <==> (IsChain(n) && !inside && c == n) || exists i :: ChildHolds(n, i, c)
  {
    match n
    case BinaryExpr(_, l, r) =>
      assert c in MaximalChains(n, inside) <==> (IsChain(n) && !inside && c == n) || ChildHolds(n, 0, c) || ChildHolds(n, 1, c);
    case UnaryExpr(_, e) => assert c in MaximalChains(n, inside) <==> ChildHolds(n, 0, c);
    case CallExpr(_, args) =>
      PartsHold(n, args, c);
      assert forall i :: 0 <= i < |args| ==> (ChildHolds(n, i, c) <==> c in MaximalChains(args[i], false));
    case _ =>
  }

  lemma {:induction false} MaximalChainsIn(n: Node, inside: bool, c: Node)
    ensures c in MaximalChains(n, inside) <==> exists path :: MaximalIn(n, inside, path, c)
    decreases n
  {
    ChildrenHold(n, inside, c);
    if c in MaximalChains(n, inside) {
      if IsChain(n) && !inside && c == n {
        assert MaximalIn(n, inside, [], c);
      } else {
        var i :| ChildHolds(n, i, c);
        MaximalChainsIn(Children(n)[i], IsChain(n), c);
        var path :| MaximalIn(Children(n)[i], IsChain(n), path, c);
        MaximalThroughChild(n, i, path, c);
        assert MaximalIn(n, inside, [i] + path, c);
      }
    }
    if path :| MaximalIn(n, inside, path, c) {
      if path != [] {
        var i := path[0];
        assert path == [i] + path[1..] && i < |Children(n)|;
        MaximalThroughChild(n, i, path[1..], c);
        MaximalChainsIn(Children(n)[i], IsChain(n), c);
        assert ChildHolds(n, i, c);
      }
    }
  }

  /** The maximal chains are exactly the parts that multiply or divide and are no operand of a part that
      does. */
  lemma MaximalChainsAre(n: Node, c: Node)
    ensures c in MaximalChains(n, false) <==> exists path :: MaximalAt(n, path, c)
  {
    MaximalChainsIn(n, false, c);
    if path :| MaximalAt(n, path, c) { assert MaximalIn(n, false, path, c); }
  }

  /** The path leads through products and quotients only, to the numerator; `num` says whether it starts
      there. */
  predicate InNumerator(n: Node, path: seq<nat>, num: bool)
    decreases n
  {
    || (path == [] && num)
    || (path != [] && n.BinaryExpr? && path[0] == 0 && (n.op == "*" || n.op == "/") && InNumerator(n.left, path[1..], num))
    || (path != [] && n.BinaryExpr? && path[0] == 1 && n.op == "*" && InNumerator(n.right, path[1..], num))
    || (path != [] && n.BinaryExpr? && path[0] == 1 && n.op == "/" && InNumerator(n.right, path[1..], !num))
  }

  /** A percentage of that name is a factor of the chain's numerator. */
  ghost predicate MultipliesBy(percents: set<string>, n: Node, num: bool, x: string) {
    Lower(x) in percents && exists path :: Stands(n, path, Ident(x)) && InNumerator(n, path, num)
  }

  lemma MultipliesThroughChild(percents: set<string>, n: Node, num: bool, x: string)
    requires IsChain(n)
    ensures MultipliesBy(percents, n, num, x) <==>
      MultipliesBy(percents, n.left, num, x) || MultipliesBy(percents, n.right, if n.op == "*" then num else !num, x)
  {
    var other := if n.op == "*" then num else !num;
    if path :| Stands(n, path, Ident(x)) && InNumerator(n, path, num) {
      if path[0] == 0 {
        assert Stands(n.left, path[1..], Ident(x)) && InNumerator(n.left, path[1..], num);
      } else {
        assert Stands(n.right, path[1..], Ident(x)) && InNumerator(n.right, path[1..], other);
      }
    }
    if path :| Stands(n.left, path, Ident(x)) && InNumerator(n.left, path, num) {
      assert ([0] + path)[1..] == path;
      assert Stands(n, [0] + path, Ident(x)) && InNumerator(n, [0] + path, num);
    }
    if path :| Stands(n.right, path, Ident(x)) && InNumerator(n.right, path, other) {
      assert ([1] + path)[1..] == path;
      assert Stands(n, [1] + path, Ident(x)) && InNumerator(n, [1] + path, num);
    }
  }

  /** The percentages listed for a chain are exactly the percentage factors of its numerator. */
  lemma {:induction false} ChainPercentsAre(percents: set<string>, n: Node, num: bool, x: string)
    ensures x in ChainPercents(percents, n, num) <==> MultipliesBy(percents, n, num, x)
  {
    if IsChain(n) {
      ChainPercentsAre(percents, n.left, num, x);
      ChainPercentsAre(percents, n.right, if n.op == "*" then num else !num, x);
      MultipliesThroughChild(percents, n, num, x);
    } else {
      if n == Ident(x) { assert Stands(n, [], Ident(x)); }
    }
  }

  /** The first misused chain of a list. */
  function FirstMisused(percents: set<string>, want: int, chains: seq<Node>): Option<Node> {
    if chains == [] then None
    else if Misused(percents, want, chains[0]) then Some(chains[0])
    else FirstMisused(percents, want, chains[1..])
  }

  lemma {:induction false} FirstMisusedNone(percents: set<string>, want: int, chains: seq<Node>)
    ensures FirstMisused(percents, want, chains).None? <==>
      forall i :: 0 <= i < |chains| ==> !Misused(percents, want, chains[i])
  {
    if chains != [] {
      FirstMisusedNone(percents, want, chains[1..]);
    }
  }

  lemma {:induction false} FirstMisusedConcat(percents: set<string>, want: int, a: seq<Node>, b: seq<Node>)
    ensures FirstMisused(percents, want, a + b) ==
      if FirstMisused(percents, want, a).Some? then FirstMisused(percents, want, a) else FirstMisused(percents, want, b)
  {
    if a == [] {
      assert a + b == b;
    } else {
      FirstMisusedConcat(percents, want, a[1..], b);
      assert (a + b)[1..] == a[1..] + b;
    }
  }

  lemma ChainsOfCons(n: Node, p: Node, rest: seq<Node>)
    requires p < n && forall i :: 0 <= i < |rest| ==> rest[i] < n
    ensures ChainsOfParts(n, [p] + rest) == MaximalChains(p, false) + ChainsOfParts(n, rest)
  {
    assert ([p] + rest)[1..] == rest;
  }

  lemma {:induction false} ChainsOfPartsConcat(n: Node, a: seq<Node>, b: seq<Node>)
    requires forall i :: 0 <= i < |a| ==> a[i] < n
    requires forall i :: 0 <= i < |b| ==> b[i] < n
    ensures ChainsOfParts(n, a + b) == ChainsOfParts(n, a) + ChainsOfParts(n, b)
  {
    if a == [] {
      assert a + b == b;
    } else {
      ChainsOfPartsConcat(n, a[1..], b);
      assert a + b == [a[0]] + (a[1..] + b);
      ChainsOfCons(n, a[0], a[1..] + b);
      Regroup(MaximalChains(a[0], false), ChainsOfParts(n, a[1..]), ChainsOfParts(n, b));
    }
  }

  lemma {:induction false} OthersHoldTheChains(root: Node, n: Node)
    requires n < root
    ensures forall i :: 0 <= i < |ChainOthers(n)| ==> ChainOthers(n)[i] < root
    ensures MaximalChains(n, true) == ChainsOfParts(root, ChainOthers(n))
    decreases n
  {
    if IsChain(n) {
      OthersHoldTheChains(root, n.left);
      OthersHoldTheChains(root, n.right);
      ChainsOfPartsConcat(root, ChainOthers(n.left), ChainOthers(n.right));
    } else if !n.NumberLit? && !n.Ident? {
      assert ChainOthers(n)[1..] == [];
      assert ChainsOfParts(root, [n]) == MaximalChains(n, false) + [];
    }
  }

  /** Beyond a chain's own factors lie exactly its nested chains. */
  lemma ChainsBeyond(n: Node)
    requires IsChain(n)
    ensures MaximalChains(n, false) == [n] + ChainsOfParts(n, ChainOthers(n))
  {
    OthersHoldTheChains(n, n.left);
    OthersHoldTheChains(n, n.right);
    ChainsOfPartsConcat(n, ChainOthers(n.left), ChainOthers(n.right));
  }

  /** The misused chains the walk stops at: those in no other misused chain. */
  function Outermost(percents: set<string>, want: int, n: Node): seq<Node>
    decreases n
  {
    if IsChain(n) then
      if Misused(percents, want, n) then [n] else OutermostOf(percents, want, n, ChainOthers(n))
    else match n
      case BinaryExpr(_, left, right) => Outermost(percents, want, left) + Outermost(percents, want, right)
      case UnaryExpr(_, e) => Outermost(percents, want, e)
      case CallExpr(_, args) => OutermostOf(percents, want, n, args)
      case _ => []
  }

  function OutermostOf(percents: set<string>, want: int, n: Node, parts: seq<Node>): seq<Node>
    requires forall i :: 0 <= i < |parts| ==> parts[i] < n
    decreases n, |parts|
  {
    if parts == [] then [] else Outermost(percents, want, parts[0]) + OutermostOf(percents, want, n, parts[1..])
  }

  /** The name reported for a chain. */
  function NameOf(percents: set<string>, n: Node): string {
    var names := ChainPercents(percents, n, true);
    if names == [] then "" else names[0]
  }

  /** The first name there is among those of the chains. */
  function FirstName(percents: set<string>, chains: seq<Node>): string {
    if chains == [] then ""
    else if NameOf(percents, chains[0]) != "" then NameOf(percents, chains[0])
    else FirstName(percents, chains[1..])
  }

  lemma {:induction false} FirstNameConcat(percents: set<string>, a: seq<Node>, b: seq<Node>)
    ensures FirstName(percents, a + b) == if FirstName(percents, a) != "" then FirstName(percents, a) else FirstName(percents, b)
  {
    if a == [] {
      assert a + b == b;
    } else {
      FirstNameConcat(percents, a[1..], b);
      assert (a + b)[1..] == a[1..] + b;
    }
  }

  lemma {:induction false} FirstNameEmpty(percents: set<string>, chains: seq<Node>)
    ensures FirstName(percents, chains) == "" <==> forall i :: 0 <= i < |chains| ==> NameOf(percents, chains[i]) == ""
  {
    if chains != [] { FirstNameEmpty(percents, chains[1..]); }
  }

  lemma FirstNameOne(percents: set<string>, n: Node)
    ensures FirstName(percents, [n]) == NameOf(percents, n)
  {
    assert [n][1..] == [];
  }

  /** The walk reports the first name among the outermost misused chains. */
  lemma {:induction false} ReportIsFirstName(percents: set<string>, want: int, n: Node)
    ensures Report(percents, want, n) == FirstName(percents, Outermost(percents, want, n))
    decreases n
  {
    if IsChain(n) {
      FirstNameOne(percents, n);
      ReportOfParts(percents, want, n, ChainOthers(n));
    } else {
      match n
      case BinaryExpr(_, left, right) =>
        ReportIsFirstName(percents, want, left);
        ReportIsFirstName(percents, want, right);
        FirstNameConcat(percents, Outermost(percents, want, left), Outermost(percents, want, right));
        FirstOfTwo(percents, want, n, left, right);
      case UnaryExpr(_, e) =>
        ReportIsFirstName(percents, want, e);
      case CallExpr(_, args) =>
        ReportOfParts(percents, want, n, args);
      case _ =>
    }
  }

  lemma {:induction false} ReportOfParts(percents: set<string>, want: int, n: Node, parts: seq<Node>)
    requires forall i :: 0 <= i < |parts| ==> parts[i] < n
    ensures FirstReport(percents, want, n, parts) == FirstName(percents, OutermostOf(percents, want, n, parts))
    decreases n, |parts|
  {
    if parts != [] {
      ReportIsFirstName(percents, want, parts[0]);
      ReportOfParts(percents, want, n, parts[1..]);
      FirstNameConcat(percents, Outermost(percents, want, parts[0]), OutermostOf(percents, want, n, parts[1..]));
    }
  }

  function First(chains: seq<Node>): Option<Node> {
    if chains == [] then None else Some(chains[0])
  }

  lemma FirstConcat(a: seq<Node>, b: seq<Node>)
    ensures First(a + b) == if First(a).Some? then First(a) else First(b)
  {
    if a == [] { assert a + b == b; }
  }

  /** The first outermost misused chain is the first misused one of all maximal chains. */
  lemma {:induction false} OutermostFirst(percents: set<string>, want: int, n: Node)
    ensures First(Outermost(percents, want, n)) == FirstMisused(percents, want, MaximalChains(n, false))
    decreases n
  {
    if IsChain(n) {
      ChainsBeyond(n);
      var beyond := ChainsOfParts(n, ChainOthers(n));
      assert ([n] + beyond)[1..] == beyond;
      OutermostFirstOf(percents, want, n, ChainOthers(n));
    } else {
      match n
      case BinaryExpr(_, left, right) =>
        OutermostFirst(percents, want, left);
        OutermostFirst(percents, want, right);
        FirstConcat(Outermost(percents, want, left), Outermost(percents, want, right));
        FirstMisusedConcat(percents, want, MaximalChains(left, false), MaximalChains(right, false));
      case UnaryExpr(_, e) =>
        OutermostFirst(percents, want, e);
      case CallExpr(_, args) =>
        OutermostFirstOf(percents, want, n, args);
      case _ =>
    }
  }

  lemma {:induction false} OutermostFirstOf(percents: set<string>, want: int, n: Node, parts: seq<Node>)
    requires forall i :: 0 <= i < |parts| ==> parts[i] < n
    ensures First(OutermostOf(percents, want, n, parts)) == FirstMisused(percents, want, ChainsOfParts(n, parts))
    decreases n, |parts|
  {
    if parts != [] {
      OutermostFirst(percents, want, parts[0]);
      OutermostFirstOf(percents, want, n, parts[1..]);
      FirstConcat(Outermost(percents, want, parts[0]), OutermostOf(percents, want, n, parts[1..]));
      FirstMisusedConcat(percents, want, MaximalChains(parts[0], false), ChainsOfParts(n, parts[1..]));
    }
  }

  /** The checker reports the first percentage of the first misused maximal chain of the tree, if that
      has a name. */
  lemma ReportIsFirstMisused(percents: set<string>, want: int, n: Node)
    ensures var first := FirstMisused(percents, want, MaximalChains(n, false));
      && (first.None? ==> Report(percents, want, n) == "")
      && (first.Some? && NameOf(percents, first.value) != "" ==> Report(percents, want, n) == NameOf(percents, first.value))
  {
    ReportIsFirstName(percents, want, n);
    OutermostFirst(percents, want, n);
  }

  /** Where the path leads stands a maximal chain that multiplies by a percentage and whose power of 100
      is above the wanted one. */
  ghost predicate MisusedAt(percents: set<string>, want: int, n: Node, path: seq<nat>, c: Node) {
    MaximalAt(n, path, c) && (exists x :: MultipliesBy(percents, c, true, x)) && ChainPower(percents, c, true) > want
  }

  ghost predicate MisusedAnywhere(percents: set<string>, want: int, n: Node) {
    exists path, c :: MisusedAt(percents, want, n, path, c)
  }

  lemma MisusedIs(percents: set<string>, want: int, c: Node)
    ensures Misused(percents, want, c) <==>
      (exists x :: MultipliesBy(percents, c, true, x)) && ChainPower(percents, c, true) > want
  {
    var names := ChainPercents(percents, c, true);
    if names != [] {
      assert names[0] in names;
      ChainPercentsAre(percents, c, true, names[0]);
    }
    forall x | MultipliesBy(percents, c, true, x)
      ensures names != []
    {
      ChainPercentsAre(percents, c, true, x);
    }
  }

  /** With named percentages, something is reported exactly when such a chain stands anywhere in the
      formula. */
  lemma ReportedIffMisusedAnywhere(percents: set<string>, want: int, n: Node)
    requires "" !in percents
    ensures Report(percents, want, n) != "" <==> MisusedAnywhere(percents, want, n)
  {
    var chains := MaximalChains(n, false);
    ReportEmptyIffNoneMisused(percents, want, n);
    if !NoneMisused(percents, want, n) {
      var i :| 0 <= i < |chains| && Misused(percents, want, chains[i]);
      MaximalChainsAre(n, chains[i]);
      MisusedIs(percents, want, chains[i]);
      var path :| MaximalAt(n, path, chains[i]);
      assert MisusedAt(percents, want, n, path, chains[i]);
    }
    if path, c :| MisusedAt(percents, want, n, path, c) {
      MaximalChainsAre(n, c);
      MisusedIs(percents, want, c);
      var i :| 0 <= i < |chains| && chains[i] == c;
    }
  }

  ghost predicate NoneMisused(percents: set<string>, want: int, n: Node) {
    forall i :: 0 <= i < |MaximalChains(n, false)| ==> !Misused(percents, want, MaximalChains(n, false)[i])
  }

  /** Nothing is reported exactly when no outermost misused chain has a name to report; and exactly
      when no maximal chain anywhere is misused, if every percentage metric has a name. */
  lemma ReportEmptyIffNoneMisused(percents: set<string>, want: int, n: Node)
    ensures Report(percents, want, n) == "" <==>
      forall i :: 0 <= i < |Outermost(percents, want, n)| ==> NameOf(percents, Outermost(percents, want, n)[i]) == ""
    ensures Outermost(percents, want, n) == [] <==> NoneMisused(percents, want, n)
    ensures "" !in percents ==> (Report(percents, want, n) == "" <==> NoneMisused(percents, want, n))
  {
    var chains := Outermost(percents, want, n);
    ReportIsFirstName(percents, want, n);
    FirstNameEmpty(percents, chains);
    OutermostFirst(percents, want, n);
    FirstMisusedNone(percents, want, MaximalChains(n, false));
    if "" !in percents && chains != [] {
      FirstIsNamed(percents, want, n);
    }
  }

  lemma FirstIsNamed(percents: set<string>, want: int, n: Node)
    requires "" !in percents && Outermost(percents, want, n) != []
    ensures NameOf(percents, Outermost(percents, want, n)[0]) != ""
  {
    OutermostFirst(percents, want, n);
    var c := Outermost(percents, want, n)[0];
    FirstMisusedIsMisused(percents, want, MaximalChains(n, false));
    assert Lower("") == "";
  }

  lemma {:induction false} FirstMisusedIsMisused(percents: set<string>, want: int, chains: seq<Node>)
    ensures var first := FirstMisused(percents, want, chains); first.Some? ==> Misused(percents, want, first.value)
  {
    if chains != [] { FirstMisusedIsMisused(percents, want, chains[1..]); }
  }

  /** A percentage metric without a name goes unreported however it is used. */
  lemma UnnamedGoesUnreported(x: string)
    requires x != ""
    ensures var n := BinaryExpr("*", Ident(""), Ident(x)); Misused({""}, 0, n) && Report({""}, 0, n) == ""
  {
    assert Lower("") == "" && |Lower(x)| > 0;
  }

  // ---- exactness: what the counted power means ----

  /** The stored value of every factor. */
  type Values = Node -> real

  function Quotient(a: real, b: real): real {
    if b == 0.0 then 0.0 else a / b
  }

  function Combine(op: string, a: real, b: real): real {
    if op == "*" then a * b else Quotient(a, b)
  }

  /** A formula's products and quotients computed on stored values; anything else is a factor. */
  function Value(v: Values, n: Node): real {
    match n
    case BinaryExpr(op, l, r) =>
      if op == "*" then Value(v, l) * Value(v, r)
      else if op == "/" then Quotient(Value(v, l), Value(v, r))
      else v(n)
    case NumberLit(x) => x
    case _ => v(n)
  }

  /** The same with each percentage read as a fraction and each 100 or 0.01 read as 1. */
  function Fraction(percents: set<string>, v: Values, n: Node): real {
    match n
    case BinaryExpr(op, l, r) =>
      if op == "*" then Fraction(percents, v, l) * Fraction(percents, v, r)
      else if op == "/" then Quotient(Fraction(percents, v, l), Fraction(percents, v, r))
      else v(n)
    case NumberLit(x) => if x == 100.0 || x == 0.01 then 1.0 else x
    case Ident(name) => if Lower(name) in percents then v(n) / 100.0 else v(n)
    case _ => v(n)
  }

  /** No product or quotient divides by zero. */
  ghost predicate DivisorsNonzero(v: Values, n: Node) {
    match n
    case BinaryExpr(op, l, r) =>
      op == "*" || op == "/" ==>
        DivisorsNonzero(v, l) && DivisorsNonzero(v, r) && (op == "/" ==> Value(v, r) != 0.0)
    case _ => true
  }

  /** 100^k times x, for any integer k. */
  function Scale(k: int, x: real): real
    decreases if k < 0 then -k else k
  {
    if k == 0 then x else if k > 0 then 100.0 * Scale(k - 1, x) else Scale(k + 1, x) / 100.0
  }

  lemma ScaleNext(k: int, x: real)
    ensures Scale(k + 1, x) == 100.0 * Scale(k, x)
  {
  }

  lemma {:induction false} ScaleAdd(a: int, b: int, x: real)
    ensures Scale(a, Scale(b, x)) == Scale(a + b, x)
    decreases if a < 0 then -a else a
  {
    if a > 0 {
      ScaleAdd(a - 1, b, x);
      ScaleNext(a - 1 + b, x);
    } else if a < 0 {
      ScaleAdd(a + 1, b, x);
      ScaleNext(a + b, x);
    }
  }

  lemma HundredOut(x: real, y: real)
    ensures (100.0 * x) * y == 100.0 * (x * y) && (x / 100.0) * y == (x * y) / 100.0
  {
  }

  lemma {:induction false} ScaleTimes(k: int, x: real, y: real)
    ensures Scale(k, x) * y == Scale(k, x * y)
    decreases if k < 0 then -k else k
  {
    if k > 0 {
      ScaleTimes(k - 1, x, y);
      HundredOut(Scale(k - 1, x), y);
    } else if k < 0 {
      ScaleTimes(k + 1, x, y);
      HundredOut(Scale(k + 1, x), y);
    }
  }

  lemma {:induction false} ScaleZero(k: int, x: real)
    ensures Scale(k, x) == 0.0 <==> x == 0.0
    decreases if k < 0 then -k else k
  {
    if k > 0 { ScaleZero(k - 1, x); } else if k < 0 { ScaleZero(k + 1, x); }
  }

  lemma {:induction false} TimesScale(k: int, x: real, y: real)
    ensures x * Scale(k, y) == Scale(k, x * y)
    decreases if k < 0 then -k else k
  {
    if k > 0 {
      TimesScale(k - 1, x, y);
      HundredOut(Scale(k - 1, y), x);
    } else if k < 0 {
      TimesScale(k + 1, x, y);
      HundredOut(Scale(k + 1, y), x);
    }
  }

  lemma ScaleOfEqual(k: int, x: real, y: real)
    requires x == y
    ensures Scale(k, x) == Scale(k, y)
  {
  }

  lemma ScaledProduct(a: int, b: int, x: real, y: real)
    ensures Scale(a, x) * Scale(b, y) == Scale(a + b, x * y)
  {
    var s := Scale(b, y);
    calc {
      Scale(a, x) * s;
      { ScaleTimes(a, x, s); }
      Scale(a, x * s);
      { TimesScale(b, x, y); ScaleOfEqual(a, x * s, Scale(b, x * y)); }
      Scale(a, Scale(b, x * y));
      { ScaleAdd(a, b, x * y); }
      Scale(a + b, x * y);
    }
  }

  lemma QuotientUnique(n: real, d: real, r: real)
    requires d != 0.0 && r * d == n
    ensures n / d == r
  {
  }

  lemma QuotientTimes(x: real, y: real)
    requires y != 0.0
    ensures (x / y) * y == x
  {
  }

  lemma ScaledQuotient(a: int, b: int, x: real, y: real)
    requires y != 0.0
    ensures Scale(b, y) != 0.0 && Scale(a, x) / Scale(b, y) == Scale(a - b, x / y)
  {
    ScaleZero(b, y);
    var z := x / y;
    QuotientTimes(x, y);
    ScaledProduct(a - b, b, z, y);
    assert z * y == x && a - b + b == a;
    QuotientUnique(Scale(a, x), Scale(b, y), Scale(a - b, z));
  }

  lemma {:induction false} PowerOfDenominator(percents: set<string>, n: Node)
    ensures ChainPower(percents, n, false) == -ChainPower(percents, n, true)
  {
    if IsChain(n) {
      PowerOfDenominator(percents, n.left);
      PowerOfDenominator(percents, n.right);
    }
  }

  /** One × or ÷ of two factors that are exact already. */
  lemma StepIsExact(op: string, a: int, b: int, x: real, y: real)
    requires op == "*" || (op == "/" && Scale(b, y) != 0.0)
    ensures Combine(op, Scale(a, x), Scale(b, y)) == Scale(if op == "*" then a + b else a - b, Combine(op, x, y))
  {
    if op == "*" {
      ScaledProduct(a, b, x, y);
      ScaleOfEqual(a + b, x * y, Combine(op, x, y));
    } else {
      ScaleZero(b, y);
      ScaledQuotient(a, b, x, y);
    }
  }

  lemma ValueCombines(v: Values, n: Node)
    requires IsChain(n)
    ensures Value(v, n) == Combine(n.op, Value(v, n.left), Value(v, n.right))
  {
  }

  lemma FractionCombines(percents: set<string>, v: Values, n: Node)
    requires IsChain(n)
    ensures Fraction(percents, v, n) == Combine(n.op, Fraction(percents, v, n.left), Fraction(percents, v, n.right))
  {
  }

  /** The counted power is exact: on stored values the chain is 100^power times what it is on
      fractions. */
  lemma {:induction false} NumeratorIsExact(percents: set<string>, v: Values, n: Node)
    requires DivisorsNonzero(v, n)
    ensures Value(v, n) == Scale(ChainPower(percents, n, true), Fraction(percents, v, n))
  {
    if IsChain(n) {
      ValueCombines(v, n);
      FractionCombines(percents, v, n);
      NumeratorIsExact(percents, v, n.left);
      NumeratorIsExact(percents, v, n.right);
      PowerOfDenominator(percents, n.right);
      StepIsExact(n.op, ChainPower(percents, n.left, true), ChainPower(percents, n.right, true),
                  Fraction(percents, v, n.left), Fraction(percents, v, n.right));
    } else {
      LeafIsExact(percents, v, n);
    }
  }

  lemma LeafIsExact(percents: set<string>, v: Values, n: Node)
    requires !IsChain(n)
    ensures Value(v, n) == Scale(ChainPower(percents, n, true), Fraction(percents, v, n))
  {
    var f := Fraction(percents, v, n);
    assert Scale(0, f) == f && Scale(1, f) == 100.0 * f && Scale(-1, f) == f / 100.0;
  }

  /** Under both polarities: as a numerator the chain is 100^power times its fraction, and as a
      denominator its reciprocal is 100^power times the fraction's. */
  lemma PowerIsExact(percents: set<string>, v: Values, n: Node)
    requires DivisorsNonzero(v, n)
    ensures Value(v, n) == Scale(ChainPower(percents, n, true), Fraction(percents, v, n))
    ensures Value(v, n) != 0.0 <==> Fraction(percents, v, n) != 0.0
    ensures Value(v, n) != 0.0 ==>
      1.0 / Value(v, n) == Scale(ChainPower(percents, n, false), 1.0 / Fraction(percents, v, n))
  {
    NumeratorIsExact(percents, v, n);
    PowerOfDenominator(percents, n);
    var p, f := ChainPower(percents, n, true), Fraction(percents, v, n);
    ScaleZero(p, f);
    if f != 0.0 {
      ScaledQuotient(0, p, 1.0, f);
    }
  }

  lemma {:induction false} ScaleGrows(a: int, b: int, x: real)
    requires a < b && x >= 0.0
    ensures Scale(b, x) >= 100.0 * Scale(a, x) >= 0.0
    decreases b - a
  {
    ScaleNext(b - 1, x);
    ScaleSign(a, x);
    if a < b - 1 { ScaleGrows(a, b - 1, x); }
  }

  lemma {:induction false} ScaleSign(k: int, x: real)
    requires x >= 0.0
    ensures Scale(k, x) >= 0.0
    decreases if k < 0 then -k else k
  {
    if k > 0 { ScaleSign(k - 1, x); } else if k < 0 { ScaleSign(k + 1, x); }
  }

  function Abs(x: real): real {
    if x < 0.0 then -x else x
  }

  lemma {:induction false} ScaleAbs(k: int, x: real)
    ensures Abs(Scale(k, x)) == Scale(k, Abs(x))
    decreases if k < 0 then -k else k
  {
    if k > 0 { ScaleAbs(k - 1, x); } else if k < 0 { ScaleAbs(k + 1, x); }
  }

  /** A reported chain is, up to sign, at least 100 times what its result should hold: the fraction
      itself, or 100 times it when the result is a percentage. */
  lemma MisuseIsHundredfold(percents: set<string>, want: int, v: Values, n: Node)
    requires Misused(percents, want, n) && DivisorsNonzero(v, n)
    ensures Abs(Value(v, n)) >= 100.0 * Abs(Scale(want, Fraction(percents, v, n)))
  {
    var f, p := Fraction(percents, v, n), ChainPower(percents, n, true);
    NumeratorIsExact(percents, v, n);
    ScaleAbs(p, f);
    ScaleAbs(want, f);
    ScaleGrows(want, p, Abs(f));
  }
}
