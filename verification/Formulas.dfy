/** The formula syntax tree and the two walks over it the plan compiler relies on. */
module Formulas {

  datatype Node =
    | NumberLit(val: real)
    | StringLit(text: string)
    | BoolLit(truth: bool)
    | Ident(name: string)
    | DimProperty(dim: string, property: string)
    | UnaryExpr(op: string, expr: Node)
    | BinaryExpr(op: string, left: Node, right: Node)
    | CallExpr(call: string, args: seq<Node>)

  /** A formula parameter: left out (or blank), refused by the parser, or a syntax tree. */
  datatype FormulaText = Blank | Unparsable(text: string) | Parsed(node: Node)

  const ZERO := Parsed(NumberLit(0.0))

  /** Argument 3 of the time functions is a bare keyword, not a reference. */
  predicate IsKeywordArg(call: string, i: nat) {
    call in {"LAG", "LEAD", "MOVINGSUM", "TIMESUM"} && i == 3
  }

  /** Every name a formula refers to, left to right. */
  function Refs(n: Node): seq<string>
    decreases n
  {
    match n
    case Ident(name) => [name]
    case UnaryExpr(_, e) => Refs(e)
    case BinaryExpr(_, l, r) => Refs(l) + Refs(r)
    case CallExpr(_, args) => ArgRefs(n, |args|)
    case _ => []
  }

  function ArgRefs(n: Node, k: nat): seq<string>
    requires n.CallExpr? && k <= |n.args|
    decreases n, k
  {
    if k == 0 then []
    else ArgRefs(n, k - 1) + if IsKeywordArg(n.call, k - 1) then [] else Refs(n.args[k - 1])
  }

  function TextRefs(f: FormulaText): seq<string> {
    match f
    case Parsed(n) => Refs(n)
    case _ => []
  }

  /** A constant expression, built from literals with unary and binary operators. */
  predicate LiteralOnly(n: Node) {
    match n
    case NumberLit(_) => true
    case StringLit(_) => true
    case BoolLit(_) => true
    case UnaryExpr(_, e) => LiteralOnly(e)
    case BinaryExpr(_, l, r) => LiteralOnly(l) && LiteralOnly(r)
    case _ => false
  }

  /** A formula that names something is never taken for a constant. */
  lemma {:induction false} LiteralOnlyNamesNothing(n: Node)
    requires LiteralOnly(n)
    ensures Refs(n) == []
  {
    match n
    case UnaryExpr(_, e) => LiteralOnlyNamesNothing(e);
    case BinaryExpr(_, l, r) => LiteralOnlyNamesNothing(l); LiteralOnlyNamesNothing(r);
    case _ =>
  }

  // ---- parts of a formula, by the path that leads to them ----

  function Children(n: Node): (cs: seq<Node>)
    ensures forall i :: 0 <= i < |cs| ==> cs[i] < n
  {
    match n
    case UnaryExpr(_, e) => [e]
    case BinaryExpr(_, l, r) => [l, r]
    case CallExpr(_, args) => args
    case _ => []
  }

  /** m stands in n where the path leads: child by child, by their numbers. */
  predicate Stands(n: Node, path: seq<nat>, m: Node)
    decreases n
  {
    if path == [] then n == m
    else path[0] < |Children(n)| && Stands(Children(n)[path[0]], path[1..], m)
  }

  /** The path does not lead into a keyword position of a time function. */
  predicate AvoidsKeywords(n: Node, path: seq<nat>)
    decreases n
  {
    path != [] ==>
      && !(n.CallExpr? && (n.call == "LAG" || n.call == "LEAD" || n.call == "MOVINGSUM" || n.call == "TIMESUM") && path[0] == 3)
      && (path[0] < |Children(n)| ==> AvoidsKeywords(Children(n)[path[0]], path[1..]))
  }

  /** The name is written somewhere in the formula, outside keyword positions. */
  ghost predicate RefersTo(n: Node, x: string) {
    exists path :: Stands(n, path, Ident(x)) && AvoidsKeywords(n, path)
  }

  lemma RefersToSelf(x: string)
    ensures RefersTo(Ident(x), x)
  {
    assert Stands(Ident(x), [], Ident(x)) && AvoidsKeywords(Ident(x), []);
  }

  lemma RefersThroughChild(n: Node, i: nat, x: string)
    requires i < |Children(n)| && RefersTo(Children(n)[i], x) && !(n.CallExpr? && IsKeywordArg(n.call, i))
    ensures RefersTo(n, x)
  {
    var path :| Stands(Children(n)[i], path, Ident(x)) && AvoidsKeywords(Children(n)[i], path);
    var longer := [i] + path;
    assert longer[1..] == path;
    assert Stands(n, longer, Ident(x)) && AvoidsKeywords(n, longer);
  }

  lemma ChildRefersTo(n: Node, x: string) returns (i: nat)
    requires RefersTo(n, x) && n != Ident(x)
    ensures i < |Children(n)| && RefersTo(Children(n)[i], x) && !(n.CallExpr? && IsKeywordArg(n.call, i))
  {
    var path :| Stands(n, path, Ident(x)) && AvoidsKeywords(n, path);
    i := path[0];
    assert Stands(Children(n)[i], path[1..], Ident(x)) && AvoidsKeywords(Children(n)[i], path[1..]);
  }

  /** Child i of n is no keyword, and x is collected from it. */
  predicate ChildNames(n: Node, i: int, x: string) {
    0 <= i < |Children(n)| && !(n.CallExpr? && IsKeywordArg(n.call, i)) && x in Refs(Children(n)[i])
  }

  lemma {:induction false} ArgRefsAre(n: Node, k: nat, x: string)
    requires n.CallExpr? && k <= |n.args|
    ensures x in ArgRefs(n, k) <==> exists i :: i < k && ChildNames(n, i, x)
    decreases k
  {
    if k > 0 {
      ArgRefsAre(n, k - 1, x);
      assert x in ArgRefs(n, k) <==> x in ArgRefs(n, k - 1) || ChildNames(n, k - 1, x);
    }
  }

  /** The names collected from a formula are exactly those written in it outside keyword positions. */
  lemma {:induction false} RefsAreIdents(n: Node, x: string)
    ensures x in Refs(n) <==> RefersTo(n, x)
    decreases n
  {
    if n == Ident(x) { RefersToSelf(x); }
    forall i: nat | i < |Children(n)|
      ensures x in Refs(Children(n)[i]) <==> RefersTo(Children(n)[i], x)
    {
      RefsAreIdents(Children(n)[i], x);
    }
    RefsOfChildren(n, x);
    if RefersTo(n, x) && n != Ident(x) {
      var i := ChildRefersTo(n, x);
      assert ChildNames(n, i, x);
    }
    if x in Refs(n) && n != Ident(x) {
      var i :| ChildNames(n, i, x);
      RefersThroughChild(n, i, x);
    }
  }

  lemma RefsOfChildren(n: Node, x: string)
    ensures n != Ident(x) ==>
      (x in Refs(n) <==> exists i :: ChildNames(n, i, x))
  {
    match n
    case UnaryExpr(_, e) => assert x in Refs(n) <==> ChildNames(n, 0, x);
    case BinaryExpr(_, l, r) => assert x in Refs(n) <==> ChildNames(n, 0, x) || ChildNames(n, 1, x);
    case CallExpr(_, args) => ArgRefsAre(n, |args|, x);
    case _ =>
  }

  /** A name, a property or a call: what a constant has none of. */
  ghost predicate Reads(n: Node) {
    exists path, m :: Stands(n, path, m) && (m.Ident? || m.DimProperty? || m.CallExpr?)
  }

  lemma ReadsThroughChild(n: Node, i: nat)
    requires i < |Children(n)| && Reads(Children(n)[i])
    ensures Reads(n)
  {
    var path, m :| Stands(Children(n)[i], path, m) && (m.Ident? || m.DimProperty? || m.CallExpr?);
    assert ([i] + path)[1..] == path;
    assert Stands(n, [i] + path, m);
  }

  lemma ReadsBelow(n: Node) returns (i: nat)
    requires Reads(n) && LiteralOnly(n)
    ensures i < |Children(n)| && Reads(Children(n)[i]) && LiteralOnly(Children(n)[i])
  {
    var path, m :| Stands(n, path, m) && (m.Ident? || m.DimProperty? || m.CallExpr?);
    i := path[0];
    assert Stands(Children(n)[i], path[1..], m);
  }

  /** A formula is taken for a constant exactly when no name, property or call is written in it. */
  lemma {:induction false} LiteralOnlyIffReadsNothing(n: Node)
    ensures LiteralOnly(n) <==> !Reads(n)
    decreases n
  {
    forall i: nat | i < |Children(n)|
      ensures LiteralOnly(Children(n)[i]) <==> !Reads(Children(n)[i])
    {
      LiteralOnlyIffReadsNothing(Children(n)[i]);
    }
    if n.Ident? || n.DimProperty? || n.CallExpr? { assert Stands(n, [], n); }
    if n.UnaryExpr? && !LiteralOnly(n) {
      assert !LiteralOnly(Children(n)[0]);
      ReadsThroughChild(n, 0);
    }
    if n.BinaryExpr? && !LiteralOnly(n) {
      assert !LiteralOnly(Children(n)[0]) || !LiteralOnly(Children(n)[1]);
      ReadsThroughChild(n, if LiteralOnly(Children(n)[0]) then 1 else 0);
    }
    if Reads(n) && LiteralOnly(n) {
      var i := ReadsBelow(n);
    }
  }
}
