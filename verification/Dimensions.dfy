/** Which dimensions of a model a change of one dimension can be seen through: the breadth-first
    closure over parent and source links. */
module Dimensions {
  import opened Graphs

  /** A row of model.dimension_def; "" stands for no revision, parent or source. */
  datatype DimensionRow = DimensionRow(id: string, revision: string, name: string, parent: string, source: string)

  datatype RelatedDim = RelatedDim(id: string, revision: string, name: string)

  /** The rows' ids are the table's primary key. */
  ghost predicate UniqueIds(rows: seq<DimensionRow>) {
    forall i, j :: 0 <= i < j < |rows| ==> rows[i].id != rows[j].id
  }

  function LinkBetween(id: string, other: string): Graph<string> {
    if other != "" && other != id then {(id, other), (other, id)} else {}
  }

  /** Parent and source links of the first n rows, in both directions. */
  function Links(rows: seq<DimensionRow>, n: nat): Graph<string>
    requires n <= |rows|
  {
    if n == 0 then {}
    else Links(rows, n - 1) + LinkBetween(rows[n - 1].id, rows[n - 1].parent)
         + LinkBetween(rows[n - 1].id, rows[n - 1].source)
  }

  function AllLinks(rows: seq<DimensionRow>): Graph<string> {
    Links(rows, |rows|)
  }

  ghost predicate InModel(rows: seq<DimensionRow>, id: string) {
    exists i :: 0 <= i < |rows| && rows[i].id == id
  }

  ghost predicate IsRow(rows: seq<DimensionRow>, d: RelatedDim) {
    exists i :: 0 <= i < |rows| && d == RelatedDim(rows[i].id, rows[i].revision, rows[i].name)
  }

  /** b is another dimension of the model connected to a. */
  ghost predicate Related(rows: seq<DimensionRow>, a: string, b: string) {
    a != b && InModel(rows, b) && Reaches(AllLinks(rows), a, b)
  }

  // ---- links and relatedness, told from the rows ----

  /** Some row has one of the two as its id and the other as its parent or source. */
  ghost predicate Linked(rows: seq<DimensionRow>, a: string, b: string) {
    a != b && exists i :: 0 <= i < |rows| && RowLinks(rows[i], a, b)
  }

  predicate RowLinks(r: DimensionRow, a: string, b: string) {
    || (r.id == a && b != "" && (r.parent == b || r.source == b))
    || (r.id == b && a != "" && (r.parent == a || r.source == a))
  }

  lemma {:induction false} LinksAre(rows: seq<DimensionRow>, n: nat, a: string, b: string)
    requires n <= |rows|
    ensures (a, b) in Links(rows, n) <==> a != b && exists i :: 0 <= i < n && RowLinks(rows[i], a, b)
  {
    if n > 0 {
      LinksAre(rows, n - 1, a, b);
      var r := rows[n - 1];
      assert (a, b) in LinkBetween(r.id, r.parent) + LinkBetween(r.id, r.source) <==> a != b && RowLinks(r, a, b);
    }
  }

  /** An edge is there exactly between dimensions some row links. */
  lemma AllLinksAre(rows: seq<DimensionRow>, a: string, b: string)
    ensures (a, b) in AllLinks(rows) <==> Linked(rows, a, b)
  {
    LinksAre(rows, |rows|, a, b);
  }

  /** From one dimension to the next each is linked to the one before. */
  ghost predicate Chain(rows: seq<DimensionRow>, p: seq<string>) {
    |p| >= 2 && forall k :: 0 <= k < |p| - 1 ==> LinkedAt(rows, p, k)
  }

  ghost predicate LinkedAt(rows: seq<DimensionRow>, p: seq<string>, k: int)
    requires 0 <= k < |p| - 1
  {
    Linked(rows, p[k], p[k + 1])
  }

  /** b is another dimension of the model, and a chain of links leads there from a. */
  ghost predicate RelatedByLinks(rows: seq<DimensionRow>, a: string, b: string) {
    && a != b && (exists i :: 0 <= i < |rows| && rows[i].id == b)
    && exists p :: Chain(rows, p) && p[0] == a && p[|p| - 1] == b
  }

  lemma PathIsChain(rows: seq<DimensionRow>, p: seq<string>)
    ensures IsPath(AllLinks(rows), p) <==> Chain(rows, p)
  {
    forall k | 0 <= k < |p| - 1
      ensures Along(AllLinks(rows), p, k) <==> LinkedAt(rows, p, k)
    {
      AllLinksAre(rows, p[k], p[k + 1]);
    }
  }

  lemma RelatedIs(rows: seq<DimensionRow>, a: string, b: string)
    ensures Related(rows, a, b) <==> RelatedByLinks(rows, a, b)
  {
    if Related(rows, a, b) {
      var p: seq<string> :| IsPath(AllLinks(rows), p) && p[0] == a && p[|p| - 1] == b;
      PathIsChain(rows, p);
    }
    if RelatedByLinks(rows, a, b) {
      var p: seq<string> :| Chain(rows, p) && p[0] == a && p[|p| - 1] == b;
      PathIsChain(rows, p);
    }
  }

  // ---- the search ----

  type Adjacency = map<string, seq<string>>

  ghost predicate Describes(adj: Adjacency, g: Graph<string>) {
    && (forall a, b :: (a, b) in g ==> a in adj && b in adj[a])
    && (forall a, i :: a in adj && 0 <= i < |adj[a]| ==> (a, adj[a][i]) in g)
  }

  function Neighbours(adj: Adjacency, a: string): seq<string> {
    if a in adj then adj[a] else []
  }

  method AddLink(adj: Adjacency, id: string, other: string, ghost g: Graph<string>) returns (r: Adjacency)
    requires Describes(adj, g)
    ensures Describes(r, g + LinkBetween(id, other))
  {
    r := adj;
    if other != "" && other != id {
      r := r[id := Neighbours(r, id) + [other]];
      assert forall a, b :: (a, b) in g + {(id, other)} ==> a in r && b in r[a] by {
        assert other == r[id][|r[id]| - 1];
      }
      r := r[other := Neighbours(r, other) + [id]];
      assert r[other][|r[other]| - 1] == id;
    }
  }

  ghost predicate TableOf(dims: map<string, RelatedDim>, rows: seq<DimensionRow>, n: nat)
    requires n <= |rows|
  {
    && (forall k :: k in dims ==> exists i :: 0 <= i < n && rows[i].id == k)
    && (forall i :: 0 <= i < n ==>
         rows[i].id in dims && dims[rows[i].id] == RelatedDim(rows[i].id, rows[i].revision, rows[i].name))
  }

  lemma TableNext(dims: map<string, RelatedDim>, rows: seq<DimensionRow>, n: nat)
    requires UniqueIds(rows) && n < |rows| && TableOf(dims, rows, n)
    ensures TableOf(dims[rows[n].id := RelatedDim(rows[n].id, rows[n].revision, rows[n].name)], rows, n + 1)
  {
    assert forall i :: 0 <= i < n ==> rows[i].id != rows[n].id;
  }

  method LoadLinks(rows: seq<DimensionRow>) returns (dims: map<string, RelatedDim>, adj: Adjacency)
    requires UniqueIds(rows)
    ensures TableOf(dims, rows, |rows|) && Describes(adj, AllLinks(rows))
  {
    dims, adj := map[], map[];
    for n := 0 to |rows|
      invariant TableOf(dims, rows, n) && Describes(adj, Links(rows, n))
    {
      var r := rows[n];
      TableNext(dims, rows, n);
      dims := dims[r.id := RelatedDim(r.id, r.revision, r.name)];
      adj := AddLink(adj, r.id, r.parent, Links(rows, n));
      adj := AddLink(adj, r.id, r.source, Links(rows, n) + LinkBetween(r.id, r.parent));
    }
  }

  /** Everything seen is connected to the start. */
  ghost predicate Connected(g: Graph<string>, start: string, seen: set<string>) {
    start in seen && forall x :: x in seen ==> x == start || Reaches(g, start, x)
  }

  /** The neighbours of everything seen and no longer waiting have been seen. */
  ghost predicate Explored(g: Graph<string>, seen: set<string>, queue: seq<string>) {
    forall a, b :: a in seen && (a, b) in g && a !in queue ==> b in seen
  }

  /** The result so far lists, each once, the model's dimensions seen beyond the start. */
  ghost predicate Lists(out: seq<RelatedDim>, dims: map<string, RelatedDim>, start: string, seen: set<string>) {
    && (forall i :: 0 <= i < |out| ==> out[i].id in dims && out[i] == dims[out[i].id])
    && (forall i :: 0 <= i < |out| ==> out[i].id in seen && out[i].id != start)
    && (forall x :: x in seen && x != start && x in dims ==> dims[x] in out)
    && (forall i, j :: 0 <= i < j < |out| ==> out[i].id != out[j].id)
  }

  ghost predicate Searching(g: Graph<string>, dims: map<string, RelatedDim>, start: string, seen: set<string>,
                            queue: seq<string>, out: seq<RelatedDim>) {
    && Connected(g, start, seen) && Explored(g, seen, queue)
    && (forall x :: x in queue ==> x in seen) && Lists(out, dims, start, seen)
  }

  lemma SeenNext(g: Graph<string>, start: string, seen: set<string>, cur: string, next: string)
    requires Connected(g, start, seen) && cur in seen && (cur, next) in g
    ensures Connected(g, start, seen + {next})
  {
    EdgeReaches(g, cur, next);
    if cur != start {
      ReachesTrans(g, start, cur, next);
    }
  }

  lemma ListsNext(out: seq<RelatedDim>, dims: map<string, RelatedDim>, start: string, seen: set<string>, next: string)
    requires Lists(out, dims, start, seen) && start in seen && next !in seen
    requires next in dims ==> dims[next].id == next
    ensures Lists(if next in dims then out + [dims[next]] else out, dims, start, seen + {next})
  {
    if next in dims {
      var o := out + [dims[next]];
      assert o[|out|] == dims[next];
      forall x | x in seen && x != start && x in dims
        ensures dims[x] in o
      {
        assert dims[x] in out;
      }
    }
  }

  /** One turn of the search: see every neighbour of cur. */
  method Visit(ghost g: Graph<string>, adj: Adjacency, dims: map<string, RelatedDim>, start: string, cur: string,
               seen0: set<string>, queue0: seq<string>, out0: seq<RelatedDim>)
    returns (seen: set<string>, queue: seq<string>, out: seq<RelatedDim>)
    requires Describes(adj, g) && Connected(g, start, seen0) && cur in seen0
    requires (forall x :: x in queue0 ==> x in seen0) && Explored(g, seen0, [cur] + queue0)
    requires Lists(out0, dims, start, seen0) && forall k :: k in dims ==> dims[k].id == k
    ensures seen0 <= seen && Connected(g, start, seen) && Explored(g, seen, queue)
    ensures (forall x :: x in queue ==> x in seen) && Lists(out, dims, start, seen)
    ensures seen == seen0 ==> queue == queue0
  {
    seen, queue, out := seen0, queue0, out0;
    var near := Neighbours(adj, cur);
    for i := 0 to |near|
      invariant seen0 <= seen && Connected(g, start, seen) && Explored(g, seen, [cur] + queue)
      invariant (forall x :: x in queue ==> x in seen) && Lists(out, dims, start, seen)
      invariant forall j :: 0 <= j < i ==> near[j] in seen
      invariant seen == seen0 ==> queue == queue0
    {
      var next := near[i];
      if next !in seen {
        SeenNext(g, start, seen, cur, next);
        ListsNext(out, dims, start, seen, next);
        seen := seen + {next};
        queue := queue + [next];
        if next in dims {
          out := out + [dims[next]];
        }
      }
    }
    assert forall b :: (cur, b) in g ==> b in seen;
  }

  ghost function Ends(g: Graph<string>): set<string> {
    set e | e in g :: e.1
  }

  lemma ConnectedBounded(g: Graph<string>, start: string, seen: set<string>)
    requires Connected(g, start, seen)
    ensures seen <= Ends(g) + {start}
  {
    forall x | x in seen && x != start
      ensures x in Ends(g)
    {
      var p: seq<string> :| IsPath(g, p) && p[0] == start && p[|p| - 1] == x;
      assert Along(g, p, |p| - 2);
    }
  }

  ghost function Unseen(g: Graph<string>, start: string, seen: set<string>): set<string> {
    Ends(g) + {start} - seen
  }

  lemma SeenGrows(g: Graph<string>, start: string, before: set<string>, seen: set<string>)
    requires Connected(g, start, seen) && before <= seen
    ensures seen != before ==> Unseen(g, start, seen) < Unseen(g, start, before)
  {
    ConnectedBounded(g, start, seen);
    if seen != before {
      var x :| x in seen && x !in before;
      assert x in Unseen(g, start, before) && x !in Unseen(g, start, seen);
    }
  }

  /** Returns, each once, exactly the model's other dimensions connected to the given one. */
  method RelatedDimensions(rows: seq<DimensionRow>, start: string) returns (out: seq<RelatedDim>)
    requires UniqueIds(rows)
    ensures forall i, j :: 0 <= i < j < |out| ==> out[i].id != out[j].id
    ensures forall id :: RelatedByLinks(rows, start, id) <==> exists i :: 0 <= i < |out| && out[i].id == id
    ensures forall i :: 0 <= i < |out| ==> IsRow(rows, out[i])
  {
    out := Search(rows, start);
    forall id
      ensures Related(rows, start, id) <==> RelatedByLinks(rows, start, id)
    {
      RelatedIs(rows, start, id);
    }
  }

  method Search(rows: seq<DimensionRow>, start: string) returns (out: seq<RelatedDim>)
    requires UniqueIds(rows)
    ensures forall i, j :: 0 <= i < j < |out| ==> out[i].id != out[j].id
    ensures forall id :: Related(rows, start, id) <==> exists i :: 0 <= i < |out| && out[i].id == id
    ensures forall i :: 0 <= i < |out| ==> IsRow(rows, out[i])
  {
    var dims, adj := LoadLinks(rows);
    ghost var g := AllLinks(rows);
    var seen, queue := {start}, [start];
    out := [];
    while queue != []
      invariant Searching(g, dims, start, seen, queue, out)
      decreases Unseen(g, start, seen), |queue|
    {
      var cur := queue[0];
      ghost var before := seen;
      assert queue == [cur] + queue[1..];
      seen, queue, out := Visit(g, adj, dims, start, cur, seen, queue[1..], out);
      assert Searching(g, dims, start, seen, queue, out);
      SeenGrows(g, start, before, seen);
    }
    SearchDone(rows, dims, start, seen, out);
  }

  /** With nothing left to visit, the result is the connected component. */
  lemma SearchDone(rows: seq<DimensionRow>, dims: map<string, RelatedDim>, start: string, seen: set<string>, out: seq<RelatedDim>)
    requires TableOf(dims, rows, |rows|) && Lists(out, dims, start, seen)
    requires Connected(AllLinks(rows), start, seen) && Explored(AllLinks(rows), seen, [])
    ensures forall id :: Related(rows, start, id) <==> exists i :: 0 <= i < |out| && out[i].id == id
    ensures forall i :: 0 <= i < |out| ==> IsRow(rows, out[i])
  {
    forall id
      ensures Related(rows, start, id) <==> exists i :: 0 <= i < |out| && out[i].id == id
    {
      if Related(rows, start, id) {
        var p: seq<string> :| IsPath(AllLinks(rows), p) && p[0] == start && p[|p| - 1] == id;
        PathStaysInside(AllLinks(rows), seen, p);
        assert dims[id] in out;
      }
    }
  }

  // ---- relatedness is an equivalence between the model's dimensions ----

  lemma {:induction false} LinksSymmetric(rows: seq<DimensionRow>, n: nat, a: string, b: string)
    requires n <= |rows| && (a, b) in Links(rows, n)
    ensures (b, a) in Links(rows, n)
  {
    if (a, b) in Links(rows, n - 1) {
      LinksSymmetric(rows, n - 1, a, b);
    }
  }

  lemma ReachesSymmetric(rows: seq<DimensionRow>, a: string, b: string)
    requires Reaches(AllLinks(rows), a, b)
    ensures Reaches(AllLinks(rows), b, a)
  {
    var g := AllLinks(rows);
    var p: seq<string> :| IsPath(g, p) && p[0] == a && p[|p| - 1] == b;
    var q := seq(|p|, i requires 0 <= i < |p| => p[|p| - 1 - i]);
    forall k | 0 <= k < |q| - 1
      ensures Along(g, q, k)
    {
      var m := |p| - 2 - k;
      assert Along(g, p, m);
      LinksSymmetric(rows, |rows|, p[m], p[m + 1]);
    }
    assert IsPath(g, q) && q[0] == b && q[|q| - 1] == a;
  }

  lemma RelatedSymmetric(rows: seq<DimensionRow>, a: string, b: string)
    requires InModel(rows, a)
    ensures Related(rows, a, b) ==> Related(rows, b, a)
  {
    if Related(rows, a, b) {
      ReachesSymmetric(rows, a, b);
    }
  }

  lemma RelatedTransitive(rows: seq<DimensionRow>, a: string, b: string, c: string)
    requires Related(rows, a, b) && Related(rows, b, c) && a != c
    ensures Related(rows, a, c)
  {
    ReachesTrans(AllLinks(rows), a, b, c);
  }
}
