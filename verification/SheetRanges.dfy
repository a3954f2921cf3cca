/** Grouping formula cells into ranges: runs of one pattern down a column, then runs side by side. */
module SheetRanges {
  import opened Basics
  import opened SheetFormulas
  import opened SheetLookalikes
  import opened SheetPatterns
  import opened SheetTwins
  import opened Text

  datatype Cell = Cell(col: int, row: int, formula: string, pattern: string)

  /** Column by column, top to bottom, no cell twice. */
  ghost predicate Sorted(cells: seq<Cell>) {
    forall i, j :: 0 <= i < j < |cells| ==>
      cells[i].col < cells[j].col || (cells[i].col == cells[j].col && cells[i].row < cells[j].row)
  }

  datatype Range = Range(
    col: int, lastCol: int, row: int, lastRow: int, formula: string, pattern: string, lastFormula: string)

  predicate Contains(r: Range, col: int, row: int) {
    r.col <= col <= r.lastCol && r.row <= row <= r.lastRow
  }

  // ---- sameAcross ----

  predicate PlaceCarried(x: Place, y: Place, distance: int) {
    x.row == y.row && (y.col == x.col || y.col - x.col == distance)
  }

  predicate PlacesCarried(p: seq<Place>, q: seq<Place>, distance: int) {
    |p| == |q| && forall i :: 0 <= i < |p| ==> PlaceCarried(p[i], q[i], distance)
  }

  /** Apart from references the texts are equal, and each reference of b is in the row of a's and in its
      column, or off that by as many columns as the cells are apart. */
  predicate Across(a: string, colA: int, b: string, colB: int) {
    && Skeleton(Formula(a)) == Skeleton(Formula(b))
    && PlacesCarried(Places(Formula(a)), Places(Formula(b)), colB - colA)
  }

  method SamePlaces(ra: seq<Place>, rb: seq<Place>, distance: int) returns (same: bool)
    ensures same == PlacesCarried(ra, rb, distance)
  {
    if |ra| != |rb| {
      return false;
    }
    for i := 0 to |ra|
      invariant forall k :: 0 <= k < i ==> PlaceCarried(ra[k], rb[k], distance)
    {
      var x, y := ra[i], rb[i];
      if x.row != y.row || (y.col != x.col && y.col - x.col != distance) {
        return false;
      }
    }
    return true;
  }

  method SameAcross(a: string, colA: int, b: string, colB: int) returns (same: bool)
    ensures same == Across(a, colA, b, colB)
  {
    var sa, ra := RefSkeleton(a);
    var sb, rb := RefSkeleton(b);
    if sa != sb {
      return false;
    }
    same := SamePlaces(ra, rb, colB - colA);
  }

  /** Token by token, what carrying a formula across means: the text is the same and each reference
      keeps its row and its column, or moves its column by the distance; $ signs do not matter. */
  predicate Carried(t: Token, u: Token, distance: int) {
    if t.Char? then u == t
    else u.Ref? && u.row == t.row && (u.col == t.col || u.col == t.col + distance)
  }

  predicate NoBlank(ts: seq<Token>) {
    forall k :: 0 <= k < |ts| ==> ts[k] != Char(BLANK)
  }

  ghost predicate AllCarried(a: seq<Token>, b: seq<Token>, distance: int) {
    |a| == |b| && forall k :: 0 <= k < |a| ==> Carried(a[k], b[k], distance)
  }

  lemma PlacesCarriedCons(x: Place, p: seq<Place>, y: Place, q: seq<Place>, distance: int)
    ensures PlacesCarried([x] + p, [y] + q, distance) <==> PlaceCarried(x, y, distance) && PlacesCarried(p, q, distance)
  {
    var xp, yq := [x] + p, [y] + q;
    if PlacesCarried(xp, yq, distance) {
      assert PlaceCarried(xp[0], yq[0], distance);
      forall i | 0 <= i < |p|
        ensures PlaceCarried(p[i], q[i], distance)
      {
        assert PlaceCarried(xp[i + 1], yq[i + 1], distance);
      }
    }
  }

  lemma AllCarriedCons(x: Token, p: seq<Token>, y: Token, q: seq<Token>, distance: int)
    ensures AllCarried([x] + p, [y] + q, distance) <==> Carried(x, y, distance) && AllCarried(p, q, distance)
  {
    var xp, yq := [x] + p, [y] + q;
    if AllCarried(xp, yq, distance) {
      assert Carried(xp[0], yq[0], distance);
      forall i | 0 <= i < |p|
        ensures Carried(p[i], q[i], distance)
      {
        assert Carried(xp[i + 1], yq[i + 1], distance);
      }
    }
  }

  lemma SkeletonCons(x: Token, p: seq<Token>, y: Token, q: seq<Token>)
    ensures Skeleton([x] + p) == Skeleton([y] + q) <==> BlankChar(x) == BlankChar(y) && Skeleton(p) == Skeleton(q)
  {
    assert Skeleton([x] + p) == [BlankChar(x)] + Skeleton(p);
    assert Skeleton([y] + q) == [BlankChar(y)] + Skeleton(q);
    if Skeleton([x] + p) == Skeleton([y] + q) {
      assert Skeleton([x] + p)[0] == BlankChar(x) && Skeleton([y] + q)[0] == BlankChar(y);
      assert Skeleton([x] + p)[1..] == Skeleton(p) && Skeleton([y] + q)[1..] == Skeleton(q);
    }
  }

  lemma PlacesOf(x: Token, p: seq<Token>)
    ensures Places([x] + p) == if x.Ref? then [Place(x.col, x.row)] + Places(p) else Places(p)
  {
    PlacesCons(x, p);
    assert x.Char? ==> PlaceOf(x) + Places(p) == Places(p);
  }

  /** Text and places of tokens agree. */
  ghost predicate AcrossTokens(a: seq<Token>, b: seq<Token>, distance: int) {
    Skeleton(a) == Skeleton(b) && PlacesCarried(Places(a), Places(b), distance)
  }

  lemma AcrossCons(x: Token, p: seq<Token>, y: Token, q: seq<Token>, distance: int)
    requires x != Char(BLANK) && y != Char(BLANK)
    ensures AcrossTokens([x] + p, [y] + q, distance) <==> Carried(x, y, distance) && AcrossTokens(p, q, distance)
  {
    SkeletonCons(x, p, y, q);
    PlacesOf(x, p);
    PlacesOf(y, q);
    if x.Ref? && y.Ref? {
      PlacesCarriedCons(Place(x.col, x.row), Places(p), Place(y.col, y.row), Places(q), distance);
    }
  }

  lemma {:induction false} CarriedByToken(a: seq<Token>, b: seq<Token>, distance: int)
    requires NoBlank(a) && NoBlank(b) && |a| == |b|
    ensures AcrossTokens(a, b, distance) <==> AllCarried(a, b, distance)
  {
    if a != [] {
      CarriedByToken(a[1..], b[1..], distance);
      HeadAndTail(a);
      HeadAndTail(b);
      AcrossCons(a[0], a[1..], b[0], b[1..], distance);
      AllCarriedCons(a[0], a[1..], b[0], b[1..], distance);
    }
  }

  /** sameAcross holds exactly when the formulas agree token by token in that sense. */
  lemma AcrossIffCarried(a: string, colA: int, b: string, colB: int)
    requires NoBlank(Formula(a)) && NoBlank(Formula(b))
    ensures Across(a, colA, b, colB) <==> AllCarried(Formula(a), Formula(b), colB - colA)
  {
    if |Formula(a)| == |Formula(b)| {
      CarriedByToken(Formula(a), Formula(b), colB - colA);
    } else {
      assert |Skeleton(Formula(a))| != |Skeleton(Formula(b))|;
    }
  }

  // ---- runs down a column ----

  /** Cells lo up to hi are one run: consecutive rows of a column with one pattern. */
  ghost predicate IsRun(cells: seq<Cell>, lo: nat, hi: nat, r: Range) {
    && lo < hi <= |cells|
    && r == Range(cells[lo].col, cells[lo].col, cells[lo].row, cells[lo].row + (hi - lo) - 1,
                  cells[lo].formula, cells[lo].pattern, cells[lo].formula)
    && (forall m :: lo <= m < hi ==>
          cells[m].col == r.col && cells[m].row == r.row + (m - lo) && cells[m].pattern == r.pattern)
  }

  /** The run could not have been longer. */
  ghost predicate Maximal(cells: seq<Cell>, hi: nat, r: Range) {
    hi < |cells| ==> !(cells[hi].col == r.col && cells[hi].row == r.lastRow + 1 && cells[hi].pattern == r.pattern)
  }

  /** The runs cut the cells at the given bounds. */
  ghost predicate AreRuns(cells: seq<Cell>, runs: seq<Range>, bounds: seq<nat>) {
    && |bounds| == |runs| + 1 && bounds[0] == 0
    && (forall k :: 0 <= k < |runs| ==> IsRun(cells, bounds[k], bounds[k + 1], runs[k]))
    && (forall k :: 0 <= k < |runs| ==> Maximal(cells, bounds[k + 1], runs[k]))
  }

  /** The runs cut all the cells. */
  ghost predicate Cut(cells: seq<Cell>, runs: seq<Range>, bounds: seq<nat>) {
    AreRuns(cells, runs, bounds) && bounds[|runs|] == |cells|
  }

  method FindRuns(cells: seq<Cell>) returns (runs: seq<Range>)
    ensures exists bounds :: Cut(cells, runs, bounds)
  {
    runs := [];
    ghost var bounds: seq<nat> := [0];
    var i := 0;
    while i < |cells|
      invariant 0 <= i <= |cells| && AreRuns(cells, runs, bounds) && bounds[|runs|] == i
    {
      var j := i + 1;
      while j < |cells| && cells[j].col == cells[i].col && cells[j].row == cells[j - 1].row + 1
            && cells[j].pattern == cells[i].pattern
        invariant i < j <= |cells|
        invariant forall m :: i <= m < j ==>
          cells[m].col == cells[i].col && cells[m].row == cells[i].row + (m - i) && cells[m].pattern == cells[i].pattern
      {
        j := j + 1;
      }
      var c := cells[i];
      var r := Range(c.col, c.col, c.row, cells[j - 1].row, c.formula, c.pattern, c.formula);
      assert IsRun(cells, i, j, r) && Maximal(cells, j, r);
      runs, bounds := runs + [r], bounds + [j];
      i := j;
    }
    assert Cut(cells, runs, bounds);
  }

  lemma {:induction false} RunOfCell(cells: seq<Cell>, runs: seq<Range>, bounds: seq<nat>, i: nat, n: nat) returns (k: nat)
    requires AreRuns(cells, runs, bounds) && n <= |runs| && i < bounds[n]
    ensures k < n && bounds[k] <= i < bounds[k + 1]
    decreases n
  {
    assert n > 0;
    if bounds[n - 1] <= i {
      k := n - 1;
    } else {
      k := RunOfCell(cells, runs, bounds, i, n - 1);
    }
  }

  lemma BoundsIncrease(cells: seq<Cell>, runs: seq<Range>, bounds: seq<nat>, j: nat, k: nat)
    requires AreRuns(cells, runs, bounds) && j <= k <= |runs|
    ensures bounds[j] <= bounds[k]
    decreases k
  {
    if j < k {
      BoundsIncrease(cells, runs, bounds, j, k - 1);
      assert IsRun(cells, bounds[k - 1], bounds[k], runs[k - 1]);
    }
  }

  // ---- runs side by side ----

  /** The runs that make up a range, one per column. */
  ghost predicate MadeOf(runs: seq<Range>, m: Range, ids: seq<nat>) {
    && |ids| == m.lastCol - m.col + 1 && |ids| > 0
    && (forall x :: 0 <= x < |ids| ==>
          ids[x] < |runs| && runs[ids[x]].col == m.col + x && runs[ids[x]].row == m.row && runs[ids[x]].lastRow == m.lastRow)
    && runs[ids[0]].formula == m.formula && runs[ids[|ids| - 1]].formula == m.lastFormula
    && (forall x :: 0 <= x < |ids| - 1 ==>
          Across(runs[ids[x]].formula, m.col + x, runs[ids[x + 1]].formula, m.col + x + 1))
  }

  /** Where each run went: which range and which of its columns. */
  datatype Seat = Seat(range: nat, column: nat)

  /** The first n runs each sit in exactly one column of one range. */
  ghost predicate Seated(runs: seq<Range>, n: nat, merged: seq<Range>, ids: seq<seq<nat>>, seats: seq<Seat>) {
    && n <= |runs| && |seats| == n && |ids| == |merged|
    && (forall k :: 0 <= k < |merged| ==> MadeOf(runs, merged[k], ids[k]))
    && (forall k, x :: 0 <= k < |merged| && 0 <= x < |ids[k]| ==> ids[k][x] < n && seats[ids[k][x]] == Seat(k, x))
    && (forall i :: 0 <= i < n ==>
          seats[i].range < |merged| && seats[i].column < |ids[seats[i].range]| && ids[seats[i].range][seats[i].column] == i)
  }

  lemma JoinRange(runs: seq<Range>, m: Range, ids: seq<nat>, n: nat)
    requires MadeOf(runs, m, ids) && n < |runs|
    requires m.lastCol + 1 == runs[n].col && m.row == runs[n].row && m.lastRow == runs[n].lastRow
    requires Across(m.lastFormula, m.lastCol, runs[n].formula, runs[n].col)
    ensures MadeOf(runs, m.(lastCol := runs[n].col, lastFormula := runs[n].formula), ids + [n])
  {
  }

  lemma SeatJoined(runs: seq<Range>, n: nat, merged: seq<Range>, ids: seq<seq<nat>>, seats: seq<Seat>, k: nat, m: Range)
    requires Seated(runs, n, merged, ids, seats) && n < |runs| && k < |merged| && MadeOf(runs, m, ids[k] + [n])
    ensures Seated(runs, n + 1, merged[k := m], ids[k := ids[k] + [n]], seats + [Seat(k, |ids[k]|)])
  {
  }

  lemma SeatNew(runs: seq<Range>, n: nat, merged: seq<Range>, ids: seq<seq<nat>>, seats: seq<Seat>)
    requires Seated(runs, n, merged, ids, seats) && n < |runs| && MadeOf(runs, runs[n], [n])
    ensures Seated(runs, n + 1, merged + [runs[n]], ids + [[n]], seats + [Seat(|merged|, 0)])
  {
  }

  /** Run r extends range m by one column. */
  predicate Extends(m: Range, r: Range) {
    && m.lastCol + 1 == r.col && m.row == r.row && m.lastRow == r.lastRow
    && Across(m.lastFormula, m.lastCol, r.formula, r.col)
  }

  /** Where r extends a range first, or the number of ranges. `ext` says when: it is Extends, and what
      follows from the order of merging alone is proved for any. */
  function FirstExtended(ext: (Range, Range) -> bool, merged: seq<Range>, r: Range, k: nat): (j: nat)
    requires k <= |merged|
    ensures k <= j <= |merged| && (j < |merged| ==> ext(merged[j], r))
    ensures forall h :: k <= h < j ==> !ext(merged[h], r)
    decreases |merged| - k
  {
    if k == |merged| || ext(merged[k], r) then k else FirstExtended(ext, merged, r, k + 1)
  }

  function Widened(m: Range, r: Range): Range {
    m.(lastCol := r.col, lastFormula := r.formula)
  }

  /** The ranges with one more run: in the first range it extends, or as a range of its own. */
  function Joined(ext: (Range, Range) -> bool, merged: seq<Range>, r: Range): seq<Range> {
    var k := FirstExtended(ext, merged, r, 0);
    if k < |merged| then merged[k := Widened(merged[k], r)] else merged + [r]
  }

  /** The ranges the first n runs make. */
  function Merge(ext: (Range, Range) -> bool, runs: seq<Range>, n: nat): seq<Range>
    requires n <= |runs|
  {
    if n == 0 then [] else Joined(ext, Merge(ext, runs, n - 1), runs[n - 1])
  }

  /** One turn of the merging loop: the run joins the first range it extends, or starts one. */
  method JoinRun(merged: seq<Range>, r: Range) returns (wider: seq<Range>)
    ensures wider == Joined(Extends, merged, r)
  {
    for k := 0 to |merged|
      invariant FirstExtended(Extends, merged, r, 0) == FirstExtended(Extends, merged, r, k)
    {
      var m := merged[k];
      if m.lastCol + 1 == r.col && m.row == r.row && m.lastRow == r.lastRow {
        var same := SameAcross(m.lastFormula, m.lastCol, r.formula, r.col);
        if same {
          return merged[k := m.(lastCol := r.col, lastFormula := r.formula)];
        }
      }
    }
    return merged + [r];
  }

  method MergeRuns(runs: seq<Range>) returns (merged: seq<Range>)
    ensures merged == Merge(Extends, runs, |runs|)
  {
    merged := [];
    for n := 0 to |runs|
      invariant merged == Merge(Extends, runs, n)
    {
      merged := JoinRun(merged, runs[n]);
    }
  }

  ghost predicate SingleColumns(runs: seq<Range>) {
    forall i :: 0 <= i < |runs| ==> runs[i].lastCol == runs[i].col && runs[i].lastFormula == runs[i].formula
  }

  lemma RunAlone(runs: seq<Range>, n: nat)
    requires SingleColumns(runs) && n < |runs|
    ensures MadeOf(runs, runs[n], [n])
  {
  }

  lemma SeatOneMore(runs: seq<Range>, n: nat, merged: seq<Range>, ids: seq<seq<nat>>, seats: seq<Seat>)
    returns (ids': seq<seq<nat>>, seats': seq<Seat>)
    requires SingleColumns(runs) && n < |runs| && Seated(runs, n, merged, ids, seats)
    ensures Seated(runs, n + 1, Joined(Extends, merged, runs[n]), ids', seats')
  {
    var r := runs[n];
    var k := FirstExtended(Extends, merged, r, 0);
    if k < |merged| {
      assert MadeOf(runs, merged[k], ids[k]);
      JoinRange(runs, merged[k], ids[k], n);
      SeatJoined(runs, n, merged, ids, seats, k, Widened(merged[k], r));
      ids', seats' := ids[k := ids[k] + [n]], seats + [Seat(k, |ids[k]|)];
    } else {
      RunAlone(runs, n);
      SeatNew(runs, n, merged, ids, seats);
      ids', seats' := ids + [[n]], seats + [Seat(|merged|, 0)];
    }
  }

  /** Merging seats every run in exactly one column of one range, neighbouring columns agreeing
      across. */
  lemma {:induction false} MergeSeats(runs: seq<Range>, n: nat) returns (ids: seq<seq<nat>>, seats: seq<Seat>)
    requires SingleColumns(runs) && n <= |runs|
    ensures Seated(runs, n, Merge(Extends, runs, n), ids, seats)
  {
    if n == 0 {
      ids, seats := [], [];
    } else {
      ids, seats := MergeSeats(runs, n - 1);
      ids, seats := SeatOneMore(runs, n - 1, Merge(Extends, runs, n - 1), ids, seats);
    }
  }

  // ---- nothing left to merge ----

  /** No range continues another one column further right. */
  ghost predicate NoneJoins(ext: (Range, Range) -> bool, ranges: seq<Range>) {
    forall j, k :: 0 <= j < |ranges| && 0 <= k < |ranges| ==> !ext(ranges[j], ranges[k])
  }

  /** The runs come column by column. */
  ghost predicate ColumnsInOrder(runs: seq<Range>) {
    forall i, j :: 0 <= i <= j < |runs| ==> runs[i].col <= runs[j].col
  }

  ghost predicate UpToColumn(ranges: seq<Range>, col: int) {
    forall k :: 0 <= k < |ranges| ==> ranges[k].col <= ranges[k].lastCol <= col
  }

  /** A range is extended by what begins in the next column, whatever it has grown to itself. */
  ghost predicate ExtendsNext(ext: (Range, Range) -> bool) {
    && (forall m, r :: ext(m, r) ==> m.lastCol + 1 == r.col)
    && (forall m, r, w :: ext(m, Widened(r, w)) == ext(m, r))
  }

  lemma ExtendsIsNext()
    ensures ExtendsNext(Extends)
  {
  }

  lemma JoinedNoneJoins(ext: (Range, Range) -> bool, merged: seq<Range>, r: Range)
    requires ExtendsNext(ext) && NoneJoins(ext, merged) && UpToColumn(merged, r.col) && r.lastCol == r.col
    ensures NoneJoins(ext, Joined(ext, merged, r)) && UpToColumn(Joined(ext, merged, r), r.col)
  {
  }

  lemma {:induction false} MergeNoneJoins(ext: (Range, Range) -> bool, runs: seq<Range>, n: nat)
    requires ExtendsNext(ext) && SingleColumns(runs) && ColumnsInOrder(runs) && n <= |runs|
    ensures NoneJoins(ext, Merge(ext, runs, n)) && (n > 0 ==> UpToColumn(Merge(ext, runs, n), runs[n - 1].col))
  {
    if n > 0 {
      MergeNoneJoins(ext, runs, n - 1);
      if n > 1 {
        assert runs[n - 2].col <= runs[n - 1].col;
      }
      assert UpToColumn(Merge(ext, runs, n - 1), runs[n - 1].col);
      JoinedNoneJoins(ext, Merge(ext, runs, n - 1), runs[n - 1]);
    }
  }

  lemma RunsInOrder(cells: seq<Cell>, runs: seq<Range>, bounds: seq<nat>)
    requires Sorted(cells) && AreRuns(cells, runs, bounds)
    ensures ColumnsInOrder(runs)
  {
    forall i, j | 0 <= i <= j < |runs|
      ensures runs[i].col <= runs[j].col
    {
      assert IsRun(cells, bounds[i], bounds[i + 1], runs[i]) && IsRun(cells, bounds[j], bounds[j + 1], runs[j]);
      BoundsIncrease(cells, runs, bounds, i, j);
    }
  }

  // ---- the ranges partition the cells ----

  ghost predicate IsCell(cells: seq<Cell>, col: int, row: int) {
    exists i :: 0 <= i < |cells| && cells[i].col == col && cells[i].row == row
  }

  ghost predicate InSome(ranges: seq<Range>, col: int, row: int) {
    exists k :: 0 <= k < |ranges| && Contains(ranges[k], col, row)
  }

  /** Every cell lies in a range. */
  ghost predicate Covered(cells: seq<Cell>, ranges: seq<Range>) {
    forall i :: 0 <= i < |cells| ==> InSome(ranges, cells[i].col, cells[i].row)
  }

  /** Ranges hold nothing but cells. */
  ghost predicate Tight(cells: seq<Cell>, ranges: seq<Range>) {
    forall k, col, row :: 0 <= k < |ranges| && Contains(ranges[k], col, row) ==> IsCell(cells, col, row)
  }

  ghost predicate Meet(a: Range, b: Range, col: int, row: int) {
    Contains(a, col, row) && Contains(b, col, row)
  }

  ghost predicate Disjoint(ranges: seq<Range>) {
    forall j, k, col, row :: 0 <= j < |ranges| && 0 <= k < |ranges| && Meet(ranges[j], ranges[k], col, row) ==> j == k
  }

  /** The cell of a range at (col, row), through its run. */
  lemma CellInRange(cells: seq<Cell>, runs: seq<Range>, bounds: seq<nat>, n: nat, m: Range, ids: seq<nat>, col: int, row: int)
    returns (i: nat, run: nat)
    requires AreRuns(cells, runs, bounds) && n == |runs| && MadeOf(runs, m, ids) && Contains(m, col, row)
    ensures run == ids[col - m.col] && run < |runs| && bounds[run] <= i < bounds[run + 1] <= |cells|
    ensures cells[i].col == col && cells[i].row == row && cells[i].pattern == runs[run].pattern
    ensures i == bounds[run] + (row - m.row) && runs[run].formula == cells[bounds[run]].formula
    ensures cells[bounds[run]].col == col && cells[bounds[run]].row == m.row
  {
    run := ids[col - m.col];
    assert runs[run].col == m.col + (col - m.col);
    assert IsRun(cells, bounds[run], bounds[run + 1], runs[run]);
    i := bounds[run] + (row - m.row);
  }

  lemma RangesCover(cells: seq<Cell>, runs: seq<Range>, bounds: seq<nat>, merged: seq<Range>, ids: seq<seq<nat>>, seats: seq<Seat>)
    requires AreRuns(cells, runs, bounds) && bounds[|runs|] == |cells| && Seated(runs, |runs|, merged, ids, seats)
    ensures Covered(cells, merged)
  {
    forall i | 0 <= i < |cells|
      ensures InSome(merged, cells[i].col, cells[i].row)
    {
      var run := RunOfCell(cells, runs, bounds, i, |runs|);
      assert IsRun(cells, bounds[run], bounds[run + 1], runs[run]);
      var k, x := seats[run].range, seats[run].column;
      assert MadeOf(runs, merged[k], ids[k]) && ids[k][x] == run;
      assert Contains(merged[k], cells[i].col, cells[i].row);
    }
  }

  lemma RangesTight(cells: seq<Cell>, runs: seq<Range>, bounds: seq<nat>, merged: seq<Range>, ids: seq<seq<nat>>, seats: seq<Seat>)
    requires AreRuns(cells, runs, bounds) && Seated(runs, |runs|, merged, ids, seats)
    ensures Tight(cells, merged)
  {
    forall k, col, row | 0 <= k < |merged| && Contains(merged[k], col, row)
      ensures IsCell(cells, col, row)
    {
      assert MadeOf(runs, merged[k], ids[k]);
      var i, run := CellInRange(cells, runs, bounds, |runs|, merged[k], ids[k], col, row);
    }
  }

  lemma SameCell(cells: seq<Cell>, i: nat, j: nat)
    requires Sorted(cells) && i < |cells| && j < |cells| && cells[i].col == cells[j].col && cells[i].row == cells[j].row
    ensures i == j
  {
  }

  lemma SameRun(cells: seq<Cell>, runs: seq<Range>, bounds: seq<nat>, i: nat, j: nat, k: nat)
    requires AreRuns(cells, runs, bounds) && j < |runs| && k < |runs|
    requires bounds[j] <= i < bounds[j + 1] && bounds[k] <= i < bounds[k + 1]
    ensures j == k
  {
    if j < k { BoundsIncrease(cells, runs, bounds, j + 1, k); }
    if k < j { BoundsIncrease(cells, runs, bounds, k + 1, j); }
  }

  lemma RangesMeet(cells: seq<Cell>, runs: seq<Range>, bounds: seq<nat>, a: Range, aIds: seq<nat>, b: Range, bIds: seq<nat>,
                   col: int, row: int)
    requires Sorted(cells) && AreRuns(cells, runs, bounds) && MadeOf(runs, a, aIds) && MadeOf(runs, b, bIds)
    requires Meet(a, b, col, row)
    ensures aIds[col - a.col] == bIds[col - b.col]
  {
    var i, ra := CellInRange(cells, runs, bounds, |runs|, a, aIds, col, row);
    var j, rb := CellInRange(cells, runs, bounds, |runs|, b, bIds, col, row);
    SameCell(cells, i, j);
    SameRun(cells, runs, bounds, i, ra, rb);
  }

  lemma SameRange(cells: seq<Cell>, runs: seq<Range>, bounds: seq<nat>, merged: seq<Range>, ids: seq<seq<nat>>, seats: seq<Seat>,
                  j: nat, k: nat, col: int, row: int)
    requires Sorted(cells) && AreRuns(cells, runs, bounds) && Seated(runs, |runs|, merged, ids, seats)
    requires j < |merged| && k < |merged| && Meet(merged[j], merged[k], col, row)
    ensures j == k
  {
    assert MadeOf(runs, merged[j], ids[j]) && MadeOf(runs, merged[k], ids[k]);
    RangesMeet(cells, runs, bounds, merged[j], ids[j], merged[k], ids[k], col, row);
    var x, y := col - merged[j].col, col - merged[k].col;
    assert seats[ids[j][x]] == Seat(j, x) && seats[ids[k][y]] == Seat(k, y);
  }

  lemma RangesDisjoint(cells: seq<Cell>, runs: seq<Range>, bounds: seq<nat>, merged: seq<Range>, ids: seq<seq<nat>>, seats: seq<Seat>)
    requires Sorted(cells) && AreRuns(cells, runs, bounds) && Seated(runs, |runs|, merged, ids, seats)
    ensures Disjoint(merged)
  {
    forall j, k, col, row | 0 <= j < |merged| && 0 <= k < |merged| && Meet(merged[j], merged[k], col, row)
      ensures j == k
    {
      SameRange(cells, runs, bounds, merged, ids, seats, j, k, col, row);
    }
  }

  // ---- what a range says about its cells ----

  /** Cell top is the range's first cell in the column of cell i. */
  ghost predicate TopOf(cells: seq<Cell>, m: Range, top: nat, i: nat) {
    && top <= i < |cells| && Contains(m, cells[i].col, cells[i].row)
    && cells[top].col == cells[i].col && cells[top].row == m.row && cells[top].pattern == cells[i].pattern
  }

  /** Each column of a range is one vertical run of equal patterns, the first cell's formula is the
      range's, and neighbouring columns' first formulas agree across. */
  ghost predicate Uniform(cells: seq<Cell>, m: Range) {
    && (forall col, row :: Contains(m, col, row) ==> UniformAt(cells, m, col, row))
    && UniformAcross(cells, m)
  }

  ghost predicate UniformAt(cells: seq<Cell>, m: Range, col: int, row: int) {
    exists top: nat, i: nat :: TopOf(cells, m, top, i) && cells[i].col == col && cells[i].row == row
  }

  /** The formula of the cell at (col, row). */
  ghost predicate FormulaAt(cells: seq<Cell>, col: int, row: int, f: string) {
    exists i :: 0 <= i < |cells| && cells[i].col == col && cells[i].row == row && cells[i].formula == f
  }

  ghost predicate UniformAcross(cells: seq<Cell>, m: Range) {
    && FormulaAt(cells, m.col, m.row, m.formula)
    && (forall col :: m.col <= col < m.lastCol ==> AcrossAt(cells, m, col))
  }

  ghost predicate AcrossAt(cells: seq<Cell>, m: Range, col: int) {
    exists f, g :: CarriesAcross(cells, m, col, f, g)
  }

  /** f and g are the first formulas of columns col and col + 1, and agree across. */
  ghost predicate CarriesAcross(cells: seq<Cell>, m: Range, col: int, f: string, g: string) {
    FormulaAt(cells, col, m.row, f) && FormulaAt(cells, col + 1, m.row, g) && Across(f, col, g, col + 1)
  }

  lemma ColumnTop(cells: seq<Cell>, runs: seq<Range>, bounds: seq<nat>, m: Range, ids: seq<nat>, x: nat)
    requires AreRuns(cells, runs, bounds) && MadeOf(runs, m, ids) && x < |ids|
    ensures FormulaAt(cells, m.col + x, m.row, runs[ids[x]].formula)
  {
    var run := ids[x];
    assert runs[run].col == m.col + x;
    assert IsRun(cells, bounds[run], bounds[run + 1], runs[run]);
    var i := bounds[run];
    assert cells[i].col == m.col + x && cells[i].row == m.row && cells[i].formula == runs[run].formula;
  }

  lemma RangeUniform(cells: seq<Cell>, runs: seq<Range>, bounds: seq<nat>, m: Range, ids: seq<nat>)
    requires AreRuns(cells, runs, bounds) && MadeOf(runs, m, ids)
    ensures Uniform(cells, m)
  {
    forall col, row | Contains(m, col, row)
      ensures UniformAt(cells, m, col, row)
    {
      var i, run := CellInRange(cells, runs, bounds, |runs|, m, ids, col, row);
      assert IsRun(cells, bounds[run], bounds[run + 1], runs[run]);
      assert TopOf(cells, m, bounds[run], i);
    }
    ColumnTop(cells, runs, bounds, m, ids, 0);
    forall col | m.col <= col < m.lastCol
      ensures AcrossAt(cells, m, col)
    {
      var x := col - m.col;
      ColumnTop(cells, runs, bounds, m, ids, x);
      ColumnTop(cells, runs, bounds, m, ids, x + 1);
      assert CarriesAcross(cells, m, col, runs[ids[x]].formula, runs[ids[x + 1]].formula);
    }
  }

  /** Range b stands right of range a in the same rows, and its first formula carries on a's last: token by
      token the text is the same, and each reference is in the same row and its column the same or one
      further. */
  ghost predicate ContinuesAs(a: Range, b: Range) {
    && b.col == a.lastCol + 1 && b.row == a.row && b.lastRow == a.lastRow
    && NoBlank(Formula(a.lastFormula)) && NoBlank(Formula(b.formula))
    && AllCarried(Formula(a.lastFormula), Formula(b.formula), 1)
  }

  lemma ContinuesExtends(a: Range, b: Range)
    ensures ContinuesAs(a, b) ==> Extends(a, b)
  {
    if ContinuesAs(a, b) { AcrossIffCarried(a.lastFormula, a.lastCol, b.formula, b.col); }
  }

  /** No range stands right of another that it carries on. */
  ghost predicate NoneContinues(ranges: seq<Range>) {
    forall j, k :: 0 <= j < |ranges| && 0 <= k < |ranges| ==> !ContinuesAs(ranges[j], ranges[k])
  }

  lemma MergedContinuesNot(runs: seq<Range>, ranges: seq<Range>)
    requires SingleColumns(runs) && ColumnsInOrder(runs) && ranges == Merge(Extends, runs, |runs|)
    ensures NoneContinues(ranges)
  {
    ExtendsIsNext();
    MergeNoneJoins(Extends, runs, |runs|);
    forall j, k | 0 <= j < |ranges| && 0 <= k < |ranges|
      ensures !ContinuesAs(ranges[j], ranges[k])
    {
      ContinuesExtends(ranges[j], ranges[k]);
    }
  }

  /** A cell right below a range has another pattern than the cell above it. */
  ghost predicate StopsBelow(cells: seq<Cell>, m: Range) {
    forall i, j :: 0 <= i < |cells| && 0 <= j < |cells| && Contains(m, cells[i].col, cells[i].row) ==>
      IsBelow(m, cells[i], cells[j]) ==> cells[j].pattern != cells[i].pattern
  }

  ghost predicate IsBelow(m: Range, c: Cell, d: Cell) {
    c.row == m.lastRow && d.row == c.row + 1 && d.col == c.col
  }

  lemma NextRowIsNextCell(cells: seq<Cell>, i: nat, j: nat)
    requires Sorted(cells) && i < |cells| && j < |cells| && cells[j].col == cells[i].col && cells[j].row == cells[i].row + 1
    ensures j == i + 1
  {
    assert i + 1 < |cells| ==> cells[i].col < cells[i + 1].col || cells[i].row < cells[i + 1].row;
  }

  lemma RangeStopsBelow(cells: seq<Cell>, runs: seq<Range>, bounds: seq<nat>, m: Range, ids: seq<nat>)
    requires Sorted(cells) && AreRuns(cells, runs, bounds) && MadeOf(runs, m, ids)
    ensures StopsBelow(cells, m)
  {
    forall i, j | 0 <= i < |cells| && 0 <= j < |cells| && Contains(m, cells[i].col, cells[i].row) && IsBelow(m, cells[i], cells[j])
      ensures cells[j].pattern != cells[i].pattern
    {
      var h, run := CellInRange(cells, runs, bounds, |runs|, m, ids, cells[i].col, cells[i].row);
      SameCell(cells, h, i);
      assert IsRun(cells, bounds[run], bounds[run + 1], runs[run]) && Maximal(cells, bounds[run + 1], runs[run]);
      NextRowIsNextCell(cells, i, j);
    }
  }

  /** The grouping of the formula cells of a sheet: the ranges partition the cells, each is uniform,
      and none could be continued, down or across. */
  method GroupFormulas(cells: seq<Cell>) returns (ranges: seq<Range>)
    requires Sorted(cells)
    ensures Covered(cells, ranges) && Tight(cells, ranges) && Disjoint(ranges)
    ensures forall k :: 0 <= k < |ranges| ==> Uniform(cells, ranges[k]) && StopsBelow(cells, ranges[k])
    ensures NoneContinues(ranges)
  {
    var runs := FindRuns(cells);
    ghost var bounds :| Cut(cells, runs, bounds);
    assert forall k :: 0 <= k < |runs| ==> IsRun(cells, bounds[k], bounds[k + 1], runs[k]);
    ranges := MergeRuns(runs);
    ghost var ids, seats := MergeSeats(runs, |runs|);
    RangesCover(cells, runs, bounds, ranges, ids, seats);
    RangesTight(cells, runs, bounds, ranges, ids, seats);
    RangesDisjoint(cells, runs, bounds, ranges, ids, seats);
    RunsInOrder(cells, runs, bounds);
    MergedContinuesNot(runs, ranges);
    forall k | 0 <= k < |ranges|
      ensures Uniform(cells, ranges[k]) && StopsBelow(cells, ranges[k])
    {
      RangeUniform(cells, runs, bounds, ranges[k], ids[k]);
      RangeStopsBelow(cells, runs, bounds, ranges[k], ids[k]);
    }
  }

  // ---- copying a range's formulas ----

  function At(c: Cell): Place {
    Place(c.col, c.row)
  }

  /** The cell's pattern is its formula's, and has no look-alike of a reference in the other cell. */
  ghost predicate Faithful(c: Cell, other: Place) {
    c.pattern == PatternAt(c.formula, At(c)) && Plain(c.formula, At(c), other)
  }

  /** b's formula is a's copied. */
  ghost predicate IsCopy(a: Cell, b: Cell) {
    CopyOf(a.formula, At(a), b.formula, At(b))
  }

  lemma SamePatternIsCopy(a: Cell, b: Cell)
    requires Faithful(a, At(b)) && Faithful(b, At(a))
    ensures a.pattern == b.pattern <==> IsCopy(a, b)
  {
    SamePatternIffCopied(a.formula, At(a), b.formula, At(b));
  }

  lemma TopOfColumn(cells: seq<Cell>, m: Range, col: int, row: int) returns (top: nat, i: nat)
    requires Uniform(cells, m) && Contains(m, col, row)
    ensures TopOf(cells, m, top, i) && cells[i].col == col && cells[i].row == row
  {
    assert UniformAt(cells, m, col, row);
    top, i :| TopOf(cells, m, top, i) && cells[i].col == col && cells[i].row == row;
  }

  /** The cells in one column of the range have no look-alikes of references in that column. */
  ghost predicate ColumnFaithful(cells: seq<Cell>, m: Range, col: int) {
    forall k, row :: 0 <= k < |cells| && cells[k].col == col && Contains(m, col, cells[k].row) && Contains(m, col, row) ==>
      Faithful(cells[k], Place(col, row))
  }

  /** Copying the formula of a column's first cell down the range reproduces every cell of that
      column. */
  lemma CopyingDownReproduces(cells: seq<Cell>, m: Range, col: int, row: int) returns (top: nat, i: nat)
    requires Uniform(cells, m) && Contains(m, col, row) && ColumnFaithful(cells, m, col)
    ensures TopOf(cells, m, top, i) && cells[i].col == col && cells[i].row == row
    ensures IsCopy(cells[top], cells[i])
  {
    top, i := TopOfColumn(cells, m, col, row);
    assert Contains(m, col, cells[top].row);
    SamePatternIsCopy(cells[top], cells[i]);
  }

  /** The cells of the range have no look-alikes of references in the range. */
  ghost predicate RangeFaithful(cells: seq<Cell>, m: Range) {
    forall k, col, row :: 0 <= k < |cells| && InRange(m, cells[k]) && Contains(m, col, row) ==>
      Faithful(cells[k], Place(col, row))
  }

  predicate InRange(m: Range, c: Cell) {
    Contains(m, c.col, c.row)
  }

  /** Cell k is the range's first. */
  predicate IsFirst(cells: seq<Cell>, m: Range, k: int) {
    0 <= k < |cells| && cells[k].col == m.col && cells[k].row == m.row
  }

  /** The formula printed for the range, that of its first cell, gives every cell: its references move
      with the row and the column. */
  ghost predicate FirstReproduces(cells: seq<Cell>, m: Range) {
    forall k, i :: IsFirst(cells, m, k) && 0 <= i < |cells| && InRange(m, cells[i]) ==> IsCopy(cells[k], cells[i])
  }

  /** The first cells of the range's columns have one pattern. */
  ghost predicate OnePatternAcross(cells: seq<Cell>, m: Range) {
    forall k, i :: IsFirst(cells, m, k) && 0 <= i < |cells| && InRange(m, cells[i]) && cells[i].row == m.row ==>
      cells[i].pattern == cells[k].pattern
  }

  lemma FirstReaches(cells: seq<Cell>, m: Range, k: nat, i: nat)
    requires Sorted(cells) && Uniform(cells, m) && RangeFaithful(cells, m) && OnePatternAcross(cells, m)
    requires IsFirst(cells, m, k) && i < |cells| && InRange(m, cells[i])
    ensures IsCopy(cells[k], cells[i])
  {
    var top, j := TopOfColumn(cells, m, cells[i].col, cells[i].row);
    SameCell(cells, i, j);
    assert InRange(m, cells[top]) && InRange(m, cells[k]);
    assert cells[top].pattern == cells[k].pattern;
    SamePatternIsCopy(cells[k], cells[i]);
  }

  /** The printed formula gives the whole range exactly when the columns' first cells have one
      pattern. */
  lemma FirstReproducesIff(cells: seq<Cell>, m: Range)
    requires Sorted(cells) && Uniform(cells, m) && RangeFaithful(cells, m)
    ensures FirstReproduces(cells, m) <==> OnePatternAcross(cells, m)
  {
    if OnePatternAcross(cells, m) {
      forall k, i | IsFirst(cells, m, k) && 0 <= i < |cells| && InRange(m, cells[i])
        ensures IsCopy(cells[k], cells[i])
      {
        FirstReaches(cells, m, k, i);
      }
    }
    if FirstReproduces(cells, m) {
      forall k, i | IsFirst(cells, m, k) && 0 <= i < |cells| && InRange(m, cells[i]) && cells[i].row == m.row
        ensures cells[i].pattern == cells[k].pattern
      {
        assert IsCopy(cells[k], cells[i]) && InRange(m, cells[k]);
        SamePatternIsCopy(cells[k], cells[i]);
      }
    }
  }

  // ---- a range its first formula does not give ----

  /** C1 and C2 read their own row of column A, D1 and D2 read A1; p and q are the columns' patterns. */
  function Mixed(p: string, q: string): seq<Cell> {
    [Cell(3, 1, "A1", p), Cell(3, 2, "A2", p), Cell(4, 1, "$A$1", q), Cell(4, 2, "$A$1", q)]
  }

  function MixedRuns(p: string, q: string): seq<Range> {
    [Range(3, 3, 1, 2, "A1", p, "A1"), Range(4, 4, 1, 2, "$A$1", q, "$A$1")]
  }

  lemma MixedFormulas()
    ensures Formula("A1") == [Ref(false, 1, false, 1)] && Formula("A2") == [Ref(false, 1, false, 2)]
    ensures Formula("$A$1") == [Ref(true, 1, true, 1)]
  {
    assert ColumnName(0) == "" && ColumnName(1) == "A" && Decimal(1) == "1" && Decimal(2) == "2";
    assert TokenText(Ref(false, 1, false, 1)) == "A1" && TokenText(Ref(false, 1, false, 2)) == "A2";
    RefFormula(Ref(false, 1, false, 1));
    RefFormula(Ref(false, 1, false, 2));
    ReadsAbsolute();
  }

  lemma MixedPatterns()
    ensures Pattern("A2", 3, 2) == Pattern("A1", 3, 1) && Pattern("$A$1", 4, 2) == Pattern("$A$1", 4, 1)
  {
    MixedFormulas();
    CopyKeepsPattern("A1", Place(3, 1), "A2", Place(3, 2));
    CopyKeepsPattern("$A$1", Place(4, 1), "$A$1", Place(4, 2));
  }

  lemma MixedAcross()
    ensures Across("A1", 3, "$A$1", 4)
  {
    MixedFormulas();
    SkeletonOne(Ref(false, 1, false, 1));
    SkeletonOne(Ref(true, 1, true, 1));
  }

  lemma RunOfTwo(cells: seq<Cell>, lo: nat, r: Range)
    requires lo + 1 < |cells| && cells[lo + 1].col == cells[lo].col && cells[lo + 1].row == cells[lo].row + 1
    requires cells[lo + 1].pattern == cells[lo].pattern
    requires var c := cells[lo]; r == Range(c.col, c.col, c.row, c.row + 1, c.formula, c.pattern, c.formula)
    ensures IsRun(cells, lo, lo + 2, r)
  {
  }

  lemma CutInTwo(cells: seq<Cell>, runs: seq<Range>)
    requires |cells| == 4 && |runs| == 2 && IsRun(cells, 0, 2, runs[0]) && IsRun(cells, 2, 4, runs[1])
    requires runs[0].col < runs[1].col
    ensures Sorted(cells) && Cut(cells, runs, [0, 2, 4])
  {
    var bounds := [0, 2, 4];
    forall k | 0 <= k < |runs|
      ensures IsRun(cells, bounds[k], bounds[k + 1], runs[k]) && Maximal(cells, bounds[k + 1], runs[k])
    {
      assert k == 0 || k == 1;
    }
  }

  lemma MixedCut(p: string, q: string)
    ensures Sorted(Mixed(p, q)) && Cut(Mixed(p, q), MixedRuns(p, q), [0, 2, 4])
  {
    var cells, runs := Mixed(p, q), MixedRuns(p, q);
    RunOfTwo(cells, 0, runs[0]);
    RunOfTwo(cells, 2, runs[1]);
    CutInTwo(cells, runs);
  }

  lemma MixedMerge(ext: (Range, Range) -> bool, runs: seq<Range>)
    requires |runs| == 2 && ext(runs[0], runs[1])
    ensures Merge(ext, runs, 2) == [Widened(runs[0], runs[1])]
  {
    assert Merge(ext, runs, 0) == [];
    assert Merge(ext, runs, 1) == [runs[0]];
    assert FirstExtended(ext, [runs[0]], runs[1], 0) == 0;
  }

  lemma NotMoved(ta: seq<Token>, tb: seq<Token>, cols: int, rows: int)
    requires |ta| == |tb| == 1 && ta[0].Ref? && tb[0].Ref? && ta[0].absCol != tb[0].absCol
    ensures tb != Copied(ta, cols, rows)
  {
    assert Copied(ta, cols, rows)[0] == Moved(ta[0], cols, rows);
  }

  lemma MixedIsNoCopy(a: Cell, b: Cell)
    requires a.formula == "A1" && b.formula == "$A$1"
    ensures !IsCopy(a, b)
  {
    MixedFormulas();
    NotMoved(Formula("A1"), Formula("$A$1"), b.col - a.col, b.row - a.row);
  }

  /** The two runs become one range, and D1 is not C1 copied: a reference in a column to the right may
      be to the same place, whether or not it is written with a $. */
  lemma FirstMayNotReproduce(p: string, q: string, ranges: seq<Range>)
    requires p == Pattern("A1", 3, 1) && q == Pattern("$A$1", 4, 1) && ranges == Merge(Extends, MixedRuns(p, q), 2)
    ensures p == Pattern("A2", 3, 2) && q == Pattern("$A$1", 4, 2)
    ensures Sorted(Mixed(p, q)) && Cut(Mixed(p, q), MixedRuns(p, q), [0, 2, 4])
    ensures |ranges| == 1 && !FirstReproduces(Mixed(p, q), ranges[0])
  {
    MixedPatterns();
    MixedCut(p, q);
    MixedRange(p, q, ranges);
  }

  lemma MixedRange(p: string, q: string, ranges: seq<Range>)
    requires ranges == Merge(Extends, MixedRuns(p, q), 2)
    ensures |ranges| == 1 && !FirstReproduces(Mixed(p, q), ranges[0])
  {
    var cells, runs := Mixed(p, q), MixedRuns(p, q);
    MixedAcross();
    MixedMerge(Extends, runs);
    MixedIsNoCopy(cells[0], cells[2]);
    assert IsFirst(cells, ranges[0], 0) && InRange(ranges[0], cells[2]);
  }
}
