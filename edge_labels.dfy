/** Integer labels on the slit edge map.  A cell holds 0 where no edge was
    found, a negative label on a left edge and a positive label on a right
    edge; `ednum` is the base that the edge matching counts from. */
module EdgeLabels {
  import opened Common

  type Grid = seq<seq<int>>

  predicate InGrid(g: Grid, i: int, j: int) {
    0 <= i < |g| && 0 <= j < |g[i]|
  }

  /** `v` is stored somewhere in `g`. */
  ghost predicate Occurs(g: Grid, v: int) {
    exists i, j :: InGrid(g, i, j) && g[i][j] == v
  }

  predicate SameShape(g: Grid, h: Grid) {
    |g| == |h| && forall i :: 0 <= i < |g| ==> |g[i]| == |h[i]|
  }

  /** The relabellings the driver applies to the whole map, each one a numpy
      masked assignment `edgearr[np.where(cond)] op= value`. */
  datatype Relabel =
    | LowerLeft(d: int)        // negative labels move down by d
    | RaiseRight(d: int)       // positive labels move up by d
    | CollapseLeft(ednum: int) // labels at or below -2*ednum become -ednum
    | CollapseRight(ednum: int) // labels at or above 2*ednum become ednum
    | ShiftLeft(d: int)        // negative labels move up by d

  function Relabelled(t: Relabel, e: int): int {
    match t
    case LowerLeft(d) => if e < 0 then e - d else e
    case RaiseRight(d) => if e > 0 then e + d else e
    case CollapseLeft(n) => if e <= -2 * n then -n else e
    case CollapseRight(n) => if e >= 2 * n then n else e
    case ShiftLeft(d) => if e < 0 then e + d else e
  }

  function MapRow(row: seq<int>, t: Relabel): (r: seq<int>)
    ensures |r| == |row|
  {
    if |row| == 0 then [] else [Relabelled(t, row[0])] + MapRow(row[1..], t)
  }

  /** The relabelling `t` applied to every cell; the map keeps its shape. */
  function MapGrid(g: Grid, t: Relabel): (h: Grid)
    ensures SameShape(g, h)
  {
    if |g| == 0 then []
    else
      var rest := MapGrid(g[1..], t);
      assert forall i :: 1 <= i < |g| ==> |rest[i - 1]| == |g[i]|;
      [MapRow(g[0], t)] + rest
  }

  lemma {:induction false} MapRowSpec(row: seq<int>, t: Relabel)
    ensures |MapRow(row, t)| == |row|
    ensures forall j :: 0 <= j < |row| ==> MapRow(row, t)[j] == Relabelled(t, row[j])
  {
    if |row| > 0 {
      MapRowSpec(row[1..], t);
    }
  }

  /** The relabelled map has the same shape, and each cell holds the relabelled
      value of the same cell before. */
  lemma {:induction false} MapGridSpec(g: Grid, t: Relabel)
    ensures SameShape(g, MapGrid(g, t))
    ensures forall i, j :: InGrid(g, i, j) ==> MapGrid(g, t)[i][j] == Relabelled(t, g[i][j])
  {
    if |g| > 0 {
      MapGridSpec(g[1..], t);
      MapRowSpec(g[0], t);
      forall i, j | InGrid(g, i, j) ensures MapGrid(g, t)[i][j] == Relabelled(t, g[i][j]) {
        if i > 0 {
          assert InGrid(g[1..], i - 1, j);
        }
      }
    }
  }

  /** The cells a reduction looks at: `edgearr < 0`, `edgearr > 0`, or all. */
  datatype Cells = LeftEdges | RightEdges | AllCells

  predicate Selects(c: Cells, e: int) {
    match c
    case LeftEdges => e < 0
    case RightEdges => e > 0
    case AllCells => true
  }

  // ---------------------------------------------------------------- extremes

  /** The largest value of `row` in the cells `c` selects, if any. */
  function RowMax(row: seq<int>, c: Cells): Option<int> {
    if |row| == 0 then None
    else
      var rest, x := RowMax(row[..|row| - 1], c), row[|row| - 1];
      if !Selects(c, x) || (rest.Some? && rest.value >= x) then rest else Some(x)
  }

  function RowMin(row: seq<int>, c: Cells): Option<int> {
    if |row| == 0 then None
    else
      var rest, x := RowMin(row[..|row| - 1], c), row[|row| - 1];
      if !Selects(c, x) || (rest.Some? && rest.value <= x) then rest else Some(x)
  }

  /** `np.max(g[np.where(cond)])` over the cells `c` selects; None where numpy
      raises on an empty selection. */
  function MaxWhere(g: Grid, c: Cells): Option<int> {
    if |g| == 0 then None
    else
      var rest, last := MaxWhere(g[..|g| - 1], c), RowMax(g[|g| - 1], c);
      if last.None? || (rest.Some? && rest.value >= last.value) then rest else last
  }

  /** `np.min(g[np.where(cond)])`, likewise. */
  function MinWhere(g: Grid, c: Cells): Option<int> {
    if |g| == 0 then None
    else
      var rest, last := MinWhere(g[..|g| - 1], c), RowMin(g[|g| - 1], c);
      if last.None? || (rest.Some? && rest.value <= last.value) then rest else last
  }

  /** The row maximum exists exactly when a cell is selected; it is a selected
      value of the row and bounds every selected value. */
  lemma {:induction false} RowMaxSpec(row: seq<int>, c: Cells)
    ensures RowMax(row, c).None? <==> forall j :: 0 <= j < |row| ==> !Selects(c, row[j])
    ensures RowMax(row, c).Some? ==>
      Selects(c, RowMax(row, c).value) && RowMax(row, c).value in row &&
      forall j :: 0 <= j < |row| && Selects(c, row[j]) ==> row[j] <= RowMax(row, c).value
  {
    if |row| > 0 {
      var init, x := row[..|row| - 1], row[|row| - 1];
      RowMaxSpec(init, c);
      assert row == init + [x];
      if RowMax(init, c).Some? {
        assert RowMax(init, c).value in row;
      }
    }
  }

  lemma {:induction false} RowMinSpec(row: seq<int>, c: Cells)
    ensures RowMin(row, c).None? <==> forall j :: 0 <= j < |row| ==> !Selects(c, row[j])
    ensures RowMin(row, c).Some? ==>
      Selects(c, RowMin(row, c).value) && RowMin(row, c).value in row &&
      forall j :: 0 <= j < |row| && Selects(c, row[j]) ==> RowMin(row, c).value <= row[j]
  {
    if |row| > 0 {
      var init, x := row[..|row| - 1], row[|row| - 1];
      RowMinSpec(init, c);
      assert row == init + [x];
      if RowMin(init, c).Some? {
        assert RowMin(init, c).value in row;
      }
    }
  }

  /** The maximum over the map exists exactly when some cell is selected; it
      is a selected label that occurs in the map and bounds every selected cell. */
  lemma {:induction false} MaxWhereSpec(g: Grid, c: Cells)
    ensures MaxWhere(g, c).None? <==> forall i, j :: InGrid(g, i, j) ==> !Selects(c, g[i][j])
    ensures MaxWhere(g, c).Some? ==> Selects(c, MaxWhere(g, c).value) && Occurs(g, MaxWhere(g, c).value)
    ensures MaxWhere(g, c).Some? ==>
      forall i, j :: InGrid(g, i, j) && Selects(c, g[i][j]) ==> g[i][j] <= MaxWhere(g, c).value
  {
    if |g| > 0 {
      var init, n := g[..|g| - 1], |g| - 1;
      MaxWhereSpec(init, c);
      RowMaxSpec(g[n], c);
      assert forall i :: 0 <= i < n ==> init[i] == g[i];
      var rest, last := MaxWhere(init, c), RowMax(g[n], c);
      if last.Some? && !(rest.Some? && rest.value >= last.value) {
        var j :| 0 <= j < |g[n]| && g[n][j] == last.value;
        assert InGrid(g, n, j);
      } else if rest.Some? {
        var i, j :| InGrid(init, i, j) && init[i][j] == rest.value;
        assert InGrid(g, i, j);
      }
    }
  }

  lemma {:induction false} MinWhereSpec(g: Grid, c: Cells)
    ensures MinWhere(g, c).None? <==> forall i, j :: InGrid(g, i, j) ==> !Selects(c, g[i][j])
    ensures MinWhere(g, c).Some? ==> Selects(c, MinWhere(g, c).value) && Occurs(g, MinWhere(g, c).value)
    ensures MinWhere(g, c).Some? ==>
      forall i, j :: InGrid(g, i, j) && Selects(c, g[i][j]) ==> MinWhere(g, c).value <= g[i][j]
  {
    if |g| > 0 {
      var init, n := g[..|g| - 1], |g| - 1;
      MinWhereSpec(init, c);
      RowMinSpec(g[n], c);
      assert forall i :: 0 <= i < n ==> init[i] == g[i];
      var rest, last := MinWhere(init, c), RowMin(g[n], c);
      if last.Some? && !(rest.Some? && rest.value <= last.value) {
        var j :| 0 <= j < |g[n]| && g[n][j] == last.value;
        assert InGrid(g, n, j);
      } else if rest.Some? {
        var i, j :| InGrid(init, i, j) && init[i][j] == rest.value;
        assert InGrid(g, i, j);
      }
    }
  }

  // ---------------------------------------------------------------- reset_edgearr_ednum

  /** `reset_edgearr_ednum`: when the largest label is below `ednum`, move the
      left labels down by `ednum - 1` and afterwards the (then) positive
      labels up by `ednum - 1`; otherwise leave the map alone.  Err where
      `np.max` of an empty map raises. */
  function ResetEdnum(g: Grid, ednum: int): (r: Result<Grid>)
  {
    var mx := MaxWhere(g, AllCells);
    if mx.None? then Err("ValueError: zero-size array to reduction operation maximum")
    else if mx.value < ednum then Ok(MapGrid(MapGrid(g, LowerLeft(ednum - 1)), RaiseRight(ednum - 1)))
    else Ok(g)
  }

  /** Resetting fails exactly on a map without cells, and keeps the shape. */
  lemma ResetEdnumDefined(g: Grid, ednum: int)
    ensures ResetEdnum(g, ednum).Ok? <==> exists i, j :: InGrid(g, i, j)
    ensures ResetEdnum(g, ednum).Ok? ==> SameShape(g, ResetEdnum(g, ednum).value)
  {
    MaxWhereSpec(g, AllCells);
  }

  /** With a positive `ednum` and every label below it, resetting moves each
      label `ednum - 1` away from zero, so -1 becomes -ednum and 1 becomes ednum. */
  lemma ResetEdnumMoves(g: Grid, ednum: int, i: int, j: int)
    requires ednum >= 1 && InGrid(g, i, j)
    requires forall a, b :: InGrid(g, a, b) ==> g[a][b] < ednum
    ensures ResetEdnum(g, ednum).Ok? && InGrid(ResetEdnum(g, ednum).value, i, j)
    ensures var e, k := g[i][j], ResetEdnum(g, ednum).value;
      (e < 0 ==> k[i][j] == e - (ednum - 1)) && (e > 0 ==> k[i][j] == e + (ednum - 1)) && (e == 0 ==> k[i][j] == 0)
  {
    ResetEdnumBelow(g, ednum, i, j);
    Relabel2At(g, ednum - 1, i, j);
  }

  /** Below `ednum` everywhere, the reset takes its relabelling branch. */
  lemma ResetEdnumBelow(g: Grid, ednum: int, i: int, j: int)
    requires InGrid(g, i, j)
    requires forall a, b :: InGrid(g, a, b) ==> g[a][b] < ednum
    ensures MaxWhere(g, AllCells).Some? && MaxWhere(g, AllCells).value < ednum
  {
    AllBounds(g);
    var mx := MaxWhere(g, AllCells).value;
    var a, b :| InGrid(g, a, b) && g[a][b] == mx;
  }

  /** Once some label has reached `ednum`, resetting changes nothing. */
  lemma ResetEdnumFixed(g: Grid, ednum: int)
    requires exists i, j :: InGrid(g, i, j) && g[i][j] >= ednum
    ensures ResetEdnum(g, ednum) == Ok(g)
  {
    AllBounds(g);
  }

  /** Lowering the left labels by `d >= 0` and then raising the positive ones
      by `d` moves each label `d` away from zero. */
  lemma Relabel2Pointwise(g: Grid, d: int)
    requires d >= 0
    ensures var k := MapGrid(MapGrid(g, LowerLeft(d)), RaiseRight(d));
      SameShape(g, k) &&
      forall i, j :: InGrid(g, i, j) ==>
        var e := g[i][j];
        (e < 0 ==> k[i][j] == e - d) && (e > 0 ==> k[i][j] == e + d) && (e == 0 ==> k[i][j] == 0)
  {
    var h := MapGrid(g, LowerLeft(d));
    var k := MapGrid(h, RaiseRight(d));
    MapGridSpec(g, LowerLeft(d));
    MapGridSpec(h, RaiseRight(d));
    forall i, j | InGrid(g, i, j)
      ensures var e := g[i][j]; (e < 0 ==> k[i][j] == e - d) && (e > 0 ==> k[i][j] == e + d) && (e == 0 ==> k[i][j] == 0)
    {
      assert InGrid(h, i, j);
    }
  }

  /** `Relabel2Pointwise` at one cell. */
  lemma Relabel2At(g: Grid, d: int, i: int, j: int)
    requires d >= 0 && InGrid(g, i, j)
    ensures var k := MapGrid(MapGrid(g, LowerLeft(d)), RaiseRight(d));
      InGrid(k, i, j) &&
      var e := g[i][j];
      (e < 0 ==> k[i][j] == e - d) && (e > 0 ==> k[i][j] == e + d) && (e == 0 ==> k[i][j] == 0)
  {
    Relabel2Pointwise(g, d);
  }

  /** -1 on a left edge, 1 on a right edge, 0 on a blank cell. */
  function Sign(e: int): int { if e < 0 then -1 else if e > 0 then 1 else 0 }

  /** Resetting never turns a left edge into a right edge or back. */
  lemma ResetKeepsSign(g: Grid, ednum: int, i: int, j: int)
    requires ednum >= 1 && ResetEdnum(g, ednum).Ok? && InGrid(g, i, j)
    ensures InGrid(ResetEdnum(g, ednum).value, i, j)
    ensures Sign(ResetEdnum(g, ednum).value[i][j]) == Sign(g[i][j])
  {
    ResetEdnumDefined(g, ednum);
    if exists a, b :: InGrid(g, a, b) && g[a][b] >= ednum {
      ResetEdnumFixed(g, ednum);
    } else {
      ResetEdnumMoves(g, ednum, i, j);
    }
  }

  // ---------------------------------------------------------------- _assign_edges, one edge

  /** With a single left edge, every label at or below `-2*ednum` becomes
      `-ednum` and every other cell is kept. */
  lemma CollapseLeftEffect(g: Grid, ednum: int)
    ensures SameShape(g, MapGrid(g, CollapseLeft(ednum)))
    ensures forall i, j :: InGrid(g, i, j) ==>
      MapGrid(g, CollapseLeft(ednum))[i][j] == if g[i][j] <= -2 * ednum then -ednum else g[i][j]
  {
    MapGridSpec(g, CollapseLeft(ednum));
  }

  /** With a positive `ednum`, no cell is left at or below `-2*ednum`. */
  lemma CollapseLeftBound(g: Grid, ednum: int)
    requires ednum >= 1
    ensures forall i, j :: InGrid(g, i, j) ==> MapGrid(g, CollapseLeft(ednum))[i][j] > -2 * ednum
  {
    MapGridSpec(g, CollapseLeft(ednum));
  }

  lemma CollapseRightEffect(g: Grid, ednum: int)
    ensures SameShape(g, MapGrid(g, CollapseRight(ednum)))
    ensures forall i, j :: InGrid(g, i, j) ==>
      MapGrid(g, CollapseRight(ednum))[i][j] == if g[i][j] >= 2 * ednum then ednum else g[i][j]
  {
    MapGridSpec(g, CollapseRight(ednum));
  }

  // ---------------------------------------------------------------- _maxgap_prep

  /** `_maxgap_prep`: every left label is moved up by `1 + max - min`, both
      taken over the whole map before the update. */
  function MaxgapShift(g: Grid): (r: Result<Grid>)
  {
    var mx, mn := MaxWhere(g, AllCells), MinWhere(g, AllCells);
    if mx.Some? && mn.Some? then Ok(MapGrid(g, ShiftLeft(1 + mx.value - mn.value)))
    else Err("ValueError: zero-size array to reduction operation maximum")
  }

  /** After the shift: right edges and blanks are untouched; every former left
      label lies above the old maximum, so none stays negative when the old
      maximum is not negative; and two cells that held different labels still do. */
  lemma MaxgapShiftEffect(g: Grid)
    requires exists i, j :: InGrid(g, i, j)
    ensures MaxgapShift(g).Ok?
    ensures var h, mx := MaxgapShift(g).value, MaxWhere(g, AllCells).value;
      SameShape(g, h) &&
      (forall i, j :: InGrid(g, i, j) && g[i][j] >= 0 ==> h[i][j] == g[i][j]) &&
      (forall i, j :: InGrid(g, i, j) && g[i][j] < 0 ==> h[i][j] >= 1 + mx) &&
      (mx >= 0 ==> forall i, j :: InGrid(g, i, j) ==> h[i][j] >= 0) &&
      (forall i, j, a, b :: InGrid(g, i, j) && InGrid(g, a, b) && g[i][j] != g[a][b] ==> h[i][j] != h[a][b])
  {
    AllBounds(g);
    var mx, mn := MaxWhere(g, AllCells).value, MinWhere(g, AllCells).value;
    assert MaxgapShift(g) == Ok(MapGrid(g, ShiftLeft(1 + mx - mn)));
    ShiftFacts(g, mx, mn);
  }

  /** Shifting the negative labels by `1 + mx - mn`, where every label lies in
      `[mn, mx]`, lifts them above `mx` and keeps labels apart. */
  lemma ShiftFacts(g: Grid, mx: int, mn: int)
    requires forall i, j :: InGrid(g, i, j) ==> mn <= g[i][j] <= mx
    ensures var h := MapGrid(g, ShiftLeft(1 + mx - mn));
      (forall i, j :: InGrid(g, i, j) && g[i][j] >= 0 ==> h[i][j] == g[i][j]) &&
      (forall i, j :: InGrid(g, i, j) && g[i][j] < 0 ==> h[i][j] >= 1 + mx) &&
      (mx >= 0 ==> forall i, j :: InGrid(g, i, j) ==> h[i][j] >= 0) &&
      (forall i, j, a, b :: InGrid(g, i, j) && InGrid(g, a, b) && g[i][j] != g[a][b] ==> h[i][j] != h[a][b])
  {
    var h := MapGrid(g, ShiftLeft(1 + mx - mn));
    MapGridSpec(g, ShiftLeft(1 + mx - mn));
    forall i, j, a, b | InGrid(g, i, j) && InGrid(g, a, b) && g[i][j] != g[a][b]
      ensures h[i][j] != h[a][b]
    {
      assert mn <= g[i][j] <= mx && mn <= g[a][b] <= mx;
    }
  }

  /** A map with a cell has a largest and a smallest label, and every cell lies between. */
  lemma AllBounds(g: Grid)
    requires exists i, j :: InGrid(g, i, j)
    ensures MaxWhere(g, AllCells).Some? && MinWhere(g, AllCells).Some?
    ensures Occurs(g, MaxWhere(g, AllCells).value) && Occurs(g, MinWhere(g, AllCells).value)
    ensures forall i, j :: InGrid(g, i, j) ==> MinWhere(g, AllCells).value <= g[i][j] <= MaxWhere(g, AllCells).value
  {
    MaxWhereSpec(g, AllCells);
    MinWhereSpec(g, AllCells);
  }

  // ---------------------------------------------------------------- set_lrminx

  datatype Ranges = Ranges(lmin: int, lmax: int, rmin: int, rmax: int)

  /** `set_lrminx`: left labels run from `-lmax` to `-lmin`, right labels from
      `rmin` to `rmax`.  Err where a side has no label. */
  function LabelRanges(g: Grid): (r: Result<Ranges>)
  {
    var l, r := LeftRange(g), RightRange(g);
    if l.Some? && r.Some? then Ok(Ranges(l.value.0, l.value.1, r.value.0, r.value.1))
    else Err("ValueError: zero-size array to reduction operation maximum")
  }

  /** `(lmin, lmax)`: the negated largest and smallest left labels. */
  function LeftRange(g: Grid): Option<(int, int)>
  {
    var a, b := MaxWhere(g, LeftEdges), MinWhere(g, LeftEdges);
    if a.Some? && b.Some? then Some((-a.value, -b.value)) else None
  }

  /** `(rmin, rmax)`: the smallest and largest right labels. */
  function RightRange(g: Grid): Option<(int, int)>
  {
    var c, d := MinWhere(g, RightEdges), MaxWhere(g, RightEdges);
    if c.Some? && d.Some? then Some((c.value, d.value)) else None
  }

  /** The left labels of `g` run from `MinWhere` to `MaxWhere` of the negative cells. */
  lemma LeftExtremes(g: Grid)
    ensures MaxWhere(g, LeftEdges).Some? <==> exists i, j :: InGrid(g, i, j) && g[i][j] < 0
    ensures MinWhere(g, LeftEdges).Some? <==> MaxWhere(g, LeftEdges).Some?
    ensures MaxWhere(g, LeftEdges).Some? ==>
      var hi, lo := MaxWhere(g, LeftEdges).value, MinWhere(g, LeftEdges).value;
      lo <= hi < 0 && forall i, j :: InGrid(g, i, j) && g[i][j] < 0 ==> lo <= g[i][j] <= hi
  {
    MaxWhereSpec(g, LeftEdges);
    MinWhereSpec(g, LeftEdges);
    if exists i, j :: InGrid(g, i, j) && g[i][j] < 0 {
      var i, j :| InGrid(g, i, j) && g[i][j] < 0;
      assert Selects(LeftEdges, g[i][j]);
      forall a, b | InGrid(g, a, b) && g[a][b] < 0
        ensures MinWhere(g, LeftEdges).value <= g[a][b] <= MaxWhere(g, LeftEdges).value
      {
        assert Selects(LeftEdges, g[a][b]);
      }
    }
  }

  lemma RightExtremes(g: Grid)
    ensures MaxWhere(g, RightEdges).Some? <==> exists i, j :: InGrid(g, i, j) && g[i][j] > 0
    ensures MinWhere(g, RightEdges).Some? <==> MaxWhere(g, RightEdges).Some?
    ensures MaxWhere(g, RightEdges).Some? ==>
      var hi, lo := MaxWhere(g, RightEdges).value, MinWhere(g, RightEdges).value;
      0 < lo <= hi && forall i, j :: InGrid(g, i, j) && g[i][j] > 0 ==> lo <= g[i][j] <= hi
  {
    MaxWhereSpec(g, RightEdges);
    MinWhereSpec(g, RightEdges);
    if exists i, j :: InGrid(g, i, j) && g[i][j] > 0 {
      var i, j :| InGrid(g, i, j) && g[i][j] > 0;
      assert Selects(RightEdges, g[i][j]);
      forall a, b | InGrid(g, a, b) && g[a][b] > 0
        ensures MinWhere(g, RightEdges).value <= g[a][b] <= MaxWhere(g, RightEdges).value
      {
        assert Selects(RightEdges, g[a][b]);
      }
    }
  }

  /** The ranges exist exactly when the map has a left and a right label; then
      `1 <= lmin <= lmax`, `1 <= rmin <= rmax`, every label lies in its range
      and each bound is a label that occurs. */
  lemma LabelRangesEffect(g: Grid)
    ensures LabelRanges(g).Ok? <==> (exists i, j :: InGrid(g, i, j) && g[i][j] < 0) &&
                                    (exists i, j :: InGrid(g, i, j) && g[i][j] > 0)
    ensures LabelRanges(g).Ok? ==>
      var r := LabelRanges(g).value;
      1 <= r.lmin <= r.lmax && 1 <= r.rmin <= r.rmax &&
      Occurs(g, -r.lmin) && Occurs(g, -r.lmax) && Occurs(g, r.rmin) && Occurs(g, r.rmax) &&
      (forall i, j :: InGrid(g, i, j) && g[i][j] < 0 ==> r.lmin <= -g[i][j] <= r.lmax) &&
      (forall i, j :: InGrid(g, i, j) && g[i][j] > 0 ==> r.rmin <= g[i][j] <= r.rmax)
  {
    LeftExtremes(g);
    RightExtremes(g);
    MaxWhereSpec(g, LeftEdges);
    MinWhereSpec(g, LeftEdges);
    MaxWhereSpec(g, RightEdges);
    MinWhereSpec(g, RightEdges);
    if LabelRanges(g).Ok? {
      var r := LabelRanges(g).value;
      assert r == Ranges(-MaxWhere(g, LeftEdges).value, -MinWhere(g, LeftEdges).value,
                         MinWhere(g, RightEdges).value, MaxWhere(g, RightEdges).value);
    }
  }

  // ---------------------------------------------------------------- checks

  /** The sanity check of `_match_edges`: more edges than `ednum` allows. */
  predicate TooManyEdges(lcnt: int, rcnt: int, ednum: int) {
    lcnt >= ednum || rcnt >= ednum
  }

  /** `chk_for_longslit`: a single left and a single right edge label. */
  predicate IsLongslit(r: Ranges) {
    r.lmax + 1 - r.lmin == 1 && r.rmax + 1 - r.rmin == 1
  }

  /** Every cell that `c` selects holds the same label. */
  ghost predicate OneLabel(g: Grid, c: Cells) {
    forall i, j, i2, j2 ::
      (InGrid(g, i, j) && InGrid(g, i2, j2) && Selects(c, g[i][j]) && Selects(c, g[i2][j2])) ==>
        g[i][j] == g[i2][j2]
  }

  /** The ranges of an edge map describe a longslit exactly when every left
      edge of the map carries one and the same label, and so does every
      right edge. */
  lemma LongslitIff(g: Grid)
    requires LabelRanges(g).Ok?
    ensures IsLongslit(LabelRanges(g).value) <==> OneLabel(g, LeftEdges) && OneLabel(g, RightEdges)
  {
    LabelRangesEffect(g);
    var r := LabelRanges(g).value;
    if OneLabel(g, LeftEdges) {
      var i1, j1 :| InGrid(g, i1, j1) && g[i1][j1] == -r.lmin;
      var i2, j2 :| InGrid(g, i2, j2) && g[i2][j2] == -r.lmax;
      assert Selects(LeftEdges, g[i1][j1]) && Selects(LeftEdges, g[i2][j2]);
    }
    if OneLabel(g, RightEdges) {
      var i1, j1 :| InGrid(g, i1, j1) && g[i1][j1] == r.rmin;
      var i2, j2 :| InGrid(g, i2, j2) && g[i2][j2] == r.rmax;
      assert Selects(RightEdges, g[i1][j1]) && Selects(RightEdges, g[i2][j2]);
    }
  }
}
