/** The bitmap of solved cells and its rendering at another resolution. Floating point is taken as real. */
module Tiling {

  datatype Tiles = Tiles(bits: seq<bool>, w: nat, h: nat)
  {
    predicate Valid() { |bits| == w * h }
  }

  // ---------------------------------------------------------------------------
  // Marking cells
  // ---------------------------------------------------------------------------

  lemma ProductGrows(a: nat, b: nat, w: nat)
    requires a < b
    ensures a * w + w <= b * w
  {
    var d: nat := b - a - 1;
    assert (a + 1 + d) * w == a * w + w + d * w;
  }

  lemma CellInBounds(x: nat, y: nat, w: nat, h: nat)
    requires x < w && y < h
    ensures 0 <= y * w + x < w * h
  {
    ProductGrows(y, h, w);
  }

  lemma CellsDiffer(x: nat, y: nat, x': nat, y': nat, w: nat)
    requires x < w && x' < w && y * w + x == y' * w + x'
    ensures x == x' && y == y'
  {
    if y < y' {
      ProductGrows(y, y', w);
    } else if y' < y {
      ProductGrows(y', y, w);
    }
  }

  predicate Marked(t: Tiles, x: nat, y: nat)
    requires t.Valid() && x < t.w && y < t.h
  {
    CellInBounds(x, y, t.w, t.h);
    t.bits[y * t.w + x]
  }

  /** The bitmap for the given dimensions: the old one if they are the same, else an empty one. */
  function Sized(t: Tiles, w: nat, h: nat): (r: Tiles)
    ensures r.Valid() && r.w == w && r.h == h
  {
    if t.w != w || t.h != h || |t.bits| != w * h then Tiles(seq(w * h, _ => false), w, h) else t
  }

  function Mark(t: Tiles, x: nat, y: nat, w: nat, h: nat): (r: Tiles)
    requires x < w && y < h
    ensures r.Valid() && r.w == w && r.h == h
  {
    CellInBounds(x, y, w, h);
    var t1 := Sized(t, w, h);
    t1.(bits := t1.bits[y * w + x := true])
  }

  lemma MarkedAfter(t: Tiles, x: nat, y: nat, w: nat, h: nat, a: nat, b: nat)
    requires x < w && y < h && a < w && b < h
    ensures Marked(Mark(t, x, y, w, h), a, b) <==> (a == x && b == y) || Marked(Sized(t, w, h), a, b)
  {
    CellInBounds(x, y, w, h);
    CellInBounds(a, b, w, h);
    if b * w + a == y * w + x { CellsDiffer(a, b, x, y, w); }
  }

  /** The inner loop over a row of a tile. */
  function MarkRow(t: Tiles, x: nat, end: nat, y: nat, w: nat, h: nat): Tiles
    requires end <= w && y < h
    decreases end - x
  {
    if x >= end then t else MarkRow(Mark(t, x, y, w, h), x + 1, end, y, w, h)
  }

  /** The outer loop over the rows of a tile. */
  function MarkRows(t: Tiles, x: nat, xEnd: nat, y: nat, yEnd: nat, w: nat, h: nat): Tiles
    requires xEnd <= w && yEnd <= h
    decreases yEnd - y
  {
    if y >= yEnd then t else MarkRows(MarkRow(t, x, xEnd, y, w, h), x, xEnd, y + 1, yEnd, w, h)
  }

  function Min(a: int, b: int): int { if a < b then a else b }

  /** A solved board: tile `(x, y)` of side `s` on a board of `w` times `h` cells. */
  function Solved(t: Tiles, x: nat, y: nat, w: nat, h: nat, s: nat): Tiles {
    MarkRows(t, s * x, Min(s * (x + 1), w), s * y, Min(s * (y + 1), h), w, h)
  }

  predicate InTile(a: nat, b: nat, x: nat, y: nat, s: nat) {
    s * x <= a < s * (x + 1) && s * y <= b < s * (y + 1)
  }

  lemma {:induction false} RowMarked(t: Tiles, x: nat, end: nat, y: nat, w: nat, h: nat, a: nat, b: nat)
    requires end <= w && y < h && a < w && b < h
    ensures var r := Sized(MarkRow(t, x, end, y, w, h), w, h);
            Marked(r, a, b) <==> (b == y && x <= a < end) || Marked(Sized(t, w, h), a, b)
    decreases end - x
  {
    if x < end {
      RowMarked(Mark(t, x, y, w, h), x + 1, end, y, w, h, a, b);
      MarkedAfter(t, x, y, w, h, a, b);
    }
  }

  lemma {:induction false} RowsMarked(t: Tiles, x: nat, xEnd: nat, y: nat, yEnd: nat, w: nat, h: nat, a: nat, b: nat)
    requires xEnd <= w && yEnd <= h && a < w && b < h
    ensures var r := Sized(MarkRows(t, x, xEnd, y, yEnd, w, h), w, h);
            Marked(r, a, b) <==> (y <= b < yEnd && x <= a < xEnd) || Marked(Sized(t, w, h), a, b)
    decreases yEnd - y
  {
    if y < yEnd {
      RowsMarked(MarkRow(t, x, xEnd, y, w, h), x, xEnd, y + 1, yEnd, w, h, a, b);
      RowMarked(t, x, xEnd, y, w, h, a, b);
    }
  }

  /** Boards of the same size reported one after the other. */
  function Report(t: Tiles, tiles: seq<(nat, nat)>, w: nat, h: nat, s: nat): Tiles {
    if tiles == [] then t
    else
      var last := tiles[|tiles| - 1];
      Solved(Report(t, tiles[..|tiles| - 1], w, h, s), last.0, last.1, w, h, s)
  }

  ghost predicate Covered(tiles: seq<(nat, nat)>, s: nat, a: nat, b: nat) {
    exists k :: 0 <= k < |tiles| && InTile(a, b, tiles[k].0, tiles[k].1, s)
  }

  /** A cell is marked exactly when some reported tile holds it, or it was marked before. */
  lemma {:induction false} ReportMarks(t: Tiles, tiles: seq<(nat, nat)>, w: nat, h: nat, s: nat, a: nat, b: nat)
    requires a < w && b < h
    ensures Marked(Sized(Report(t, tiles, w, h, s), w, h), a, b) <==>
            Covered(tiles, s, a, b) || Marked(Sized(t, w, h), a, b)
  {
    if tiles != [] {
      var n := |tiles| - 1;
      var (x, y) := tiles[n];
      ReportMarks(t, tiles[..n], w, h, s, a, b);
      RowsMarked(Report(t, tiles[..n], w, h, s), s * x, Min(s * (x + 1), w), s * y, Min(s * (y + 1), h), w, h, a, b);
      assert Covered(tiles, s, a, b) <==> Covered(tiles[..n], s, a, b) || InTile(a, b, x, y, s) by {
        if k :| 0 <= k < n && InTile(a, b, tiles[..n][k].0, tiles[..n][k].1, s) { assert tiles[k] == tiles[..n][k]; }
        if k :| 0 <= k <= n && InTile(a, b, tiles[k].0, tiles[k].1, s) { assert k < n ==> tiles[..n][k] == tiles[k]; }
        if InTile(a, b, x, y, s) { assert InTile(a, b, tiles[n].0, tiles[n].1, s); }
      }
    }
  }

  ghost predicate AllReported(tiles: seq<(nat, nat)>, w: nat, h: nat, s: nat) {
    forall x: nat, y: nat :: s * x < w && s * y < h ==> (x, y) in tiles
  }

  function TileOf(a: nat, s: nat): (x: nat)
    requires s > 0
    ensures s * x <= a < s * (x + 1)
  {
    a / s
  }

  lemma AllCovered(tiles: seq<(nat, nat)>, w: nat, h: nat, s: nat, a: nat, b: nat)
    requires s > 0 && a < w && b < h && AllReported(tiles, w, h, s)
    ensures Covered(tiles, s, a, b)
  {
    var x, y := TileOf(a, s), TileOf(b, s);
    assert (x, y) in tiles;
    var k :| 0 <= k < |tiles| && tiles[k] == (x, y);
    assert InTile(a, b, tiles[k].0, tiles[k].1, s);
  }

  // ---------------------------------------------------------------------------
  // Sampling
  // ---------------------------------------------------------------------------

  datatype Sample = Sample(at: int, weight: real)

  /** How much of the cell that `x` falls into lies above `x`. */
  function Above(x: real): real { 1.0 - x + x.Floor as real }

  /** Cells `first` up to `end`, each with full weight. */
  function Whole(first: int, end: int): seq<Sample>
    decreases end - first
  {
    if first >= end then [] else Whole(first, end - 1) + [Sample(end - 1, 1.0)]
  }

  /** The cells along one axis that pixel `p` samples, at `scale` cells a pixel, of `n` cells. */
  function Samples(p: nat, n: nat, scale: real): seq<Sample> {
    var lo := p as real * scale;
    var hi := (p + 1) as real * scale;
    [Sample(lo.Floor, Above(lo))] + Whole(lo.Floor + 1, hi.Floor) +
    if hi.Floor < n then [Sample(hi.Floor, Above(hi))] else []
  }

  function Scale(n: nat, m: nat): real
    requires m > 0
  {
    n as real / m as real
  }

  ghost predicate InRange(samples: seq<Sample>, n: nat) {
    forall k :: 0 <= k < |samples| ==> 0 <= samples[k].at < n && 0.0 < samples[k].weight <= 1.0
  }

  lemma Parts(a: real, b: real, s: real)
    ensures a * s + b * s == (a + b) * s
  {
  }

  /** A pixel boundary within the grid lies within the cells. */
  lemma BoundaryInRange(p: nat, n: nat, m: nat)
    requires 0 < m && p <= m
    ensures 0.0 <= p as real * Scale(n, m) <= n as real
    ensures p < m && n > 0 ==> p as real * Scale(n, m) < n as real
  {
    var s, a, b := Scale(n, m), p as real, (m - p) as real;
    Divided(n as real, m as real);
    Parts(a, b, s);
    assert a * s + b * s == n as real;
    NonNegative(s, m as real);
    Product(a, s);
    Product(b, s);
    if p < m && n > 0 {
      PositiveFactor(s, m as real);
      Positive(b, s);
    }
  }

  lemma Product(a: real, b: real)
    requires a >= 0.0 && b >= 0.0
    ensures a * b >= 0.0
  {
  }

  lemma Positive(a: real, b: real)
    requires a > 0.0 && b > 0.0
    ensures a * b > 0.0
  {
  }

  lemma {:induction false} WholeInRange(first: int, end: int, n: nat)
    requires 0 <= first && end <= n
    ensures InRange(Whole(first, end), n)
    decreases end - first
  {
    if first < end { WholeInRange(first, end - 1, n); }
  }

  lemma SamplesParts(p: nat, n: nat, scale: real, lo: real, hi: real)
    requires lo == p as real * scale && hi == (p + 1) as real * scale
    requires 0 <= lo.Floor < n && 0 <= hi.Floor <= n
    ensures InRange(Samples(p, n, scale), n) && Samples(p, n, scale) != []
  {
    var first, whole := [Sample(lo.Floor, Above(lo))], Whole(lo.Floor + 1, hi.Floor);
    var last := if hi.Floor < n then [Sample(hi.Floor, Above(hi))] else [];
    WholeInRange(lo.Floor + 1, hi.Floor, n);
    assert InRange(first, n) && InRange(last, n);
    assert Samples(p, n, scale) == first + whole + last;
  }

  /** Every sampled cell exists and has a weight above 0 and at most 1. */
  lemma SamplesInRange(p: nat, n: nat, m: nat)
    requires p < m && n > 0
    ensures InRange(Samples(p, n, Scale(n, m)), n) && Samples(p, n, Scale(n, m)) != []
  {
    var lo := p as real * Scale(n, m);
    var hi := (p + 1) as real * Scale(n, m);
    BoundaryInRange(p, n, m);
    BoundaryInRange(p + 1, n, m);
    SamplesParts(p, n, Scale(n, m), lo, hi);
  }

  /** The samples of one row of cells. */
  function GridRow(row: Sample, columns: seq<Sample>, w: nat): seq<Sample> {
    seq(|columns|, k requires 0 <= k < |columns| => Sample(row.at * w + columns[k].at, row.weight * columns[k].weight))
  }

  function Grid(rows: seq<Sample>, columns: seq<Sample>, w: nat): seq<Sample> {
    if rows == [] then [] else Grid(rows[..|rows| - 1], columns, w) + GridRow(rows[|rows| - 1], columns, w)
  }

  lemma ProductInUnit(a: real, b: real)
    requires 0.0 < a <= 1.0 && 0.0 < b <= 1.0
    ensures 0.0 < a * b <= 1.0
  {
    Positive(a, b);
    Product(1.0 - a, b);
    assert (1.0 - a) * b == b - a * b;
  }

  lemma {:induction false} GridInRange(rows: seq<Sample>, columns: seq<Sample>, w: nat, h: nat)
    requires InRange(rows, h) && InRange(columns, w)
    ensures InRange(Grid(rows, columns, w), w * h)
    ensures rows != [] && columns != [] ==> Grid(rows, columns, w) != []
  {
    if rows != [] {
      var n := |rows| - 1;
      GridInRange(rows[..n], columns, w, h);
      RowInRange(rows[n], columns, w, h);
    }
  }

  lemma RowInRange(row: Sample, columns: seq<Sample>, w: nat, h: nat)
    requires 0 <= row.at < h && 0.0 < row.weight <= 1.0 && InRange(columns, w)
    ensures InRange(GridRow(row, columns, w), w * h)
  {
    forall k | 0 <= k < |columns|
      ensures 0 <= row.at * w + columns[k].at < w * h && 0.0 < row.weight * columns[k].weight <= 1.0
    {
      CellInBounds(columns[k].at, row.at, w, h);
      ProductInUnit(row.weight, columns[k].weight);
    }
  }

  // ---------------------------------------------------------------------------
  // The coefficient
  // ---------------------------------------------------------------------------

  function Total(samples: seq<Sample>): real {
    if samples == [] then 0.0 else Total(samples[..|samples| - 1]) + samples[|samples| - 1].weight
  }

  function Weighted(bits: seq<bool>, samples: seq<Sample>): real
    requires forall k :: 0 <= k < |samples| ==> 0 <= samples[k].at < |bits|
  {
    if samples == [] then 0.0
    else
      var last := samples[|samples| - 1];
      Weighted(bits, samples[..|samples| - 1]) + if bits[last.at] then last.weight else 0.0
  }

  /** All the cells that pixel `(j, i)` of a `w` times `h` picture samples, with their weights. */
  function PixelSamples(t: Tiles, j: nat, i: nat, w: nat, h: nat): seq<Sample>
    requires w > 0 && h > 0
  {
    Grid(Samples(i, t.h, Scale(t.h, h)), Samples(j, t.w, Scale(t.w, w)), t.w)
  }

  lemma PixelInRange(t: Tiles, j: nat, i: nat, w: nat, h: nat)
    requires t.Valid() && t.w > 0 && t.h > 0 && j < w && i < h
    ensures InRange(PixelSamples(t, j, i, w, h), |t.bits|) && PixelSamples(t, j, i, w, h) != []
  {
    SamplesInRange(i, t.h, h);
    SamplesInRange(j, t.w, w);
    GridInRange(Samples(i, t.h, Scale(t.h, h)), Samples(j, t.w, Scale(t.w, w)), t.w, t.h);
  }

  function Coefficient(t: Tiles, j: nat, i: nat, w: nat, h: nat): real
    requires t.Valid() && j < w && i < h
  {
    if t.w > 0 && t.h > 0 then
      PixelInRange(t, j, i, w, h);
      var samples := PixelSamples(t, j, i, w, h);
      if Weighted(t.bits, samples) > 0.0 && Total(samples) > 0.0 then Weighted(t.bits, samples) / Total(samples)
        else 0.0
    else 0.0
  }

  /** All sampled cells are marked. */
  ghost predicate AllMarked(bits: seq<bool>, samples: seq<Sample>)
    requires forall k :: 0 <= k < |samples| ==> 0 <= samples[k].at < |bits|
  {
    forall k :: 0 <= k < |samples| ==> bits[samples[k].at]
  }

  lemma {:induction false} WeightedBounds(bits: seq<bool>, samples: seq<Sample>)
    requires InRange(samples, |bits|)
    ensures 0.0 <= Weighted(bits, samples) <= Total(samples)
    ensures Weighted(bits, samples) == Total(samples) <==> AllMarked(bits, samples)
    ensures samples != [] ==> Total(samples) > 0.0
  {
    if samples != [] {
      var n := |samples| - 1;
      WeightedBounds(bits, samples[..n]);
      assert AllMarked(bits, samples) <==> AllMarked(bits, samples[..n]) && bits[samples[n].at] by {
        assert forall k :: 0 <= k < n ==> samples[..n][k] == samples[k];
      }
    }
  }

  lemma AddSample(bits: seq<bool>, before: seq<Sample>, row: Sample, columns: seq<Sample>, w: nat, k: nat)
    requires InRange(before, |bits|) && InRange(GridRow(row, columns, w), |bits|) && k < |columns|
    ensures 0 <= row.at * w + columns[k].at < |bits|
    ensures var cells := GridRow(row, columns, w); var weight := row.weight * columns[k].weight;
            && Total(before + cells[..k + 1]) == Total(before + cells[..k]) + weight
            && Weighted(bits, before + cells[..k + 1])
               == Weighted(bits, before + cells[..k]) + if bits[row.at * w + columns[k].at] then weight else 0.0
  {
    var cells := GridRow(row, columns, w);
    var now := before + cells[..k + 1];
    assert cells[k] == Sample(row.at * w + columns[k].at, row.weight * columns[k].weight);
    assert now[..|now| - 1] == before + cells[..k] && now[|now| - 1] == cells[k];
  }

  lemma {:induction false} WeightedMonotone(bits: seq<bool>, bits': seq<bool>, samples: seq<Sample>)
    requires |bits| == |bits'| && InRange(samples, |bits|)
    requires forall k :: 0 <= k < |bits| && bits[k] ==> bits'[k]
    ensures Weighted(bits, samples) <= Weighted(bits', samples)
  {
    if samples != [] { WeightedMonotone(bits, bits', samples[..|samples| - 1]); }
  }

  lemma Divided(a: real, c: real)
    requires c > 0.0
    ensures a / c * c == a
  {
  }

  lemma Quotient(a: real, b: real, c: real)
    requires 0.0 <= a <= b <= c && 0.0 < c
    ensures 0.0 <= a / c <= b / c <= 1.0
    ensures a / c == 1.0 <==> a == c
  {
    var x, y := a / c, b / c;
    Divided(a, c);
    Divided(b, c);
    assert x * c == a && y * c == b;
    assert (y - x) * c == y * c - x * c == b - a;
    assert (1.0 - y) * c == c - y * c == c - b;
    assert (1.0 - x) * c == c - x * c == c - a;
    NonNegative(y - x, c);
    NonNegative(1.0 - y, c);
    NonNegative(x, c);
    if a == c { NonNegative(x - 1.0, c); }
  }

  lemma NonNegative(x: real, c: real)
    requires c > 0.0 && x * c >= 0.0
    ensures x >= 0.0
  {
    if x < 0.0 { Positive(-x, c); }
  }

  /** The coefficient lies between 0 and 1, and is 1 exactly when every sampled cell is marked. */
  lemma CoefficientMeaning(t: Tiles, j: nat, i: nat, w: nat, h: nat)
    requires t.Valid() && t.w > 0 && t.h > 0 && j < w && i < h
    ensures InRange(PixelSamples(t, j, i, w, h), |t.bits|)
    ensures 0.0 <= Coefficient(t, j, i, w, h) <= 1.0
    ensures Coefficient(t, j, i, w, h) == 1.0 <==> AllMarked(t.bits, PixelSamples(t, j, i, w, h))
  {
    PixelInRange(t, j, i, w, h);
    var samples := PixelSamples(t, j, i, w, h);
    WeightedBounds(t.bits, samples);
    Quotient(Weighted(t.bits, samples), Total(samples), Total(samples));
  }

  /** Marking a cell of a board of the same size never lowers a coefficient. */
  lemma MarkingNeverLowers(t: Tiles, x: nat, y: nat, j: nat, i: nat, w: nat, h: nat)
    requires t.Valid() && x < t.w && y < t.h && j < w && i < h
    ensures Coefficient(t, j, i, w, h) <= Coefficient(Mark(t, x, y, t.w, t.h), j, i, w, h)
  {
    PixelInRange(t, j, i, w, h);
    var t1 := Mark(t, x, y, t.w, t.h);
    var samples := PixelSamples(t, j, i, w, h);
    assert samples == PixelSamples(t1, j, i, w, h);
    WeightedMonotone(t.bits, t1.bits, samples);
    WeightedBounds(t.bits, samples);
    WeightedBounds(t1.bits, samples);
    Quotient(Weighted(t.bits, samples), Weighted(t1.bits, samples), Total(samples));
  }

  // ---------------------------------------------------------------------------
  // Which cells a pixel shows
  // ---------------------------------------------------------------------------

  /** Cell `c` of `n` overlaps or touches pixel `p` of `m`, in whole numbers. */
  predicate InWindow(c: nat, p: nat, n: nat, m: nat)
    requires m > 0
  {
    p * n / m <= c <= (p + 1) * n / m
  }

  lemma QuotientBounds(a: nat, m: nat)
    requires m > 0
    ensures a / m * m <= a < a / m * m + m
  {
  }

  lemma ScaledBack(p: nat, n: nat, m: nat, x: real)
    requires m > 0 && x == p as real * Scale(n, m)
    ensures x * m as real == (p * n) as real
  {
    var s := Scale(n, m);
    Divided(n as real, m as real);
    assert x * m as real == p as real * (s * m as real);
    assert p as real * n as real == (p * n) as real;
  }

  lemma UnitBetween(x: real, q: real, c: real, xc: real, qc: real)
    requires c > 0.0 && xc == x * c && qc == q * c && qc <= xc < qc + c
    ensures q <= x < q + 1.0
  {
    assert (x - q) * c == xc - qc;
    NonNegative(x - q, c);
    assert (q + 1.0 - x) * c == qc + c - xc;
    PositiveFactor(q + 1.0 - x, c);
  }

  lemma RealProduct(a: int, b: int, c: int)
    requires c == a * b
    ensures c as real == a as real * b as real
  {
  }

  lemma RealBetween(a: int, k: int, m: int)
    requires k <= a < k + m
    ensures k as real <= a as real < k as real + m as real
  {
  }

  lemma FloorOfQuotient(x: real, a: int, q: int, k: int, m: nat)
    requires m > 0 && x * m as real == a as real && k == q * m && k <= a < k + m
    ensures x.Floor == q
  {
    RealBetween(a, k, m);
    RealProduct(q, m, k);
    UnitBetween(x, q as real, m as real, a as real, k as real);
  }

  lemma FloorOfScaled(p: nat, n: nat, m: nat, x: real, q: int)
    requires m > 0 && x == p as real * Scale(n, m) && q == p * n / m
    ensures x.Floor == q
  {
    ScaledBack(p, n, m, x);
    QuotientBounds(p * n, m);
    FloorOfQuotient(x, p * n, q, q * m, m);
  }

  lemma PositiveFactor(x: real, c: real)
    requires c > 0.0 && x * c > 0.0
    ensures x > 0.0
  {
    if x <= 0.0 { Product(-x, c); }
  }

  ghost predicate Has(samples: seq<Sample>, c: int) {
    exists k :: 0 <= k < |samples| && samples[k].at == c
  }

  lemma HasConcat(a: seq<Sample>, b: seq<Sample>, c: int)
    ensures Has(a + b, c) <==> Has(a, c) || Has(b, c)
  {
    if k :| 0 <= k < |a| && a[k].at == c { assert (a + b)[k].at == c; }
    if k :| 0 <= k < |b| && b[k].at == c { assert (a + b)[|a| + k].at == c; }
  }

  lemma HasOne(x: Sample, c: int)
    ensures Has([x], c) <==> x.at == c
  {
    assert [x][0] == x;
  }

  lemma {:induction false} HasWhole(first: int, end: int, c: int)
    ensures Has(Whole(first, end), c) <==> first <= c < end
    decreases end - first
  {
    if first < end {
      HasWhole(first, end - 1, c);
      HasOne(Sample(end - 1, 1.0), c);
      HasConcat(Whole(first, end - 1), [Sample(end - 1, 1.0)], c);
    }
  }

  lemma HasSample(p: nat, n: nat, scale: real, lo: real, hi: real, c: nat)
    requires lo == p as real * scale && hi == (p + 1) as real * scale && lo.Floor <= hi.Floor && c < n
    ensures Has(Samples(p, n, scale), c) <==> lo.Floor <= c <= hi.Floor
  {
    var first, whole := [Sample(lo.Floor, Above(lo))], Whole(lo.Floor + 1, hi.Floor);
    var last := if hi.Floor < n then [Sample(hi.Floor, Above(hi))] else [];
    HasOne(Sample(lo.Floor, Above(lo)), c);
    HasOne(Sample(hi.Floor, Above(hi)), c);
    HasWhole(lo.Floor + 1, hi.Floor, c);
    HasConcat(first, whole, c);
    HasConcat(first + whole, last, c);
  }

  /** Along an axis, exactly the cells in the window of a pixel are sampled. */
  lemma SampledIffInWindow(p: nat, n: nat, m: nat, c: nat)
    requires p < m && c < n
    ensures Has(Samples(p, n, Scale(n, m)), c) <==> InWindow(c, p, n, m)
  {
    var scale := Scale(n, m);
    var lo, hi := p as real * scale, (p + 1) as real * scale;
    WindowEdges(p, n, m, lo, hi);
    HasSample(p, n, scale, lo, hi, c);
  }

  /** The cells in which the edges of a pixel lie. */
  lemma WindowEdges(p: nat, n: nat, m: nat, lo: real, hi: real)
    requires m > 0 && lo == p as real * Scale(n, m) && hi == (p + 1) as real * Scale(n, m)
    ensures lo.Floor == p * n / m && hi.Floor == (p + 1) * n / m && lo.Floor <= hi.Floor
  {
    WindowOrdered(p, n, m);
    FloorOfScaled(p, n, m, lo, p * n / m);
    FloorOfScaled(p + 1, n, m, hi, (p + 1) * n / m);
  }

  lemma WindowOrdered(p: nat, n: nat, m: nat)
    requires m > 0
    ensures p * n / m <= (p + 1) * n / m
  {
    var q, r := p * n / m, (p + 1) * n / m;
    QuotientBounds(p * n, m);
    QuotientBounds((p + 1) * n, m);
    assert (p + 1) * n == p * n + n;
    if r < q { ProductGrows(r, q, m); }
  }

  lemma AtMost(a: nat, b: nat, m: nat)
    requires a * m < b * m + m
    ensures a <= b
  {
    if b < a { ProductGrows(b, a, m); }
  }

  lemma WindowAround(c: nat, p: nat, n: nat, m: nat)
    requires m > 0 && p * n <= c * m < p * n + n
    ensures InWindow(c, p, n, m)
  {
    var a, b := p * n, (p + 1) * n;
    assert b == a + n;
    QuotientBounds(a, m);
    QuotientBounds(b, m);
    AtMost(a / m, c, m);
    AtMost(c, b / m, m);
  }

  /** Every cell is in the window of some pixel. */
  lemma CellInWindow(c: nat, n: nat, m: nat) returns (p: nat)
    requires c < n && m > 0
    ensures p < m && InWindow(c, p, n, m)
  {
    p := c * m / n;
    QuotientBounds(c * m, n);
    WindowAround(c, p, n, m);
    ProductGrows(c, n, m);
    assert (m - 1) * n + n == n * m;
    AtMost(p, m - 1, n);
  }

  /** A grid is all marked exactly when each sampled row meets each sampled column in a marked cell. */
  lemma {:induction false} GridMarked(t: Tiles, rows: seq<Sample>, columns: seq<Sample>)
    requires t.Valid() && InRange(rows, t.h) && InRange(columns, t.w)
    ensures InRange(Grid(rows, columns, t.w), |t.bits|)
    ensures AllMarked(t.bits, Grid(rows, columns, t.w)) <==>
            forall b: nat, a: nat :: b < t.h && a < t.w && Has(rows, b) && Has(columns, a) ==> Marked(t, a, b)
  {
    GridInRange(rows, columns, t.w, t.h);
    if rows != [] {
      var n := |rows| - 1;
      var head, row := rows[..n], rows[n];
      GridMarked(t, head, columns);
      RowMarkedIff(t, row, columns);
      var g, r := Grid(head, columns, t.w), GridRow(row, columns, t.w);
      RowInRange(row, columns, t.w, t.h);
      MarkedConcat(t.bits, g, r);
      assert rows == head + [row];
      forall b: int ensures Has(rows, b) <==> Has(head, b) || b == row.at {
        HasConcat(head, [row], b);
        HasOne(row, b);
      }
    }
  }

  lemma MarkedConcat(bits: seq<bool>, a: seq<Sample>, b: seq<Sample>)
    requires InRange(a, |bits|) && InRange(b, |bits|)
    ensures AllMarked(bits, a + b) <==> AllMarked(bits, a) && AllMarked(bits, b)
  {
    var c := a + b;
    if AllMarked(bits, c) {
      forall k | 0 <= k < |a| ensures bits[a[k].at] { assert c[k] == a[k]; }
      forall k | 0 <= k < |b| ensures bits[b[k].at] { assert c[|a| + k] == b[k]; }
    }
  }

  lemma RowMarkedIff(t: Tiles, row: Sample, columns: seq<Sample>)
    requires t.Valid() && InRange([row], t.h) && InRange(columns, t.w)
    ensures 0 <= row.at < t.h && InRange(GridRow(row, columns, t.w), |t.bits|)
    ensures AllMarked(t.bits, GridRow(row, columns, t.w)) <==>
            forall a: nat :: a < t.w && Has(columns, a) ==> Marked(t, a, row.at)
  {
    assert [row][0] == row;
    RowInRange(row, columns, t.w, t.h);
    var cells := GridRow(row, columns, t.w);
    if AllMarked(t.bits, cells) {
      forall a: nat | a < t.w && Has(columns, a) ensures Marked(t, a, row.at) {
        var k :| 0 <= k < |columns| && columns[k].at == a;
        assert t.bits[cells[k].at];
      }
    }
    if forall a: nat :: a < t.w && Has(columns, a) ==> Marked(t, a, row.at) {
      forall k | 0 <= k < |cells| ensures t.bits[cells[k].at] {
        assert Has(columns, columns[k].at);
        assert Marked(t, columns[k].at, row.at);
      }
    }
  }

  /** A pixel is entirely filled exactly when every cell it overlaps or touches is marked. */
  lemma FilledIffWindowMarked(t: Tiles, j: nat, i: nat, w: nat, h: nat)
    requires t.Valid() && t.w > 0 && t.h > 0 && j < w && i < h
    ensures Coefficient(t, j, i, w, h) == 1.0 <==>
            forall b: nat, a: nat :: b < t.h && a < t.w && InWindow(b, i, t.h, h) && InWindow(a, j, t.w, w) ==>
              Marked(t, a, b)
  {
    var rows, columns := Samples(i, t.h, Scale(t.h, h)), Samples(j, t.w, Scale(t.w, w));
    SamplesInRange(i, t.h, h);
    SamplesInRange(j, t.w, w);
    CoefficientMeaning(t, j, i, w, h);
    GridMarked(t, rows, columns);
    forall b: nat | b < t.h ensures Has(rows, b) <==> InWindow(b, i, t.h, h) { SampledIffInWindow(i, t.h, h, b); }
    forall a: nat | a < t.w ensures Has(columns, a) <==> InWindow(a, j, t.w, w) { SampledIffInWindow(j, t.w, w, a); }
  }

  /** At any resolution, the whole picture is filled exactly when the whole board is marked. */
  lemma FilledIffAllMarked(t: Tiles, w: nat, h: nat)
    requires t.Valid() && t.w > 0 && t.h > 0 && w > 0 && h > 0
    ensures (forall j: nat, i: nat :: j < w && i < h ==> Coefficient(t, j, i, w, h) == 1.0) <==>
            (forall a: nat, b: nat :: a < t.w && b < t.h ==> Marked(t, a, b))
  {
    if forall j: nat, i: nat :: j < w && i < h ==> Coefficient(t, j, i, w, h) == 1.0 {
      forall a: nat, b: nat | a < t.w && b < t.h ensures Marked(t, a, b) {
        var j := CellInWindow(a, t.w, w);
        var i := CellInWindow(b, t.h, h);
        FilledIffWindowMarked(t, j, i, w, h);
      }
    }
    if forall a: nat, b: nat :: a < t.w && b < t.h ==> Marked(t, a, b) {
      forall j: nat, i: nat | j < w && i < h ensures Coefficient(t, j, i, w, h) == 1.0 {
        FilledIffWindowMarked(t, j, i, w, h);
      }
    }
  }

  /** What is left of a cell above the edge of pixel `p`, in whole numbers. */
  lemma AboveMeaning(p: nat, n: nat, m: nat, x: real, rest: int)
    requires m > 0 && x == p as real * Scale(n, m) && rest == m - p * n % m
    ensures Above(x) * m as real == rest as real
  {
    var q := p * n / m;
    ScaledBack(p, n, m, x);
    FloorOfScaled(p, n, m, x, q);
    QuotientBounds(p * n, m);
    RealProduct(q, m, q * m);
    AboveTimes(x, q as real, m as real, (p * n) as real, (q * m) as real);
  }

  lemma AboveTimes(x: real, q: real, c: real, xc: real, qc: real)
    requires xc == x * c && qc == q * c
    ensures (1.0 - x + q) * c == c - xc + qc
  {
  }

  /** The cells that a pixel samples along an axis, from that of its lower edge to that of its upper one. */
  lemma SamplesOneByOne(p: nat, n: nat, scale: real, lo: real, hi: real, s: seq<Sample>, a: int, b: int)
    requires lo == p as real * scale && hi == (p + 1) as real * scale && a == lo.Floor && b == hi.Floor
    requires s == Samples(p, n, scale)
    ensures |s| == (if a < b then b - a else 1) + (if b < n then 1 else 0) > 0
    ensures s[0] == Sample(a, Above(lo))
    ensures forall k :: 0 < k < b - a ==> s[k] == Sample(a + k, 1.0)
    ensures b < n ==> s[|s| - 1] == Sample(b, Above(hi))
  {
    WholeAt(a + 1, b);
    var first, whole := [Sample(a, Above(lo))], Whole(a + 1, b);
    var last := if b < n then [Sample(b, Above(hi))] else [];
    assert s == first + whole + last;
    forall k | 0 < k < b - a ensures s[k] == Sample(a + k, 1.0) { assert s[k] == whole[k - 1]; }
  }

  lemma {:induction false} WholeAt(first: int, end: int)
    ensures |Whole(first, end)| == (if first < end then end - first else 0)
    ensures forall k :: 0 <= k < |Whole(first, end)| ==> Whole(first, end)[k] == Sample(first + k, 1.0)
    decreases end - first
  {
    if first < end { WholeAt(first, end - 1); }
  }

  /** The middle pixel of nine, of a board of two by two with one cell marked, is one ninth full. */
  lemma NinthExample()
    ensures Coefficient(Tiles([true, false, false, false], 2, 2), 1, 1, 3, 3) == 1.0 / 9.0
  {
    var t := Tiles([true, false, false, false], 2, 2);
    var third, x, y := 1.0 / 3.0, Sample(0, 1.0 / 3.0), Sample(1, 2.0 / 3.0);
    ThirdSamples();
    assert GridRow(x, [x, y], 2) == [Sample(0, third * third), Sample(1, third * (2.0 / 3.0))];
    assert GridRow(y, [x, y], 2) == [Sample(2, third * (2.0 / 3.0)), Sample(3, (2.0 / 3.0) * (2.0 / 3.0))];
    assert [x, y][..1] == [x] && [x][..0] == [];
    assert Grid([x], [x, y], 2) == [] + GridRow(x, [x, y], 2);
    assert PixelSamples(t, 1, 1, 3, 3) == NinthCells();
    NinthSums();
  }

  function NinthCells(): seq<Sample> {
    [Sample(0, 1.0 / 9.0), Sample(1, 2.0 / 9.0), Sample(2, 2.0 / 9.0), Sample(3, 4.0 / 9.0)]
  }

  lemma OneMoreSample(bits: seq<bool>, s: seq<Sample>, x: Sample)
    requires InRange(s + [x], |bits|)
    ensures InRange(s, |bits|) && 0 <= x.at < |bits|
    ensures Total(s + [x]) == Total(s) + x.weight
    ensures Weighted(bits, s + [x]) == Weighted(bits, s) + if bits[x.at] then x.weight else 0.0
  {
    assert (s + [x])[..|s|] == s && (s + [x])[|s|] == x;
    assert forall k :: 0 <= k < |s| ==> (s + [x])[k] == s[k];
  }

  lemma NinthSums()
    ensures Total(NinthCells()) == 1.0 && Weighted([true, false, false, false], NinthCells()) == 1.0 / 9.0
  {
    var bits, c := [true, false, false, false], NinthCells();
    OneMoreSample(bits, c[..3], c[3]);
    OneMoreSample(bits, c[..2], c[2]);
    OneMoreSample(bits, c[..1], c[1]);
    OneMoreSample(bits, [], c[0]);
    assert c[..3] + [c[3]] == c && c[..2] + [c[2]] == c[..3] && c[..1] + [c[1]] == c[..2] && [] + [c[0]] == c[..1];
  }

  lemma ThirdSamples()
    ensures Samples(1, 2, Scale(2, 3)) == [Sample(0, 1.0 / 3.0), Sample(1, 2.0 / 3.0)]
  {
    assert Whole(1, 1) == [];
  }

  datatype Shade = Empty | Light | Medium | Dark | Full

  function Glyph(c: real): Shade {
    if c < 0.05 then Empty else if c < 0.35 then Light else if c < 0.65 then Medium else if c < 0.95 then Dark else Full
  }

  /** How dark a shade is. */
  function Darkness(g: Shade): nat {
    match g case Empty => 0 case Light => 1 case Medium => 2 case Dark => 3 case Full => 4
  }

  function Reached(c: real, threshold: real): nat { if threshold <= c then 1 else 0 }

  /** The shade is as dark as there are thresholds reached. */
  lemma GlyphMeaning(c: real)
    ensures Darkness(Glyph(c)) == Reached(c, 0.05) + Reached(c, 0.35) + Reached(c, 0.65) + Reached(c, 0.95)
  {
  }

  lemma DarkerWithMore(c: real, d: real)
    requires c <= d
    ensures Darkness(Glyph(c)) <= Darkness(Glyph(d))
  {
  }

  /** Marking a cell of a board of the same size never makes a pixel lighter. */
  lemma MarkingNeverLightens(t: Tiles, x: nat, y: nat, j: nat, i: nat, w: nat, h: nat)
    requires t.Valid() && x < t.w && y < t.h && j < w && i < h
    ensures Darkness(Glyph(Coefficient(t, j, i, w, h))) <=
            Darkness(Glyph(Coefficient(Mark(t, x, y, t.w, t.h), j, i, w, h)))
  {
    MarkingNeverLowers(t, x, y, j, i, w, h);
    DarkerWithMore(Coefficient(t, j, i, w, h), Coefficient(Mark(t, x, y, t.w, t.h), j, i, w, h));
  }

  /** Once every tile has been reported with the same sizes, every pixel is the full block. */
  lemma AllReportedIsFull(t: Tiles, tiles: seq<(nat, nat)>, bw: nat, bh: nat, s: nat, j: nat, i: nat, w: nat, h: nat)
    requires bw > 0 && bh > 0 && s > 0 && AllReported(tiles, bw, bh, s) && j < w && i < h
    ensures Report(t, tiles, bw, bh, s).Valid()
    ensures Glyph(Coefficient(Report(t, tiles, bw, bh, s), j, i, w, h)) == Full
  {
    assert s * 0 < bw && s * 0 < bh;
    assert (0, 0) in tiles;
    ReportSizes(t, tiles, bw, bh, s);
    var r := Report(t, tiles, bw, bh, s);
    assert Sized(r, bw, bh) == r;
    forall a: nat, b: nat | a < bw && b < bh ensures Marked(r, a, b) {
      ReportMarks(t, tiles, bw, bh, s, a, b);
      AllCovered(tiles, bw, bh, s, a, b);
    }
    FilledIffAllMarked(r, w, h);
  }

  /** The dimensions are those of the reports once some tile with a cell on the board was reported. */
  lemma {:induction false} ReportSizes(t: Tiles, tiles: seq<(nat, nat)>, w: nat, h: nat, s: nat)
    requires w > 0 && h > 0 && s > 0 && (0, 0) in tiles
    ensures var r := Report(t, tiles, w, h, s); r.Valid() && r.w == w && r.h == h
    decreases |tiles|
  {
    var n := |tiles| - 1;
    var last := tiles[n];
    var before := Report(t, tiles[..n], w, h, s);
    if (0, 0) in tiles[..n] {
      ReportSizes(t, tiles[..n], w, h, s);
      RowsSized(before, s * last.0, Min(s * (last.0 + 1), w), s * last.1, Min(s * (last.1 + 1), h), w, h);
    } else {
      assert last == (0, 0);
      RowsSized(before, 0, Min(s, w), 0, Min(s, h), w, h);
      assert s * 0 == 0 && s * (0 + 1) == s;
    }
  }

  lemma {:induction false} RowSized(t: Tiles, x: nat, end: nat, y: nat, w: nat, h: nat)
    requires end <= w && y < h
    requires x < end || (t.Valid() && t.w == w && t.h == h)
    ensures var r := MarkRow(t, x, end, y, w, h); r.Valid() && r.w == w && r.h == h
    decreases end - x
  {
    if x < end { RowSized(Mark(t, x, y, w, h), x + 1, end, y, w, h); }
  }

  lemma {:induction false} RowsSized(t: Tiles, x: nat, xEnd: nat, y: nat, yEnd: nat, w: nat, h: nat)
    requires xEnd <= w && yEnd <= h
    requires (x < xEnd && y < yEnd) || (t.Valid() && t.w == w && t.h == h)
    ensures var r := MarkRows(t, x, xEnd, y, yEnd, w, h); r.Valid() && r.w == w && r.h == h
    decreases yEnd - y
  {
    if y < yEnd {
      RowSized(t, x, xEnd, y, w, h);
      RowsSized(MarkRow(t, x, xEnd, y, w, h), x, xEnd, y + 1, yEnd, w, h);
    }
  }

  // ---------------------------------------------------------------------------
  // The object
  // ---------------------------------------------------------------------------

  /** Calls on each sample along one axis, gathered in a list. */
  method ForEachSample(p: nat, n: nat, scale: real) returns (samples: seq<Sample>)
    ensures samples == Samples(p, n, scale)
  {
    var minp := p as real * scale;
    var pb := minp.Floor;
    samples := [Sample(pb, 1.0 - minp + minp.Floor as real)];
    var maxp := (p + 1) as real * scale;
    var pe := maxp.Floor;
    var pi := pb + 1;
    ghost var first := samples;
    assert first + Whole(pb + 1, pi) == samples;
    while pi < pe
      invariant samples == first + Whole(pb + 1, pi) && (pi <= pe || pi == pb + 1)
      decreases pe - pi
    {
      samples := samples + [Sample(pi, 1.0)];
      pi := pi + 1;
    }
    assert Whole(pb + 1, pi) == Whole(pb + 1, pe);
    if pe < n {
      samples := samples + [Sample(pe, 1.0 - maxp + maxp.Floor as real)];
    }
  }

  class TilingState {
    var bits: seq<bool>
    var w: nat
    var h: nat

    ghost function Snap(): Tiles
      reads this
    {
      Tiles(bits, w, h)
    }

    constructor ()
      ensures Snap() == Tiles([], 0, 0) && Snap().Valid()
    {
      bits, w, h := [], 0, 0;
    }

    method MarkCellDone(x: nat, y: nat, w: nat, h: nat)
      requires x < w && y < h
      modifies this
      ensures Snap() == Mark(old(Snap()), x, y, w, h)
    {
      var size := w * h;
      if this.w != w || this.h != h || |bits| != size {
        bits := seq(size, _ => false);
        this.w := w;
        this.h := h;
      }
      CellInBounds(x, y, w, h);
      bits := bits[y * w + x := true];
    }

    /** The marking loops for a solved board. */
    method MarkSolved(x: nat, y: nat, w: nat, h: nat, s: nat)
      modifies this
      ensures Snap() == Solved(old(Snap()), x, y, w, h, s)
    {
      var x0, xEnd := s * x, Min(s * (x + 1), w);
      var y0, yEnd := s * y, Min(s * (y + 1), h);
      var cy := y0;
      while cy < yEnd
        invariant MarkRows(Snap(), x0, xEnd, cy, yEnd, w, h) == MarkRows(old(Snap()), x0, xEnd, y0, yEnd, w, h)
        decreases yEnd - cy
      {
        ghost var before := Snap();
        var cx := x0;
        while cx < xEnd
          invariant MarkRow(Snap(), cx, xEnd, cy, w, h) == MarkRow(before, x0, xEnd, cy, w, h)
          decreases xEnd - cx
        {
          MarkCellDone(cx, cy, w, h);
          cx := cx + 1;
        }
        cy := cy + 1;
      }
    }

    method PixelCoef(j: nat, i: nat, w: nat, h: nat) returns (coef: real)
      requires Snap().Valid() && j < w && i < h
      ensures coef == Coefficient(Snap(), j, i, w, h)
    {
      if this.w > 0 && this.h > 0 {
        var ws := this.w as real / w as real;
        var hs := this.h as real / h as real;
        var sum, num := 0.0, 0.0;
        var rows := ForEachSample(i, this.h, hs);
        PixelInRange(Snap(), j, i, w, h);
        SamplesInRange(i, this.h, h);
        SamplesInRange(j, this.w, w);
        ghost var all := PixelSamples(Snap(), j, i, w, h);
        assert rows[..0] == [];
        for r := 0 to |rows|
          invariant InRange(Grid(rows[..r], Samples(j, this.w, ws), this.w), |bits|)
          invariant sum == Weighted(bits, Grid(rows[..r], Samples(j, this.w, ws), this.w))
          invariant num == Total(Grid(rows[..r], Samples(j, this.w, ws), this.w))
        {
          var columns := ForEachSample(j, this.w, ws);
          GridInRange(rows[..r + 1], columns, this.w, this.h);
          assert rows[..r + 1][..r] == rows[..r];
          RowInRange(rows[r], columns, this.w, this.h);
          sum, num := AddRow(rows[r], columns, Grid(rows[..r], columns, this.w), sum, num);
        }
        assert rows[..|rows|] == rows;
        if sum > 0.0 && num > 0.0 {
          return sum / num;
        }
      }
      coef := 0.0;
    }

    /** The inner sampling loop, for one sampled row of cells. */
    method AddRow(row: Sample, columns: seq<Sample>, ghost before: seq<Sample>, sum: real, num: real)
      returns (sum1: real, num1: real)
      requires InRange(before, |bits|) && InRange(GridRow(row, columns, w), |bits|)
      requires sum == Weighted(bits, before) && num == Total(before)
      ensures sum1 == Weighted(bits, before + GridRow(row, columns, w))
      ensures num1 == Total(before + GridRow(row, columns, w))
    {
      ghost var cells := GridRow(row, columns, w);
      sum1, num1 := sum, num;
      assert before + cells[..0] == before;
      for k := 0 to |columns|
        invariant sum1 == Weighted(bits, before + cells[..k]) && num1 == Total(before + cells[..k])
      {
        AddSample(bits, before, row, columns, w, k);
        var index := row.at * w + columns[k].at;
        var weight := row.weight * columns[k].weight;
        sum1 := sum1 + if bits[index] then weight else 0.0;
        num1 := num1 + weight;
      }
      assert cells[..|columns|] == cells;
    }

    method PixelGlyph(j: nat, i: nat, w: nat, h: nat) returns (glyph: Shade)
      requires Snap().Valid() && j < w && i < h
      ensures glyph == Glyph(Coefficient(Snap(), j, i, w, h))
    {
      var coef := PixelCoef(j, i, w, h);
      glyph := Glyph(coef);
    }
  }
}
