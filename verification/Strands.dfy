/**
  The text tree of the log server: one vertical strand for each open stream,
  drawn row by row while streams begin, report and finish.
 */
module Strands {
  import opened Sequences

  type StreamId = nat

  datatype Glyph =
    | Margin      // dotted vertical line at the left
    | Blank
    | Bar         // vertical line
    | Foot        // end of a strand, turning right
    | Branch      // strand with a branch to the right
    | Heavy       // horizontal line
    | Tee         // start of a strand under a horizontal line
    | Up          // corner joining above and left
    | Down        // corner joining below and right
    | Edge        // where a box begins
    | Corner      // the same in condensed form

  type Row = seq<Glyph>

  /** The column of the k-th strand. */
  function Column(k: nat): nat { 2 * k + 2 }

  // ---------------------------------------------------------------------------
  // Rows
  // ---------------------------------------------------------------------------

  /** Two glyphs for each strand; `here` for the stream itself, `after` for those behind it. */
  function Cells(streams: seq<StreamId>, id: StreamId, conn: bool, here: Row, after: Row): Row {
    if streams == [] then []
    else if streams[0] == id then here + Cells(streams[1..], id, false, here, after)
    else (if conn then [Blank, Bar] else after) + Cells(streams[1..], id, conn, here, after)
  }

  function Bars(n: nat): Row {
    if n == 0 then [] else [Blank, Bar] + Bars(n - 1)
  }

  function Heavies(n: nat): Row {
    if n == 0 then [] else [Heavy, Heavy] + Heavies(n - 1)
  }

  function RowI(streams: seq<StreamId>): Row { [Margin] + Bars(|streams|) }

  function RowL(streams: seq<StreamId>, id: StreamId): Row {
    [Margin] + Cells(streams, id, true, [Blank, Foot], [Heavy, Heavy]) + [Heavy, Edge]
  }

  function RowZ(streams: seq<StreamId>, id: StreamId, condensed: bool): Row {
    [Margin] + Cells(streams, id, true, [Blank, Branch], [Heavy, Heavy]) + [Heavy, if condensed then Corner else Edge]
  }

  /** The first row after a finished stream: later strands turn left. */
  function RowS(streams: seq<StreamId>, id: StreamId): Row {
    [Margin] + Cells(streams, id, true, [Blank, Blank], [Down, Up])
  }

  /** The second one: they turn left again, one column further. */
  function RowSmallS(streams: seq<StreamId>, id: StreamId): Row {
    [Margin] + Cells(streams, id, true, [Blank], [Down, Up])
  }

  function RowT(streams: seq<StreamId>): Row { [Branch] + Heavies(|streams|) + [Heavy, Tee, Heavy, Edge] }

  method WriteBars(streams: seq<StreamId>) returns (out: Row)
    ensures out == RowI(streams)
  {
    out := [Margin];
    for k := 0 to |streams|
      invariant out + Bars(|streams| - k) == RowI(streams)
    {
      assert out + ([Blank, Bar] + Bars(|streams| - k - 1)) == out + [Blank, Bar] + Bars(|streams| - k - 1);
      out := out + [Blank, Bar];
    }
  }

  method WriteTee(streams: seq<StreamId>) returns (out: Row)
    ensures out == RowT(streams)
  {
    out := [Branch];
    for k := 0 to |streams|
      invariant out + Heavies(|streams| - k) == [Branch] + Heavies(|streams|)
    {
      assert out + ([Heavy, Heavy] + Heavies(|streams| - k - 1)) == out + [Heavy, Heavy] + Heavies(|streams| - k - 1);
      out := out + [Heavy, Heavy];
    }
    out := out + [Heavy, Tee, Heavy, Edge];
  }

  /** The loop shared by the rows that mark one stream, with its flag for the strands not yet passed. */
  method WriteCells(streams: seq<StreamId>, id: StreamId, here: Row, after: Row) returns (out: Row)
    ensures out == [Margin] + Cells(streams, id, true, here, after)
  {
    out := [Margin];
    var conn := true;
    assert streams[0..] == streams;
    for k := 0 to |streams|
      invariant out + Cells(streams[k..], id, conn, here, after) == [Margin] + Cells(streams, id, true, here, after)
    {
      assert streams[k..][1..] == streams[k + 1..];
      ghost var before := out;
      var cell;
      if streams[k] == id {
        cell := here;
        conn := false;
      } else if conn {
        cell := [Blank, Bar];
      } else {
        cell := after;
      }
      out := out + cell;
      assert before + (cell + Cells(streams[k + 1..], id, conn, here, after)) ==
             out + Cells(streams[k + 1..], id, conn, here, after);
    }
  }

  // ---------------------------------------------------------------------------
  // Where the glyphs are
  // ---------------------------------------------------------------------------

  lemma {:induction false} BarsAt(n: nat)
    ensures |Bars(n)| == 2 * n
    ensures forall k :: 0 <= k < n ==> Bars(n)[2 * k] == Blank && Bars(n)[2 * k + 1] == Bar
  {
    if n > 0 {
      BarsAt(n - 1);
      forall k | 0 <= k < n ensures Bars(n)[2 * k] == Blank && Bars(n)[2 * k + 1] == Bar {
        if k > 0 {
          assert Bars(n)[2 * k] == Bars(n - 1)[2 * (k - 1)] && Bars(n)[2 * k + 1] == Bars(n - 1)[2 * (k - 1) + 1];
        }
      }
    }
  }

  lemma {:induction false} HeaviesAt(n: nat)
    ensures |Heavies(n)| == 2 * n && forall c :: 0 <= c < 2 * n ==> Heavies(n)[c] == Heavy
  {
    if n > 0 { HeaviesAt(n - 1); }
  }

  ghost predicate Sorted(streams: seq<StreamId>) {
    forall i, j :: 0 <= i < j < |streams| ==> streams[i] < streams[j]
  }

  function Repeat(cell: Row, n: nat): Row {
    if n == 0 then [] else cell + Repeat(cell, n - 1)
  }

  lemma {:induction false} RepeatAt(a: Glyph, b: Glyph, n: nat)
    ensures |Repeat([a, b], n)| == 2 * n
    ensures forall k :: 0 <= k < n ==> Repeat([a, b], n)[2 * k] == a && Repeat([a, b], n)[2 * k + 1] == b
  {
    if n > 0 {
      RepeatAt(a, b, n - 1);
      forall k | 0 <= k < n ensures Repeat([a, b], n)[2 * k] == a && Repeat([a, b], n)[2 * k + 1] == b {
        if k > 0 {
          assert Repeat([a, b], n)[2 * k] == Repeat([a, b], n - 1)[2 * (k - 1)];
          assert Repeat([a, b], n)[2 * k + 1] == Repeat([a, b], n - 1)[2 * (k - 1) + 1];
        }
      }
    }
  }

  /** Behind the stream itself there are only `after` cells. */
  lemma {:induction false} CellsAfter(streams: seq<StreamId>, id: StreamId, here: Row, after: Row)
    requires id !in streams
    ensures Cells(streams, id, false, here, after) == Repeat(after, |streams|)
  {
    if streams != [] { CellsAfter(streams[1..], id, here, after); }
  }

  /** `f` bars, the marked cell, and `after` cells behind it; only bars when `f` is `n`. */
  function Layout(f: nat, n: nat, here: Row, after: Row): Row
    requires f <= n
  {
    Bars(f) + if f < n then here + Repeat(after, n - f - 1) else []
  }

  lemma {:induction false} CellsLayout(streams: seq<StreamId>, id: StreamId, here: Row, after: Row)
    requires Sorted(streams)
    ensures Cells(streams, id, true, here, after) == Layout(IndexOf(streams, id), |streams|, here, after)
  {
    if streams != [] {
      if streams[0] == id {
        FirstCells(streams, id, here, after);
      } else {
        CellsLayout(streams[1..], id, here, after);
        LayoutStep(IndexOf(streams[1..], id), |streams| - 1, here, after);
      }
    }
  }

  lemma FirstCells(streams: seq<StreamId>, id: StreamId, here: Row, after: Row)
    requires Sorted(streams) && streams != [] && streams[0] == id
    ensures Cells(streams, id, true, here, after) == Layout(0, |streams|, here, after)
  {
    assert id !in streams[1..] by {
      forall i | 0 <= i < |streams[1..]| ensures streams[1..][i] != id { assert streams[0] < streams[i + 1]; }
    }
    CellsAfter(streams[1..], id, here, after);
    assert Bars(0) == [];
  }

  lemma LayoutStep(f: nat, n: nat, here: Row, after: Row)
    requires f <= n
    ensures [Blank, Bar] + Layout(f, n, here, after) == Layout(f + 1, n + 1, here, after)
  {
    assert Bars(f + 1) == [Blank, Bar] + Bars(f);
  }

  /** The columns of a laid out row, behind the margin. */
  lemma LayoutColumns(f: nat, n: nat, here: Row, a: Glyph, b: Glyph)
    requires f <= n && 0 < |here| <= 2
    ensures var row := [Margin] + Layout(f, n, here, [a, b]);
            && |row| == 1 + 2 * n - (if f < n then 2 - |here| else 0)
            && (forall k :: 0 <= k < f ==> row[Column(k)] == Bar)
            && (f < n ==> row[2 * f + |here|] == here[|here| - 1])
            && (forall k :: f < k < n ==> row[Column(k) + |here| - 3] == a && row[Column(k) + |here| - 2] == b)
  {
    var row := [Margin] + Layout(f, n, here, [a, b]);
    var bars := Bars(f);
    BarsAt(f);
    forall k | 0 <= k < f ensures row[Column(k)] == Bar {
      assert row[Column(k)] == bars[2 * k + 1];
    }
    if f < n {
      var rest := Repeat([a, b], n - f - 1);
      RepeatAt(a, b, n - f - 1);
      var start := 1 + 2 * f + |here|;
      assert row == ([Margin] + bars + here) + rest;
      forall k | f < k < n ensures row[Column(k) + |here| - 3] == a && row[Column(k) + |here| - 2] == b {
        var j := k - f - 1;
        assert row[start + 2 * j] == rest[2 * j] && row[start + (2 * j + 1)] == rest[2 * j + 1];
      }
    }
  }

  /** The columns of a row that marks stream `id` with a cell of `here`. */
  lemma RowColumns(streams: seq<StreamId>, id: StreamId, here: Row, a: Glyph, b: Glyph)
    requires Sorted(streams) && 0 < |here| <= 2
    ensures var row := [Margin] + Cells(streams, id, true, here, [a, b]);
            var f := IndexOf(streams, id); var n := |streams|;
            && |row| == 1 + 2 * n - (if f < n then 2 - |here| else 0)
            && (forall k :: 0 <= k < f ==> row[Column(k)] == Bar)
            && (f < n ==> row[2 * f + |here|] == here[|here| - 1])
            && (forall k :: f < k < n ==> row[Column(k) + |here| - 3] == a && row[Column(k) + |here| - 2] == b)
  {
    CellsLayout(streams, id, here, [a, b]);
    LayoutColumns(IndexOf(streams, id), |streams|, here, a, b);
  }

  // ---------------------------------------------------------------------------
  // Strands through the rows
  // ---------------------------------------------------------------------------

  /** Where a strand enters a row from above and leaves it below. */
  datatype Strand = Strand(id: StreamId, top: nat, bottom: nat)

  datatype Drawn = Drawn(row: Row, strands: seq<Strand>)

  /** What may stand where a strand runs straight down; a horizontal line passes in front of it. */
  predicate Straight(g: Glyph) { g == Bar || g == Foot || g == Branch || g == Tee || g == Heavy }

  ghost predicate Shows(row: Row, s: Strand) {
    && s.top < |row| && s.bottom < |row|
    && (if s.top == s.bottom then Straight(row[s.top])
        else s.top == s.bottom + 1 && row[s.top] == Up && row[s.bottom] == Down)
  }

  ghost predicate Faithful(d: Drawn) {
    forall i :: 0 <= i < |d.strands| ==> Shows(d.row, d.strands[i])
  }

  /** A strand that leaves the upper row enters the lower one in the same column. */
  ghost predicate Joined(upper: Drawn, lower: Drawn) {
    forall i, j :: 0 <= i < |upper.strands| && 0 <= j < |lower.strands| &&
                    upper.strands[i].id == lower.strands[j].id ==>
      upper.strands[i].bottom == lower.strands[j].top
  }

  function StraightDown(streams: seq<StreamId>): seq<Strand> {
    seq(|streams|, k requires 0 <= k < |streams| => Strand(streams[k], Column(k), Column(k)))
  }

  /** The strands of the rows behind a finishing stream `f`; `shift` columns have been gained before the row. */
  function TurnLeft(streams: seq<StreamId>, f: nat, shift: nat): seq<Strand>
    requires shift <= 1
  {
    if f >= |streams| then StraightDown(streams)
    else
      seq(|streams| - 1, k requires 0 <= k < |streams| - 1 =>
        if k < f then Strand(streams[k], Column(k), Column(k))
        else Strand(streams[k + 1], Column(k + 1) - shift, Column(k + 1) - shift - 1))
  }

  datatype Event = Begin(id: StreamId) | Message(id: StreamId, condensed: bool) | Finish(id: StreamId)

  /** The open streams in key order, as the map keeps them. */
  function Inserted(streams: seq<StreamId>, id: StreamId): seq<StreamId> {
    if streams == [] then [id]
    else if id < streams[0] then [id] + streams
    else if id == streams[0] then streams
    else [streams[0]] + Inserted(streams[1..], id)
  }

  function Erased(streams: seq<StreamId>, id: StreamId): seq<StreamId> {
    var f := IndexOf(streams, id);
    if f < |streams| then streams[..f] + streams[f + 1..] else streams
  }

  function After(streams: seq<StreamId>, e: Event): seq<StreamId> {
    match e
    case Begin(id) => Inserted(streams, id)
    case Message(_, _) => streams
    case Finish(id) => Erased(streams, id)
  }

  /** The rows drawn for an event. The new stream is drawn behind all open ones. */
  function Draw(streams: seq<StreamId>, e: Event): seq<Drawn> {
    var plain := Drawn(RowI(streams), StraightDown(streams));
    match e
    case Begin(id) =>
      [plain,
       Drawn(RowT(streams), StraightDown(streams + [id])),
       Drawn(RowI(streams) + [Blank, Bar], StraightDown(streams + [id]))]
    case Message(id, condensed) =>
      (if condensed then [] else [plain]) + [Drawn(RowZ(streams, id, condensed), StraightDown(streams)), plain]
    case Finish(id) =>
      var f := IndexOf(streams, id);
      [plain,
       Drawn(RowL(streams, id), StraightDown(streams)),
       Drawn(RowS(streams, id), TurnLeft(streams, f, 0)),
       Drawn(RowSmallS(streams, id), TurnLeft(streams, f, 1))]
  }

  /** In a row that marks one stream, every strand is a bar, the joint, or behind the horizontal line. */
  lemma MarkedRow(streams: seq<StreamId>, id: StreamId, joint: Glyph, tail: Row)
    requires Sorted(streams) && Straight(joint)
    ensures Faithful(Drawn([Margin] + Cells(streams, id, true, [Blank, joint], [Heavy, Heavy]) + tail,
            StraightDown(streams)))
  {
    var cells := [Margin] + Cells(streams, id, true, [Blank, joint], [Heavy, Heavy]);
    var f := IndexOf(streams, id);
    RowColumns(streams, id, [Blank, joint], Heavy, Heavy);
    forall k | 0 <= k < |streams| ensures Shows(cells + tail, StraightDown(streams)[k]) {
      assert f < k ==> Column(k) + 2 - 2 == Column(k);
      assert (cells + tail)[Column(k)] == cells[Column(k)];
    }
  }

  lemma BarRow(streams: seq<StreamId>)
    ensures Faithful(Drawn(RowI(streams), StraightDown(streams)))
  {
    forall k | 0 <= k < |streams| ensures Shows(RowI(streams), StraightDown(streams)[k]) { BarAt(streams, k); }
  }

  lemma StraightRows(streams: seq<StreamId>, id: StreamId, condensed: bool)
    requires Sorted(streams)
    ensures Faithful(Drawn(RowI(streams), StraightDown(streams)))
    ensures Faithful(Drawn(RowL(streams, id), StraightDown(streams)))
    ensures Faithful(Drawn(RowZ(streams, id, condensed), StraightDown(streams)))
  {
    BarRow(streams);
    MarkedRow(streams, id, Foot, [Heavy, Edge]);
    MarkedRow(streams, id, Branch, [Heavy, if condensed then Corner else Edge]);
  }

  lemma JointAt(streams: seq<StreamId>, id: StreamId, joint: Glyph, tail: Row, f: nat)
    requires Sorted(streams) && f < |streams| && f == IndexOf(streams, id)
    ensures var row := [Margin] + Cells(streams, id, true, [Blank, joint], [Heavy, Heavy]) + tail;
            Column(f) < |row| && row[Column(f)] == joint
  {
    CellsLayout(streams, id, [Blank, joint], [Heavy, Heavy]);
    JointInLayout(f, |streams|, joint, tail);
  }

  lemma JointInLayout(f: nat, n: nat, joint: Glyph, tail: Row)
    requires f < n
    ensures var row := [Margin] + Layout(f, n, [Blank, joint], [Heavy, Heavy]) + tail;
            Column(f) < |row| && row[Column(f)] == joint
  {
    LayoutColumns(f, n, [Blank, joint], Heavy, Heavy);
  }

  lemma BarAt(streams: seq<StreamId>, k: nat)
    requires k < |streams|
    ensures Column(k) < |RowI(streams)| && RowI(streams)[Column(k)] == Bar
  {
    BarsAt(|streams|);
    assert RowI(streams)[Column(k)] == Bars(|streams|)[2 * k + 1];
  }

  /** The marked stream's own joint is in the column of its bar. */
  lemma JointInColumn(streams: seq<StreamId>, id: StreamId, condensed: bool)
    requires Sorted(streams) && id in streams
    ensures var column := Column(IndexOf(streams, id));
            && column < |RowI(streams)| && RowI(streams)[column] == Bar
            && column < |RowL(streams, id)| && RowL(streams, id)[column] == Foot
            && column < |RowZ(streams, id, condensed)| && RowZ(streams, id, condensed)[column] == Branch
  {
    var f := IndexOf(streams, id);
    BarAt(streams, f);
    JointAt(streams, id, Foot, [Heavy, Edge], f);
    JointAt(streams, id, Branch, [Heavy, if condensed then Corner else Edge], f);
  }

  lemma TeeRows(streams: seq<StreamId>, id: StreamId)
    ensures Faithful(Drawn(RowT(streams), StraightDown(streams + [id])))
    ensures Faithful(Drawn(RowI(streams) + [Blank, Bar], StraightDown(streams + [id])))
  {
    var n := |streams|;
    HeaviesAt(n);
    BarsAt(n);
    var all := StraightDown(streams + [id]);
    forall k | 0 <= k < |all|
      ensures Shows(RowT(streams), all[k])
      ensures Shows(RowI(streams) + [Blank, Bar], all[k])
    {
      if k < n {
        assert RowT(streams)[Column(k)] == Heavies(n)[2 * k + 1];
        assert (RowI(streams) + [Blank, Bar])[Column(k)] == Bars(n)[2 * k + 1];
      }
    }
  }

  lemma TurningRows(streams: seq<StreamId>, id: StreamId)
    requires Sorted(streams)
    ensures var f := IndexOf(streams, id);
            && Faithful(Drawn(RowS(streams, id), TurnLeft(streams, f, 0)))
            && Faithful(Drawn(RowSmallS(streams, id), TurnLeft(streams, f, 1)))
  {
    var f := IndexOf(streams, id);
    RowColumns(streams, id, [Blank, Blank], Down, Up);
    RowColumns(streams, id, [Blank], Down, Up);
    var s0, s1 := TurnLeft(streams, f, 0), TurnLeft(streams, f, 1);
    forall k | 0 <= k < |s0| ensures Shows(RowS(streams, id), s0[k]) && Shows(RowSmallS(streams, id), s1[k]) {
      if f < |streams| && k >= f {
        var j := k + 1;
        assert f < j < |streams|;
        assert Column(j) + 2 - 3 == Column(j) - 1 && Column(j) + 1 - 3 == Column(j) - 2;
      }
    }
  }

  // ---------------------------------------------------------------------------
  // Whole pictures
  // ---------------------------------------------------------------------------

  ghost predicate WellDrawn(rows: seq<Drawn>) {
    && (forall r :: 0 <= r < |rows| ==> Faithful(rows[r]))
    && (forall r, q :: 0 <= r && q == r + 1 && q < |rows| ==> Joined(rows[r], rows[q]))
  }

  /** The strands of the last row are those of the open streams, and leave it in the columns of their bars. */
  ghost predicate EndsAt(rows: seq<Drawn>, streams: seq<StreamId>) {
    rows != [] ==>
      var last := rows[|rows| - 1].strands;
      |last| == |streams| && forall k :: 0 <= k < |streams| ==> last[k].id == streams[k] && last[k].bottom == Column(k)
  }

  ghost predicate HasOneStrand(d: Drawn, id: StreamId) {
    exists k :: 0 <= k < |d.strands| && d.strands[k].id == id &&
      forall j :: 0 <= j < |d.strands| && d.strands[j].id == id ==> j == k
  }

  /** The stream has exactly one strand in each row. */
  ghost predicate Lined(rows: seq<Drawn>, id: StreamId) {
    forall r :: 0 <= r < |rows| ==> HasOneStrand(rows[r], id)
  }

  function Ids(strands: seq<Strand>): seq<StreamId> {
    seq(|strands|, k requires 0 <= k < |strands| => strands[k].id)
  }

  lemma SortedHasOne(row: Row, strands: seq<Strand>, streams: seq<StreamId>, id: StreamId)
    requires Sorted(streams) && Ids(strands) == streams && id in streams
    ensures HasOneStrand(Drawn(row, strands), id)
  {
    var k :| 0 <= k < |streams| && streams[k] == id;
    forall j | 0 <= j < |strands| && strands[j].id == id ensures j == k {
      assert Ids(strands)[j] == streams[j];
    }
    assert Ids(strands)[k] == strands[k].id;
  }

  lemma StraightIds(streams: seq<StreamId>)
    ensures Ids(StraightDown(streams)) == streams
  {
  }

  lemma TurnIds(streams: seq<StreamId>, id: StreamId, shift: nat)
    requires shift <= 1
    ensures Ids(TurnLeft(streams, IndexOf(streams, id), shift)) == Erased(streams, id)
  {
    var f := IndexOf(streams, id);
    if f >= |streams| {
      StraightIds(streams);
    } else {
      TurnedIds(streams, f, shift);
    }
  }

  lemma TurnedIds(streams: seq<StreamId>, f: nat, shift: nat)
    requires shift <= 1 && f < |streams|
    ensures Ids(TurnLeft(streams, f, shift)) == streams[..f] + streams[f + 1..]
  {
    var ids, rest := Ids(TurnLeft(streams, f, shift)), streams[..f] + streams[f + 1..];
    assert |ids| == |rest|;
    forall k | 0 <= k < |rest| ensures ids[k] == rest[k] { ErasedAt(streams, f, k); }
  }

  lemma StraightJoined(streams: seq<StreamId>, row: Row, row': Row)
    requires Sorted(streams)
    ensures Joined(Drawn(row, StraightDown(streams)), Drawn(row', StraightDown(streams)))
  {
  }

  lemma NewestJoined(streams: seq<StreamId>, id: StreamId, row: Row, row': Row)
    requires Sorted(streams) && forall i :: 0 <= i < |streams| ==> streams[i] < id
    ensures Sorted(streams + [id])
    ensures Joined(Drawn(row, StraightDown(streams)), Drawn(row', StraightDown(streams + [id])))
  {
  }

  /** The streams left when the one at `f` is gone, and where their strands go. */
  lemma ErasedStreams(streams: seq<StreamId>, id: StreamId)
    requires Sorted(streams)
    ensures var f := IndexOf(streams, id); var rest := Erased(streams, id);
            && Sorted(rest) && |rest| == |TurnLeft(streams, f, 0)| == |TurnLeft(streams, f, 1)|
            && forall k :: 0 <= k < |rest| ==>
                 && rest[k] == TurnLeft(streams, f, 0)[k].id == TurnLeft(streams, f, 1)[k].id
                 && TurnLeft(streams, f, 0)[k].bottom == TurnLeft(streams, f, 1)[k].top
                 && TurnLeft(streams, f, 1)[k].bottom == Column(k)
  {
    var f := IndexOf(streams, id);
    if f < |streams| {
      ErasedSorted(streams, f);
      forall k | 0 <= k < |streams| - 1
        ensures Erased(streams, id)[k] == TurnLeft(streams, f, 0)[k].id == TurnLeft(streams, f, 1)[k].id
        ensures TurnLeft(streams, f, 0)[k].bottom == TurnLeft(streams, f, 1)[k].top
        ensures TurnLeft(streams, f, 1)[k].bottom == Column(k)
      {
        ErasedAt(streams, f, k);
      }
    }
  }

  lemma ErasedAt(streams: seq<StreamId>, f: nat, k: nat)
    requires f < |streams| && k < |streams| - 1
    ensures (streams[..f] + streams[f + 1..])[k] == TurnLeft(streams, f, 0)[k].id == TurnLeft(streams, f, 1)[k].id
    ensures TurnLeft(streams, f, 0)[k].bottom == TurnLeft(streams, f, 1)[k].top
    ensures TurnLeft(streams, f, 1)[k].bottom == Column(k)
  {
  }

  lemma ErasedSorted(streams: seq<StreamId>, f: nat)
    requires Sorted(streams)
    ensures f < |streams| ==> Sorted(streams[..f] + streams[f + 1..])
  {
  }

  /** Both turns of the later strands meet, and end in the columns the streams have after the erase. */
  lemma TurnsJoined(streams: seq<StreamId>, id: StreamId, row: Row, row': Row)
    requires Sorted(streams)
    ensures var f := IndexOf(streams, id);
            && Joined(Drawn(row, TurnLeft(streams, f, 0)), Drawn(row', TurnLeft(streams, f, 1)))
            && EndsAt([Drawn(row', TurnLeft(streams, f, 1))], Erased(streams, id))
            && Sorted(Erased(streams, id))
  {
    ErasedStreams(streams, id);
    var f := IndexOf(streams, id);
    var rest := Erased(streams, id);
    var s0, s1 := TurnLeft(streams, f, 0), TurnLeft(streams, f, 1);
    forall i, j | 0 <= i < |s0| && 0 <= j < |s1| && s0[i].id == s1[j].id ensures s0[i].bottom == s1[j].top {
      assert rest[i] == rest[j];
    }
  }

  lemma StraightEnds(streams: seq<StreamId>, rows: seq<Drawn>)
    requires rows != [] && rows[|rows| - 1].strands == StraightDown(streams)
    ensures EndsAt(rows, streams)
  {
  }

  lemma TurnEntered(streams: seq<StreamId>, id: StreamId, row: Row, row': Row)
    requires Sorted(streams)
    ensures Joined(Drawn(row, StraightDown(streams)), Drawn(row', TurnLeft(streams, IndexOf(streams, id), 0)))
  {
    var f := IndexOf(streams, id);
    var s0 := TurnLeft(streams, f, 0);
    forall i, j | 0 <= i < |streams| && 0 <= j < |s0| && streams[i] == s0[j].id ensures Column(i) == s0[j].top {
      var k := if j < f then j else j + 1;
      assert f < |streams| ==> s0[j].id == streams[k];
    }
  }

  lemma {:induction false} InsertedLast(streams: seq<StreamId>, id: StreamId)
    requires forall i :: 0 <= i < |streams| ==> streams[i] < id
    ensures Inserted(streams, id) == streams + [id]
  {
    if streams != [] { InsertedLast(streams[1..], id); }
  }

  ghost predicate InOrder(streams: seq<StreamId>, e: Event) {
    e.Begin? ==> forall i :: 0 <= i < |streams| ==> streams[i] < e.id
  }

  lemma BeginWellDrawn(streams: seq<StreamId>, id: StreamId, rows: seq<Drawn>)
    requires Sorted(streams) && InOrder(streams, Begin(id)) && rows == Draw(streams, Begin(id))
    ensures WellDrawn(rows) && EndsAt(rows, Inserted(streams, id)) && Sorted(Inserted(streams, id))
  {
    StraightRows(streams, id, false);
    TeeRows(streams, id);
    NewestJoined(streams, id, RowI(streams), RowT(streams));
    InsertedLast(streams, id);
    StraightJoined(streams + [id], RowT(streams), RowI(streams) + [Blank, Bar]);
    StraightEnds(streams + [id], rows);
  }

  lemma MessageWellDrawn(streams: seq<StreamId>, id: StreamId, condensed: bool, rows: seq<Drawn>)
    requires Sorted(streams) && rows == Draw(streams, Message(id, condensed))
    ensures WellDrawn(rows) && EndsAt(rows, streams)
  {
    StraightRows(streams, id, condensed);
    StraightJoined(streams, RowI(streams), RowZ(streams, id, condensed));
    StraightJoined(streams, RowZ(streams, id, condensed), RowI(streams));
    StraightEnds(streams, rows);
  }

  lemma FourWellDrawn(a: Drawn, b: Drawn, c: Drawn, d: Drawn)
    requires Faithful(a) && Faithful(b) && Faithful(c) && Faithful(d) && Joined(a, b) && Joined(b, c) && Joined(c, d)
    ensures WellDrawn([a, b, c, d])
  {
  }

  lemma FinishWellDrawn(streams: seq<StreamId>, id: StreamId, rows: seq<Drawn>)
    requires Sorted(streams) && rows == Draw(streams, Finish(id))
    ensures WellDrawn(rows) && EndsAt(rows, Erased(streams, id)) && Sorted(Erased(streams, id))
  {
    StraightRows(streams, id, false);
    TurningRows(streams, id);
    StraightJoined(streams, RowI(streams), RowL(streams, id));
    TurnEntered(streams, id, RowL(streams, id), RowS(streams, id));
    TurnsJoined(streams, id, RowS(streams, id), RowSmallS(streams, id));
    FourWellDrawn(rows[0], rows[1], rows[2], rows[3]);
    assert rows == [rows[0], rows[1], rows[2], rows[3]];
  }

  /** The rows of one event form a connected piece, from the open streams before it to those after it. */
  lemma EventWellDrawn(streams: seq<StreamId>, e: Event)
    requires Sorted(streams) && InOrder(streams, e)
    ensures var rows := Draw(streams, e);
            && WellDrawn(rows) && EndsAt(rows, After(streams, e)) && Sorted(After(streams, e))
            && rows != [] && rows[0].strands == StraightDown(streams)
  {
    match e
    case Begin(id) => BeginWellDrawn(streams, id, Draw(streams, e));
    case Message(id, condensed) => MessageWellDrawn(streams, id, condensed, Draw(streams, e));
    case Finish(id) => FinishWellDrawn(streams, id, Draw(streams, e));
  }

  /** Each row of an event has the strands of the streams before it or of those after it. */
  lemma EventIds(streams: seq<StreamId>, e: Event, r: nat)
    requires Sorted(streams) && InOrder(streams, e) && r < |Draw(streams, e)|
    ensures Ids(Draw(streams, e)[r].strands) == streams || Ids(Draw(streams, e)[r].strands) == After(streams, e)
  {
    match e
    case Begin(id) => BeginIds(streams, id, r);
    case Message(id, condensed) => StraightIds(streams);
    case Finish(id) => FinishIds(streams, id, r, Draw(streams, e)[r].strands);
  }

  lemma BeginIds(streams: seq<StreamId>, id: StreamId, r: nat)
    requires InOrder(streams, Begin(id)) && r < 3
    ensures var ids := Ids(Draw(streams, Begin(id))[r].strands);
            ids == streams || ids == Inserted(streams, id)
  {
    InsertedLast(streams, id);
    StraightIds(streams);
    StraightIds(streams + [id]);
  }

  lemma FinishIds(streams: seq<StreamId>, id: StreamId, r: nat, strands: seq<Strand>)
    requires r < 4
    requires strands == if r < 2 then StraightDown(streams) else TurnLeft(streams, IndexOf(streams, id), r - 2)
    ensures Ids(strands) == streams || Ids(strands) == Erased(streams, id)
  {
    if r < 2 {
      StraightIds(streams);
    } else {
      TurnIds(streams, id, r - 2);
    }
  }

  /** A stream that stays open has exactly one strand in each row of an event. */
  lemma EventLined(streams: seq<StreamId>, e: Event, id: StreamId)
    requires Sorted(streams) && Sorted(After(streams, e)) && InOrder(streams, e) && id in streams &&
             id in After(streams, e)
    ensures Lined(Draw(streams, e), id)
  {
    var rows := Draw(streams, e);
    forall r | 0 <= r < |rows| ensures HasOneStrand(rows[r], id) {
      EventIds(streams, e, r);
      SortedHasOne(rows[r].row, rows[r].strands, Ids(rows[r].strands), id);
    }
  }

  function Open(events: seq<Event>): seq<StreamId> {
    if events == [] then [] else After(Open(events[..|events| - 1]), events[|events| - 1])
  }

  function Picture(events: seq<Event>): seq<Drawn> {
    if events == [] then []
    else Picture(events[..|events| - 1]) + Draw(Open(events[..|events| - 1]), events[|events| - 1])
  }

  /** Every stream begins with a higher number than all that are open. */
  ghost predicate BegunInOrder(events: seq<Event>) {
    events != [] ==> BegunInOrder(events[..|events| - 1]) && InOrder(Open(events[..|events| - 1]), events[|events| - 1])
  }

  lemma Appended(rows: seq<Drawn>, more: seq<Drawn>, streams: seq<StreamId>)
    requires WellDrawn(rows) && EndsAt(rows, streams) && WellDrawn(more) && Sorted(streams)
    requires more != [] && more[0].strands == StraightDown(streams)
    ensures WellDrawn(rows + more)
  {
    var all := rows + more;
    forall r, q | 0 <= r && q == r + 1 && q < |all| ensures Joined(all[r], all[q]) {
      if q < |rows| {
        assert Joined(rows[r], rows[q]);
      } else if r >= |rows| {
        assert Joined(more[r - |rows|], more[q - |rows|]);
      }
    }
  }

  /** How many rows have been drawn before event `n`. */
  function RowsBefore(events: seq<Event>, n: nat): nat
    requires n <= |events|
  {
    |Picture(events[..n])|
  }

  /**
    For any number of streams and any events: no strand is ever torn, and the last
    row hands the strands of the open streams on in the columns of their bars.
   */
  lemma {:induction false} StrandsStayConnected(events: seq<Event>)
    requires BegunInOrder(events)
    ensures WellDrawn(Picture(events)) && EndsAt(Picture(events), Open(events)) && Sorted(Open(events))
    ensures Open(events) != [] ==> Picture(events) != []
  {
    if events != [] {
      var n := |events| - 1;
      StrandsStayConnected(events[..n]);
      var streams := Open(events[..n]);
      EventWellDrawn(streams, events[n]);
      Appended(Picture(events[..n]), Draw(streams, events[n]), streams);
    }
  }

  lemma LinedAppended(a: seq<Drawn>, b: seq<Drawn>, from: nat, id: StreamId, all: seq<Drawn>)
    requires from <= |a| && Lined(a[from..], id) && Lined(b, id) && all == a + b
    ensures Lined(all[from..], id)
  {
    assert all[from..] == a[from..] + b;
  }

  lemma LinedOneMore(events: seq<Event>, n: nat, from: nat, id: StreamId)
    requires n + 1 == |events| && BegunInOrder(events) && from <= |Picture(events[..n])|
    requires Lined(Picture(events[..n])[from..], id) && id in Open(events[..n]) && id in Open(events)
    ensures from <= |Picture(events)| && Lined(Picture(events)[from..], id)
  {
    StrandsStayConnected(events[..n]);
    StrandsStayConnected(events);
    EventLined(Open(events[..n]), events[n], id);
    LinedAppended(Picture(events[..n]), Draw(Open(events[..n]), events[n]), from, id, Picture(events));
  }

  /** The stream is open now and was after every event from the `m`-th on. */
  ghost predicate OpenSince(events: seq<Event>, m: nat, id: StreamId) {
    id in Open(events) && (|events| > m ==> OpenSince(events[..|events| - 1], m, id))
  }

  /** Such a stream has exactly one strand in every row drawn since. */
  lemma {:induction false} OpenStreamIsLined(events: seq<Event>, m: nat, id: StreamId)
    requires BegunInOrder(events) && m <= |events| && OpenSince(events, m, id)
    ensures RowsBefore(events, m) <= |Picture(events)|
    ensures Lined(Picture(events)[RowsBefore(events, m)..], id)
  {
    if m == |events| {
      assert events[..m] == events;
    } else {
      var n := |events| - 1;
      assert events[..n][..m] == events[..m];
      OpenStreamIsLined(events[..n], m, id);
      LinedOneMore(events, n, RowsBefore(events, m), id);
    }
  }

  lemma SortedFront(x: StreamId, s: seq<StreamId>)
    requires Sorted(s) && forall k :: 0 <= k < |s| ==> x < s[k]
    ensures Sorted([x] + s)
  {
  }

  lemma {:induction false} InsertedSorted(streams: seq<StreamId>, id: StreamId)
    requires Sorted(streams)
    ensures Sorted(Inserted(streams, id))
    ensures forall k :: 0 <= k < |Inserted(streams, id)| ==>
              Inserted(streams, id)[k] == id || Inserted(streams, id)[k] in streams
  {
    if streams != [] && id < streams[0] {
      SortedFront(id, streams);
    } else if streams != [] && id > streams[0] {
      InsertedSorted(streams[1..], id);
      var rest := Inserted(streams[1..], id);
      forall k | 0 <= k < |rest| ensures streams[0] < rest[k] && (rest[k] == id || rest[k] in streams) {
        if rest[k] != id { InRest(streams, rest[k]); }
      }
      SortedFront(streams[0], rest);
    }
  }

  lemma InRest(streams: seq<StreamId>, x: StreamId)
    requires Sorted(streams) && streams != [] && x in streams[1..]
    ensures streams[0] < x && x in streams
  {
    var i :| 0 <= i < |streams[1..]| && streams[1..][i] == x;
    assert streams[i + 1] == x;
  }

  /** A new stream is drawn into the columns of the streams then open exactly when its number is the highest. */
  lemma BeginEndsIffHighest(streams: seq<StreamId>, id: StreamId)
    requires Sorted(streams)
    ensures EndsAt(Draw(streams, Begin(id)), After(streams, Begin(id))) <==> InOrder(streams, Begin(id))
  {
    var rows, all := Draw(streams, Begin(id)), Inserted(streams, id);
    var last := rows[|rows| - 1].strands;
    InsertedSorted(streams, id);
    if InOrder(streams, Begin(id)) {
      InsertedLast(streams, id);
      StraightEnds(streams + [id], rows);
    }
    if EndsAt(rows, all) {
      assert |all| == |streams| + 1;
      forall i | 0 <= i < |streams| ensures streams[i] < id {
        assert last[i].id == streams[i] == all[i] && last[|streams|].id == id == all[|streams|];
      }
    }
  }

  lemma {:induction false} OpenSorted(events: seq<Event>)
    ensures Sorted(Open(events))
  {
    if events != [] {
      var before := Open(events[..|events| - 1]);
      OpenSorted(events[..|events| - 1]);
      match events[|events| - 1]
      case Begin(id) => InsertedSorted(before, id);
      case Message(_, _) =>
      case Finish(id) => ErasedSorted(before, IndexOf(before, id));
    }
  }

  /** Now, and after each event before, the strands are in the columns of the streams then open. */
  ghost predicate AlwaysInColumns(events: seq<Event>) {
    && EndsAt(Picture(events), Open(events))
    && (events != [] ==> AlwaysInColumns(events[..|events| - 1]))
  }

  lemma EventEndsIff(streams: seq<StreamId>, e: Event)
    requires Sorted(streams)
    ensures EndsAt(Draw(streams, e), After(streams, e)) <==> InOrder(streams, e)
  {
    if e.Begin? {
      BeginEndsIffHighest(streams, e.id);
    } else {
      EventWellDrawn(streams, e);
    }
  }

  /** This holds of exactly the runs in which every stream begins with a number above all that are open. */
  lemma {:induction false} InColumnsIffBegunInOrder(events: seq<Event>)
    ensures AlwaysInColumns(events) <==> BegunInOrder(events)
  {
    if events != [] {
      var n := |events| - 1;
      InColumnsIffBegunInOrder(events[..n]);
      OpenSorted(events[..n]);
      var streams := Open(events[..n]);
      EventEndsIff(streams, events[n]);
      EndsAtLast(Picture(events[..n]), Draw(streams, events[n]), After(streams, events[n]));
      assert Picture(events) == Picture(events[..n]) + Draw(streams, events[n]);
      assert Open(events) == After(streams, events[n]);
    }
  }

  lemma EndsAtLast(rows: seq<Drawn>, more: seq<Drawn>, streams: seq<StreamId>)
    requires more != []
    ensures EndsAt(rows + more, streams) <==> EndsAt(more, streams)
  {
    assert (rows + more)[|rows + more| - 1] == more[|more| - 1];
  }

  // ---------------------------------------------------------------------------
  // Every glyph of every row
  // ---------------------------------------------------------------------------

  /** The margin, and for the first `n` streams a blank and a bar each. */
  ghost predicate BarsUpTo(row: Row, n: nat) {
    && |row| > 2 * n && row[0] == Margin
    && forall k :: 0 <= k < n ==> row[2 * k + 1] == Blank && row[2 * k + 2] == Bar
  }

  /** A row with a joint at stream `f`, an unbroken line from there over the others, and a closing glyph. */
  ghost predicate LineFrom(row: Row, f: nat, n: nat, joint: Glyph, closing: Glyph) {
    && f < n && |row| == 2 * n + 3 && BarsUpTo(row, f)
    && row[2 * f + 1] == Blank && row[2 * f + 2] == joint
    && (forall c :: 2 * f + 2 < c <= 2 * n + 1 ==> row[c] == Heavy)
    && row[2 * n + 2] == closing
  }

  /** A row in which the streams behind `f` turn left, behind `width` blanks. */
  ghost predicate TurnsFrom(row: Row, f: nat, n: nat, width: nat) {
    && f < n && |row| == 2 * n - 1 + width && BarsUpTo(row, f)
    && (forall c :: 2 * f < c <= 2 * f + width ==> row[c] == Blank)
    && forall k :: f < k < n ==> row[2 * k + width - 1] == Down && row[2 * k + width] == Up
  }

  lemma BarsRow(n: nat)
    ensures |[Margin] + Bars(n)| == 2 * n + 1 && BarsUpTo([Margin] + Bars(n), n)
  {
    BarsAt(n);
  }

  lemma {:induction false} SameRepeated(g: Glyph, n: nat)
    ensures |Repeat([g, g], n)| == 2 * n && forall c :: 0 <= c < 2 * n ==> Repeat([g, g], n)[c] == g
  {
    if n > 0 { SameRepeated(g, n - 1); }
  }

  lemma LineLayout(f: nat, n: nat, joint: Glyph, closing: Glyph, row: Row)
    requires f < n && row == [Margin] + Layout(f, n, [Blank, joint], [Heavy, Heavy]) + [Heavy, closing]
    ensures LineFrom(row, f, n, joint, closing)
  {
    var front, behind := [Margin] + Bars(f), Repeat([Heavy, Heavy], n - f - 1);
    BarsRow(f);
    SameRepeated(Heavy, n - f - 1);
    assert row == front + ([Blank, joint] + behind + [Heavy, closing]);
    assert row == front + [Blank, joint] + (behind + [Heavy, closing]);
    var end := behind + [Heavy, closing];
    forall c | 2 * f + 2 < c <= 2 * n + 1 ensures row[c] == Heavy { assert row[c] == end[c - 2 * f - 3]; }
    assert row[2 * n + 2] == end[2 * (n - f - 1) + 1];
    FrontBars(front, row, f);
  }

  lemma FrontBars(front: Row, row: Row, f: nat)
    requires |front| == 2 * f + 1 && BarsUpTo(front, f) && front <= row
    ensures BarsUpTo(row, f)
  {
    forall k | 0 <= k < f ensures row[2 * k + 1] == Blank && row[2 * k + 2] == Bar {
      assert row[2 * k + 1] == front[2 * k + 1] && row[2 * k + 2] == front[2 * k + 2];
    }
  }

  lemma TurnLayout(f: nat, n: nat, here: Row, row: Row)
    requires f < n && (here == [Blank] || here == [Blank, Blank])
    requires row == [Margin] + Layout(f, n, here, [Down, Up])
    ensures TurnsFrom(row, f, n, |here|)
  {
    var front, behind := [Margin] + Bars(f), Repeat([Down, Up], n - f - 1);
    BarsRow(f);
    RepeatAt(Down, Up, n - f - 1);
    assert row == front + here + behind;
    var start := 2 * f + 1 + |here|;
    forall k | f < k < n ensures row[2 * k + |here| - 1] == Down && row[2 * k + |here|] == Up {
      var j := k - f - 1;
      assert row[start + 2 * j] == behind[2 * j] && row[start + (2 * j + 1)] == behind[2 * j + 1];
    }
    forall c | 2 * f < c <= 2 * f + |here| ensures row[c] == Blank { assert row[c] == here[c - 2 * f - 1]; }
    assert front <= row;
    FrontBars(front, row, f);
  }

  /**
    A message: bars before (unless condensed) and after, and between them a row
    that branches off the stream's own strand, in a line up to the message.
   */
  lemma MessageDrawn(streams: seq<StreamId>, id: StreamId, condensed: bool)
    requires Sorted(streams) && id in streams
    ensures var rows, n := Draw(streams, Message(id, condensed)), |streams|;
            && |rows| == (if condensed then 2 else 3)
            && LineFrom(rows[|rows| - 2].row, IndexOf(streams, id), n, Branch, if condensed then Corner else Edge)
            && |rows[|rows| - 1].row| == 2 * n + 1 && BarsUpTo(rows[|rows| - 1].row, n)
            && (!condensed ==> |rows[0].row| == 2 * n + 1 && BarsUpTo(rows[0].row, n))
  {
    var n, f := |streams|, IndexOf(streams, id);
    BarsRow(n);
    CellsLayout(streams, id, [Blank, Branch], [Heavy, Heavy]);
    LineLayout(f, n, Branch, if condensed then Corner else Edge, RowZ(streams, id, condensed));
  }

  /**
    A finish: bars, a row in which the stream's strand ends in a foot with a line
    to the message, and two rows in which the later strands turn left.
   */
  lemma FinishDrawn(streams: seq<StreamId>, id: StreamId)
    requires Sorted(streams) && id in streams
    ensures var rows, n, f := Draw(streams, Finish(id)), |streams|, IndexOf(streams, id);
            && |rows| == 4 && |rows[0].row| == 2 * n + 1 && BarsUpTo(rows[0].row, n)
            && LineFrom(rows[1].row, f, n, Foot, Edge)
            && TurnsFrom(rows[2].row, f, n, 2) && TurnsFrom(rows[3].row, f, n, 1)
  {
    var n, f := |streams|, IndexOf(streams, id);
    BarsRow(n);
    CellsLayout(streams, id, [Blank, Foot], [Heavy, Heavy]);
    LineLayout(f, n, Foot, Edge, RowL(streams, id));
    CellsLayout(streams, id, [Blank, Blank], [Down, Up]);
    TurnLayout(f, n, [Blank, Blank], RowS(streams, id));
    CellsLayout(streams, id, [Blank], [Down, Up]);
    TurnLayout(f, n, [Blank], RowSmallS(streams, id));
  }

  /**
    A begin: bars, one line from the margin over all strands to the message, with
    the new strand hanging from it behind the last, and then its bar as well.
   */
  lemma BeginDrawn(streams: seq<StreamId>, id: StreamId)
    ensures var rows, n := Draw(streams, Begin(id)), |streams|;
            && |rows| == 3 && |rows[0].row| == 2 * n + 1 && BarsUpTo(rows[0].row, n)
            && |rows[1].row| == 2 * n + 5 && rows[1].row[0] == Branch && rows[1].row[2 * n + 2] == Tee
            && (forall c :: 0 < c < 2 * n + 4 && c != 2 * n + 2 ==> rows[1].row[c] == Heavy)
            && rows[1].row[2 * n + 4] == Edge
            && |rows[2].row| == 2 * n + 3 && BarsUpTo(rows[2].row, n + 1)
  {
    var n := |streams|;
    BarsRow(n);
    HeaviesAt(n);
    var row := RowI(streams) + [Blank, Bar];
    forall k | 0 <= k < n + 1 ensures row[2 * k + 1] == Blank && row[2 * k + 2] == Bar {
      if k < n { assert row[2 * k + 1] == RowI(streams)[2 * k + 1] && row[2 * k + 2] == RowI(streams)[2 * k + 2]; }
    }
    var tee := RowT(streams);
    forall c | 0 < c < 2 * n + 4 && c != 2 * n + 2 ensures tee[c] == Heavy {
      if c <= 2 * n { assert tee[c] == Heavies(n)[c - 1]; }
    }
  }

  /** A finished stream is gone and no other. */
  lemma ErasedHolds(streams: seq<StreamId>, id: StreamId, x: StreamId)
    requires Sorted(streams)
    ensures x in Erased(streams, id) <==> x in streams && x != id
  {
    var rest, f := Erased(streams, id), IndexOf(streams, id);
    if x in streams && x != id && f < |streams| {
      var k :| 0 <= k < |streams| && streams[k] == x;
      assert rest[if k < f then k else k - 1] == x;
    }
  }

  /** A begun stream is there, and all others still are. */
  lemma {:induction false} InsertedHolds(streams: seq<StreamId>, id: StreamId, x: StreamId)
    ensures x in Inserted(streams, id) <==> x in streams || x == id
  {
    if streams != [] && id > streams[0] { InsertedHolds(streams[1..], id, x); }
  }

  class TextTreeFactory {
    var streams: seq<StreamId>
    var output: seq<Row>
    ghost var events: seq<Event>

    ghost predicate Valid()
      reads this
    {
      streams == Open(events) && output == Rows(Picture(events))
    }

    constructor ()
      ensures Valid() && events == []
    {
      streams, output, events := [], [], [];
    }

    method ConsumeBegin(id: StreamId)
      requires Valid()
      modifies this
      ensures Valid() && events == old(events) + [Begin(id)]
    {
      var top := WriteBars(streams);
      var tee := WriteTee(streams);
      output := output + [top, tee, top + [Blank, Bar]];
      var position := FindPosition(streams, id);
      if position == |streams| || streams[position] != id {
        streams := streams[..position] + [id] + streams[position..];
      }
      events := events + [Begin(id)];
      assert events[..|events| - 1] == old(events);
      RowsConcat(Picture(old(events)), Draw(old(streams), Begin(id)));
      assert Rows(Draw(old(streams), Begin(id))) == [top, tee, top + [Blank, Bar]];
    }

    method ConsumeMessage(id: StreamId, condensed: bool)
      requires Valid()
      modifies this
      ensures Valid() && events == old(events) + [Message(id, condensed)]
    {
      var plain := WriteBars(streams);
      var cells := WriteCells(streams, id, [Blank, Branch], [Heavy, Heavy]);
      var joint := cells + [Heavy, if condensed then Corner else Edge];
      var drawn := (if condensed then [] else [plain]) + [joint, plain];
      output := output + drawn;
      events := events + [Message(id, condensed)];
      assert events[..|events| - 1] == old(events);
      RowsConcat(Picture(old(events)), Draw(streams, Message(id, condensed)));
      assert Rows(Draw(streams, Message(id, condensed))) == drawn;
    }

    method ConsumeFinish(id: StreamId)
      requires Valid()
      modifies this
      ensures Valid() && events == old(events) + [Finish(id)]
    {
      var plain := WriteBars(streams);
      var foot := WriteCells(streams, id, [Blank, Foot], [Heavy, Heavy]);
      var turn := WriteCells(streams, id, [Blank, Blank], [Down, Up]);
      var turned := WriteCells(streams, id, [Blank], [Down, Up]);
      var drawn := [plain, foot + [Heavy, Edge], turn, turned];
      output := output + drawn;
      streams := Erased(streams, id);
      events := events + [Finish(id)];
      assert events[..|events| - 1] == old(events);
      RowsConcat(Picture(old(events)), Draw(old(streams), Finish(id)));
      assert Rows(Draw(old(streams), Finish(id))) == drawn;
    }
  }

  function Rows(drawn: seq<Drawn>): seq<Row> {
    seq(|drawn|, r requires 0 <= r < |drawn| => drawn[r].row)
  }

  lemma RowsConcat(a: seq<Drawn>, b: seq<Drawn>)
    ensures Rows(a + b) == Rows(a) + Rows(b)
  {
  }

  /** Where the map finds or puts a key. */
  method FindPosition(streams: seq<StreamId>, id: StreamId) returns (position: nat)
    ensures position <= |streams|
    ensures Inserted(streams, id) ==
            if position < |streams| && streams[position] == id then streams
            else streams[..position] + [id] + streams[position..]
  {
    position := 0;
    assert streams[..0] + Inserted(streams[0..], id) == Inserted(streams, id) by { assert streams[0..] == streams; }
    while position < |streams| && streams[position] < id
      invariant position <= |streams|
      invariant Inserted(streams, id) == streams[..position] + Inserted(streams[position..], id)
    {
      InsertedStep(streams, id, position);
      position := position + 1;
    }
    InsertedHere(streams, id, position);
  }

  lemma InsertedStep(streams: seq<StreamId>, id: StreamId, k: nat)
    requires k < |streams| && streams[k] < id
    ensures streams[..k] + Inserted(streams[k..], id) == streams[..k + 1] + Inserted(streams[k + 1..], id)
  {
    assert streams[k..][1..] == streams[k + 1..];
    assert streams[..k + 1] == streams[..k] + [streams[k]];
  }

  lemma InsertedHere(streams: seq<StreamId>, id: StreamId, k: nat)
    requires k <= |streams| && (k < |streams| ==> streams[k] >= id)
    ensures streams[..k] + Inserted(streams[k..], id) ==
            if k < |streams| && streams[k] == id then streams else streams[..k] + [id] + streams[k..]
  {
    assert k < |streams| ==> streams[k..][0] == streams[k];
    assert streams[..k] + streams[k..] == streams;
  }
}
