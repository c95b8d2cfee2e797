// Tabular values shared by the data helpers: the radar rows fetched for a
// station, the row filters and the height sort, and the height-by-time grids
// (pandas DataFrames indexed by height) together with the mutable frame
// object the masking routines update in place.

module Frames {
  import opened Wrappers
  import opened Common
  import opened Schemas

  /** One value of a numeric column; `None` is NaN or Python's None. */
  type Cell = Option<real>

  /** One radar record, restricted to the columns the helpers select. */
  datatype Row = Row(timePoint: Timestamp, height: real, hws: Cell, hwd: Cell, vws: Cell)

  /** The value of a numeric column of a row. */
  function Field(r: Row, m: WprDataType): (c: Cell)
    requires m != TimePoint
    ensures m == Height ==> c == Some(r.height)
  {
    match m
    case Height => Some(r.height)
    case Hws => r.hws
    case Hwd => r.hwd
    case Vws => r.vws
  }

  function Heights(rows: seq<Row>): (hs: seq<real>)
    ensures |hs| == |rows|
    ensures forall i :: 0 <= i < |rows| ==> hs[i] == rows[i].height
  {
    seq(|rows|, i requires 0 <= i < |rows| => rows[i].height)
  }

  function Reverse<T>(s: seq<T>): (r: seq<T>)
    ensures |r| == |s|
    ensures forall i :: 0 <= i < |s| ==> r[i] == s[|s| - 1 - i]
  {
    seq(|s|, i requires 0 <= i < |s| => s[|s| - 1 - i])
  }

  lemma {:induction false} ReverseReverse<T>(s: seq<T>)
    ensures Reverse(Reverse(s)) == s
  {
    var r := Reverse(Reverse(s));
    assert |r| == |s|;
    forall i | 0 <= i < |s| ensures r[i] == s[i] {
      assert r[i] == Reverse(s)[|s| - 1 - i];
    }
  }

  /** `df[df['timePoint'] == t]`: the rows of time point `t`, in order. */
  function SelectTime(rows: seq<Row>, t: Timestamp): (s: seq<Row>)
    ensures forall r :: r in s <==> r in rows && r.timePoint == t
    ensures forall r: Row :: r.timePoint == t ==> multiset(s)[r] == multiset(rows)[r]
    ensures forall r: Row :: r.timePoint != t ==> multiset(s)[r] == 0
    ensures |s| <= |rows|
  {
    if rows == [] then []
    else
      var rest := SelectTime(rows[1..], t);
      assert rows == [rows[0]] + rows[1..];
      if rows[0].timePoint == t then [rows[0]] + rest else rest
  }

  predicate SortedByHeight(s: seq<Row>) {
    forall i, j :: 0 <= i < j < |s| ==> s[i].height <= s[j].height
  }

  predicate Descending(hs: seq<real>) {
    forall i, j :: 0 <= i < j < |hs| ==> hs[i] >= hs[j]
  }

  /** Places `r` before the first row of a greater height. */
  function InsertByHeight(s: seq<Row>, r: Row): (t: seq<Row>)
    requires SortedByHeight(s)
    ensures SortedByHeight(t)
    ensures multiset(t) == multiset(s) + multiset{r}
    ensures |t| == |s| + 1
    ensures forall x :: x in t ==> x in s || x == r
  {
    if s == [] || r.height <= s[0].height then [r] + s
    else
      var rest := InsertByHeight(s[1..], r);
      assert s == [s[0]] + s[1..];
      InsertBehindHead(s, r, rest);
      [s[0]] + rest
  }

  /** Every row of the insertion into the tail is at least as high as the
      head, so the head stays in front. */
  lemma InsertBehindHead(s: seq<Row>, r: Row, rest: seq<Row>)
    requires s != [] && SortedByHeight(s) && r.height > s[0].height
    requires SortedByHeight(rest) && forall x :: x in rest ==> x in s[1..] || x == r
    ensures SortedByHeight([s[0]] + rest)
  {
    forall x | x in rest ensures s[0].height <= x.height {
      if x in s[1..] {
        var j :| 0 <= j < |s| - 1 && s[1..][j] == x;
        assert s[j + 1] == x;
      }
    }
    var t := [s[0]] + rest;
    assert forall j :: 0 < j < |t| ==> t[j] == rest[j - 1];
  }

  /** `sort_values(by='height')`: ascending by height, the same rows. */
  function SortByHeight(s: seq<Row>): (t: seq<Row>)
    ensures SortedByHeight(t)
    ensures multiset(t) == multiset(s)
    ensures |t| == |s|
  {
    if s == [] then []
    else
      assert s == [s[0]] + s[1..];
      InsertByHeight(SortByHeight(s[1..]), s[0])
  }

  /** The position of the first row higher than `ceiling`. */
  function FirstAbove(s: seq<Row>, ceiling: real): (r: Option<nat>)
    ensures r.Some? ==> r.value < |s| && s[r.value].height > ceiling
    ensures r.Some? ==> forall k :: 0 <= k < r.value ==> s[k].height <= ceiling
    ensures r.None? <==> forall k :: 0 <= k < |s| ==> s[k].height <= ceiling
  {
    if s == [] then None
    else if s[0].height > ceiling then Some(0)
    else match FirstAbove(s[1..], ceiling)
      case None => None
      case Some(i) => Some(i + 1)
  }

  /** `iloc[:first_above + 1]` when some row is above `ceiling`, else all. */
  function TruncateAbove(s: seq<Row>, ceiling: real): (t: seq<Row>)
    ensures t <= s
    ensures |t| > 0 ==> forall k :: 0 <= k < |t| - 1 ==> t[k].height <= ceiling
    ensures (forall k :: 0 <= k < |s| ==> s[k].height <= ceiling) ==> t == s
    ensures (exists k :: 0 <= k < |s| && s[k].height > ceiling) ==> |t| > 0 && t[|t| - 1].height > ceiling
  {
    match FirstAbove(s, ceiling)
    case None => s
    case Some(i) => s[..i + 1]
  }

  /** On rows sorted by height the cut loses only rows above the ceiling,
      and keeps at most one of those, in the last place. */
  lemma TruncateSorted(s: seq<Row>, ceiling: real)
    requires SortedByHeight(s)
    ensures forall r :: r in s && r.height <= ceiling ==> r in TruncateAbove(s, ceiling)
    ensures forall r :: r in TruncateAbove(s, ceiling) && r.height > ceiling ==>
              r == TruncateAbove(s, ceiling)[|TruncateAbove(s, ceiling)| - 1]
    ensures SortedByHeight(TruncateAbove(s, ceiling))
  {
    var t := TruncateAbove(s, ceiling);
    forall r | r in s && r.height <= ceiling ensures r in t {
      var k :| 0 <= k < |s| && s[k] == r;
      match FirstAbove(s, ceiling)
      case None =>
      case Some(i) =>
        assert k <= i;
        assert t[k] == r;
    }
  }

  /** A height-by-time grid: `index` holds the heights (one per row),
      `columns` the column labels, `cells` the values row by row. */
  datatype Grid = Grid(index: seq<real>, columns: seq<string>, cells: seq<seq<Cell>>)

  predicate WellShaped(g: Grid) {
    && |g.cells| == |g.index|
    && forall i :: 0 <= i < |g.cells| ==> |g.cells[i]| == |g.columns|
  }

  function Column(g: Grid, j: nat): (col: seq<Cell>)
    requires WellShaped(g) && j < |g.columns|
    ensures |col| == |g.index|
    ensures forall i :: 0 <= i < |col| ==> col[i] == g.cells[i][j]
  {
    seq(|g.cells|, i requires 0 <= i < |g.cells| => g.cells[i][j])
  }

  /** A row of missing values: what `loc[idx] = None` leaves behind. */
  function Blank(width: nat): (row: seq<Cell>)
    ensures |row| == width
    ensures forall j :: 0 <= j < width ==> row[j].None?
  {
    seq(width, _ => None)
  }

  /** `x * k` on one cell: NaN stays NaN. */
  function ScaleCell(c: Cell, k: real): (d: Cell)
    ensures d.Some? <==> c.Some?
    ensures c.Some? ==> d.value == k * c.value
  {
    match c
    case None => None
    case Some(x) => Some(k * x)
  }

  function ScaleRow(row: seq<Cell>, k: real): (r: seq<Cell>)
    ensures |r| == |row|
    ensures forall j :: 0 <= j < |row| ==> r[j] == ScaleCell(row[j], k)
  {
    seq(|row|, j requires 0 <= j < |row| => ScaleCell(row[j], k))
  }

  /** `frame * k`: every present value scaled by `k`, on the same index and
      columns. */
  function Scale(g: Grid, k: real): (h: Grid)
    requires WellShaped(g)
    ensures WellShaped(h) && h.index == g.index && h.columns == g.columns
    ensures forall i, j :: 0 <= i < |g.cells| && 0 <= j < |g.columns| ==>
              h.cells[i][j] == ScaleCell(g.cells[i][j], k)
  {
    Grid(g.index, g.columns,
         seq(|g.cells|, i requires 0 <= i < |g.cells| => ScaleRow(g.cells[i], k)))
  }

  /** A DataFrame object, whose rows the masking routines overwrite. */
  class Frame {
    var index: seq<real>
    var columns: seq<string>
    var cells: seq<seq<Cell>>

    function Value(): Grid
      reads this
    {
      Grid(index, columns, cells)
    }

    predicate Valid()
      reads this
    {
      WellShaped(Value())
    }

    constructor (g: Grid)
      ensures Value() == g
    {
      index := g.index;
      columns := g.columns;
      cells := g.cells;
    }
  }
}
