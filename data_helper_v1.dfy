// The older, positional variant of the radar data helpers: the dict of
// truncated frames keyed by time label, the heat-map frames built from it,
// and the blanking of every non-reference row by row position.

module DataHelperV1 {
  import opened Wrappers
  import opened Common
  import opened Dicts
  import opened Schemas
  import opened Frames
  import opened HeightProfile
  import opened GridAssembly

  // ---------------------------------------------------------------------
  // get_WPR_data
  // ---------------------------------------------------------------------

  /** The key of a time point in the result dict ('YYYY-MM-DD HH:MM:SS'). */
  function DataKey(t: Timestamp): (k: string)
    ensures |k| == 19
    ensures ParseYmdHMS(k) == Some(t)
  {
    ParseYmdHMSOfLabel(t);
    GetTimeStr(t, YmdHMS)
  }

  /** The entries of the time points `ks`: each one's key and kept rows. */
  function Entries(rows: seq<Row>, ks: seq<Timestamp>): (d: Dict<string, seq<Row>>)
    ensures |d| == |ks|
    ensures forall i :: 0 <= i < |ks| ==> d[i] == (DataKey(ks[i]), KeptRows(rows, ks[i]))
  {
    Tabulate(ks, DataKey, t => KeptRows(rows, t))
  }

  /** The pair of key and value of every element of `ks`. */
  function Tabulate<T, K, V>(ks: seq<T>, key: T -> K, val: T -> V): (d: seq<(K, V)>)
    ensures |d| == |ks|
    ensures forall i :: 0 <= i < |ks| ==> d[i] == (key(ks[i]), val(ks[i]))
  {
    seq(|ks|, i requires 0 <= i < |ks| => (key(ks[i]), val(ks[i])))
  }

  lemma TabulateSnoc<T, K, V>(ks: seq<T>, key: T -> K, val: T -> V, k: nat)
    requires k < |ks|
    ensures Tabulate(ks[..k + 1], key, val) == Tabulate(ks[..k], key, val) + [(key(ks[k]), val(ks[k]))]
  {
    assert ks[..k + 1] == ks[..k] + [ks[k]];
  }

  /** What get_WPR_data returns for a fetch result. */
  function WprDataSpec(fetched: Fetched): (r: Result<Dict<string, seq<Row>>>)
    ensures fetched.NoResponse? ==> r == Err(AssertionError)
    ensures fetched.Payload? ==> (r.Err? <==> fetched.data.None? || fetched.data.value == [])
    ensures fetched.Payload? && r.Err? ==> r.error == KeyError
    ensures r.Ok? ==> DistinctKeys(r.value) && |r.value| == |GroupKeys(fetched.data.value)|
  {
    match fetched
    case NoResponse => Err(AssertionError)
    case Payload(None) => Err(KeyError)
    case Payload(Some(rows)) =>
      if rows == [] then Err(KeyError)
      else
        WprKeysDistinct(rows);
        Ok(Entries(rows, GroupKeys(rows)))
  }

  /** get_WPR_data: for every time point in group-key order, the rows of
      that time point sorted by height and cut after the first row above
      the ceiling, stored under the time point's label. */
  method GetWPRData(fetched: Fetched) returns (r: Result<Dict<string, seq<Row>>>)
    ensures r == WprDataSpec(fetched)
  {
    if fetched.NoResponse? {
      return Err(AssertionError);
    }
    if fetched.data.None? || fetched.data.value == [] {
      return Err(KeyError);
    }
    var rows := fetched.data.value;
    var lstTime := GroupKeys(rows);
    var results: Dict<string, seq<Row>> := [];
    var k := 0;
    while k < |lstTime|
      invariant 0 <= k <= |lstTime|
      invariant results == Entries(rows, lstTime[..k])
    {
      var itemTime := lstTime[k];
      var key := DataKey(itemTime);
      NewDataKey(rows, lstTime, k);
      EntriesAppend(rows, lstTime, k);
      results := Put(results, key, KeptRows(rows, itemTime));
      k := k + 1;
    }
    assert lstTime[..k] == lstTime;
    return Ok(results);
  }

  /** A later time point's key is not among the earlier keys. */
  lemma NewDataKey(rows: seq<Row>, ks: seq<Timestamp>, k: nat)
    requires Chronological(ks) && k < |ks|
    ensures DataKey(ks[k]) !in Keys(Entries(rows, ks[..k]))
  {
    var d := Entries(rows, ks[..k]);
    forall i | 0 <= i < |d| ensures Keys(d)[i] != DataKey(ks[k]) {
      assert Ordinal(ks[i]) < Ordinal(ks[k]);
    }
  }

  lemma EntriesAppend(rows: seq<Row>, ks: seq<Timestamp>, k: nat)
    requires k < |ks|
    ensures Entries(rows, ks[..k + 1]) == Entries(rows, ks[..k]) + [(DataKey(ks[k]), KeptRows(rows, ks[k]))]
  {
    TabulateSnoc(ks, DataKey, t => KeptRows(rows, t), k);
  }

  /** The result dict has one entry per time point of the rows, its keys
      are distinct, read back to their time points and follow each other
      chronologically, and every frame is sorted by height with at most
      its last row above the ceiling. */
  lemma WprDataProperties(rows: seq<Row>)
    requires rows != []
    ensures WprDataSpec(Payload(Some(rows))).Ok?
    ensures var d := WprDataSpec(Payload(Some(rows))).value;
            && DistinctKeys(d)
            && (forall i :: 0 <= i < |d| ==> ParseYmdHMS(d[i].0).Some?)
            && (forall i, j :: 0 <= i < j < |d| ==>
                  Ordinal(ParseYmdHMS(d[i].0).value) < Ordinal(ParseYmdHMS(d[j].0).value))
            && (forall t: Timestamp :: DataKey(t) in Keys(d) <==> exists r :: r in rows && r.timePoint == t)
            && (forall i :: 0 <= i < |d| ==> SortedByHeight(d[i].1))
            && (forall i, r :: 0 <= i < |d| && r in d[i].1 && r.height > MaxHeight ==> r == d[i].1[|d[i].1| - 1])
  {
    assert WprDataSpec(Payload(Some(rows))) == Ok(Entries(rows, GroupKeys(rows)));
    WprKeysDistinct(rows);
    WprKeysCover(rows);
    WprKeysChronological(rows);
    WprFramesCut(rows);
  }

  lemma WprKeysChronological(rows: seq<Row>)
    ensures var d := Entries(rows, GroupKeys(rows));
            && (forall i :: 0 <= i < |d| ==> ParseYmdHMS(d[i].0).Some?)
            && (forall i, j :: 0 <= i < j < |d| ==>
                  Ordinal(ParseYmdHMS(d[i].0).value) < Ordinal(ParseYmdHMS(d[j].0).value))
  {
    var ks := GroupKeys(rows);
    var d := Entries(rows, ks);
    forall i | 0 <= i < |d| ensures ParseYmdHMS(d[i].0) == Some(ks[i]) {
      assert d[i].0 == DataKey(ks[i]);
    }
  }

  lemma WprFramesCut(rows: seq<Row>)
    ensures var d := Entries(rows, GroupKeys(rows));
            && (forall i :: 0 <= i < |d| ==> SortedByHeight(d[i].1))
            && (forall i, r :: 0 <= i < |d| && r in d[i].1 && r.height > MaxHeight ==> r == d[i].1[|d[i].1| - 1])
  {
    var ks := GroupKeys(rows);
    var d := Entries(rows, ks);
    forall i | 0 <= i < |d|
      ensures SortedByHeight(d[i].1)
      ensures forall r :: r in d[i].1 && r.height > MaxHeight ==> r == d[i].1[|d[i].1| - 1]
    {
      assert d[i].1 == KeptRows(rows, ks[i]);
    }
  }

  lemma WprKeysDistinct(rows: seq<Row>)
    ensures DistinctKeys(Entries(rows, GroupKeys(rows)))
  {
    var ks := GroupKeys(rows);
    var d := Entries(rows, ks);
    forall i, j | 0 <= i < j < |d| ensures d[i].0 != d[j].0 {
      assert Ordinal(ks[i]) < Ordinal(ks[j]);
    }
  }

  lemma WprKeysCover(rows: seq<Row>)
    ensures forall t: Timestamp :: DataKey(t) in Keys(Entries(rows, GroupKeys(rows))) <==>
              exists r :: r in rows && r.timePoint == t
  {
    forall t: Timestamp
      ensures DataKey(t) in Keys(Entries(rows, GroupKeys(rows))) <==> exists r :: r in rows && r.timePoint == t
    {
      if DataKey(t) in Keys(Entries(rows, GroupKeys(rows))) {
        WprRowOfKey(rows, t);
      }
      if exists r :: r in rows && r.timePoint == t {
        WprKeyOfRow(rows, t);
      }
    }
  }

  lemma WprRowOfKey(rows: seq<Row>, t: Timestamp)
    requires DataKey(t) in Keys(Entries(rows, GroupKeys(rows)))
    ensures exists r :: r in rows && r.timePoint == t
  {
    var ks := GroupKeys(rows);
    var d := Entries(rows, ks);
    var i :| 0 <= i < |d| && Keys(d)[i] == DataKey(t);
    assert DataKey(ks[i]) == DataKey(t);
    assert Some(ks[i]) == ParseYmdHMS(DataKey(t)) == Some(t);
    assert ks[i] in ks;
  }

  lemma WprKeyOfRow(rows: seq<Row>, t: Timestamp)
    requires exists r :: r in rows && r.timePoint == t
    ensures DataKey(t) in Keys(Entries(rows, GroupKeys(rows)))
  {
    var ks := GroupKeys(rows);
    assert t in ks;
    var i :| 0 <= i < |ks| && ks[i] == t;
    var d := Entries(rows, ks);
    assert d[i].0 == DataKey(t);
    assert Keys(d)[i] == DataKey(t);
  }

  /** get_heap_map_y_ticks over the dict of get_WPR_data is the descending
      height list the newer helpers use: the first time point's kept
      heights, reversed. */
  lemma YTicksOfWprData(rows: seq<Row>)
    requires rows != []
    ensures WprDataSpec(Payload(Some(rows))).Ok?
    ensures GetHeightList(WprDataSpec(Payload(Some(rows))).value, true) == Ok(FirstHeights(rows))
  {
    var d := WprDataSpec(Payload(Some(rows))).value;
    var hl := GetHeightList(d, true).value;
    assert d[0].1 == KeptRows(rows, GroupKeys(rows)[0]);
    assert hl == FirstHeights(rows);
  }

  // ---------------------------------------------------------------------
  // get_heat_map_data
  // ---------------------------------------------------------------------

  /** One heat-map column: the value of `m` at every y tick, NaN when the
      frame has no row of that height. */
  function TickColumn(df: seq<Row>, m: WprDataType, yTicks: seq<real>): (col: seq<Cell>)
    requires m != TimePoint
    ensures |col| == |yTicks|
  {
    seq(|yTicks|, i requires 0 <= i < |yTicks| => GetWprDataBy(df, m, yTicks[i], Height, None))
  }

  /** The heat-map column of every entry. */
  function ColumnsOf(w: Dict<string, seq<Row>>, m: WprDataType, yTicks: seq<real>): (cols: seq<seq<Cell>>)
    requires m != TimePoint
    ensures |cols| == |w|
    ensures forall j :: 0 <= j < |w| ==> cols[j] == TickColumn(w[j].1, m, yTicks)
  {
    seq(|w|, j requires 0 <= j < |w| => TickColumn(w[j].1, m, yTicks))
  }

  /** The column label of a dict key: its time in format `fmt`, `None` when
      the key is not a 'YYYY-MM-DD HH:MM:SS' time (strptime raises). */
  function ColumnLabel(key: string, fmt: TimeStr): Option<string> {
    match ParseYmdHMS(key)
    case None => None
    case Some(t) => Some(GetTimeStr(t, fmt))
  }

  /** The label of every key, in entry order. */
  function LabelsOf(w: Dict<string, seq<Row>>, fmt: TimeStr): (labels: seq<Option<string>>)
    ensures |labels| == |w|
    decreases |w|
  {
    if w == [] then [] else LabelsOf(w[..|w| - 1], fmt) + [ColumnLabel(w[|w| - 1].0, fmt)]
  }

  lemma {:induction false} LabelsOfAt(w: Dict<string, seq<Row>>, fmt: TimeStr, j: nat)
    requires j < |w|
    ensures LabelsOf(w, fmt)[j] == ColumnLabel(w[j].0, fmt)
    decreases |w|
  {
    if j < |w| - 1 {
      var w' := w[..|w| - 1];
      LabelsOfAt(w', fmt, j);
      assert w'[j] == w[j];
    }
  }

  /** The (label, column) pairs in entry order, `None` when some label is
      missing. */
  function Pairs(labels: seq<Option<string>>, cols: seq<seq<Cell>>): (r: Option<seq<(string, seq<Cell>)>>)
    requires |labels| == |cols|
    ensures r.Some? <==> forall j :: 0 <= j < |labels| ==> labels[j].Some?
    ensures r.Some? ==> |r.value| == |labels|
    ensures r.Some? ==> forall j :: 0 <= j < |labels| ==> r.value[j] == (labels[j].value, cols[j])
  {
    if forall j :: 0 <= j < |labels| ==> labels[j].Some? then
      Some(seq(|labels|, j requires 0 <= j < |labels| => (labels[j].value, cols[j])))
    else None
  }

  /** `pd.DataFrame(result, index=y_ticks)`: one column per dict entry, in
      dict order, one row per y tick. */
  function HeatGrid(d: Dict<string, seq<Cell>>, yTicks: seq<real>): (g: Grid)
    requires forall j :: 0 <= j < |d| ==> |d[j].1| == |yTicks|
    ensures WellShaped(g) && g.index == yTicks && g.columns == Keys(d)
    ensures forall i, j :: 0 <= i < |yTicks| && 0 <= j < |d| ==> g.cells[i][j] == d[j].1[i]
  {
    Grid(yTicks, Keys(d), seq(|yTicks|, i requires 0 <= i < |yTicks| =>
                            seq(|d|, j requires 0 <= j < |d| => d[j].1[i])))
  }

  /** The frame of labelled columns: the dict filled with every pair in
      order, framed over the y ticks; ValueError when a label is missing. */
  function HeatMapOf(labels: seq<Option<string>>, cols: seq<seq<Cell>>, yTicks: seq<real>): (r: Result<Grid>)
    requires |labels| == |cols| && forall j :: 0 <= j < |cols| ==> |cols[j]| == |yTicks|
  {
    match Pairs(labels, cols)
    case None => Err(ValueError)
    case Some(ps) =>
      var d := PutAll([], ps);
      assert forall j :: 0 <= j < |d| ==> d[j] in ps;
      Ok(HeatGrid(d, yTicks))
  }

  /** What get_heat_map_data returns. */
  function HeatMapSpec(w: Dict<string, seq<Row>>, m: WprDataType, yTicks: seq<real>, fmt: TimeStr)
    : (r: Result<Grid>)
    requires m != TimePoint
    ensures r.Ok? <==> AllLabelled(LabelsOf(w, fmt))
    ensures r.Err? ==> r.error == ValueError
    ensures r.Ok? ==> WellShaped(r.value) && r.value.index == yTicks
  {
    HeatMapErrors(LabelsOf(w, fmt), ColumnsOf(w, m, yTicks), yTicks);
    HeatMapOf(LabelsOf(w, fmt), ColumnsOf(w, m, yTicks), yTicks)
  }

  /** get_heat_map_data: fills a dict with one column per entry, keyed by
      the entry's time in format `fmt`, then frames it over the y ticks. */
  method GetHeatMapData(w: Dict<string, seq<Row>>, m: WprDataType, yTicks: seq<real>, fmt: TimeStr)
    returns (r: Result<Grid>)
    requires m != TimePoint
    ensures r == HeatMapSpec(w, m, yTicks, fmt)
  {
    var result := FillHeatColumns(w, m, yTicks, fmt);
    if result.Err? {
      return Err(result.error);
    }
    return Ok(HeatGrid(result.value, yTicks));
  }

  /** The loop of get_heat_map_data: one dict assignment per entry, the
      label parsed from the key. */
  method FillHeatColumns(w: Dict<string, seq<Row>>, m: WprDataType, yTicks: seq<real>, fmt: TimeStr)
    returns (r: Result<Dict<string, seq<Cell>>>)
    requires m != TimePoint
    ensures r.Err? <==> Pairs(LabelsOf(w, fmt), ColumnsOf(w, m, yTicks)).None?
    ensures r.Err? ==> r.error == ValueError
    ensures r.Ok? ==> r.value == PutAll([], Pairs(LabelsOf(w, fmt), ColumnsOf(w, m, yTicks)).value)
    ensures r.Ok? ==> forall j :: 0 <= j < |r.value| ==> |r.value[j].1| == |yTicks|
  {
    ghost var cols := ColumnsOf(w, m, yTicks);
    var result: Dict<string, seq<Cell>> := [];
    ghost var labels: seq<Option<string>> := [];
    ghost var done: seq<(string, seq<Cell>)> := [];
    var k := 0;
    while k < |w|
      invariant 0 <= k <= |w|
      invariant labels == LabelsOf(w[..k], fmt)
      invariant forall j :: 0 <= j < k ==> labels[j].Some?
      invariant |done| == k
      invariant forall j :: 0 <= j < k ==> done[j] == (labels[j].value, cols[j])
      invariant result == PutAll([], done)
    {
      var data := TickColumn(w[k].1, m, yTicks);
      var lbl := KeyLabel(w, fmt, k);
      if lbl.None? {
        LabelMissing(w, m, yTicks, fmt, k);
        return Err(ValueError);
      }
      assert data == cols[k];
      PairsStep(labels, cols, done, lbl.value);
      labels := labels + [lbl];
      result := Put(result, lbl.value, data);
      PutAllSnoc([], done, (lbl.value, data));
      done := done + [(lbl.value, data)];
      k := k + 1;
    }
    assert w[..k] == w;
    PairsOf(labels, cols, done);
    ColumnLengths(w, m, yTicks, done);
    return Ok(result);
  }

  /** The label of the `k`-th key: strptime with the full time format, then
      strftime with `fmt`; `None` when strptime raises. */
  method KeyLabel(w: Dict<string, seq<Row>>, fmt: TimeStr, k: nat) returns (lbl: Option<string>)
    requires k < |w|
    ensures LabelsOf(w[..k + 1], fmt) == LabelsOf(w[..k], fmt) + [lbl]
  {
    var datetime := ParseYmdHMS(w[k].0);
    if datetime.None? {
      lbl := None;
    } else {
      lbl := Some(GetTimeStr(datetime.value, fmt));
    }
    assert w[..k + 1][..k] == w[..k] && w[..k + 1][k] == w[k];
  }

  /** A key without a label leaves the whole dict without pairs. */
  lemma LabelMissing(w: Dict<string, seq<Row>>, m: WprDataType, yTicks: seq<real>, fmt: TimeStr, k: nat)
    requires m != TimePoint && k < |w|
    requires LabelsOf(w[..k + 1], fmt)[k].None?
    ensures Pairs(LabelsOf(w, fmt), ColumnsOf(w, m, yTicks)).None?
  {
    LabelsPrefix(w, fmt, k + 1);
    assert LabelsOf(w, fmt)[k] == LabelsOf(w[..k + 1], fmt)[k];
  }

  /** The labels of the first entries are the first labels. */
  lemma {:induction false} LabelsPrefix(w: Dict<string, seq<Row>>, fmt: TimeStr, k: nat)
    requires k <= |w|
    ensures LabelsOf(w[..k], fmt) == LabelsOf(w, fmt)[..k]
    decreases |w|
  {
    if k < |w| {
      var w' := w[..|w| - 1];
      LabelsPrefix(w', fmt, k);
      assert w'[..k] == w[..k];
    } else {
      assert w[..k] == w;
    }
  }

  /** Every column put into the dict spans the y ticks. */
  lemma ColumnLengths(w: Dict<string, seq<Row>>, m: WprDataType, yTicks: seq<real>, ps: seq<(string, seq<Cell>)>)
    requires m != TimePoint
    requires |ps| == |w| && forall j :: 0 <= j < |ps| ==> ps[j].1 == ColumnsOf(w, m, yTicks)[j]
    ensures forall j :: 0 <= j < |PutAll([], ps)| ==> |PutAll([], ps)[j].1| == |yTicks|
  {
    var d := PutAll([], ps);
    forall j | 0 <= j < |d| ensures |d[j].1| == |yTicks| {
      assert d[j] in ps;
    }
  }

  lemma PairsStep(labels: seq<Option<string>>, cols: seq<seq<Cell>>, done: seq<(string, seq<Cell>)>, lbl: string)
    requires |labels| == |done| < |cols|
    requires forall j :: 0 <= j < |done| ==> labels[j].Some? && done[j] == (labels[j].value, cols[j])
    ensures var k := |done|;
            forall j :: 0 <= j < k + 1 ==>
              (labels + [Some(lbl)])[j].Some? &&
              (done + [(lbl, cols[k])])[j] == ((labels + [Some(lbl)])[j].value, cols[j])
  {
  }

  lemma PairsOf(labels: seq<Option<string>>, cols: seq<seq<Cell>>, done: seq<(string, seq<Cell>)>)
    requires |labels| == |cols| == |done|
    requires forall j :: 0 <= j < |labels| ==> labels[j].Some? && done[j] == (labels[j].value, cols[j])
    ensures Pairs(labels, cols) == Some(done)
  {
    var r := Pairs(labels, cols);
    assert r.Some?;
    assert |r.value| == |done|;
    assert forall j :: 0 <= j < |done| ==> r.value[j] == done[j];
    assert r.value == done;
  }

  /** Every entry's key read as a time. */
  predicate AllLabelled(labels: seq<Option<string>>) {
    forall j :: 0 <= j < |labels| ==> labels[j].Some?
  }

  /** get_heat_map_data fails exactly when some label is missing (a key
      that is not a time), and then with ValueError. */
  lemma HeatMapErrors(labels: seq<Option<string>>, cols: seq<seq<Cell>>, yTicks: seq<real>)
    requires |labels| == |cols| && forall j :: 0 <= j < |cols| ==> |cols[j]| == |yTicks|
    ensures HeatMapOf(labels, cols, yTicks).Ok? <==> AllLabelled(labels)
    ensures HeatMapOf(labels, cols, yTicks).Err? ==> HeatMapOf(labels, cols, yTicks).error == ValueError
  {
  }

  /** The frame has the y ticks as rows and one column per distinct label,
      in the order the labels first appear. */
  lemma HeatMapColumns(labels: seq<Option<string>>, cols: seq<seq<Cell>>, yTicks: seq<real>)
    requires |labels| == |cols| && forall j :: 0 <= j < |cols| ==> |cols[j]| == |yTicks|
    requires HeatMapOf(labels, cols, yTicks).Ok?
    ensures var g := HeatMapOf(labels, cols, yTicks).value;
            && WellShaped(g) && g.index == yTicks
            && (forall c, c' :: 0 <= c < c' < |g.columns| ==> g.columns[c] != g.columns[c'])
            && (forall lbl :: lbl in g.columns <==> Some(lbl) in labels)
  {
    var ps := Pairs(labels, cols).value;
    var d := PutAll([], ps);
    PutAllGet([], ps);
    forall lbl ensures lbl in Keys(d) <==> Some(lbl) in labels {
      if lbl in Keys(d) {
        var j :| 0 <= j < |ps| && ps[j].0 == lbl;
        assert labels[j] == Some(lbl);
      }
      if Some(lbl) in labels {
        var j :| 0 <= j < |labels| && labels[j] == Some(lbl);
        assert ps[j].0 == lbl;
      }
    }
  }

  /** The column of a label holds the column of the last entry with that
      label: later entries whose times share the label overwrite earlier
      ones. */
  lemma HeatMapCells(labels: seq<Option<string>>, cols: seq<seq<Cell>>, yTicks: seq<real>, j: nat, c: nat)
    requires |labels| == |cols| && forall j :: 0 <= j < |cols| ==> |cols[j]| == |yTicks|
    requires HeatMapOf(labels, cols, yTicks).Ok?
    requires j < |labels| && c < |HeatMapOf(labels, cols, yTicks).value.columns|
    requires Some(HeatMapOf(labels, cols, yTicks).value.columns[c]) == labels[j]
    requires forall j' :: j < j' < |labels| ==> labels[j'] != labels[j]
    ensures forall i :: 0 <= i < |yTicks| ==> HeatMapOf(labels, cols, yTicks).value.cells[i][c] == cols[j][i]
  {
    var ps := Pairs(labels, cols).value;
    var d := PutAll([], ps);
    PutAllGet([], ps);
    assert forall j' :: j < j' < |ps| ==> ps[j'].0 != ps[j].0;
    assert Get(d, ps[j].0) == Ok(ps[j].1);
    assert Find(d, ps[j].0) == Some(c);
  }

  /** A column stays at the position where its label first appeared: the
      columns made by any leading part of the entries begin the columns of
      the whole frame. */
  lemma HeatMapColumnsStay(labels: seq<Option<string>>, cols: seq<seq<Cell>>, yTicks: seq<real>, k: nat)
    requires |labels| == |cols| && forall j :: 0 <= j < |cols| ==> |cols[j]| == |yTicks|
    requires k <= |labels| && HeatMapOf(labels, cols, yTicks).Ok?
    ensures HeatMapOf(labels[..k], cols[..k], yTicks).Ok?
    ensures HeatMapOf(labels[..k], cols[..k], yTicks).value.columns <= HeatMapOf(labels, cols, yTicks).value.columns
  {
    var ps := Pairs(labels, cols).value;
    assert forall j :: 0 <= j < k ==> labels[..k][j] == labels[j] && cols[..k][j] == cols[j];
    var pk := Pairs(labels[..k], cols[..k]);
    assert pk.Some?;
    assert forall j :: 0 <= j < k ==> pk.value[j] == ps[..k][j];
    assert pk.value == ps[..k];
    PutAllKeysGrow([], ps, k);
  }

  /** The labels get_heat_map_data gives the keys: with the
      'YYYY-MM-DD HH:MM:SS' format every key that is a time is its own
      label, and with HH:MM two keys share a label exactly when their times
      share hour and minute. */
  lemma ColumnLabels(w: Dict<string, seq<Row>>, j: nat, j': nat)
    requires j < |w| && j' < |w|
    ensures LabelsOf(w, YmdHMS)[j].Some? <==> ParseYmdHMS(w[j].0).Some?
    ensures ParseYmdHMS(w[j].0).Some? ==> LabelsOf(w, YmdHMS)[j] == Some(w[j].0)
    ensures ParseYmdHMS(w[j].0).Some? && ParseYmdHMS(w[j'].0).Some? ==>
              (LabelsOf(w, HM)[j] == LabelsOf(w, HM)[j'] <==>
                 ParseYmdHMS(w[j].0).value.hour == ParseYmdHMS(w[j'].0).value.hour &&
                 ParseYmdHMS(w[j].0).value.minute == ParseYmdHMS(w[j'].0).value.minute)
  {
    LabelsOfAt(w, YmdHMS, j);
    LabelsOfAt(w, HM, j);
    LabelsOfAt(w, HM, j');
    if ParseYmdHMS(w[j].0).Some? {
      if ParseYmdHMS(w[j'].0).Some? {
        HMLabelSameMinute(ParseYmdHMS(w[j].0).value, ParseYmdHMS(w[j'].0).value);
      }
    }
  }

  /** With distinct keys that are all times and the 'YYYY-MM-DD HH:MM:SS'
      format nothing collapses: one column per entry, labelled by its key,
      in dict order. */
  lemma HeatMapFullLabels(w: Dict<string, seq<Row>>, m: WprDataType, yTicks: seq<real>)
    requires m != TimePoint && DistinctKeys(w)
    requires forall j :: 0 <= j < |w| ==> ParseYmdHMS(w[j].0).Some?
    ensures HeatMapSpec(w, m, yTicks, YmdHMS).Ok?
    ensures HeatMapSpec(w, m, yTicks, YmdHMS).value.columns == Keys(w)
  {
    var labels := LabelsOf(w, YmdHMS);
    var cols := ColumnsOf(w, m, yTicks);
    KeysAsLabels(w);
    HeatMapOfDistinct(labels, cols, yTicks);
    PairsKeys(w, labels, cols);
  }

  /** With the 'YYYY-MM-DD HH:MM:SS' format a key that is a time is its
      own label. */
  lemma KeysAsLabels(w: Dict<string, seq<Row>>)
    requires forall j :: 0 <= j < |w| ==> ParseYmdHMS(w[j].0).Some?
    ensures forall j :: 0 <= j < |w| ==> LabelsOf(w, YmdHMS)[j] == Some(w[j].0)
  {
    forall j | 0 <= j < |w| ensures LabelsOf(w, YmdHMS)[j] == Some(w[j].0) {
      LabelsOfAt(w, YmdHMS, j);
    }
  }

  lemma PairsKeys(w: Dict<string, seq<Row>>, labels: seq<Option<string>>, cols: seq<seq<Cell>>)
    requires |labels| == |cols| == |w|
    requires forall j :: 0 <= j < |w| ==> labels[j] == Some(w[j].0)
    ensures Pairs(labels, cols).Some? && Keys(Pairs(labels, cols).value) == Keys(w)
  {
    var ps := Pairs(labels, cols).value;
    assert forall j :: 0 <= j < |ps| ==> ps[j].0 == w[j].0;
  }

  /** Distinct labels, all present: the frame's columns are the labels. */
  lemma HeatMapOfDistinct(labels: seq<Option<string>>, cols: seq<seq<Cell>>, yTicks: seq<real>)
    requires |labels| == |cols| && forall j :: 0 <= j < |cols| ==> |cols[j]| == |yTicks|
    requires forall j :: 0 <= j < |labels| ==> labels[j].Some?
    requires forall i, j :: 0 <= i < j < |labels| ==> labels[i].value != labels[j].value
    ensures Pairs(labels, cols).Some?
    ensures HeatMapOf(labels, cols, yTicks).Ok?
    ensures HeatMapOf(labels, cols, yTicks).value.columns == Keys(Pairs(labels, cols).value)
  {
    var ps := Pairs(labels, cols).value;
    PutAllFresh([], ps);
    assert [] + ps == ps;
  }

  // ---------------------------------------------------------------------
  // remain_spe_row
  // ---------------------------------------------------------------------

  /** The layers to keep: `arange(down, upper, (upper - down) / nLayer)`
      followed by `upper`. */
  function SpeRefs(upper: real, down: real, nLayer: int): (refs: seq<real>)
    requires upper > down && nLayer > 0
    ensures |refs| == nLayer + 1
    ensures refs[nLayer] == upper
    ensures forall k :: 0 <= k < nLayer ==> refs[k] == down + k as real * ((upper - down) / nLayer as real) < upper
  {
    var step := (upper - down) / nLayer as real;
    assert (upper - down) / step == nLayer as real;
    Arange(down, upper, step) + [upper]
  }

  /** With the default arguments the layers are the eleven reference layers
      0, 300, ..., 3000 of the newer helpers. */
  lemma SpeRefsDefault()
    ensures SpeRefs(MaxHeight, 0.0, 10) == HeightRefs
  {
    HeightRefsValues();
    var refs := SpeRefs(MaxHeight, 0.0, 10);
    assert forall k :: 0 <= k < 11 ==> refs[k] == HeightRefs[k];
  }

  /** `list.index`: the first position of `h`. */
  function IndexOf(hs: seq<real>, h: real): (p: nat)
    requires h in hs
    ensures p < |hs| && hs[p] == h
    ensures forall k :: 0 <= k < p ==> hs[k] != h
  {
    if hs[0] == h then 0 else 1 + IndexOf(hs[1..], h)
  }

  /** The variables of the layer loop: the row positions chosen so far and
      the last smallest-height-above (`yTickTemp`), unset at first. */
  datatype Scan = Scan(heightIndex: seq<nat>, temp: Option<real>)

  predicate ScanIn(all: seq<real>, st: Scan) {
    st.temp.Some? ==> st.temp.value in all
  }

  /** One layer: its own position when it is a height; otherwise the
      position of the smallest height above it, added once. When no height
      lies above, the exception is swallowed and the previous `yTickTemp` is
      used again, or NameError is raised when there is none. */
  function IndexStep(all: seq<real>, st: Scan, item: real): (r: Result<Scan>)
    requires ScanIn(all, st)
    ensures r.Ok? ==> ScanIn(all, r.value) && st.heightIndex <= r.value.heightIndex
    ensures r.Err? ==> r.error == NameError
  {
    if item in all then Ok(Scan(st.heightIndex + [IndexOf(all, item)], st.temp))
    else
      var temp := if MinAbove(all, item).Some? then MinAbove(all, item) else st.temp;
      if temp.None? then Err(NameError)
      else
        var p := IndexOf(all, temp.value);
        if p !in st.heightIndex then Ok(Scan(st.heightIndex + [p], temp)) else Ok(Scan(st.heightIndex, temp))
  }

  /** The layer loop over `refs`. */
  function HeightIndex(all: seq<real>, refs: seq<real>): (r: Result<Scan>)
    ensures r.Ok? ==> ScanIn(all, r.value)
    ensures r.Ok? ==> forall p :: p in r.value.heightIndex ==> p < |all|
    ensures r.Err? ==> r.error == NameError
    decreases |refs|
  {
    if refs == [] then Ok(Scan([], None))
    else match HeightIndex(all, refs[..|refs| - 1])
      case Err(e) => Err(e)
      case Ok(st) => IndexStep(all, st, refs[|refs| - 1])
  }

  /** The heights each layer settles on, skipping the layers with no height
      at or above them. */
  function SpeLayerHeights(all: seq<real>, refs: seq<real>): (hs: set<real>)
    ensures forall h :: h in hs ==> h in all
  {
    set k | 0 <= k < |refs| && TargetFor(all, refs[k]).Some? :: TargetFor(all, refs[k]).value
  }

  /** The heights at the chosen positions. */
  function HeightsAt(all: seq<real>, positions: seq<nat>): set<real> {
    set p | p in positions && p < |all| :: all[p]
  }

  lemma SpeLayerHeightsSnoc(all: seq<real>, refs: seq<real>, x: real)
    ensures SpeLayerHeights(all, refs + [x]) ==
            SpeLayerHeights(all, refs) + (if TargetFor(all, x).Some? then {TargetFor(all, x).value} else {})
  {
    var r := refs + [x];
    assert forall k :: 0 <= k < |refs| ==> r[k] == refs[k];
    assert r[|refs|] == x;
  }

  /** The invariant of the layer loop: the chosen positions are first
      positions of exactly the heights the layers settle on, `yTickTemp`
      is unset until some layer missed the list, and once set its position
      has been chosen. */
  predicate Selects(all: seq<real>, refs: seq<real>, st: Scan) {
    && HeightsAt(all, st.heightIndex) == SpeLayerHeights(all, refs)
    && (forall p :: p in st.heightIndex ==> p < |all| && p == IndexOf(all, all[p]))
    && (st.temp.Some? ==> st.temp.value in all && IndexOf(all, st.temp.value) in st.heightIndex)
    && (st.temp.None? <==> forall k :: 0 <= k < |refs| ==> refs[k] in all)
  }

  lemma SelectsStep(all: seq<real>, refs: seq<real>, st: Scan, x: real)
    requires Selects(all, refs, st) && IndexStep(all, st, x).Ok?
    ensures Selects(all, refs + [x], IndexStep(all, st, x).value)
  {
    var st' := IndexStep(all, st, x).value;
    var refs' := refs + [x];
    SpeLayerHeightsSnoc(all, refs, x);
    assert forall k :: 0 <= k < |refs| ==> refs'[k] == refs[k];
    assert refs'[|refs|] == x;
    if x in all {
      var p := IndexOf(all, x);
      assert st'.heightIndex == st.heightIndex + [p];
      assert HeightsAt(all, st'.heightIndex) == HeightsAt(all, st.heightIndex) + {x};
    } else if MinAbove(all, x).Some? {
      var h := MinAbove(all, x).value;
      var p := IndexOf(all, h);
      if p !in st.heightIndex {
        assert st'.heightIndex == st.heightIndex + [p];
        assert HeightsAt(all, st'.heightIndex) == HeightsAt(all, st.heightIndex) + {h};
      } else {
        assert h in HeightsAt(all, st.heightIndex);
      }
    } else {
      assert st' == st;
    }
  }

  /** While the loop runs it keeps the invariant above. */
  lemma {:induction false} HeightIndexSelects(all: seq<real>, refs: seq<real>)
    requires HeightIndex(all, refs).Ok?
    ensures Selects(all, refs, HeightIndex(all, refs).value)
    decreases |refs|
  {
    if refs != [] {
      var pre, x := refs[..|refs| - 1], refs[|refs| - 1];
      assert refs == pre + [x];
      HeightIndexSelects(all, pre);
      SelectsStep(all, pre, HeightIndex(all, pre).value, x);
    }
  }

  /** Once the layer loop has raised, the whole loop raises. */
  lemma {:induction false} HeightIndexErrStays(all: seq<real>, refs: seq<real>, k: nat)
    requires k <= |refs| && HeightIndex(all, refs[..k]).Err?
    ensures HeightIndex(all, refs).Err?
    decreases |refs|
  {
    if k < |refs| {
      var pre := refs[..|refs| - 1];
      assert pre[..k] == refs[..k];
      HeightIndexErrStays(all, pre, k);
    } else {
      assert refs[..k] == refs;
    }
  }

  /** Once the row loop has raised, the whole loop raises the same error
      over the same rows. */
  lemma {:induction false} PositionalMaskErrStays(cells: seq<seq<Cell>>, keep: seq<nat>, m: nat, n: nat, width: nat, len: nat)
    requires m <= n && PositionalMask(cells, keep, m, width, len).1.Some?
    ensures PositionalMask(cells, keep, n, width, len) == PositionalMask(cells, keep, m, width, len)
    decreases n
  {
    if m < n {
      PositionalMaskErrStays(cells, keep, m, n - 1, width, len);
    }
  }

  /** The loop raises NameError exactly when a layer has no height at or
      above it while every earlier layer was a height of the list. */
  lemma {:induction false} HeightIndexFails(all: seq<real>, refs: seq<real>)
    ensures HeightIndex(all, refs).Err? <==>
              exists k :: 0 <= k < |refs| && TargetFor(all, refs[k]).None? &&
                forall j :: 0 <= j < k ==> refs[j] in all
    decreases |refs|
  {
    if refs != [] {
      var pre, x := refs[..|refs| - 1], refs[|refs| - 1];
      assert refs == pre + [x];
      assert forall k :: 0 <= k < |pre| ==> refs[k] == pre[k];
      HeightIndexFails(all, pre);
      if HeightIndex(all, pre).Ok? {
        HeightIndexSelects(all, pre);
        if HeightIndex(all, refs).Err? {
          assert TargetFor(all, refs[|pre|]).None?;
        } else {
          forall k | 0 <= k < |refs| && TargetFor(all, refs[k]).None?
            ensures exists j :: 0 <= j < k && refs[j] !in all
          {
            if k == |pre| {
              assert HeightIndex(all, pre).value.temp.Some?;
            }
          }
        }
      }
    }
  }

  /** The row loop over positions `0 .. n - 1`: every position not chosen is
      overwritten with `len` missing values. A position past the frame's
      rows raises IndexError and a value list of the wrong length ValueError;
      the rows blanked before the error stay blanked. */
  function PositionalMask(cells: seq<seq<Cell>>, keep: seq<nat>, n: nat, width: nat, len: nat)
    : (r: (seq<seq<Cell>>, Option<PyError>))
    ensures |r.0| == |cells|
    ensures r.1.Some? ==> r.1.value == IndexError || r.1.value == ValueError
    decreases n
  {
    if n == 0 then (cells, None)
    else
      var prev := PositionalMask(cells, keep, n - 1, width, len);
      var row := n - 1;
      if prev.1.Some? || row in keep then prev
      else if row >= |prev.0| then (prev.0, Some(IndexError))
      else if len != width then (prev.0, Some(ValueError))
      else (prev.0[row := Blank(width)], None)
  }

  /** The row loop succeeds exactly when every position it blanks is a row
      of the frame and the value list fits the columns (or nothing is
      blanked); it then blanks exactly the positions below `n` not chosen. */
  lemma {:induction false} PositionalMaskOutcome(cells: seq<seq<Cell>>, keep: seq<nat>, n: nat, width: nat, len: nat)
    ensures var r := PositionalMask(cells, keep, n, width, len);
            && (r.1.None? <==>
                  (forall row :: 0 <= row < n && row !in keep ==> row < |cells| && len == width))
            && (r.1.None? ==>
                  forall i :: 0 <= i < |cells| ==>
                    r.0[i] == if i < n && i !in keep then Blank(width) else cells[i])
    decreases n
  {
    if n > 0 {
      PositionalMaskOutcome(cells, keep, n - 1, width, len);
    }
  }

  /** What remain_spe_row does to the frame's rows, and the error it
      raises, if any. */
  function SpeRowOutcome(wprData: Dict<string, seq<Row>>, cells: seq<seq<Cell>>, width: nat,
                         upper: real, down: real, nLayer: int): (r: (seq<seq<Cell>>, Option<PyError>))
    ensures |r.0| == |cells|
  {
    if !(down >= 0.0 && upper > down && nLayer > 0) then (cells, Some(AssertionError))
    else if wprData == [] then (cells, Some(IndexError))
    else
      var all := Heights(wprData[0].1);
      match HeightIndex(all, SpeRefs(upper, down, nLayer))
      case Err(e) => (cells, Some(e))
      case Ok(st) => PositionalMask(cells, st.heightIndex, |all|, width, |wprData|)
  }

  /** remain_spe_row: after checking its arguments, chooses the first
      frame's row positions of the layers, then overwrites in place every
      other row position of `w` with missing values, one per dict entry. */
  method RemainSpeRow(wprData: Dict<string, seq<Row>>, w: Frame, upper: real, down: real, nLayer: int)
    returns (r: Result<Frame>)
    requires w.Valid()
    modifies w
    ensures w.index == old(w.index) && w.columns == old(w.columns)
    ensures var o := SpeRowOutcome(wprData, old(w.cells), |old(w.columns)|, upper, down, nLayer);
            && w.cells == o.0
            && (r.Ok? <==> o.1.None?)
            && (r.Ok? ==> r.value == w && w.Valid())
            && (r.Err? ==> r.error == o.1.value)
  {
    if !(down >= 0.0 && upper > down && nLayer > 0) {
      return Err(AssertionError);
    }
    if wprData == [] {
      return Err(IndexError);
    }
    var lenWprData := |wprData|;
    var yTicksAll := Heights(wprData[0].1);
    var yTicks := SpeRefs(upper, down, nLayer);
    var heightIndex: seq<nat> := [];
    var yTickTemp: Option<real> := None;
    var k := 0;
    while k < |yTicks|
      invariant 0 <= k <= |yTicks|
      invariant HeightIndex(yTicksAll, yTicks[..k]) == Ok(Scan(heightIndex, yTickTemp))
    {
      var item := yTicks[k];
      assert yTicks[..k + 1][..k] == yTicks[..k] && yTicks[..k + 1][k] == item;
      if item in yTicksAll {
        heightIndex := heightIndex + [IndexOf(yTicksAll, item)];
      } else {
        var above := MinAbove(yTicksAll, item);
        if above.Some? {
          yTickTemp := above;
        }
        if yTickTemp.None? {
          HeightIndexErrStays(yTicksAll, yTicks, k + 1);
          return Err(NameError);
        }
        var p := IndexOf(yTicksAll, yTickTemp.value);
        if p !in heightIndex {
          heightIndex := heightIndex + [p];
        }
      }
      k := k + 1;
    }
    assert yTicks[..k] == yTicks;
    r := MaskPositions(w, heightIndex, |yTicksAll|, lenWprData);
  }

  /** The row loop of remain_spe_row. */
  method MaskPositions(w: Frame, keep: seq<nat>, n: nat, len: nat) returns (r: Result<Frame>)
    requires w.Valid()
    modifies w
    ensures w.index == old(w.index) && w.columns == old(w.columns)
    ensures var o := PositionalMask(old(w.cells), keep, n, |old(w.columns)|, len);
            && w.cells == o.0
            && (r.Ok? <==> o.1.None?)
            && (r.Ok? ==> r.value == w && w.Valid())
            && (r.Err? ==> r.error == o.1.value)
  {
    var rowIndex := 0;
    while rowIndex < n
      invariant 0 <= rowIndex <= n
      invariant w.index == old(w.index) && w.columns == old(w.columns)
      invariant PositionalMask(old(w.cells), keep, rowIndex, |w.columns|, len) == (w.cells, None)
      invariant w.Valid()
    {
      if rowIndex !in keep {
        if rowIndex >= |w.cells| {
          PositionalMaskErrStays(old(w.cells), keep, rowIndex + 1, n, |w.columns|, len);
          return Err(IndexError);
        }
        if len != |w.columns| {
          PositionalMaskErrStays(old(w.cells), keep, rowIndex + 1, n, |w.columns|, len);
          return Err(ValueError);
        }
        w.cells := w.cells[rowIndex := Blank(|w.columns|)];
      }
      rowIndex := rowIndex + 1;
    }
    return Ok(w);
  }

  /** On a frame whose rows follow the first frame's heights one for one,
      with distinct heights and one column per dict entry, blanking by
      position is blanking by height: the rows kept are those whose heights
      were chosen. */
  lemma PositionalMatchesHeights(all: seq<real>, cells: seq<seq<Cell>>, keep: seq<nat>, width: nat)
    requires |cells| == |all|
    requires forall i, j :: 0 <= i < j < |all| ==> all[i] != all[j]
    requires forall p :: p in keep ==> p < |all|
    ensures PositionalMask(cells, keep, |all|, width, width) == (MaskRows(cells, all, HeightsAt(all, keep), width), None)
  {
    PositionalMaskOutcome(cells, keep, |all|, width, width);
    var r := PositionalMask(cells, keep, |all|, width, width);
    var t := HeightsAt(all, keep);
    forall i | 0 <= i < |all| ensures i in keep <==> all[i] in t {
      if all[i] in t {
        var p :| p in keep && p < |all| && all[p] == all[i];
      }
    }
    assert r.0 == MaskRows(cells, all, t, width);
  }

  /** remain_spe_row as plt_helper calls it, on a heat-map frame of the
      dict (one row per first-frame height, in descending order, and one
      column per entry): row `i` is kept exactly when the height at
      position `i` of the ascending list was chosen, which is the height of
      the mirrored row `|all| - 1 - i` of the frame, not of row `i`. */
  lemma SpeRowMirrors(wprData: Dict<string, seq<Row>>, cells: seq<seq<Cell>>, upper: real, down: real, nLayer: int)
    requires down >= 0.0 && upper > down && nLayer > 0
    requires wprData != [] && |cells| == |wprData[0].1|
    requires var all := Heights(wprData[0].1);
             forall i, j :: 0 <= i < j < |all| ==> all[i] != all[j]
    requires HeightIndex(Heights(wprData[0].1), SpeRefs(upper, down, nLayer)).Ok?
    ensures var all := Heights(wprData[0].1);
            var index := Reverse(all);
            var o := SpeRowOutcome(wprData, cells, |wprData|, upper, down, nLayer);
            && o.1.None?
            && forall i :: 0 <= i < |cells| ==>
                 o.0[i] == if index[|all| - 1 - i] in SpeLayerHeights(all, SpeRefs(upper, down, nLayer))
                           then cells[i] else Blank(|wprData|)
  {
    var all := Heights(wprData[0].1);
    var refs := SpeRefs(upper, down, nLayer);
    var st := HeightIndex(all, refs).value;
    HeightIndexSelects(all, refs);
    PositionalMatchesHeights(all, cells, st.heightIndex, |wprData|);
  }

  /** The first frame holds heights 0, 3000 and 3500 m: with the default
      layers the heights 0 and 3000 are chosen. */
  lemma ExampleLayers(all: seq<real>)
    requires all == [0.0, 3000.0, 3500.0]
    ensures HeightIndex(all, SpeRefs(MaxHeight, 0.0, 10)).Ok?
    ensures SpeLayerHeights(all, SpeRefs(MaxHeight, 0.0, 10)) == {0.0, 3000.0}
  {
    SpeRefsDefault();
    HeightRefsValues();
    var refs := HeightRefs;
    forall k | 0 <= k < |refs| ensures TargetFor(all, refs[k]) == Some(if k == 0 then 0.0 else 3000.0) {
      if k > 0 {
        ExampleTargetAbove(all, refs[k]);
      }
    }
    HeightIndexFails(all, refs);
    var hs := SpeLayerHeights(all, refs);
    assert TargetFor(all, refs[0]).value in hs && TargetFor(all, refs[10]).value in hs;
    forall h | h in hs ensures h == 0.0 || h == 3000.0 {
      var k :| 0 <= k < |refs| && TargetFor(all, refs[k]) == Some(h);
    }
  }

  /** In the example frame every layer above the ground is served by 3000 m. */
  lemma ExampleTargetAbove(all: seq<real>, r: real)
    requires all == [0.0, 3000.0, 3500.0] && 0.0 < r <= 3000.0
    ensures TargetFor(all, r) == Some(3000.0)
  {
    if r != 3000.0 {
      assert r !in all;
      assert 3000.0 in all;
    }
  }

  /** Finding, as written: the dict's first frame holds 0, 3000 and 3500 m,
      so the heat-map frame's rows are 3500, 3000 and 0 m. With the default
      arguments the 3500 m row keeps its value and the 0 m row, a chosen
      layer, is blanked. */
  lemma SpeRowBlanksChosenLayer(wprData: Dict<string, seq<Row>>, cells: seq<seq<Cell>>)
    requires |wprData| == 1 && Heights(wprData[0].1) == [0.0, 3000.0, 3500.0]
    requires cells == [[Some(1.0)], [Some(2.0)], [Some(3.0)]]
    ensures SpeRowOutcome(wprData, cells, 1, MaxHeight, 0.0, 10) == ([[Some(1.0)], [Some(2.0)], Blank(1)], None)
  {
    var o := SpeRowOutcome(wprData, cells, 1, MaxHeight, 0.0, 10);
    ExampleRows(wprData, cells);
    assert o.0 == [[Some(1.0)], [Some(2.0)], Blank(1)];
  }

  /** Row by row: the rows of 0 and 3000 m stay, the row of 3500 m is blanked. */
  lemma ExampleRows(wprData: Dict<string, seq<Row>>, cells: seq<seq<Cell>>)
    requires |wprData| == 1 && Heights(wprData[0].1) == [0.0, 3000.0, 3500.0]
    requires cells == [[Some(1.0)], [Some(2.0)], [Some(3.0)]]
    ensures var o := SpeRowOutcome(wprData, cells, 1, MaxHeight, 0.0, 10);
            o.1 == None && |o.0| == 3 && o.0[0] == cells[0] && o.0[1] == cells[1] && o.0[2] == Blank(1)
  {
    var all := Heights(wprData[0].1);
    ExampleLayers(all);
    var hs := SpeLayerHeights(all, SpeRefs(MaxHeight, 0.0, 10));
    assert hs == {0.0, 3000.0};
    assert all[0] != all[1] && all[0] != all[2] && all[1] != all[2];
    SpeRowMirrors(wprData, cells, MaxHeight, 0.0, 10);
    var o := SpeRowOutcome(wprData, cells, 1, MaxHeight, 0.0, 10);
    var index := Reverse(all);
    assert index[2] == 0.0 && index[1] == 3000.0 && index[0] == 3500.0;
    assert index[2] in hs && index[1] in hs && index[0] !in hs;
    assert o.0[0] == cells[0] && o.0[1] == cells[1] && o.0[2] == Blank(1);
  }

  /** Finding, as written: when the first frame holds only the ground layer
      0 m, the 300 m layer has no height above it and no earlier
      `yTickTemp` exists, so remain_spe_row raises NameError instead of
      skipping the layer. */
  lemma SpeRowNameError(wprData: Dict<string, seq<Row>>, cells: seq<seq<Cell>>, width: nat)
    requires wprData != [] && Heights(wprData[0].1) == [0.0]
    ensures SpeRowOutcome(wprData, cells, width, MaxHeight, 0.0, 10) == (cells, Some(NameError))
  {
    var all := Heights(wprData[0].1);
    SpeRefsDefault();
    HeightRefsValues();
    HeightIndexFails(all, HeightRefs);
    assert TargetFor(all, HeightRefs[1]).None? && HeightRefs[0] in all;
  }

  /** remain_spe_row as evidently intended: the same layers, skipping a
      layer with no height at or above it, and every row of `w` blanked
      whose height (its index label) is not a chosen height, wherever the
      row stands in the frame. */
  method RemainSpeRowByHeight(wprData: Dict<string, seq<Row>>, w: Frame, upper: real, down: real, nLayer: int)
    returns (r: Result<Frame>)
    requires w.Valid()
    modifies w
    ensures w.Valid() && w.index == old(w.index) && w.columns == old(w.columns)
    ensures !(down >= 0.0 && upper > down && nLayer > 0) ==> r == Err(AssertionError) && w.cells == old(w.cells)
    ensures (down >= 0.0 && upper > down && nLayer > 0 && wprData == []) ==>
              r == Err(IndexError) && w.cells == old(w.cells)
    ensures (down >= 0.0 && upper > down && nLayer > 0 && wprData != []) ==>
              r == Ok(w) &&
              w.cells == MaskRows(old(w.cells), old(w.index),
                                  SpeLayerHeights(Heights(wprData[0].1), SpeRefs(upper, down, nLayer)), |w.columns|)
  {
    if !(down >= 0.0 && upper > down && nLayer > 0) {
      return Err(AssertionError);
    }
    if wprData == [] {
      return Err(IndexError);
    }
    var targets := SpeLayerHeights(Heights(wprData[0].1), SpeRefs(upper, down, nLayer));
    r := RemainSpecialLayers(w, Some(targets));
  }

  /** Blanking by height does not depend on the order of the rows: reversing
      the frame and then blanking is blanking and then reversing. */
  lemma MaskRowsReverse(cells: seq<seq<Cell>>, index: seq<real>, targets: set<real>, width: nat)
    requires |cells| == |index|
    ensures MaskRows(Reverse(cells), Reverse(index), targets, width) == Reverse(MaskRows(cells, index, targets, width))
  {
    var a := MaskRows(Reverse(cells), Reverse(index), targets, width);
    var b := Reverse(MaskRows(cells, index, targets, width));
    var n := |cells|;
    forall i | 0 <= i < n ensures a[i] == b[i] {
      assert Reverse(index)[i] == index[n - 1 - i] && Reverse(cells)[i] == cells[n - 1 - i];
    }
  }

  /** Where the as-written version does not raise and the frame's rows
      follow the first frame's distinct heights in ascending order, both
      versions blank the same rows. */
  lemma SpeRowAgreesOnAscendingFrame(wprData: Dict<string, seq<Row>>, cells: seq<seq<Cell>>, upper: real, down: real, nLayer: int)
    requires down >= 0.0 && upper > down && nLayer > 0 && wprData != []
    requires var all := Heights(wprData[0].1);
             |cells| == |all| && forall i, j :: 0 <= i < j < |all| ==> all[i] != all[j]
    requires SpeRowOutcome(wprData, cells, |wprData|, upper, down, nLayer).1 != Some(NameError)
    ensures SpeRowOutcome(wprData, cells, |wprData|, upper, down, nLayer) ==
            (MaskRows(cells, Heights(wprData[0].1), SpeLayerHeights(Heights(wprData[0].1), SpeRefs(upper, down, nLayer)), |wprData|), None)
  {
    var all := Heights(wprData[0].1);
    var refs := SpeRefs(upper, down, nLayer);
    var st := HeightIndex(all, refs).value;
    HeightIndexSelects(all, refs);
    PositionalMatchesHeights(all, cells, st.heightIndex, |wprData|);
  }

  /** Corrected, on the frame of the first finding: the 0 m and 3000 m rows
      keep their values and the 3500 m row is blanked. On a first frame of
      only 0 m, the 0 m row is kept instead of NameError being raised. */
  lemma SpeLayerExamples()
    ensures MaskRows([[Some(1.0)], [Some(2.0)], [Some(3.0)]], [3500.0, 3000.0, 0.0],
                     SpeLayerHeights([0.0, 3000.0, 3500.0], SpeRefs(MaxHeight, 0.0, 10)), 1)
            == [Blank(1), [Some(2.0)], [Some(3.0)]]
    ensures SpeLayerHeights([0.0], SpeRefs(MaxHeight, 0.0, 10)) == {0.0}
  {
    ExampleLayers([0.0, 3000.0, 3500.0]);
    SpeRefsDefault();
    HeightRefsValues();
    var hs := SpeLayerHeights([0.0], HeightRefs);
    assert TargetFor([0.0], HeightRefs[0]) == Some(0.0);
  }
}
