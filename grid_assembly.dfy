// Grid assembly of the radar heat maps: the fetched rows become one
// height-by-time grid per wind series, with derived speed and direction
// grids and the optional blanking of every non-reference layer.

module GridAssembly {
  import opened Wrappers
  import opened Common
  import opened Schemas
  import opened Frames
  import opened HeightProfile

  // ---------------------------------------------------------------------
  // lookups by height
  // ---------------------------------------------------------------------

  /** get_wpr_data_by_height_idx: column `m` at height label `idx` of one
      time point's rows, `nan` when no row has that height. */
  function GetWprDataByHeightIdx(dfTime: seq<Row>, m: WprDataType, idx: real, nan: Cell): (c: Cell)
    requires m != TimePoint
    ensures (forall k :: 0 <= k < |dfTime| ==> dfTime[k].height != idx) ==> c == nan
    ensures forall i :: (0 <= i < |dfTime| && dfTime[i].height == idx &&
              (forall k :: 0 <= k < i ==> dfTime[k].height != idx)) ==> c == Field(dfTime[i], m)
  {
    GetWprDataBy(dfTime, m, idx, Height, nan)
  }

  /** One series: the value of column `m` at time point `t` for every height
      of `heightList`, in that order. */
  function Series(rows: seq<Row>, t: Timestamp, heightList: seq<real>, m: WprDataType): (s: seq<Cell>)
    requires m != TimePoint
    ensures |s| == |heightList|
  {
    var dfTime := SelectTime(rows, t);
    seq(|heightList|, i requires 0 <= i < |heightList| => GetWprDataByHeightIdx(dfTime, m, heightList[i], None))
  }

  /** get_wind_field_datas_by_height_idx: the hws, hwd and vws series of one
      time point. */
  function GetWindFieldDatasByHeightIdx(rows: seq<Row>, t: Timestamp, heightList: seq<real>)
    : (r: (seq<Cell>, seq<Cell>, seq<Cell>))
    ensures |r.0| == |heightList| && |r.1| == |heightList| && |r.2| == |heightList|
    ensures r.0 == Series(rows, t, heightList, Hws)
    ensures r.1 == Series(rows, t, heightList, Hwd)
    ensures r.2 == Series(rows, t, heightList, Vws)
  {
    (Series(rows, t, heightList, Hws), Series(rows, t, heightList, Hwd), Series(rows, t, heightList, Vws))
  }

  /** A value of a series comes from a row of that time point and height,
      and a height with no row at that time point gives NaN. */
  lemma SeriesSound(rows: seq<Row>, t: Timestamp, heightList: seq<real>, m: WprDataType, i: nat)
    requires m != TimePoint && i < |heightList|
    ensures Series(rows, t, heightList, m)[i].Some? ==>
              exists r :: r in rows && r.timePoint == t && r.height == heightList[i] &&
                          Field(r, m) == Series(rows, t, heightList, m)[i]
    ensures (forall r :: r in rows && r.timePoint == t ==> r.height != heightList[i]) ==>
              Series(rows, t, heightList, m)[i].None?
  {
    var dfTime := SelectTime(rows, t);
    var c := Series(rows, t, heightList, m)[i];
    match FirstWith(dfTime, Height, heightList[i])
    case None =>
    case Some(k) =>
      assert dfTime[k] in dfTime;
      assert c == Field(dfTime[k], m);
  }

  // ---------------------------------------------------------------------
  // time keys and column labels
  // ---------------------------------------------------------------------

  predicate Chronological(ks: seq<Timestamp>) {
    forall i, j :: 0 <= i < j < |ks| ==> Ordinal(ks[i]) < Ordinal(ks[j])
  }

  /** Inserts a time point into a chronological list without duplicating it. */
  function InsertKey(ks: seq<Timestamp>, t: Timestamp): (r: seq<Timestamp>)
    requires Chronological(ks)
    ensures Chronological(r)
    ensures forall x :: x in r <==> x in ks || x == t
  {
    if ks == [] then [t]
    else if Ordinal(t) < Ordinal(ks[0]) then [t] + ks
    else if Ordinal(t) == Ordinal(ks[0]) then
      OrdinalInjective(t, ks[0]);
      ks
    else
      var rest := InsertKey(ks[1..], t);
      assert forall x :: x in rest ==> Ordinal(ks[0]) < Ordinal(x);
      var r := [ks[0]] + rest;
      assert forall j :: 0 < j < |r| ==> r[j] == rest[j - 1];
      r
  }

  /** `groupby('timePoint').groups.keys()`: the distinct time points in
      chronological order. */
  function GroupKeys(rows: seq<Row>): (ks: seq<Timestamp>)
    ensures Chronological(ks)
    ensures forall t :: t in ks <==> exists r :: r in rows && r.timePoint == t
    ensures rows != [] ==> ks != []
  {
    if rows == [] then []
    else
      var rest := GroupKeys(rows[1..]);
      assert rows == [rows[0]] + rows[1..];
      InsertKey(rest, rows[0].timePoint)
  }

  /** The group keys are distinct. */
  lemma GroupKeysDistinct(rows: seq<Row>)
    ensures forall i, j :: 0 <= i < j < |GroupKeys(rows)| ==> GroupKeys(rows)[i] != GroupKeys(rows)[j]
  {
  }

  /** `time_cols`: the HH:MM label of every time point. */
  function TimeCols(ks: seq<Timestamp>): (cols: seq<string>)
    ensures |cols| == |ks|
    ensures forall j :: 0 <= j < |ks| ==> |cols[j]| == 5 && cols[j][2] == ':'
    ensures forall i, j :: 0 <= i < |ks| && 0 <= j < |ks| ==>
              (cols[i] == cols[j] <==> ks[i].hour == ks[j].hour && ks[i].minute == ks[j].minute)
  {
    var cols := seq(|ks|, j requires 0 <= j < |ks| => GetTimeStr(ks[j], HM));
    assert forall i, j :: 0 <= i < |ks| && 0 <= j < |ks| ==>
              (cols[i] == cols[j] <==> ks[i].hour == ks[j].hour && ks[i].minute == ks[j].minute) by {
      forall i, j | 0 <= i < |ks| && 0 <= j < |ks|
        ensures cols[i] == cols[j] <==> ks[i].hour == ks[j].hour && ks[i].minute == ks[j].minute
      {
        HMLabelSameMinute(ks[i], ks[j]);
      }
    }
    cols
  }

  /** `col_index`: 0 .. n - 1. */
  function ColIndex(n: nat): (r: seq<int>)
    ensures |r| == n
    ensures forall j :: 0 <= j < n ==> r[j] == j
  {
    seq(n, j => j)
  }

  /** The descending height list: the first time point's kept heights. */
  function HeightListOf(rows: seq<Row>, first: Timestamp): (hl: seq<real>)
    ensures Descending(hl)
    ensures |hl| == |KeptRows(rows, first)|
    ensures forall i :: 0 <= i < |hl| ==> hl[i] == KeptRows(rows, first)[|hl| - 1 - i].height
  {
    var kept := KeptRows(rows, first);
    ReversedHeightsDescend(kept);
    Reverse(Heights(kept))
  }

  lemma ReversedHeightsDescend(kept: seq<Row>)
    requires SortedByHeight(kept)
    ensures Descending(Reverse(Heights(kept)))
  {
    var hl := Reverse(Heights(kept));
    forall i, j | 0 <= i < j < |hl| ensures hl[i] >= hl[j] {
      assert hl[i] == kept[|kept| - 1 - i].height && hl[j] == kept[|kept| - 1 - j].height;
    }
  }

  // ---------------------------------------------------------------------
  // the grids
  // ---------------------------------------------------------------------

  function SeriesList(rows: seq<Row>, ks: seq<Timestamp>, hl: seq<real>, m: WprDataType): (l: seq<seq<Cell>>)
    requires m != TimePoint
    ensures |l| == |ks|
    ensures forall j :: 0 <= j < |ks| ==> l[j] == Series(rows, ks[j], hl, m)
  {
    seq(|ks|, j requires 0 <= j < |ks| => Series(rows, ks[j], hl, m))
  }

  /** One origin grid: rows are the heights of `hl`, columns the labelled
      time points, cell (i, j) the value of column `m` at that height and
      time point. */
  function OriginGrid(rows: seq<Row>, ks: seq<Timestamp>, hl: seq<real>, m: WprDataType): (g: Grid)
    requires m != TimePoint && ks != []
    ensures WellShaped(g) && g.index == hl && g.columns == TimeCols(ks)
    ensures forall i, j :: 0 <= i < |hl| && 0 <= j < |ks| ==> g.cells[i][j] == Series(rows, ks[j], hl, m)[i]
  {
    var l := SeriesList(rows, ks, hl, m);
    var r := ConcatSeries(l, hl, TimeCols(ks));
    var g := r.value;
    assert forall i, j :: 0 <= i < |hl| && 0 <= j < |ks| ==> g.cells[i][j] == Series(rows, ks[j], hl, m)[i] by {
      forall i, j | 0 <= i < |hl| && 0 <= j < |ks| ensures g.cells[i][j] == Series(rows, ks[j], hl, m)[i] {
        assert Column(g, j) == l[j];
      }
    }
    g
  }

  /** `frame.loc[idx] = None` for every non-target row, as a value. */
  function MaskGrid(g: Grid, targets: set<real>): (h: Grid)
    requires WellShaped(g)
    ensures WellShaped(h) && h.index == g.index && h.columns == g.columns
    ensures h.cells == MaskRows(g.cells, g.index, targets, |g.columns|)
  {
    Grid(g.index, g.columns, MaskRows(g.cells, g.index, targets, |g.columns|))
  }

  /** `np.where(x != 0, 180, x)` on one cell: NaN is not 0, so it becomes
      180 as well. */
  function DirectionCell(c: Cell): (d: Cell)
    ensures d == Some(180.0) <==> c != Some(0.0)
    ensures d == Some(0.0) <==> c == Some(0.0)
  {
    if c != Some(0.0) then Some(180.0) else c
  }

  /** VWD_: the vertical direction grid derived from the vertical speed. */
  function VerticalDirection(g: Grid): (h: Grid)
    requires WellShaped(g)
    ensures WellShaped(h) && h.index == g.index && h.columns == g.columns
    ensures forall i, j :: 0 <= i < |g.cells| && 0 <= j < |g.columns| ==>
              h.cells[i][j] == DirectionCell(g.cells[i][j])
  {
    Grid(g.index, g.columns,
         seq(|g.cells|, i requires 0 <= i < |g.cells| =>
           seq(|g.cells[i]|, j requires 0 <= j < |g.cells[i]| => DirectionCell(g.cells[i][j]))))
  }

  /** What the client hands back: nothing (a failed request), or a dict
      whose 'data' entry is missing or None, or a list of radar rows. */
  datatype Fetched = NoResponse | Payload(data: Option<seq<Row>>)

  /** The grids of one call, as values. */
  datatype Assembled = Assembled(
    heightList: seq<real>, timeCols: seq<string>, colIndex: seq<int>,
    originHws: Grid, hws: Grid, hwd: Grid,
    originVws: Grid, vws: Grid, vwd: Grid)

  /** A grid over the given rows and columns. */
  predicate Framed(g: Grid, hl: seq<real>, cols: seq<string>) {
    WellShaped(g) && g.index == hl && g.columns == cols
  }

  /** The grids of the time points `ks` over the heights `hl`, the processed
      ones masked to `targets` when there are targets. */
  function Build(rows: seq<Row>, ks: seq<Timestamp>, hl: seq<real>, targets: Option<set<real>>): (a: Assembled)
    requires ks != []
    ensures a.heightList == hl && a.timeCols == TimeCols(ks) && a.colIndex == ColIndex(|ks|)
    ensures Framed(a.originHws, hl, a.timeCols) && Framed(a.hws, hl, a.timeCols) && Framed(a.hwd, hl, a.timeCols)
    ensures Framed(a.originVws, hl, a.timeCols) && Framed(a.vws, hl, a.timeCols) && Framed(a.vwd, hl, a.timeCols)
    ensures a.originHws == OriginGrid(rows, ks, hl, Hws) && a.originVws == OriginGrid(rows, ks, hl, Vws)
    ensures targets.None? ==> a.hws == Scale(a.originHws, 1.0) && a.vws == Scale(a.originVws, 20.0)
    ensures targets.None? ==> a.hwd == OriginGrid(rows, ks, hl, Hwd)
    ensures targets.Some? ==> a.hws == MaskGrid(Scale(a.originHws, 1.0), targets.value)
    ensures targets.Some? ==> a.vws == MaskGrid(Scale(a.originVws, 20.0), targets.value)
    ensures targets.Some? ==> a.hwd == MaskGrid(OriginGrid(rows, ks, hl, Hwd), targets.value)
    ensures a.vwd == VerticalDirection(a.vws)
  {
    var hws := OriginGrid(rows, ks, hl, Hws);
    var hwd := OriginGrid(rows, ks, hl, Hwd);
    var vws := OriginGrid(rows, ks, hl, Vws);
    var hwsD := Scale(hws, 1.0);
    var vwsD := Scale(vws, 20.0);
    match targets
    case None =>
      Assembled(hl, TimeCols(ks), ColIndex(|ks|), hws, hwsD, hwd, vws, vwsD, VerticalDirection(vwsD))
    case Some(t) =>
      var vwsM := MaskGrid(vwsD, t);
      Assembled(hl, TimeCols(ks), ColIndex(|ks|), hws, MaskGrid(hwsD, t), MaskGrid(hwd, t),
                vws, vwsM, VerticalDirection(vwsM))
  }

  /** The height list of the first time point of the rows. */
  function FirstHeights(rows: seq<Row>): (hl: seq<real>)
    requires rows != []
    ensures Descending(hl)
  {
    HeightListOf(rows, GroupKeys(rows)[0])
  }

  /** The grids of the time points `ks` over the heights `hl`; when
      drawing, the targets of `hl` must exist (ValueError otherwise). */
  function AssembleFrom(rows: seq<Row>, ks: seq<Timestamp>, hl: seq<real>, draw: bool): (r: Result<Assembled>)
    requires ks != []
  {
    if !draw then Ok(Build(rows, ks, hl, None))
    else
      match TargetedHeights(hl)
      case Err(e) => Err(e)
      case Ok(t) => Ok(Build(rows, ks, hl, Some(t)))
  }

  /** What get_WPR_data_all computes, with the key of
      remove_over_height_data taken in its corrected form: the grids of
      every time point over the first time point's heights, columns
      labelled HH:MM. */
  function AssembleSpec(fetched: Fetched, draw: bool): (r: Result<Assembled>)
    ensures r.Err? ==> r.error == AssertionError || r.error == KeyError || r.error == ValueError
    ensures r.Ok? ==> fetched.Payload? && fetched.data.Some? && fetched.data.value != []
    ensures r.Ok? ==> r.value.heightList == FirstHeights(fetched.data.value)
                      && r.value.timeCols == TimeCols(GroupKeys(fetched.data.value))
                      && Framed(r.value.hws, r.value.heightList, r.value.timeCols)
  {
    match fetched
    case NoResponse => Err(AssertionError)
    case Payload(None) => Err(KeyError)
    case Payload(Some(rows)) =>
      if rows == [] then Err(KeyError)
      else AssembleFrom(rows, GroupKeys(rows), FirstHeights(rows), draw)
  }

  /** get_WPR_data_all as written: the call
      `remove_over_height_data(df, lst_time[0])` reaches the key lookup
      `WPR_DataType.TIMEPOINT.value.key`, whose annotation value has no
      attribute `key`, so every call with rows raises AttributeError. */
  function AssembleAsWritten(fetched: Fetched, draw: bool): (r: Result<Assembled>)
  {
    match fetched
    case NoResponse => Err(AssertionError)
    case Payload(None) => Err(KeyError)
    case Payload(Some(rows)) =>
      if rows == [] then Err(KeyError)
      else
        match RemoveOverHeightDataAsWritten(rows, GroupKeys(rows)[0])
        case Err(e) => Err(e)
        case Ok(_) => AssembleFrom(rows, GroupKeys(rows), FirstHeights(rows), draw)
  }

  /** As written, get_WPR_data_all never returns for a payload with rows. */
  lemma AssembleAsWrittenRaises(rows: seq<Row>, draw: bool)
    requires rows != []
    ensures AssembleAsWritten(Payload(Some(rows)), draw) == Err(AttributeError)
  {
    RemoveOverHeightDataAlwaysRaises(rows, GroupKeys(rows)[0]);
  }

  /** As written and corrected agree on every fetch result without rows:
      the correction changes only the rows' path. */
  lemma AssembleAsWrittenWithoutRows(fetched: Fetched, draw: bool)
    requires !(fetched.Payload? && fetched.data.Some? && fetched.data.value != [])
    ensures AssembleAsWritten(fetched, draw) == AssembleSpec(fetched, draw)
    ensures AssembleAsWritten(fetched, draw).Err?
  {
  }

  // ---------------------------------------------------------------------
  // get_WPR_data_all
  // ---------------------------------------------------------------------

  /** The horizontal or vertical wind field: origin speed, processed speed
      and direction frames. */
  datatype WindFieldData = WindFieldData(originWs: Frame, ws: Frame, wd: Frame)

  datatype HeatMapData = HeatMapData(
    stationCode: string, startTime: Timestamp, endTime: Timestamp,
    horizontal: WindFieldData, vertical: WindFieldData,
    heightList: seq<real>, colIndex: seq<int>,
    grid: (seq<seq<real>>, seq<seq<real>>))

  /** The six frames of the two wind fields are six different objects. */
  predicate DistinctFrames(h: WindFieldData, v: WindFieldData) {
    && h.originWs != h.ws && h.originWs != h.wd && h.originWs != v.originWs
    && h.originWs != v.ws && h.originWs != v.wd
    && h.ws != h.wd && h.ws != v.originWs && h.ws != v.ws && h.ws != v.wd
    && h.wd != v.originWs && h.wd != v.ws && h.wd != v.wd
    && v.originWs != v.ws && v.originWs != v.wd
    && v.ws != v.wd
  }

  /** The grids the two wind fields hold, read from their frames. */
  function Snapshot(h: WindFieldData, v: WindFieldData, hl: seq<real>, timeCols: seq<string>, colIndex: seq<int>): Assembled
    reads h.originWs, h.ws, h.wd, v.originWs, v.ws, v.wd
  {
    Assembled(hl, timeCols, colIndex,
              h.originWs.Value(), h.ws.Value(), h.wd.Value(),
              v.originWs.Value(), v.ws.Value(), v.wd.Value())
  }

  /** get_WPR_data_all: fetches (here: receives) the rows, checks the
      response, builds the series of every time point in submission order,
      concatenates them into grids and derives the processed grids, masking
      them in place when `draw` is set. The direction frame of the
      horizontal field is the origin HWD frame itself. */
  method GetWprDataAll(stationCode: string, startTime: Timestamp, endTime: Timestamp,
                       fetched: Fetched, draw: bool) returns (r: Result<HeatMapData>)
    ensures r.Err? <==> AssembleSpec(fetched, draw).Err?
    ensures r.Err? ==> r.error == AssembleSpec(fetched, draw).error
    ensures r.Ok? ==>
              && fresh(r.value.horizontal.originWs) && fresh(r.value.horizontal.ws)
              && fresh(r.value.horizontal.wd) && fresh(r.value.vertical.originWs)
              && fresh(r.value.vertical.ws) && fresh(r.value.vertical.wd)
              && DistinctFrames(r.value.horizontal, r.value.vertical)
              && r.value.stationCode == stationCode
              && r.value.startTime == startTime && r.value.endTime == endTime
              && var a := AssembleSpec(fetched, draw).value;
                 && Snapshot(r.value.horizontal, r.value.vertical, r.value.heightList, a.timeCols, r.value.colIndex) == a
                 && r.value.grid == GetGridCoord(|a.heightList|, |a.timeCols|, 0.5)
  {
    if fetched.NoResponse? {
      return Err(AssertionError);
    }
    if fetched.data.None? || fetched.data.value == [] {
      return Err(KeyError);
    }
    var rows := fetched.data.value;
    var lstTime := GroupKeys(rows);
    var key_df0 := RemoveOverHeightData(rows, lstTime[0]);
    var heightList := Reverse(Heights(key_df0.1));
    assert heightList == FirstHeights(rows);
    AssembleOfRows(rows, draw);

    var fields := WindFields(rows, lstTime, heightList, draw);
    if fields.Err? {
      return Err(fields.error);
    }
    var timeCols := TimeCols(lstTime);
    var colIndex := ColIndex(|timeCols|);
    var grid := GetGridCoord(|heightList|, |timeCols|, 0.5);
    return Ok(HeatMapData(stationCode, startTime, endTime, fields.value.0, fields.value.1, heightList, colIndex, grid));
  }

  /** The body of get_WPR_data_all after the height list is known: the
      series loop, the three concatenations, the derived frames and the
      optional masking. */
  method WindFields(rows: seq<Row>, lstTime: seq<Timestamp>, heightList: seq<real>, draw: bool)
    returns (r: Result<(WindFieldData, WindFieldData)>)
    requires lstTime != []
    ensures r.Err? <==> AssembleFrom(rows, lstTime, heightList, draw).Err?
    ensures r.Err? ==> r.error == AssembleFrom(rows, lstTime, heightList, draw).error
    ensures r.Ok? ==>
              && fresh(r.value.0.originWs) && fresh(r.value.0.ws) && fresh(r.value.0.wd)
              && fresh(r.value.1.originWs) && fresh(r.value.1.ws) && fresh(r.value.1.wd)
              && DistinctFrames(r.value.0, r.value.1)
              && Snapshot(r.value.0, r.value.1, heightList, TimeCols(lstTime), ColIndex(|lstTime|)) ==
                 AssembleFrom(rows, lstTime, heightList, draw).value
  {
    var hwsList, hwdList, vwsList := CollectSeries(rows, lstTime, heightList);
    var hws, hwd, vws := ConcatFrames(rows, lstTime, heightList, hwsList, hwdList, vwsList);
    ghost var hwsG, hwdG, vwsG := hws.Value(), hwd.Value(), vws.Value();
    var hwsD := new Frame(Scale(hws.Value(), 1.0));
    var vwsD := new Frame(Scale(vws.Value(), 20.0));
    ghost var targets: Option<set<real>> := None;
    if draw {
      var ok := MaskAll(hwsD, hwd, vwsD);
      if !ok {
        return Err(ValueError);
      }
      targets := Some(TargetedHeights(heightList).value);
      assert hwsD.Value() == MaskGrid(Scale(hwsG, 1.0), targets.value);
      assert vwsD.Value() == MaskGrid(Scale(vwsG, 20.0), targets.value);
      assert hwd.Value() == MaskGrid(hwdG, targets.value);
    } else {
      assert hwd.Value() == hwdG;
    }
    assert hws.Value() == hwsG && vws.Value() == vwsG;
    var vwd := new Frame(VerticalDirection(vwsD.Value()));
    r := Ok((WindFieldData(hws, hwsD, hwd), WindFieldData(vws, vwsD, vwd)));
    ghost var b := Build(rows, lstTime, heightList, targets);
    assert b.originHws == hwsG && b.originVws == vwsG;
    assert b.hws == hwsD.Value() && b.vws == vwsD.Value() && b.hwd == hwd.Value();
    assert b.vwd == vwd.Value();
    assert Snapshot(r.value.0, r.value.1, heightList, TimeCols(lstTime), ColIndex(|lstTime|)) == b;
  }

  /** The three remain_special_layers calls on frames over the same heights:
      the first one raises ValueError before any change when the heights
      have no targets; otherwise all three are masked in place. */
  method MaskAll(hwsD: Frame, hwd: Frame, vwsD: Frame) returns (ok: bool)
    requires hwsD.Valid() && hwd.Valid() && vwsD.Valid()
    requires hwd.index == hwsD.index && vwsD.index == hwsD.index
    requires hwsD != hwd && hwd != vwsD && hwsD != vwsD
    modifies hwsD, hwd, vwsD
    ensures ok <==> TargetedHeights(old(hwsD.index)).Ok?
    ensures !ok ==> hwsD.Value() == old(hwsD.Value()) && hwd.Value() == old(hwd.Value()) &&
                    vwsD.Value() == old(vwsD.Value())
    ensures ok ==> var t := TargetedHeights(old(hwsD.index)).value;
                   && hwsD.Value() == MaskGrid(old(hwsD.Value()), t)
                   && hwd.Value() == MaskGrid(old(hwd.Value()), t)
                   && vwsD.Value() == MaskGrid(old(vwsD.Value()), t)
  {
    var r1 := RemainSpecialLayers(hwsD, None);
    if r1.Err? {
      return false;
    }
    var r2 := RemainSpecialLayers(hwd, None);
    var r3 := RemainSpecialLayers(vwsD, None);
    return true;
  }

  /** The submission loop: one call of get_wind_field_datas_by_height_idx
      per time point, results gathered in submission order. */
  method CollectSeries(rows: seq<Row>, lstTime: seq<Timestamp>, heightList: seq<real>)
    returns (hwsList: seq<seq<Cell>>, hwdList: seq<seq<Cell>>, vwsList: seq<seq<Cell>>)
    ensures hwsList == SeriesList(rows, lstTime, heightList, Hws)
    ensures hwdList == SeriesList(rows, lstTime, heightList, Hwd)
    ensures vwsList == SeriesList(rows, lstTime, heightList, Vws)
  {
    hwsList, hwdList, vwsList := [], [], [];
    var k := 0;
    while k < |lstTime|
      invariant 0 <= k <= |lstTime|
      invariant hwsList == SeriesList(rows, lstTime[..k], heightList, Hws)
      invariant hwdList == SeriesList(rows, lstTime[..k], heightList, Hwd)
      invariant vwsList == SeriesList(rows, lstTime[..k], heightList, Vws)
    {
      var series := GetWindFieldDatasByHeightIdx(rows, lstTime[k], heightList);
      hwsList := hwsList + [series.0];
      hwdList := hwdList + [series.1];
      vwsList := vwsList + [series.2];
      SeriesListSnoc(rows, lstTime, heightList, Hws, k);
      SeriesListSnoc(rows, lstTime, heightList, Hwd, k);
      SeriesListSnoc(rows, lstTime, heightList, Vws, k);
      k := k + 1;
    }
    assert lstTime[..k] == lstTime;
  }

  lemma SeriesListSnoc(rows: seq<Row>, ks: seq<Timestamp>, hl: seq<real>, m: WprDataType, k: nat)
    requires m != TimePoint && k < |ks|
    ensures SeriesList(rows, ks[..k + 1], hl, m) == SeriesList(rows, ks[..k], hl, m) + [Series(rows, ks[k], hl, m)]
  {
    assert ks[..k + 1] == ks[..k] + [ks[k]];
  }

  /** The three concat_series calls, each giving a new frame. */
  method ConcatFrames(rows: seq<Row>, lstTime: seq<Timestamp>, heightList: seq<real>,
                      hwsList: seq<seq<Cell>>, hwdList: seq<seq<Cell>>, vwsList: seq<seq<Cell>>)
    returns (hws: Frame, hwd: Frame, vws: Frame)
    requires lstTime != []
    requires hwsList == SeriesList(rows, lstTime, heightList, Hws)
    requires hwdList == SeriesList(rows, lstTime, heightList, Hwd)
    requires vwsList == SeriesList(rows, lstTime, heightList, Vws)
    ensures fresh(hws) && fresh(hwd) && fresh(vws)
    ensures hws != hwd && hwd != vws && hws != vws
    ensures hws.Value() == OriginGrid(rows, lstTime, heightList, Hws) && hws.Valid()
    ensures hwd.Value() == OriginGrid(rows, lstTime, heightList, Hwd) && hwd.Valid()
    ensures vws.Value() == OriginGrid(rows, lstTime, heightList, Vws) && vws.Valid()
  {
    var timeCols := TimeCols(lstTime);
    hws := new Frame(ConcatSeries(hwsList, heightList, timeCols).value);
    vws := new Frame(ConcatSeries(vwsList, heightList, timeCols).value);
    hwd := new Frame(ConcatSeries(hwdList, heightList, timeCols).value);
  }

  // ---------------------------------------------------------------------
  // properties of the assembled grids
  // ---------------------------------------------------------------------

  /** The error cases: no response, no usable 'data', or (when drawing)
      every height of the first time point below the 3000 m top layer; any
      other input succeeds. */
  lemma AssembleErrors(fetched: Fetched, draw: bool)
    ensures fetched.NoResponse? ==> AssembleSpec(fetched, draw) == Err(AssertionError)
    ensures fetched.Payload? && (fetched.data.None? || fetched.data.value == []) ==>
              AssembleSpec(fetched, draw) == Err(KeyError)
    ensures fetched.Payload? && fetched.data.Some? && fetched.data.value != [] ==>
              (AssembleSpec(fetched, draw).Err? <==>
                 draw && forall h :: h in FirstHeights(fetched.data.value) ==> h < MaxHeight)
    ensures (fetched.Payload? && fetched.data.Some? && fetched.data.value != [] &&
             AssembleSpec(fetched, draw).Err?) ==> AssembleSpec(fetched, draw).error == ValueError
  {
    if fetched.Payload? && fetched.data.Some? && fetched.data.value != [] {
      var rows := fetched.data.value;
      var ks, hl := GroupKeys(rows), FirstHeights(rows);
      assert AssembleSpec(fetched, draw) == AssembleFrom(rows, ks, hl, draw);
      TargetsFailIffBelowTop(hl);
      AssembleFromFails(rows, ks, hl, draw);
    }
  }

  lemma AssembleFromFails(rows: seq<Row>, ks: seq<Timestamp>, hl: seq<real>, draw: bool)
    requires ks != []
    ensures AssembleFrom(rows, ks, hl, draw).Err? <==> draw && TargetedHeights(hl).Err?
    ensures AssembleFrom(rows, ks, hl, draw).Err? ==> AssembleFrom(rows, ks, hl, draw).error == ValueError
  {
  }

  /** For fetched rows the grids are those of the chronological time points
      over the first time point's descending height list. */
  lemma AssembleOfRows(rows: seq<Row>, draw: bool)
    requires rows != []
    ensures AssembleSpec(Payload(Some(rows)), draw) == AssembleFrom(rows, GroupKeys(rows), FirstHeights(rows), draw)
    ensures Chronological(GroupKeys(rows)) && Descending(FirstHeights(rows))
  {
  }

  /** Every grid has the height list as its rows and the HH:MM labels of
      the time points as its columns; `col_index` numbers the columns. */
  lemma AssembleShape(rows: seq<Row>, ks: seq<Timestamp>, hl: seq<real>, draw: bool)
    requires ks != [] && AssembleFrom(rows, ks, hl, draw).Ok?
    ensures var a := AssembleFrom(rows, ks, hl, draw).value;
            && a.heightList == hl && a.timeCols == TimeCols(ks) && a.colIndex == ColIndex(|ks|)
            && Framed(a.originHws, hl, a.timeCols) && Framed(a.hws, hl, a.timeCols)
            && Framed(a.hwd, hl, a.timeCols) && Framed(a.originVws, hl, a.timeCols)
            && Framed(a.vws, hl, a.timeCols) && Framed(a.vwd, hl, a.timeCols)
  {
  }

  /** The origin speed grids never depend on `draw`: they are never masked,
      and cell (i, j) is the row value at height i and time point j. */
  lemma OriginNeverMasked(rows: seq<Row>, ks: seq<Timestamp>, hl: seq<real>, i: nat, j: nat)
    requires ks != [] && AssembleFrom(rows, ks, hl, true).Ok?
    requires i < |hl| && j < |ks|
    ensures AssembleFrom(rows, ks, hl, true).value.originHws == AssembleFrom(rows, ks, hl, false).value.originHws
    ensures AssembleFrom(rows, ks, hl, true).value.originVws == AssembleFrom(rows, ks, hl, false).value.originVws
    ensures AssembleFrom(rows, ks, hl, true).value.originHws.cells[i][j] == Series(rows, ks[j], hl, Hws)[i]
    ensures AssembleFrom(rows, ks, hl, true).value.originVws.cells[i][j] == Series(rows, ks[j], hl, Vws)[i]
  {
  }

  /** Without drawing, the processed horizontal speed equals the origin and
      the vertical one is twenty times it; with drawing the same holds on
      the target layers, the other layers are blank, and the horizontal
      direction is blanked with them. */
  lemma DerivedSpeeds(rows: seq<Row>, ks: seq<Timestamp>, hl: seq<real>, draw: bool, i: nat, j: nat)
    requires ks != [] && AssembleFrom(rows, ks, hl, draw).Ok?
    requires i < |hl| && j < |ks|
    ensures var a := AssembleFrom(rows, ks, hl, draw).value;
            var kept := !draw || hl[i] in TargetedHeights(hl).value;
            && (kept ==> a.hws.cells[i][j] == ScaleCell(a.originHws.cells[i][j], 1.0))
            && (kept ==> a.vws.cells[i][j] == ScaleCell(a.originVws.cells[i][j], 20.0))
            && (kept ==> a.hwd.cells[i][j] == Series(rows, ks[j], hl, Hwd)[i])
            && (!kept ==> a.hws.cells[i][j].None? && a.vws.cells[i][j].None? && a.hwd.cells[i][j].None?)
            && a.vwd.cells[i][j] == DirectionCell(a.vws.cells[i][j])
  {
    var a := AssembleFrom(rows, ks, hl, draw).value;
    assert |a.hws.cells[i]| == |TimeCols(ks)| == |ks|;
  }

  /** A blanked layer gets direction 180, since NaN differs from 0. */
  lemma BlankLayerDirection(rows: seq<Row>, ks: seq<Timestamp>, hl: seq<real>, i: nat, j: nat)
    requires ks != [] && AssembleFrom(rows, ks, hl, true).Ok?
    requires i < |hl| && j < |ks|
    requires hl[i] !in TargetedHeights(hl).value
    ensures AssembleFrom(rows, ks, hl, true).value.vwd.cells[i][j] == Some(180.0)
  {
    DerivedSpeeds(rows, ks, hl, true, i, j);
  }
}
