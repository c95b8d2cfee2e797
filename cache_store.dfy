// The cache store of the wind-profile-radar data: the three tables of
// height profiles, per-time wind rows and combined wind matrices, and the
// insert-if-absent, query and update operations over a database session.
// A session is an in-memory copy of the tables; every operation catches
// its exceptions and answers None.

module CacheStore {
  import opened Wrappers
  import opened Common

  /** A value of a JSON column. */
  datatype Json =
    | JNull
    | JBool(b: bool)
    | JNum(x: real)
    | JStr(s: string)
    | JArr(items: seq<Json>)
    | JObj(fields: seq<(string, Json)>)

  datatype Date = Date(year: int, month: int, day: int)

  /** A row of `height_data`. */
  datatype HeightData = HeightData(
    id: nat,
    stationCode: string,
    date: Date,
    heightList: seq<real>,
    targetedHeightList: seq<real>,
    targetedHeightIndex: seq<int>,
    finishCached: bool,
    softDeleted: bool)

  /** A row of `wind_data`: one time point's horizontal or vertical wind. */
  datatype WindData = WindData(
    id: nat,
    hid: nat,
    timePoint: Timestamp,
    isHorizon: bool,
    originWs: Json,
    ws: Json,
    wd: Json,
    isRemained: bool,
    softDeleted: bool)

  /** A row of `wind_data_combined`: the wind matrices of one height
      profile. */
  datatype WindDataCombined = WindDataCombined(
    id: nat,
    hid: nat,
    isRemained: bool,
    timeCols: Json,
    originHws: Json,
    hws: Json,
    hwd: Json,
    originVws: Json,
    vws: Json,
    vwd: Json,
    softDeleted: bool)

  /** The tables as a session sees them, and whether the session must be
      rolled back before it can be used again. */
  datatype Db = Db(heights: seq<HeightData>, winds: seq<WindData>, combined: seq<WindDataCombined>, inactive: bool)

  // ---------------------------------------------------------------------
  // Queries: `filter(...).first()` and `filter(...).all()`
  // ---------------------------------------------------------------------

  /** The position of the first row satisfying `p`, in table order. */
  function FirstIndex<T(!new)>(s: seq<T>, p: T -> bool): (r: Option<nat>)
    ensures r.Some? ==> r.value < |s| && p(s[r.value])
    ensures r.Some? ==> forall k :: 0 <= k < r.value ==> !p(s[k])
    ensures r.None? <==> forall k :: 0 <= k < |s| ==> !p(s[k])
  {
    if s == [] then None
    else if p(s[0]) then Some(0)
    else match FirstIndex(s[1..], p)
      case None => None
      case Some(i) => Some(i + 1)
  }

  /** The rows satisfying `p`, in table order. */
  function Filter<T(!new)>(s: seq<T>, p: T -> bool): (r: seq<T>)
    ensures forall x :: x in r <==> x in s && p(x)
    ensures |r| <= |s|
  {
    if s == [] then []
    else
      assert s == [s[0]] + s[1..];
      if p(s[0]) then [s[0]] + Filter(s[1..], p) else Filter(s[1..], p)
  }

  lemma {:induction false} FilterSnoc<T(!new)>(s: seq<T>, p: T -> bool, x: T)
    ensures Filter(s + [x], p) == Filter(s, p) + (if p(x) then [x] else [])
  {
    if s == [] {
      assert [x][1..] == [];
    } else {
      assert (s + [x])[0] == s[0] && (s + [x])[1..] == s[1..] + [x];
      FilterSnoc(s[1..], p, x);
    }
  }

  function HeightKey(stationCode: string, date: Date): HeightData -> bool {
    (r: HeightData) => r.stationCode == stationCode && r.date == date
  }

  function HeightListKey(date: Date, heightList: seq<real>): HeightData -> bool {
    (r: HeightData) => r.date == date && r.heightList == heightList
  }

  function WindKey(hid: nat, timePoint: Timestamp, isHorizon: bool, isRemained: bool): WindData -> bool {
    (r: WindData) => r.hid == hid && r.timePoint == timePoint && r.isHorizon == isHorizon && r.isRemained == isRemained
  }

  function WindsKey(hid: nat, isHorizon: bool, isRemained: bool): WindData -> bool {
    (r: WindData) => r.hid == hid && r.isHorizon == isHorizon && r.isRemained == isRemained
  }

  function CombinedKey(hid: nat, isRemained: bool): WindDataCombined -> bool {
    (r: WindDataCombined) => r.hid == hid && r.isRemained == isRemained
  }

  // ---------------------------------------------------------------------
  // The operations, as transitions of the session
  // ---------------------------------------------------------------------

  /** add_height_data: the row of the same station and date when there is
      one, nothing inserted; otherwise the new row, numbered after the
      last. */
  function AddHeight(db: Db, h: HeightData): (r: (Db, Option<HeightData>))
  {
    if db.inactive then (db, None)
    else match FirstIndex(db.heights, HeightKey(h.stationCode, h.date))
      case Some(i) => (db, Some(db.heights[i]))
      case None =>
        var row := h.(id := |db.heights| + 1);
        (db.(heights := db.heights + [row]), Some(row))
  }

  /** query_height_data: the first row of the station and date. */
  function QueryHeight(db: Db, stationCode: string, date: Date): (r: Option<HeightData>)
  {
    if db.inactive then None
    else match FirstIndex(db.heights, HeightKey(stationCode, date))
      case Some(i) => Some(db.heights[i])
      case None => None
  }

  /** update_height_data: the first row of the same date and height list
      (of any station) takes the new `finish_cached` flag. */
  function UpdateHeight(db: Db, h: HeightData): (r: (Db, Option<HeightData>))
  {
    if db.inactive then (db, None)
    else match FirstIndex(db.heights, HeightListKey(h.date, h.heightList))
      case None => (db, None)
      case Some(i) =>
        var row := db.heights[i].(finishCached := h.finishCached);
        (db.(heights := db.heights[i := row]), Some(row))
  }

  /** add_wind_data: inserts when no row has the same height profile, time
      point and kinds; on a duplicate it answers None. */
  function AddWind(db: Db, w: WindData): (r: (Db, Option<WindData>))
  {
    if db.inactive then (db, None)
    else match FirstIndex(db.winds, WindKey(w.hid, w.timePoint, w.isHorizon, w.isRemained))
      case Some(_) => (db, None)
      case None =>
        var row := w.(id := |db.winds| + 1);
        (db.(winds := db.winds + [row]), Some(row))
  }

  /** query_wind_datas: every row of the height profile and kinds. */
  function QueryWinds(db: Db, hid: nat, isHorizon: bool, isRemained: bool): (r: Option<seq<WindData>>)
  {
    if db.inactive then None else Some(Filter(db.winds, WindsKey(hid, isHorizon, isRemained)))
  }

  /** add_wind_data_combined: the row of the same height profile and kind
      when there is one; otherwise an insert, which the unique `hid`
      rejects when the profile has a row of the other kind: the commit
      raises IntegrityError, the answer is None and the session is left
      needing a rollback. */
  function AddCombined(db: Db, c: WindDataCombined): (r: (Db, Option<WindDataCombined>))
  {
    if db.inactive then (db, None)
    else match FirstIndex(db.combined, CombinedKey(c.hid, c.isRemained))
      case Some(i) => (db, Some(db.combined[i]))
      case None =>
        if exists k :: 0 <= k < |db.combined| && db.combined[k].hid == c.hid then (db.(inactive := true), None)
        else
          var row := c.(id := |db.combined| + 1);
          (db.(combined := db.combined + [row]), Some(row))
  }

  /** query_wind_data_combined: the row of the height profile and kind. */
  function QueryCombined(db: Db, hid: nat, isRemained: bool): (r: Option<WindDataCombined>)
  {
    if db.inactive then None
    else match FirstIndex(db.combined, CombinedKey(hid, isRemained))
      case Some(i) => Some(db.combined[i])
      case None => None
  }

  /** The row with the time columns and the six matrices of `c`. */
  function WithMatrices(row: WindDataCombined, c: WindDataCombined): WindDataCombined {
    row.(timeCols := c.timeCols, originHws := c.originHws, hws := c.hws, hwd := c.hwd,
         originVws := c.originVws, vws := c.vws, vwd := c.vwd)
  }

  /** update_wind_data_combined: overwrites the time columns and the six
      matrices of the row of the same height profile and kind, or adds the
      row when there is none. */
  function UpdateCombined(db: Db, c: WindDataCombined): (r: (Db, Option<WindDataCombined>))
  {
    if db.inactive then (db, None)
    else match FirstIndex(db.combined, CombinedKey(c.hid, c.isRemained))
      case None => AddCombined(db, c)
      case Some(i) =>
        var row := WithMatrices(db.combined[i], c);
        (db.(combined := db.combined[i := row]), Some(row))
  }

  // ---------------------------------------------------------------------
  // What the operations keep and promise
  // ---------------------------------------------------------------------

  /** The tables as the operations keep them: ids numbered from 1 in
      insertion order, one height profile per station and date, one wind
      row per profile, time point and kinds, and one combined row per
      profile (the unique `hid`). */
  predicate Wf(db: Db) {
    && (forall i :: 0 <= i < |db.heights| ==> db.heights[i].id == i + 1)
    && (forall i :: 0 <= i < |db.winds| ==> db.winds[i].id == i + 1)
    && (forall i :: 0 <= i < |db.combined| ==> db.combined[i].id == i + 1)
    && (forall i, j :: 0 <= i < j < |db.heights| ==>
          db.heights[i].stationCode != db.heights[j].stationCode || db.heights[i].date != db.heights[j].date)
    && (forall i, j :: 0 <= i < j < |db.winds| ==>
          !WindKey(db.winds[j].hid, db.winds[j].timePoint, db.winds[j].isHorizon, db.winds[j].isRemained)(db.winds[i]))
    && (forall i, j :: 0 <= i < j < |db.combined| ==> db.combined[i].hid != db.combined[j].hid)
  }

  lemma EmptyWf()
    ensures Wf(Db([], [], [], false))
  {
  }

  /** The first match of a key among the rows followed by a new row that
      matches is that row when no earlier row matches. */
  lemma {:induction false} FirstIndexSnoc<T(!new)>(s: seq<T>, p: T -> bool, x: T)
    requires FirstIndex(s, p).None? && p(x)
    ensures FirstIndex(s + [x], p) == Some(|s|)
  {
    if s == [] {
      assert s + [x] == [x];
    } else {
      assert !p(s[0]);
      assert (s + [x])[0] == s[0] && (s + [x])[1..] == s[1..] + [x];
      FirstIndexSnoc(s[1..], p, x);
    }
  }

  lemma AddHeightKeepsWf(db: Db, h: HeightData)
    requires Wf(db)
    ensures Wf(AddHeight(db, h).0)
  {
    if !db.inactive && FirstIndex(db.heights, HeightKey(h.stationCode, h.date)).None? {
      var hs := AddHeight(db, h).0.heights;
      forall i | 0 <= i < |db.heights|
        ensures hs[i].stationCode != hs[|db.heights|].stationCode || hs[i].date != hs[|db.heights|].date
      {
        assert !HeightKey(h.stationCode, h.date)(db.heights[i]);
      }
    }
  }

  /** add_height_data keeps the row it finds or appends one row, and the
      row it answers is then what query_height_data finds for the station
      and date; asking twice adds nothing the second time. */
  lemma AddHeightThenQuery(db: Db, h: HeightData)
    requires !db.inactive
    ensures var (db1, r) := AddHeight(db, h);
            && r.Some? && r.value.stationCode == h.stationCode && r.value.date == h.date
            && QueryHeight(db1, h.stationCode, h.date) == r
            && AddHeight(db1, h) == (db1, r)
            && (QueryHeight(db, h.stationCode, h.date).Some? ==> db1 == db && r == QueryHeight(db, h.stationCode, h.date))
            && (QueryHeight(db, h.stationCode, h.date).None? ==>
                  r == Some(h.(id := |db.heights| + 1)) && db1 == db.(heights := db.heights + [r.value]))
  {
    var key := HeightKey(h.stationCode, h.date);
    if FirstIndex(db.heights, key).None? {
      var row := h.(id := |db.heights| + 1);
      FirstIndexSnoc(db.heights, key, row);
    }
  }

  lemma UpdateHeightKeepsWf(db: Db, h: HeightData)
    requires Wf(db)
    ensures Wf(UpdateHeight(db, h).0)
  {
  }

  /** update_height_data changes at most one row, and of that row only
      `finish_cached`; it answers None exactly when no row has the date and
      height list. */
  lemma UpdateHeightChangesFlagOnly(db: Db, h: HeightData)
    ensures var (db1, r) := UpdateHeight(db, h);
            && db1.winds == db.winds && db1.combined == db.combined && db1.inactive == db.inactive
            && |db1.heights| == |db.heights|
            && (r.None? <==> db.inactive || forall i :: 0 <= i < |db.heights| ==>
                  db.heights[i].date != h.date || db.heights[i].heightList != h.heightList)
            && (r.None? ==> db1 == db)
            && (r.Some? ==>
                  exists i :: 0 <= i < |db.heights| &&
                                db.heights[i].date == h.date && db.heights[i].heightList == h.heightList &&
                                r.value == db.heights[i].(finishCached := h.finishCached) &&
                                db1.heights == db.heights[i := r.value])
  {
    var key := HeightListKey(h.date, h.heightList);
    if !db.inactive && FirstIndex(db.heights, key).None? {
      assert forall i :: 0 <= i < |db.heights| ==> !key(db.heights[i]);
    }
  }

  /** update_height_data as evidently intended: the row of the same station
      as well as date and height list takes the flag. */
  function UpdateHeightOfStation(db: Db, h: HeightData): (r: (Db, Option<HeightData>))
  {
    if db.inactive then (db, None)
    else match FirstIndex(db.heights, HeightKey(h.stationCode, h.date))
      case Some(i) =>
        if db.heights[i].heightList == h.heightList then
          var row := db.heights[i].(finishCached := h.finishCached);
          (db.(heights := db.heights[i := row]), Some(row))
        else (db, None)
      case None => (db, None)
  }

  /** The corrected update never touches another station's row, and the
      station's row for the date then carries the new flag. */
  lemma UpdateHeightOfStationStaysOnStation(db: Db, h: HeightData)
    ensures var (db1, r) := UpdateHeightOfStation(db, h);
            && |db1.heights| == |db.heights|
            && (forall i :: 0 <= i < |db.heights| && db.heights[i].stationCode != h.stationCode ==>
                  db1.heights[i] == db.heights[i])
            && (r.Some? ==> QueryHeight(db1, h.stationCode, h.date) == r && r.value.finishCached == h.finishCached)
  {
    var key := HeightKey(h.stationCode, h.date);
    if !db.inactive && FirstIndex(db.heights, key).Some? {
      var i := FirstIndex(db.heights, key).value;
      var db1 := UpdateHeightOfStation(db, h).0;
      if db.heights[i].heightList == h.heightList {
        assert forall k :: 0 <= k < |db.heights| ==> (key(db1.heights[k]) <==> key(db.heights[k]));
        assert FirstIndex(db1.heights, key) == Some(i);
      }
    }
  }

  /** Finding, as written: station "B" reports its profile of a day finished
      while only station "A" has a row for that day with the same height
      list; the flag of station "A"'s row flips. */
  lemma UpdateHeightFlipsOtherStation()
    ensures var a := HeightData(1, "A", Date(2023, 5, 1), [0.0, 300.0], [], [], false, false);
            var b := HeightData(0, "B", Date(2023, 5, 1), [0.0, 300.0], [], [], true, false);
            var db := Db([a], [], [], false);
            && UpdateHeight(db, b) == (Db([a.(finishCached := true)], [], [], false), Some(a.(finishCached := true)))
            && UpdateHeightOfStation(db, b) == (db, None)
  {
    var a := HeightData(1, "A", Date(2023, 5, 1), [0.0, 300.0], [], [], false, false);
    var b := HeightData(0, "B", Date(2023, 5, 1), [0.0, 300.0], [], [], true, false);
    var db := Db([a], [], [], false);
    assert HeightListKey(b.date, b.heightList)(a);
    assert FirstIndex(db.heights, HeightListKey(b.date, b.heightList)) == Some(0);
    assert !HeightKey(b.stationCode, b.date)(a) by {
      assert a.stationCode[0] != b.stationCode[0];
    }
    assert FirstIndex(db.heights, HeightKey(b.stationCode, b.date)) == None by {
      assert db.heights[1..] == [];
    }
    var row := a.(finishCached := true);
    assert UpdateHeight(db, b).1 == Some(row);
    assert UpdateHeight(db, b).0 == Db([row], [], [], false);
    assert UpdateHeightOfStation(db, b) == (db, None);
  }

  lemma AddWindKeepsWf(db: Db, w: WindData)
    requires Wf(db)
    ensures Wf(AddWind(db, w).0)
  {
    var key := WindKey(w.hid, w.timePoint, w.isHorizon, w.isRemained);
    if !db.inactive && FirstIndex(db.winds, key).None? {
      var ws := AddWind(db, w).0.winds;
      var n := |db.winds|;
      forall i | 0 <= i < n
        ensures !WindKey(ws[n].hid, ws[n].timePoint, ws[n].isHorizon, ws[n].isRemained)(ws[i])
      {
        assert !key(db.winds[i]);
      }
    }
  }

  /** add_wind_data inserts a new row, which query_wind_datas then lists
      after the rows it listed before; a duplicate changes nothing and
      answers None. */
  lemma AddWindThenQuery(db: Db, w: WindData, hid: nat, isHorizon: bool, isRemained: bool)
    requires !db.inactive
    ensures var (db1, r) := AddWind(db, w);
            && (r.None? <==>
                  exists i :: 0 <= i < |db.winds| && WindKey(w.hid, w.timePoint, w.isHorizon, w.isRemained)(db.winds[i]))
            && (r.None? ==> db1 == db)
            && (r.Some? ==> r.value == w.(id := |db.winds| + 1))
            && (r.Some? ==>
                  QueryWinds(db1, hid, isHorizon, isRemained).value ==
                    QueryWinds(db, hid, isHorizon, isRemained).value +
                    (if w.hid == hid && w.isHorizon == isHorizon && w.isRemained == isRemained then [r.value] else []))
  {
    var key := WindKey(w.hid, w.timePoint, w.isHorizon, w.isRemained);
    if FirstIndex(db.winds, key).None? {
      FilterSnoc(db.winds, WindsKey(hid, isHorizon, isRemained), w.(id := |db.winds| + 1));
    }
  }

  /** query_wind_datas lists exactly the rows of the profile and kinds, in
      table order. */
  lemma QueryWindsExact(db: Db, hid: nat, isHorizon: bool, isRemained: bool)
    requires !db.inactive
    ensures forall x :: x in QueryWinds(db, hid, isHorizon, isRemained).value <==>
              x in db.winds && x.hid == hid && x.isHorizon == isHorizon && x.isRemained == isRemained
  {
  }

  lemma AddCombinedKeepsWf(db: Db, c: WindDataCombined)
    requires Wf(db)
    ensures Wf(AddCombined(db, c).0)
  {
  }

  /** add_wind_data_combined on well-kept tables: the profile's row of the
      same kind is answered as it is; a row of the other kind makes the
      insert fail on the unique `hid`, answering None and leaving the
      session in need of a rollback; otherwise the new row is appended and
      query_wind_data_combined finds it. */
  lemma AddCombinedCases(db: Db, c: WindDataCombined)
    requires Wf(db) && !db.inactive
    ensures var (db1, r) := AddCombined(db, c);
            && (QueryCombined(db, c.hid, c.isRemained).Some? ==>
                  db1 == db && r == QueryCombined(db, c.hid, c.isRemained))
            && ((exists k :: 0 <= k < |db.combined| && db.combined[k].hid == c.hid && db.combined[k].isRemained != c.isRemained) ==>
                  r.None? && db1 == db.(inactive := true))
            && ((forall k :: 0 <= k < |db.combined| ==> db.combined[k].hid != c.hid) ==>
                  r == Some(c.(id := |db.combined| + 1)) && db1 == db.(combined := db.combined + [r.value]) &&
                  QueryCombined(db1, c.hid, c.isRemained) == r && AddCombined(db1, c) == (db1, r))
  {
    var key := CombinedKey(c.hid, c.isRemained);
    if exists k :: 0 <= k < |db.combined| && db.combined[k].hid == c.hid && db.combined[k].isRemained != c.isRemained {
      var k :| 0 <= k < |db.combined| && db.combined[k].hid == c.hid && db.combined[k].isRemained != c.isRemained;
      if FirstIndex(db.combined, key).Some? {
        var i := FirstIndex(db.combined, key).value;
        assert i != k;
      }
    }
    if forall k :: 0 <= k < |db.combined| ==> db.combined[k].hid != c.hid {
      AddCombinedFresh(db, c);
    }
  }

  /** A height profile with no row yet: the new row is appended and then
      found, so adding it again changes nothing. */
  lemma AddCombinedFresh(db: Db, c: WindDataCombined)
    requires !db.inactive && forall k :: 0 <= k < |db.combined| ==> db.combined[k].hid != c.hid
    ensures var row := c.(id := |db.combined| + 1);
            var db1 := db.(combined := db.combined + [row]);
            && AddCombined(db, c) == (db1, Some(row))
            && QueryCombined(db1, c.hid, c.isRemained) == Some(row)
            && AddCombined(db1, c) == (db1, Some(row))
  {
    var key := CombinedKey(c.hid, c.isRemained);
    var row := c.(id := |db.combined| + 1);
    assert FirstIndex(db.combined, key).None?;
    FirstIndexSnoc(db.combined, key, row);
  }

  /** A session that needs a rollback answers None to everything and
      changes nothing. */
  lemma InactiveAnswersNone(db: Db, h: HeightData, w: WindData, c: WindDataCombined)
    requires db.inactive
    ensures AddHeight(db, h) == (db, None) && QueryHeight(db, h.stationCode, h.date).None?
    ensures UpdateHeight(db, h) == (db, None)
    ensures AddWind(db, w) == (db, None) && QueryWinds(db, w.hid, w.isHorizon, w.isRemained).None?
    ensures AddCombined(db, c) == (db, None) && QueryCombined(db, c.hid, c.isRemained).None?
    ensures UpdateCombined(db, c) == (db, None)
  {
  }

  lemma UpdateCombinedKeepsWf(db: Db, c: WindDataCombined)
    requires Wf(db)
    ensures Wf(UpdateCombined(db, c).0)
  {
    AddCombinedKeepsWf(db, c);
  }

  /** update_wind_data_combined: on the profile's row of the same kind it
      overwrites the time columns and the six matrices and nothing else,
      and query_wind_data_combined then finds the new values; without such
      a row it is add_wind_data_combined. */
  lemma UpdateCombinedOverwrites(db: Db, c: WindDataCombined)
    requires !db.inactive
    ensures var (db1, r) := UpdateCombined(db, c);
            && (QueryCombined(db, c.hid, c.isRemained).None? ==> (db1, r) == AddCombined(db, c))
            && (QueryCombined(db, c.hid, c.isRemained).Some? ==>
                  var old_ := QueryCombined(db, c.hid, c.isRemained).value;
                  && r.Some?
                  && r.value.id == old_.id && r.value.hid == old_.hid && r.value.isRemained == old_.isRemained
                  && r.value.softDeleted == old_.softDeleted
                  && r.value.timeCols == c.timeCols
                  && r.value.originHws == c.originHws && r.value.hws == c.hws && r.value.hwd == c.hwd
                  && r.value.originVws == c.originVws && r.value.vws == c.vws && r.value.vwd == c.vwd
                  && db1.heights == db.heights && db1.winds == db.winds && !db1.inactive
                  && |db1.combined| == |db.combined|
                  && (forall k :: 0 <= k < |db.combined| && db.combined[k] != old_ ==> db1.combined[k] == db.combined[k])
                  && QueryCombined(db1, c.hid, c.isRemained) == r)
  {
    var key := CombinedKey(c.hid, c.isRemained);
    if FirstIndex(db.combined, key).Some? {
      var i := FirstIndex(db.combined, key).value;
      var db1 := UpdateCombined(db, c).0;
      assert forall k :: 0 <= k < |db.combined| ==> (key(db1.combined[k]) <==> key(db.combined[k]));
      assert FirstIndex(db1.combined, key) == Some(i);
    }
  }

  // ---------------------------------------------------------------------
  // The session object
  // ---------------------------------------------------------------------

  /** A database session over the three tables. */
  class Session {
    var heights: seq<HeightData>
    var winds: seq<WindData>
    var combined: seq<WindDataCombined>
    var inactive: bool

    function State(): Db
      reads this
    {
      Db(heights, winds, combined, inactive)
    }

    /** A session on empty tables. */
    constructor ()
      ensures State() == Db([], [], [], false)
    {
      heights := [];
      winds := [];
      combined := [];
      inactive := false;
    }

    method AddHeightData(h: HeightData) returns (r: Option<HeightData>)
      modifies this
      ensures (State(), r) == AddHeight(old(State()), h)
    {
      if inactive {
        return None;
      }
      var found := FirstIndex(heights, HeightKey(h.stationCode, h.date));
      if found.None? {
        var row := h.(id := |heights| + 1);
        heights := heights + [row];
        return Some(row);
      }
      return Some(heights[found.value]);
    }

    method QueryHeightData(stationCode: string, date: Date) returns (r: Option<HeightData>)
      ensures r == QueryHeight(State(), stationCode, date)
    {
      if inactive {
        return None;
      }
      var found := FirstIndex(heights, HeightKey(stationCode, date));
      if found.Some? {
        return Some(heights[found.value]);
      }
      return None;
    }

    method UpdateHeightData(h: HeightData) returns (r: Option<HeightData>)
      modifies this
      ensures (State(), r) == UpdateHeight(old(State()), h)
    {
      if inactive {
        return None;
      }
      var found := FirstIndex(heights, HeightListKey(h.date, h.heightList));
      if found.Some? {
        var row := heights[found.value].(finishCached := h.finishCached);
        heights := heights[found.value := row];
        return Some(row);
      }
      return None;
    }

    /** update_height_data as evidently intended: the row is looked up by
        station and date, and updated only when its height list matches. */
    method UpdateStationHeightData(h: HeightData) returns (r: Option<HeightData>)
      modifies this
      ensures (State(), r) == UpdateHeightOfStation(old(State()), h)
    {
      if inactive {
        return None;
      }
      var found := FirstIndex(heights, HeightKey(h.stationCode, h.date));
      if found.Some? && heights[found.value].heightList == h.heightList {
        var row := heights[found.value].(finishCached := h.finishCached);
        heights := heights[found.value := row];
        return Some(row);
      }
      return None;
    }

    method AddWindData(w: WindData) returns (r: Option<WindData>)
      modifies this
      ensures (State(), r) == AddWind(old(State()), w)
    {
      if inactive {
        return None;
      }
      var found := FirstIndex(winds, WindKey(w.hid, w.timePoint, w.isHorizon, w.isRemained));
      if found.None? {
        var row := w.(id := |winds| + 1);
        winds := winds + [row];
        return Some(row);
      }
      return None;
    }

    method QueryWindDatas(hid: nat, isHorizon: bool, isRemained: bool) returns (r: Option<seq<WindData>>)
      ensures r == QueryWinds(State(), hid, isHorizon, isRemained)
    {
      if inactive {
        return None;
      }
      return Some(Filter(winds, WindsKey(hid, isHorizon, isRemained)));
    }

    method AddWindDataCombined(c: WindDataCombined) returns (r: Option<WindDataCombined>)
      modifies this
      ensures (State(), r) == AddCombined(old(State()), c)
    {
      if inactive {
        return None;
      }
      var found := FirstIndex(combined, CombinedKey(c.hid, c.isRemained));
      if found.Some? {
        return Some(combined[found.value]);
      }
      if exists k :: 0 <= k < |combined| && combined[k].hid == c.hid {
        inactive := true;
        return None;
      }
      var row := c.(id := |combined| + 1);
      combined := combined + [row];
      return Some(row);
    }

    method QueryWindDataCombined(hid: nat, isRemained: bool) returns (r: Option<WindDataCombined>)
      ensures r == QueryCombined(State(), hid, isRemained)
    {
      if inactive {
        return None;
      }
      var found := FirstIndex(combined, CombinedKey(hid, isRemained));
      if found.Some? {
        return Some(combined[found.value]);
      }
      return None;
    }

    method UpdateWindDataCombined(c: WindDataCombined) returns (r: Option<WindDataCombined>)
      modifies this
      ensures (State(), r) == UpdateCombined(old(State()), c)
    {
      if inactive {
        return None;
      }
      var found := FirstIndex(combined, CombinedKey(c.hid, c.isRemained));
      if found.Some? {
        var row := WithMatrices(combined[found.value], c);
        combined := combined[found.value := row];
        return Some(row);
      }
      r := AddWindDataCombined(c);
    }
  }
}
