// Height-profile and decimation rules of the radar data helpers: the
// 3000 m ceiling, the height list of the first time point, the eleven
// reference layers and the exact-or-next-higher choice of target heights,
// the in-place blanking of the other rows, and the small lookup, masking
// and grid-coordinate helpers.

module HeightProfile {
  import opened Wrappers
  import opened Common
  import opened Dicts
  import opened Schemas
  import opened Frames

  const MaxHeight: real := 3000.0
  const MinHeight: real := 0.0
  const Layers: nat := 10
  /** The height of one layer. */
  const H: real := (MaxHeight - MinHeight) / Layers as real

  // ---------------------------------------------------------------------
  // numpy.arange over exact reals
  // ---------------------------------------------------------------------

  function Ceil(x: real): int {
    -((-x).Floor)
  }

  /** The number of values of `arange(start, stop, step)`. */
  function ArangeLength(start: real, stop: real, step: real): nat
    requires step > 0.0
  {
    if stop <= start then 0 else Ceil((stop - start) / step) as nat
  }

  /** `arange(start, stop, step)`: start, start + step, ... below `stop`. */
  function Arange(start: real, stop: real, step: real): (r: seq<real>)
    requires step > 0.0
    ensures |r| == ArangeLength(start, stop, step)
    ensures forall i :: 0 <= i < |r| ==> r[i] == start + i as real * step
    ensures forall i :: 0 <= i < |r| ==> r[i] < stop
    ensures start + |r| as real * step >= stop
  {
    var n := ArangeLength(start, stop, step);
    var r := seq(n, i requires 0 <= i < n => start + i as real * step);
    assert forall i :: 0 <= i < |r| ==> r[i] < stop by {
      forall i | 0 <= i < |r| ensures r[i] < stop {
        ArangeElementBelow(start, stop, step, i);
      }
    }
    ArangeEnd(start, stop, step);
    r
  }

  lemma ArangeElementBelow(start: real, stop: real, step: real, i: nat)
    requires step > 0.0 && i < ArangeLength(start, stop, step)
    ensures start + i as real * step < stop
  {
    var x := (stop - start) / step;
    assert x * step == stop - start;
    assert (i as real) < x;
    MulStrict(i as real, x, step);
  }

  lemma ArangeEnd(start: real, stop: real, step: real)
    requires step > 0.0
    ensures start + ArangeLength(start, stop, step) as real * step >= stop
  {
    var n := ArangeLength(start, stop, step);
    if stop > start {
      var x := (stop - start) / step;
      assert x * step == stop - start;
      assert n as real >= x;
      MulLe(x, n as real, step);
    }
  }

  lemma MulStrict(a: real, b: real, c: real)
    requires a < b && c > 0.0
    ensures a * c < b * c
  {
  }

  lemma MulLe(a: real, b: real, c: real)
    requires a <= b && c > 0.0
    ensures a * c <= b * c
  {
  }

  /** `Height_List`: the reference layers `arange(0, 3000 + H, H)`. */
  const HeightRefs: seq<real> := Arange(MinHeight, MaxHeight + H, H)

  /** The references are the eleven layers 0, 300, ..., 3000. */
  lemma HeightRefsValues()
    ensures H == 300.0
    ensures |HeightRefs| == 11
    ensures forall k :: 0 <= k < 11 ==> HeightRefs[k] == 300.0 * k as real
    ensures HeightRefs[10] == MaxHeight
  {
    assert (MaxHeight + H - MinHeight) / H == 11.0;
    assert (-11.0).Floor == -11;
  }

  // ---------------------------------------------------------------------
  // get_height_list
  // ---------------------------------------------------------------------

  /** The height column of the first frame of an ordered dict of frames,
      reversed when `reverse` is set; IndexError on an empty dict. */
  function GetHeightList(d: Dict<string, seq<Row>>, reverse: bool): (r: Result<seq<real>>)
    ensures r.Ok? <==> |d| > 0
    ensures r.Err? ==> r.error == IndexError
    ensures r.Ok? ==> |r.value| == |d[0].1|
    ensures r.Ok? && reverse ==>
              forall i :: 0 <= i < |r.value| ==> r.value[i] == d[0].1[|d[0].1| - 1 - i].height
    ensures r.Ok? && !reverse ==>
              forall i :: 0 <= i < |r.value| ==> r.value[i] == d[0].1[i].height
  {
    if |d| == 0 then Err(IndexError)
    else
      var hs := Heights(d[0].1);
      if reverse then Ok(Reverse(hs)) else Ok(hs)
  }

  /** The reversed height list of a frame sorted by height is descending. */
  lemma HeightListDescending(d: Dict<string, seq<Row>>)
    requires |d| > 0 && SortedByHeight(d[0].1)
    ensures GetHeightList(d, true).Ok?
    ensures Descending(GetHeightList(d, true).value)
  {
  }

  // ---------------------------------------------------------------------
  // remove_over_height_data
  // ---------------------------------------------------------------------

  /** The rows of time point `t`, sorted by height and cut just after the
      first row above the ceiling. */
  function KeptRows(rows: seq<Row>, t: Timestamp): (kept: seq<Row>)
    ensures forall r :: r in kept ==> r in rows && r.timePoint == t
    ensures multiset(kept) <= multiset(rows)
    ensures SortedByHeight(kept)
    ensures forall r :: r in kept && r.height > MaxHeight ==> r == kept[|kept| - 1]
    ensures forall r :: r in rows && r.timePoint == t && r.height <= MaxHeight ==> r in kept
    ensures (forall r :: r in rows && r.timePoint == t ==> r.height <= MaxHeight) ==>
              multiset(kept) == multiset(SelectTime(rows, t))
  {
    KeptRowsFacts(rows, t);
    TruncateAbove(SortByHeight(SelectTime(rows, t)), MaxHeight)
  }

  lemma KeptRowsFacts(rows: seq<Row>, t: Timestamp)
    ensures var kept := TruncateAbove(SortByHeight(SelectTime(rows, t)), MaxHeight);
      && (forall r :: r in kept ==> r in rows && r.timePoint == t)
      && multiset(kept) <= multiset(rows)
      && SortedByHeight(kept)
      && (forall r :: r in kept && r.height > MaxHeight ==> r == kept[|kept| - 1])
      && (forall r :: r in rows && r.timePoint == t && r.height <= MaxHeight ==> r in kept)
      && ((forall r :: r in rows && r.timePoint == t ==> r.height <= MaxHeight) ==>
            multiset(kept) == multiset(SelectTime(rows, t)))
  {
    var sorted := SortByHeight(SelectTime(rows, t));
    var kept := TruncateAbove(sorted, MaxHeight);
    TruncateSorted(sorted, MaxHeight);
    KeptRowsFromRows(rows, t, sorted);
    KeptRowsKeepLow(rows, t, sorted);
    SortedStaysLow(rows, t, sorted);
    if forall r :: r in rows && r.timePoint == t ==> r.height <= MaxHeight {
      assert kept == sorted;
    }
  }

  lemma KeptRowsFromRows(rows: seq<Row>, t: Timestamp, sorted: seq<Row>)
    requires multiset(sorted) == multiset(SelectTime(rows, t))
    ensures forall r :: r in TruncateAbove(sorted, MaxHeight) ==> r in rows && r.timePoint == t
    ensures multiset(TruncateAbove(sorted, MaxHeight)) <= multiset(rows)
  {
    var kept := TruncateAbove(sorted, MaxHeight);
    PrefixMultiset(kept, sorted);
    SelectedSubMultiset(rows, t);
    forall r | r in kept ensures r in rows && r.timePoint == t {
      assert r in multiset(sorted);
      assert r in SelectTime(rows, t);
    }
  }

  lemma KeptRowsKeepLow(rows: seq<Row>, t: Timestamp, sorted: seq<Row>)
    requires multiset(sorted) == multiset(SelectTime(rows, t)) && SortedByHeight(sorted)
    ensures forall r :: r in rows && r.timePoint == t && r.height <= MaxHeight ==>
              r in TruncateAbove(sorted, MaxHeight)
  {
    TruncateSorted(sorted, MaxHeight);
    forall r | r in rows && r.timePoint == t && r.height <= MaxHeight
      ensures r in TruncateAbove(sorted, MaxHeight)
    {
      assert r in multiset(SelectTime(rows, t));
      assert r in multiset(sorted);
    }
  }

  lemma SortedStaysLow(rows: seq<Row>, t: Timestamp, sorted: seq<Row>)
    requires multiset(sorted) == multiset(SelectTime(rows, t))
    ensures (forall r :: r in rows && r.timePoint == t ==> r.height <= MaxHeight) ==>
              forall k :: 0 <= k < |sorted| ==> sorted[k].height <= MaxHeight
  {
    if forall r :: r in rows && r.timePoint == t ==> r.height <= MaxHeight {
      forall k | 0 <= k < |sorted| ensures sorted[k].height <= MaxHeight {
        assert sorted[k] in multiset(SelectTime(rows, t));
      }
    }
  }

  lemma PrefixMultiset<T>(a: seq<T>, b: seq<T>)
    requires a <= b
    ensures multiset(a) <= multiset(b)
  {
    assert b == a + b[|a|..];
  }

  lemma SelectedSubMultiset(rows: seq<Row>, t: Timestamp)
    ensures multiset(SelectTime(rows, t)) <= multiset(rows)
  {
    var s := SelectTime(rows, t);
    forall r: Row ensures multiset(s)[r] <= multiset(rows)[r] {
      if r.timePoint == t {
      } else {
      }
    }
  }

  /** remove_over_height_data as written: the key format is read from the
      `key` attribute of the TIMEPOINT annotation. */
  function RemoveOverHeightDataAsWritten(rows: seq<Row>, t: Timestamp): (r: Result<(string, seq<Row>)>)
    ensures r.Ok? ==> r.value.1 == KeptRows(rows, t)
  {
    var kept := KeptRows(rows, t);
    match Attr(AnnotationOf(TimePoint), "key")
    case Ok(Format(f)) => Ok((GetTimeStr(t, f), kept))
    case _ => Err(AttributeError)
  }

  /** That attribute does not exist, so every call raises AttributeError. */
  lemma RemoveOverHeightDataAlwaysRaises(rows: seq<Row>, t: Timestamp)
    ensures RemoveOverHeightDataAsWritten(rows, t) == Err(AttributeError)
  {
    NoKeyAttribute(TimePoint);
  }

  /** remove_over_height_data with the key format its sibling helper uses
      ('%Y-%m-%d %H:%M:%S'): the key names the time point it came from. */
  function RemoveOverHeightData(rows: seq<Row>, t: Timestamp): (r: (string, seq<Row>))
    ensures ParseYmdHMS(r.0) == Some(t)
    ensures r.1 == KeptRows(rows, t)
  {
    ParseYmdHMSOfLabel(t);
    (GetTimeStr(t, YmdHMS), KeptRows(rows, t))
  }

  // ---------------------------------------------------------------------
  // concat_series
  // ---------------------------------------------------------------------

  /** Side-by-side concatenation of equally long series under the given
      height index and column keys. pandas refuses an empty list and a key
      list of the wrong length with ValueError. */
  function ConcatSeries(seriesList: seq<seq<Cell>>, indexValues: seq<real>, keys: seq<string>): (r: Result<Grid>)
    requires forall s :: s in seriesList ==> |s| == |indexValues|
    ensures r.Ok? <==> |seriesList| > 0 && |keys| == |seriesList|
    ensures r.Err? ==> r.error == ValueError
    ensures r.Ok? ==> WellShaped(r.value) && r.value.index == indexValues && r.value.columns == keys
    ensures r.Ok? ==> forall j :: 0 <= j < |keys| ==> Column(r.value, j) == seriesList[j]
  {
    if |seriesList| == 0 || |keys| != |seriesList| then Err(ValueError)
    else
      var g := Grid(indexValues, keys,
        seq(|indexValues|, i requires 0 <= i < |indexValues| =>
          seq(|seriesList|, j requires 0 <= j < |seriesList| => seriesList[j][i])));
      assert forall j :: 0 <= j < |keys| ==> Column(g, j) == seriesList[j] by {
        forall j | 0 <= j < |keys| ensures Column(g, j) == seriesList[j] {
          assert seriesList[j] in seriesList;
        }
      }
      Ok(g)
  }

  // ---------------------------------------------------------------------
  // get_wpr_data_by
  // ---------------------------------------------------------------------

  /** The position of the first row whose `byCol` column equals `v`. */
  function FirstWith(rows: seq<Row>, byCol: WprDataType, v: real): (r: Option<nat>)
    requires byCol != TimePoint
    ensures r.Some? ==> r.value < |rows| && Field(rows[r.value], byCol) == Some(v)
    ensures r.Some? ==> forall k :: 0 <= k < r.value ==> Field(rows[k], byCol) != Some(v)
    ensures r.None? <==> forall k :: 0 <= k < |rows| ==> Field(rows[k], byCol) != Some(v)
  {
    if rows == [] then None
    else if Field(rows[0], byCol) == Some(v) then Some(0)
    else match FirstWith(rows[1..], byCol, v)
      case None => None
      case Some(i) => Some(i + 1)
  }

  /** get_wpr_data_by: column `m` of the first row whose column `byCol` equals
      `byVal` exactly, and `nan` when no row does. */
  function GetWprDataBy(rows: seq<Row>, m: WprDataType, byVal: real, byCol: WprDataType, nan: Cell): (c: Cell)
    requires m != TimePoint && byCol != TimePoint
    ensures (forall k :: 0 <= k < |rows| ==> Field(rows[k], byCol) != Some(byVal)) ==> c == nan
    ensures forall i :: (0 <= i < |rows| && Field(rows[i], byCol) == Some(byVal) &&
              (forall k :: 0 <= k < i ==> Field(rows[k], byCol) != Some(byVal))) ==> c == Field(rows[i], m)
  {
    FirstWithIsFirst(rows, byCol, byVal);
    match FirstWith(rows, byCol, byVal)
    case None => nan
    case Some(i) => Field(rows[i], m)
  }

  /** Any first matching row is the one FirstWith finds. */
  lemma FirstWithIsFirst(rows: seq<Row>, byCol: WprDataType, v: real)
    requires byCol != TimePoint
    ensures forall i :: (0 <= i < |rows| && Field(rows[i], byCol) == Some(v) &&
              (forall k :: 0 <= k < i ==> Field(rows[k], byCol) != Some(v))) ==> FirstWith(rows, byCol, v) == Some(i)
  {
  }

  // ---------------------------------------------------------------------
  // minus2rep
  // ---------------------------------------------------------------------

  /** The argument of minus2rep: a number, NaN, a string (with what
      `float` makes of it, `None` when it is not a number or is 'nan'), or
      Python's None, which `float` refuses. */
  datatype Raw = Number(x: real) | NaN | Text(parsed: Option<real>) | NoneValue

  /** `float(val)`, `None` when it raises or gives NaN. */
  function ToFloat(v: Raw): Option<real> {
    match v
    case Number(x) => Some(x)
    case NaN => None
    case Text(p) => p
    case NoneValue => None
  }

  /** minus2rep: the float of a non-negative value; `None` stands for the
      replacement `rep`, returned for negatives, NaN and non-numbers. */
  function Minus2Rep(v: Raw): (r: Option<real>)
    ensures r.Some? <==> ToFloat(v).Some? && ToFloat(v).value >= 0.0
    ensures r.Some? ==> r == ToFloat(v)
  {
    var f := ToFloat(v);
    if f.Some? && f.value >= 0.0 then f else None
  }

  /** Feeding a kept value back in keeps it. */
  lemma Minus2RepIdempotent(v: Raw)
    requires Minus2Rep(v).Some?
    ensures Minus2Rep(Number(Minus2Rep(v).value)) == Minus2Rep(v)
  {
  }

  // ---------------------------------------------------------------------
  // get_targeted_height_list
  // ---------------------------------------------------------------------

  /** The smallest height strictly above `ref`. */
  function MinAbove(hs: seq<real>, ref: real): (r: Option<real>)
    ensures r.Some? ==> r.value in hs && r.value > ref
    ensures r.Some? ==> forall h :: h in hs && h > ref ==> r.value <= h
    ensures r.None? <==> forall h :: h in hs ==> h <= ref
  {
    if hs == [] then None
    else
      var rest := MinAbove(hs[1..], ref);
      assert hs == [hs[0]] + hs[1..];
      if hs[0] <= ref then rest
      else if rest.Some? && rest.value < hs[0] then rest
      else Some(hs[0])
  }

  /** The height kept for reference layer `ref`: itself when present, else
      the smallest height above it. */
  function TargetFor(hs: seq<real>, ref: real): (r: Option<real>)
    ensures r.Some? ==> r.value in hs && r.value >= ref
    ensures ref in hs ==> r == Some(ref)
    ensures r.None? <==> forall h :: h in hs ==> h < ref
  {
    if ref in hs then Some(ref) else MinAbove(hs, ref)
  }

  /** The targets of the given references in order, `None` as soon as one
      reference has none (`min` of an empty sequence). */
  function TargetList(hs: seq<real>, refs: seq<real>): (r: Option<seq<real>>)
    ensures r.Some? <==> forall k :: 0 <= k < |refs| ==> TargetFor(hs, refs[k]).Some?
    ensures r.Some? ==> |r.value| == |refs|
    ensures r.Some? ==> forall k :: 0 <= k < |refs| ==> r.value[k] == TargetFor(hs, refs[k]).value
  {
    if refs == [] then Some([])
    else
      var t := TargetFor(hs, refs[0]);
      var rest := TargetList(hs, refs[1..]);
      if t.None? || rest.None? then None else Some([t.value] + rest.value)
  }

  /** get_targeted_height_list: the distinct targets of the reference
      layers, or ValueError. */
  function TargetedHeights(hs: seq<real>): (r: Result<set<real>>)
    ensures r.Err? ==> r.error == ValueError
  {
    match TargetList(hs, HeightRefs)
    case None => Err(ValueError)
    case Some(l) => Ok(set x | x in l)
  }

  /** The loop of get_targeted_height_list, appending one target per
      reference and then dropping duplicates. */
  method GetTargetedHeightList(hs: seq<real>) returns (r: Result<set<real>>)
    ensures r == TargetedHeights(hs)
  {
    var targeted: seq<real> := [];
    var k := 0;
    while k < |HeightRefs|
      invariant 0 <= k <= |HeightRefs|
      decreases |HeightRefs| - k
      invariant TargetList(hs, HeightRefs[..k]) == Some(targeted)
    {
      var item := HeightRefs[k];
      assert HeightRefs[..k + 1] == HeightRefs[..k] + [item];
      TargetListAppend(hs, HeightRefs[..k], item);
      if item in hs {
        targeted := targeted + [item];
      } else {
        var m := MinAbove(hs, item);
        if m.None? {
          TargetListFailsOn(hs, HeightRefs, k);
          return Err(ValueError);
        }
        targeted := targeted + [m.value];
      }
      k := k + 1;
    }
    assert HeightRefs[..k] == HeightRefs;
    return Ok(set x | x in targeted);
  }

  lemma TargetListAppend(hs: seq<real>, refs: seq<real>, ref: real)
    ensures TargetList(hs, refs + [ref]) ==
      if TargetList(hs, refs).Some? && TargetFor(hs, ref).Some?
      then Some(TargetList(hs, refs).value + [TargetFor(hs, ref).value])
      else None
  {
    if refs == [] {
      assert refs + [ref] == [ref];
      assert [ref][1..] == [];
      assert TargetList(hs, []) == Some([]);
      if TargetFor(hs, ref).Some? {
        var x := TargetFor(hs, ref).value;
        assert [x] + [] == [] + [x];
      }
    } else {
      TargetListAppend(hs, refs[1..], ref);
      assert (refs + [ref])[0] == refs[0];
      assert (refs + [ref])[1..] == refs[1..] + [ref];
      var t, rest := TargetFor(hs, refs[0]), TargetList(hs, refs[1..]);
      if t.Some? && rest.Some? && TargetFor(hs, ref).Some? {
        var x := TargetFor(hs, ref).value;
        assert [t.value] + (rest.value + [x]) == ([t.value] + rest.value) + [x];
      }
    }
  }

  lemma TargetListFailsOn(hs: seq<real>, refs: seq<real>, k: nat)
    requires k < |refs| && TargetFor(hs, refs[k]).None?
    ensures TargetList(hs, refs).None?
  {
  }

  /** The call fails exactly when every height lies below the 3000 m top
      layer, the empty list included. */
  lemma TargetsFailIffBelowTop(hs: seq<real>)
    ensures TargetedHeights(hs).Err? <==> forall h :: h in hs ==> h < MaxHeight
  {
    HeightRefsValues();
    if TargetedHeights(hs).Err? {
      var k :| 0 <= k < |HeightRefs| && TargetFor(hs, HeightRefs[k]).None?;
      assert HeightRefs[k] <= MaxHeight;
    } else {
      assert TargetFor(hs, HeightRefs[10]).Some?;
    }
  }

  /** On success the targets are heights of the list, one per reference
      layer at most, each reference's exact or next-higher height, and every
      reference's choice is among them. */
  lemma TargetsProperties(hs: seq<real>)
    requires TargetedHeights(hs).Ok?
    ensures forall x :: x in TargetedHeights(hs).value ==> x in hs
    ensures |TargetedHeights(hs).value| <= 11
    ensures forall k :: 0 <= k < |HeightRefs| ==> TargetFor(hs, HeightRefs[k]).value in TargetedHeights(hs).value
    ensures forall x :: x in TargetedHeights(hs).value ==>
              exists k :: 0 <= k < |HeightRefs| && TargetFor(hs, HeightRefs[k]) == Some(x)
  {
    HeightRefsValues();
    var l := TargetList(hs, HeightRefs).value;
    SetOfSeqSize(l);
    forall x | x in TargetedHeights(hs).value
      ensures exists k :: 0 <= k < |HeightRefs| && TargetFor(hs, HeightRefs[k]) == Some(x)
    {
      var k :| 0 <= k < |l| && l[k] == x;
    }
    forall k | 0 <= k < |HeightRefs| ensures TargetFor(hs, HeightRefs[k]).value in TargetedHeights(hs).value {
      assert l[k] in l;
    }
  }

  lemma {:induction false} SetOfSeqSize<T>(l: seq<T>)
    ensures |set x | x in l| <= |l|
  {
    if l != [] {
      SetOfSeqSize(l[1..]);
      assert (set x | x in l) == (set x | x in l[1..]) + {l[0]};
    }
  }

  // ---------------------------------------------------------------------
  // remain_special_layers
  // ---------------------------------------------------------------------

  /** The rows of a grid with every row whose height is not a target
      replaced by missing values. */
  function MaskRows(cells: seq<seq<Cell>>, index: seq<real>, targets: set<real>, width: nat): (r: seq<seq<Cell>>)
    requires |cells| == |index|
    ensures |r| == |cells|
    ensures forall i :: 0 <= i < |r| && index[i] in targets ==> r[i] == cells[i]
    ensures forall i :: 0 <= i < |r| && index[i] !in targets ==> r[i] == Blank(width)
  {
    seq(|cells|, i requires 0 <= i < |cells| => if index[i] in targets then cells[i] else Blank(width))
  }

  /** Only target rows can still hold a value, and masking twice changes
      nothing more. */
  lemma MaskRowsProperties(cells: seq<seq<Cell>>, index: seq<real>, targets: set<real>, width: nat)
    requires |cells| == |index|
    ensures forall i, j :: (0 <= i < |cells| && 0 <= j < |MaskRows(cells, index, targets, width)[i]| &&
              MaskRows(cells, index, targets, width)[i][j].Some?) ==> index[i] in targets
    ensures MaskRows(MaskRows(cells, index, targets, width), index, targets, width) ==
            MaskRows(cells, index, targets, width)
  {
  }

  /** remain_special_layers: blanks in place every row whose height is not
      a target and returns the same frame. Without a target list it derives
      one from the frame's own index, which may raise ValueError before any
      row changes. */
  method RemainSpecialLayers(w: Frame, targets: Option<set<real>>) returns (r: Result<Frame>)
    requires w.Valid()
    modifies w
    ensures w.Valid() && w.index == old(w.index) && w.columns == old(w.columns)
    ensures targets.None? && TargetedHeights(old(w.index)).Err? ==>
              r == Err(ValueError) && w.cells == old(w.cells)
    ensures targets.Some? ==>
              r == Ok(w) && w.cells == MaskRows(old(w.cells), old(w.index), targets.value, |w.columns|)
    ensures targets.None? && TargetedHeights(old(w.index)).Ok? ==>
              r == Ok(w) &&
              w.cells == MaskRows(old(w.cells), old(w.index), TargetedHeights(old(w.index)).value, |w.columns|)
  {
    var t: set<real>;
    if targets.None? {
      var found := GetTargetedHeightList(w.index);
      if found.Err? {
        return Err(found.error);
      }
      t := found.value;
    } else {
      t := targets.value;
    }
    var i := 0;
    while i < |w.cells|
      invariant 0 <= i <= |w.cells| == |old(w.cells)|
      invariant w.index == old(w.index) && w.columns == old(w.columns)
      invariant forall k :: 0 <= k < i ==> w.cells[k] == MaskRows(old(w.cells), w.index, t, |w.columns|)[k]
      invariant forall k :: i <= k < |w.cells| ==> w.cells[k] == old(w.cells)[k]
    {
      if w.index[i] !in t {
        w.cells := w.cells[i := Blank(|w.columns|)];
      }
      i := i + 1;
    }
    return Ok(w);
  }

  // ---------------------------------------------------------------------
  // get_mask, get_grid_coord
  // ---------------------------------------------------------------------

  /** get_mask: `ws <= 0` cell by cell; NaN compares false. */
  function GetMask(cells: seq<seq<Cell>>): (mask: seq<seq<bool>>)
    ensures |mask| == |cells|
    ensures forall i :: 0 <= i < |cells| ==> |mask[i]| == |cells[i]|
    ensures forall i, j :: 0 <= i < |cells| && 0 <= j < |cells[i]| ==>
              (mask[i][j] <==> cells[i][j].Some? && cells[i][j].value <= 0.0)
  {
    seq(|cells|, i requires 0 <= i < |cells| =>
      seq(|cells[i]|, j requires 0 <= j < |cells[i]| => cells[i][j].Some? && cells[i][j].value <= 0.0))
  }

  /** Scaling by a positive factor (the ×20 of the vertical speed) does not
      change which cells are whitened. */
  lemma MaskOfScaled(g: Grid, k: real)
    requires WellShaped(g) && k > 0.0
    ensures GetMask(Scale(g, k).cells) == GetMask(g.cells)
  {
    var a, b := GetMask(Scale(g, k).cells), GetMask(g.cells);
    forall i | 0 <= i < |g.cells| ensures a[i] == b[i] {
      forall j | 0 <= j < |g.cells[i]| ensures a[i][j] == b[i][j] {
        var c := g.cells[i][j];
        if c.Some? {
          if c.value <= 0.0 {
            MulLe(c.value, 0.0, k);
          } else {
            MulStrict(0.0, c.value, k);
          }
        }
      }
    }
  }

  /** get_grid_coord: the meshgrid of column and row positions, each shifted
      by `addition`, over a grid of `nRows` by `nCols`. */
  function GetGridCoord(nRows: nat, nCols: nat, addition: real): (xy: (seq<seq<real>>, seq<seq<real>>))
    ensures |xy.0| == nRows && |xy.1| == nRows
    ensures forall i :: 0 <= i < nRows ==> |xy.0[i]| == nCols && |xy.1[i]| == nCols
    ensures forall i, j :: 0 <= i < nRows && 0 <= j < nCols ==>
              xy.0[i][j] == j as real + addition && xy.1[i][j] == i as real + addition
  {
    var x := seq(nRows, _ => seq(nCols, j requires 0 <= j < nCols => j as real + addition));
    var y := seq(nRows, i requires 0 <= i < nRows => seq(nCols, _ => i as real + addition));
    (x, y)
  }

  /** Each cell's coordinates are its column and row shifted by `addition`:
      distinct cells get distinct coordinate pairs. */
  lemma GridCoordInjective(nRows: nat, nCols: nat, addition: real, i: nat, j: nat, i': nat, j': nat)
    requires i < nRows && j < nCols && i' < nRows && j' < nCols
    ensures var xy := GetGridCoord(nRows, nCols, addition);
            (xy.0[i][j] == xy.0[i'][j'] && xy.1[i][j] == xy.1[i'][j']) <==> (i == i' && j == j')
  {
  }
}
