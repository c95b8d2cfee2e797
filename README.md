# Wind-profile-radar data layer, modelled in Dafny

This project models the data layer of a wind-profile-radar (WPR) service.
The radar delivers rows of (time point, height, horizontal wind speed,
horizontal wind direction, vertical wind speed). The data layer turns them
into height-by-time grids for heat maps, picks the "target" layers that
carry wind arrows, blanks every other layer, and caches profiles and wind
matrices in a database. The model covers these parts:

- **Height profile and decimation** (`height_profile.dfy`, module `HeightProfile`):
  - the 3000 m ceiling and the cut just after the first row above it;
  - the height list of the first time point;
  - the eleven reference layers `arange(0, 3000 + 300, 300)`;
  - the exact-or-next-higher choice of target heights, as a loop proved against its specification function;
  - in-place blanking of non-target rows of a `Frame` object;
  - `concat_series`, `get_wpr_data_by`, `minus2rep`, `get_mask` and `get_grid_coord`.
- **Grid assembly** (`grid_assembly.dfy`, module `GridAssembly`): `get_WPR_data_all`.
  - The fetch result is a parameter.
  - The process pool becomes a sequential loop in submission order.
  - Three concatenated frames are built, then derived frames ×1 and ×20, the optional in-place masking, and the vertical-direction frame.
- **The older helper module** (`data_helper_v1.dfy`, module `DataHelperV1`):
  - `get_WPR_data`, the loop that fills a dict keyed by 'YYYY-MM-DD HH:MM:SS' labels;
  - `get_heat_map_data`, the loop that fills a dict keyed by re-formatted labels, where labels that collide merge;
  - `remain_spe_row`, its layer-index loop and its positional row loop over a `Frame`.
- **Column tables** (`schemas.dfy`, module `Schemas`): the annotation objects, the five-member series enumeration, its four table helpers, and the two wind-field styles.
- **Cache store** (`cache_store.dfy`, module `CacheStore`): the three tables of `database/models.py` and the eight CRUD operations.
  - Each operation is a transition function on the tables.
  - Each is also a method of a `Session` class whose fields are the tables.
- **Common helpers** (`common.dfy`, module `Common`): `Dict` and `dict_to_object`, the `TimeStr` formats and `get_time_str`, and `round_half_even`.
- **Shared shapes** (`frames.dfy`, `dicts.dfy`, `wrappers.dfy`):
  - rows and cells, with `None` standing for NaN/None;
  - height sort and cut;
  - grids and the mutable `Frame` class;
  - Python's insertion-ordered `dict`;
  - `Option`/`Result` and the Python exceptions involved.

Python exceptions are `Err` values of `Result`. Functions that catch every
exception and answer `None` (the CRUD operations, `get_wpr_data_by`,
`minus2rep`) are modelled with that answer.

Behaviours of the code worth noting:

- The height list is not de-duplicated. It is only descending, not strictly descending.
- Decimation blanks rows of the assembled frames. It does not mask each time point's series before assembly.
- A blanked (NaN) vertical speed gets direction 180, because NaN differs from 0.
- A missing next-higher height raises ValueError (`min` of an empty sequence), not a dedicated error.
- An empty data set raises KeyError when the required columns are selected.
- The docstring of `get_cols_dict` announces raw column → display name. The code maps display name → raw column, and so does `Schemas.GetColsDict`.

`data_helper1.py` defines `get_wpr_data_by` (lines 113-127) and
`get_heap_map_y_ticks` (lines 101-111) with the same bodies as `get_wpr_data_by`
and `get_height_list` in `data_helper/utils.py`. Both are modelled once, as
`HeightProfile.GetWprDataBy` and `HeightProfile.GetHeightList`.
`plt_helper.py` imports `get_heap_map_y_ticks`, `get_heat_map_data` and
`remain_spe_row` under the name `.data_helper`. Only `data_helper1.py`
defines them, so those calls are modelled with the `DataHelperV1` members.

## Model

| member | source | states |
|---|---|---|
| Common.Converted | utils/common.py:13-19 | a non-dict value (a list included) is returned unchanged; a dict, of either class, becomes a `Dict` |
| Common.ConvertedItems | utils/common.py:16-18 | the assigned items are the dict's items in iteration order, each with its value converted |
| Common.ConvertedKeepsOrder | utils/common.py:16-18 | a dict is rebuilt item by item: the same keys in the same order, each with its converted value |
| Common.DictToObject | utils/common.py:13-19 | the item-by-item fill loop, recursing on every value, yields exactly `Converted` of the input |
| Common.ConvertedKeepsContent | utils/common.py:13-19 | for any value Python can build, forgetting the dict class, the converted value equals the input: no key, value or list element changes or moves |
| Common.ConvertedIdempotent | utils/common.py:13-19 | converting twice is converting once |
| Common.GetAttr | utils/common.py:9-11 | a name of dict's own attributes reads the class member; any other name reads the item under that string key, and a missing one raises KeyError (not AttributeError) |
| Common.SetAttr | utils/common.py:9-11 | attribute write stores the item for every name, leaves every other key as it was, and the attribute reads the new value back unless the name is one of dict's own attributes |
| Common.OrdinalInjective | applications/WindProfileRadar/data_helper/__init__.py:45 | two timestamps of equal rank are equal, so the rank orders group keys totally |
| Common.GetTimeStr | utils/common.py:36-48 | HM labels are 5 characters with ':' in the middle; YmdHMS_Na labels are 14 digits; YmdHMS labels are 19 characters, over the pandas timestamp years 1678-2261 |
| Common.NaLabelIsYmdHMSWithoutSeparators | utils/common.py:42-48 | the YmdHMS_Na label is the YmdHMS label with its five separators taken out, and putting them back gives the YmdHMS label |
| Common.YmdHMSNaLabelInjective | utils/common.py:43-48 | distinct timestamps never share a YmdHMS_Na label |
| Common.HMLabelSameMinute | utils/common.py:45-48 | two times get the same HH:MM label exactly when hour and minute agree |
| Common.HourLabelIsHourStart | utils/common.py:41-48 | the YmdH00 label is the YmdHMS label of the hour's start and ends in ":00:00" |
| Common.ParseYmdHMSOfLabel | applications/WindProfileRadar/data_helper1.py:140 | strptime of a YmdHMS label gives back the timestamp it was formatted from |
| Common.ParseYmdHMS | applications/WindProfileRadar/data_helper1.py:140 | every string strptime accepts is the YmdHMS label of what it parses to |
| Common.YmdHMSLabelInjective | applications/WindProfileRadar/data_helper1.py:96 | distinct time points never share a YmdHMS key |
| Common.QuantumExponent | utils/common.py:61 | the quantum `10**(-num)` has exponent `num` for `0 < num < 324`, 0 for every `num <= 0`, and 1 once the float underflows to 0.0 |
| Common.RoundHalfEvenToIntIsNearestEven | utils/common.py:61 | ROUND_HALF_EVEN to an integer gives the integer within a half unit, the even one on a tie, and no other integer qualifies |
| Common.QuantizeHalfEven | utils/common.py:61 | the quantized value is a whole number of quanta |
| Common.QuantizeHalfEvenIsNearest | utils/common.py:61 | that number of quanta is the nearest integer to `value * 10^num`, the even one on a tie, and only that one |
| Common.RoundHalfEven | utils/common.py:50-61 | ValueError when `num <= -4300` (the quantum's text would exceed 4300 digits); otherwise InvalidOperation exactly when the rounded coefficient has more than 28 digits; otherwise the value quantized to 10^-num for `0 < num < 324`, rounded to an integer for `num <= 0`, and to one decimal for `num >= 324` |
| Common.RoundHalfEvenExamples | utils/common.py:50-61 | 0.25→0.2 and 0.75→0.8 at one decimal; 2.5→2 at 0; 1234.5→1234 at -2 (not to hundreds); 0.26→0.3 at 400; 10^28-1 kept at 0; 10^28-0.5 (rounds up to 29 digits) and -10^27 at one decimal raise InvalidOperation; 1.0 at -4299 gives 1.0 and at -4300 raises ValueError |
| Schemas.MakeAnnotation | applications/WindProfileRadar/data_helper/schemas.py:9-15 | the annotation has exactly name, col_name and label, plus one attribute per kwargs entry only when kwargs is a dict, an entry overriding a base attribute |
| Schemas.Attr | applications/WindProfileRadar/data_helper/schemas.py:9-15 | reading an attribute the annotation lacks raises AttributeError |
| Schemas.AnnotationOf | applications/WindProfileRadar/data_helper/schemas.py:21-28 | each of the five members carries exactly its name, column name and label |
| Schemas.MembersComplete | applications/WindProfileRadar/data_helper/schemas.py:21-28 | every member appears once in declaration order |
| Schemas.NamesDistinct | applications/WindProfileRadar/data_helper/schemas.py:24-28 | two members have the same display name exactly when they are the same member |
| Schemas.GetColsDict | applications/WindProfileRadar/data_helper/schemas.py:38-44 | maps every display name to its raw column name, has no other keys, and has one entry per member |
| Schemas.GetNameLabelDict | applications/WindProfileRadar/data_helper/schemas.py:46-52 | maps every display name to its label, has no other keys, and has one entry per member |
| Schemas.GetRequireCols | applications/WindProfileRadar/data_helper/schemas.py:54-58 | the raw column names in declaration order: timePoint, height, hws, hwd, vws |
| Schemas.GetNameList | applications/WindProfileRadar/data_helper/schemas.py:60-63 | the display names in declaration order, pairwise distinct |
| Schemas.NoKeyAttribute | applications/WindProfileRadar/data_helper/schemas.py:24-28 | no series annotation has a `key` attribute, so reading it raises AttributeError |
| Schemas.WindFieldAnnotationOf | applications/WindProfileRadar/data_helper/schemas.py:17-19 | each wind field has its series' name, column and label plus `cbar_limit` and `cmap`, and nothing else |
| Schemas.WindFieldStyles | applications/WindProfileRadar/data_helper/schemas.py:17-19 | HWS has range (0, 10) and 'jet'; VWS has range (-1, 1) and 'seismic' |
| Frames.Field | applications/WindProfileRadar/data_helper/schemas.py:25-28 | the height column of a row is its height |
| Frames.Heights | applications/WindProfileRadar/data_helper/utils.py:20 | the height column holds each row's height, in row order |
| Frames.Reverse | applications/WindProfileRadar/data_helper/utils.py:22-23 | `[::-1]`: element i is element n-1-i of the input |
| Frames.ReverseReverse | applications/WindProfileRadar/data_helper/utils.py:22-23 | reversing twice gives back the input |
| Frames.SelectTime | applications/WindProfileRadar/data_helper/utils.py:30 | exactly the rows of the time point, with their multiplicities, and no other row |
| Frames.InsertByHeight | applications/WindProfileRadar/data_helper/utils.py:31 | inserting into a height-sorted list keeps it sorted and adds exactly that row |
| Frames.SortByHeight | applications/WindProfileRadar/data_helper/utils.py:31 | the result is sorted by height and is a permutation of the input |
| Frames.FirstAbove | applications/WindProfileRadar/data_helper/utils.py:34-37 | the first position above the ceiling, or None exactly when no row is above it |
| Frames.TruncateAbove | applications/WindProfileRadar/data_helper/utils.py:34-38 | a prefix whose rows before the last are at or below the ceiling; nothing is cut when no row is above; the last kept row is above when some row is |
| Frames.TruncateSorted | applications/WindProfileRadar/data_helper/utils.py:30-38 | on sorted rows the cut keeps every row at or below the ceiling and at most one above it, in last place |
| Frames.Column | applications/WindProfileRadar/data_helper/utils.py:55-58 | column j of a grid is the j-th cell of every row |
| Frames.Blank | applications/WindProfileRadar/data_helper/utils.py:123 | `loc[idx] = None` leaves `width` missing cells |
| Frames.ScaleCell | applications/WindProfileRadar/data_helper/__init__.py:74-76 | a present value is multiplied by k; NaN stays NaN |
| Frames.Scale | applications/WindProfileRadar/data_helper/__init__.py:74-76 | `frame * k` keeps index and columns and scales every cell |
| Frames.Frame.constructor | applications/WindProfileRadar/data_helper/utils.py:55-59 | a new frame holds the given grid |
| Dicts.Keys | applications/WindProfileRadar/data_helper1.py:143 | the keys of a dict in insertion order |
| Dicts.Find | applications/WindProfileRadar/data_helper1.py:141 | the position of a key, None exactly when it is absent |
| Dicts.Get | applications/WindProfileRadar/data_helper1.py:141 | `d[k]` succeeds exactly for present keys and otherwise raises KeyError |
| Dicts.Put | applications/WindProfileRadar/data_helper1.py:141 | `d[k] = v` appends a new key, keeps the key order for an existing one, makes `k` read `v` and leaves every other key alone |
| Dicts.PutAll | applications/WindProfileRadar/data_helper1.py:137-141 | a series of assignments keeps keys distinct and stores only given pairs |
| Dicts.PutAllKeysGrow | applications/WindProfileRadar/data_helper1.py:141 | assignments never move a key: the keys after a prefix of them begin the final keys |
| Dicts.PutAllGet | applications/WindProfileRadar/data_helper1.py:141 | after the assignments a key is present iff it was before or was assigned, and holds its last assigned value |
| Dicts.PutAllFresh | applications/WindProfileRadar/data_helper1.py:97 | assignments of new distinct keys append the pairs in order |
| HeightProfile.Arange | applications/WindProfileRadar/data_helper/utils.py:12 | `arange(start, stop, step)`: start + i·step for each i, all below `stop`, and the next value would reach `stop` |
| HeightProfile.HeightRefsValues | applications/WindProfileRadar/data_helper/utils.py:8-12 | H is 300 and `Height_List` is the eleven layers 0, 300, …, 3000 |
| HeightProfile.GetHeightList | applications/WindProfileRadar/data_helper/utils.py:14-24 | the first entry's height column, reversed when `reverse`, in stored order otherwise; IndexError on an empty dict |
| HeightProfile.HeightListDescending | applications/WindProfileRadar/data_helper/utils.py:14-24 | the reversed height list of a height-sorted frame is descending |
| HeightProfile.KeptRows | applications/WindProfileRadar/data_helper/utils.py:30-38 | only rows of the time point, sorted by height; every row at or below 3000 m kept; at most the last one above; nothing dropped when none is above |
| HeightProfile.RemoveOverHeightDataAsWritten | applications/WindProfileRadar/data_helper/utils.py:26-41 | as written: when it returns, the frame is the kept rows |
| HeightProfile.RemoveOverHeightDataAlwaysRaises | applications/WindProfileRadar/data_helper/utils.py:40 | as written, every call raises AttributeError on `.key` |
| HeightProfile.RemoveOverHeightData | applications/WindProfileRadar/data_helper/utils.py:26-41 | corrected: the key parses back to the time point and the frame is the kept rows |
| HeightProfile.ConcatSeries | applications/WindProfileRadar/data_helper/utils.py:43-59 | succeeds exactly for a non-empty list with one key per series (ValueError otherwise); column j is series j, rows are the given heights |
| HeightProfile.FirstWith | applications/WindProfileRadar/data_helper/utils.py:71-73 | the first row whose `by` column equals the value, None exactly when none does |
| HeightProfile.GetWprDataBy | applications/WindProfileRadar/data_helper/utils.py:61-75 | the requested column of the first exactly matching row, the sentinel when none matches |
| HeightProfile.Minus2Rep | applications/WindProfileRadar/data_helper/utils.py:89-100 | the float of the value exactly when it converts and is non-negative, the replacement otherwise |
| HeightProfile.Minus2RepIdempotent | applications/WindProfileRadar/data_helper/utils.py:89-100 | feeding a kept value back keeps it |
| HeightProfile.MinAbove | applications/WindProfileRadar/data_helper/utils.py:108 | the smallest height strictly above the reference, None exactly when none is above |
| HeightProfile.TargetFor | applications/WindProfileRadar/data_helper/utils.py:105-108 | the reference itself when present, else the next-higher height; None exactly when every height is below it |
| HeightProfile.TargetList | applications/WindProfileRadar/data_helper/utils.py:103-108 | the target of each reference, in order; None exactly when some reference has none |
| HeightProfile.TargetedHeights | applications/WindProfileRadar/data_helper/utils.py:102-110 | every failure is a ValueError (when it fails and which heights it picks: `TargetsFailIffBelowTop`, `TargetsProperties`) |
| HeightProfile.GetTargetedHeightList | applications/WindProfileRadar/data_helper/utils.py:102-110 | the append loop returns exactly `TargetedHeights` |
| HeightProfile.TargetsFailIffBelowTop | applications/WindProfileRadar/data_helper/utils.py:108 | the call fails exactly when every height is below 3000 m (the empty list included) |
| HeightProfile.TargetsProperties | applications/WindProfileRadar/data_helper/utils.py:102-110 | targets are heights of the list, at most 11, each the choice of some reference, and every reference's choice is among them |
| HeightProfile.MaskRows | applications/WindProfileRadar/data_helper/utils.py:121-123 | target rows unchanged, every other row blank |
| HeightProfile.MaskRowsProperties | applications/WindProfileRadar/data_helper/utils.py:121-123 | after masking only target rows hold values, and masking again changes nothing |
| HeightProfile.RemainSpecialLayers | applications/WindProfileRadar/data_helper/utils.py:112-124 | masks the frame in place and returns it; without targets derives them from the index, raising ValueError before any change when none exist |
| HeightProfile.GetMask | applications/WindProfileRadar/data_helper/utils.py:126-132 | a cell is masked exactly when it holds a value `<= 0` (NaN compares false) |
| HeightProfile.MaskOfScaled | applications/WindProfileRadar/data_helper/__init__.py:76 | scaling by a positive factor does not change the mask |
| HeightProfile.GetGridCoord | applications/WindProfileRadar/data_helper/utils.py:148-160 | a rows×columns meshgrid whose cell (i, j) is (j + addition, i + addition) |
| HeightProfile.GridCoordInjective | applications/WindProfileRadar/data_helper/utils.py:148-160 | distinct cells get distinct coordinate pairs |
| GridAssembly.GetWprDataByHeightIdx | applications/WindProfileRadar/data_helper/__init__.py:11-22 | the column at the height label of the first row with that height, the sentinel when none |
| GridAssembly.Series | applications/WindProfileRadar/data_helper/__init__.py:25-28 | one value per height of the list |
| GridAssembly.GetWindFieldDatasByHeightIdx | applications/WindProfileRadar/data_helper/__init__.py:24-29 | the hws, hwd and vws series, each one entry per height, in order |
| GridAssembly.SeriesSound | applications/WindProfileRadar/data_helper/__init__.py:24-29 | a present value comes from a row of that time point and height; a height without a row gives NaN |
| GridAssembly.InsertKey | applications/WindProfileRadar/data_helper/__init__.py:45 | inserting a time point keeps the keys chronological and adds exactly it |
| GridAssembly.GroupKeys | applications/WindProfileRadar/data_helper/__init__.py:45 | the group keys are chronological and are exactly the time points of the rows |
| GridAssembly.GroupKeysDistinct | applications/WindProfileRadar/data_helper/__init__.py:45 | the group keys are distinct |
| GridAssembly.TimeCols | applications/WindProfileRadar/data_helper/__init__.py:68 | one HH:MM label per time point; two labels agree exactly when hour and minute agree |
| GridAssembly.ColIndex | applications/WindProfileRadar/data_helper/__init__.py:69 | `col_index` is 0 .. n-1 |
| GridAssembly.HeightListOf | applications/WindProfileRadar/data_helper/__init__.py:48-50 | the first time point's kept heights, descending |
| GridAssembly.SeriesList | applications/WindProfileRadar/data_helper/__init__.py:57-66 | one series per time point in submission order |
| GridAssembly.OriginGrid | applications/WindProfileRadar/data_helper/__init__.py:70-72 | rows are the heights, columns the labels, cell (i, j) the value at height i and time point j |
| GridAssembly.MaskGrid | applications/WindProfileRadar/data_helper/__init__.py:77-80 | masking keeps index and columns and blanks the non-target rows |
| GridAssembly.DirectionCell | applications/WindProfileRadar/data_helper/__init__.py:82 | 180 exactly when the speed is not 0 (NaN included), 0 exactly when it is 0 |
| GridAssembly.VerticalDirection | applications/WindProfileRadar/data_helper/__init__.py:82 | the vertical direction grid is `DirectionCell` of each derived vertical speed |
| GridAssembly.Build | applications/WindProfileRadar/data_helper/__init__.py:68-86 | the six grids: origin grids, ×1 and ×20 derived speeds, masked when targets are given, and direction from the derived vertical speed |
| GridAssembly.FirstHeights | applications/WindProfileRadar/data_helper/__init__.py:48-50 | the height list is descending |
| GridAssembly.GetWprDataAll | applications/WindProfileRadar/data_helper/__init__.py:31-94 | corrected: fails exactly when `AssembleSpec` fails, with its error; otherwise six new, pairwise distinct frames holding exactly its grids, the start and end times as given, the station, height list and column index, and the grid coordinates offset by 0.5 |
| GridAssembly.WindFields | applications/WindProfileRadar/data_helper/__init__.py:52-86 | the series loop, concatenations, derived frames and optional masking give the assembled grids in six pairwise distinct frames, or its ValueError |
| GridAssembly.MaskAll | applications/WindProfileRadar/data_helper/__init__.py:77-80 | the three calls succeed exactly when targets exist; then all three frames are masked in place, otherwise none changes |
| GridAssembly.CollectSeries | applications/WindProfileRadar/data_helper/__init__.py:57-66 | the gathered lists are the series of every time point in submission order |
| GridAssembly.ConcatFrames | applications/WindProfileRadar/data_helper/__init__.py:70-72 | three new distinct frames holding the origin grids |
| GridAssembly.AssembleSpec | applications/WindProfileRadar/data_helper/__init__.py:39-80 | corrected: only AssertionError, KeyError or ValueError; a success needs rows, and has the first time point's height list as rows and the HH:MM labels of the group keys as columns |
| GridAssembly.AssembleErrors | applications/WindProfileRadar/data_helper/__init__.py:39-80 | corrected: AssertionError without a response; KeyError without usable data; otherwise failure (ValueError) exactly when drawing and every first-time-point height is below 3000 m |
| GridAssembly.AssembleOfRows | applications/WindProfileRadar/data_helper/__init__.py:45-50 | corrected: the grids are over the chronological time points and the descending first height list |
| GridAssembly.AssembleAsWrittenRaises | applications/WindProfileRadar/data_helper/__init__.py:48 | as written, every payload with rows raises AttributeError in `remove_over_height_data` |
| GridAssembly.AssembleAsWrittenWithoutRows | applications/WindProfileRadar/data_helper/__init__.py:39-44 | as written and corrected agree, and fail, on every fetch result without rows |
| GridAssembly.AssembleShape | applications/WindProfileRadar/data_helper/__init__.py:68-72 | every grid has the height list as rows and the HH:MM labels as columns |
| GridAssembly.OriginNeverMasked | applications/WindProfileRadar/data_helper/__init__.py:74-86 | the origin speed grids are the same with or without drawing and hold the raw values |
| GridAssembly.DerivedSpeeds | applications/WindProfileRadar/data_helper/__init__.py:74-82 | kept layers: HWS ×1, VWS ×20, HWD raw; blanked layers: all three missing; VWD from the derived VWS |
| GridAssembly.BlankLayerDirection | applications/WindProfileRadar/data_helper/__init__.py:82 | a blanked layer gets vertical direction 180 |
| DataHelperV1.DataKey | applications/WindProfileRadar/data_helper1.py:96 | a 19-character key that parses back to its time point |
| DataHelperV1.Entries | applications/WindProfileRadar/data_helper1.py:84-97 | entry i is the key and the kept rows of time point i |
| DataHelperV1.WprDataSpec | applications/WindProfileRadar/data_helper1.py:70-99 | AssertionError without a response; KeyError exactly when the data is missing, None or empty; otherwise distinct keys, one per time point |
| DataHelperV1.GetWPRData | applications/WindProfileRadar/data_helper1.py:70-99 | the dict-filling loop returns exactly `WprDataSpec`: AssertionError without a response, KeyError without rows, else `Entries` of the group keys |
| DataHelperV1.NewDataKey | applications/WindProfileRadar/data_helper1.py:96-97 | each assignment of the loop adds a new key |
| DataHelperV1.WprDataProperties | applications/WindProfileRadar/data_helper1.py:84-97 | distinct chronological keys, one per time point of the rows, each frame sorted with at most its last row above 3000 m |
| DataHelperV1.YTicksOfWprData | applications/WindProfileRadar/data_helper1.py:101-111 | the y ticks of the dict are the descending first height list |
| DataHelperV1.TickColumn | applications/WindProfileRadar/data_helper1.py:139 | one lookup value per y tick |
| DataHelperV1.ColumnsOf | applications/WindProfileRadar/data_helper1.py:137-139 | one column per entry, in entry order |
| DataHelperV1.Pairs | applications/WindProfileRadar/data_helper1.py:140-141 | the (label, column) pairs, present exactly when every label parses |
| DataHelperV1.HeatGrid | applications/WindProfileRadar/data_helper1.py:143 | rows are the y ticks, columns the dict keys, cell (i, j) value i of column j |
| DataHelperV1.HeatMapSpec | applications/WindProfileRadar/data_helper1.py:129-144 | succeeds exactly when every key reads as a time, fails with ValueError otherwise, and a result is well shaped with the y ticks as rows |
| DataHelperV1.GetHeatMapData | applications/WindProfileRadar/data_helper1.py:129-144 | the loop-built frame is exactly `HeatMapSpec`: ValueError when a key does not parse, else the labelled columns over the y ticks |
| DataHelperV1.FillHeatColumns | applications/WindProfileRadar/data_helper1.py:136-142 | the loop raises ValueError exactly when some key does not parse, else fills the dict with every pair in order |
| DataHelperV1.KeyLabel | applications/WindProfileRadar/data_helper1.py:140-141 | the label of key k extends the labels of the earlier keys |
| DataHelperV1.HeatMapErrors | applications/WindProfileRadar/data_helper1.py:140 | the heat map fails exactly when a label is missing, with ValueError |
| DataHelperV1.HeatMapColumns | applications/WindProfileRadar/data_helper1.py:136-143 | rows are the y ticks; columns are distinct and are exactly the labels |
| DataHelperV1.HeatMapCells | applications/WindProfileRadar/data_helper1.py:140-141 | a label's column holds the values of its last key |
| DataHelperV1.HeatMapColumnsStay | applications/WindProfileRadar/data_helper1.py:141 | a column keeps its first position when a later key overwrites it |
| DataHelperV1.ColumnLabels | applications/WindProfileRadar/data_helper1.py:140-141 | a YmdHMS label is the key itself; two HM labels agree exactly when hour and minute agree |
| DataHelperV1.HeatMapFullLabels | applications/WindProfileRadar/data_helper1.py:129-144 | with YmdHMS labels and distinct valid keys, the columns are the keys |
| DataHelperV1.SpeRefs | applications/WindProfileRadar/data_helper1.py:162-163 | nLayer + 1 layers: the arange values below upperLayer, then upperLayer |
| DataHelperV1.SpeRefsDefault | applications/WindProfileRadar/data_helper1.py:162-163 | with the default arguments the layers are 0, 300, …, 3000 |
| DataHelperV1.IndexOf | applications/WindProfileRadar/data_helper1.py:168 | `list.index`: the first position of the height |
| DataHelperV1.IndexStep | applications/WindProfileRadar/data_helper1.py:166-177 | one iteration never drops a chosen position and keeps the last choice a height of the frame; its only error is NameError |
| DataHelperV1.HeightIndex | applications/WindProfileRadar/data_helper1.py:165-177 | the chosen positions are rows of the first frame; the only error is NameError |
| DataHelperV1.SpeLayerHeights | applications/WindProfileRadar/data_helper1.py:165-177 | the heights the layers settle on are heights of the first frame |
| DataHelperV1.HeightIndexSelects | applications/WindProfileRadar/data_helper1.py:165-177 | on success the chosen positions are exactly those of the settled heights |
| DataHelperV1.HeightIndexFails | applications/WindProfileRadar/data_helper1.py:169-175 | NameError exactly when a layer has no height at or above it while every earlier layer was in the list |
| DataHelperV1.PositionalMask | applications/WindProfileRadar/data_helper1.py:179-181 | the row loop keeps the row count and raises only IndexError or ValueError |
| DataHelperV1.PositionalMaskOutcome | applications/WindProfileRadar/data_helper1.py:179-181 | no error exactly when every unchosen position is a row and the value count fits; then exactly those rows are blank |
| DataHelperV1.SpeRowOutcome | applications/WindProfileRadar/data_helper1.py:154-181 | the row count never changes |
| DataHelperV1.RemainSpeRow | applications/WindProfileRadar/data_helper1.py:146-182 | the frame's rows become the outcome of remain_spe_row, the error is raised exactly when it has one, and index and columns stay |
| DataHelperV1.MaskPositions | applications/WindProfileRadar/data_helper1.py:179-181 | the in-place row loop leaves exactly the `PositionalMask` rows and error |
| DataHelperV1.PositionalMatchesHeights | applications/WindProfileRadar/data_helper1.py:179-181 | on a frame whose rows follow the first frame's distinct heights, blanking by position is blanking by height |
| DataHelperV1.SpeRowMirrors | applications/WindProfileRadar/plt_helper.py:297-306 | on the descending heat-map frame, row i is kept exactly when the mirrored ascending height was chosen |
| DataHelperV1.ExampleLayers | applications/WindProfileRadar/data_helper1.py:162-177 | heights 0, 3000 and 3500 with the defaults settle on 0 and 3000 |
| DataHelperV1.SpeRowBlanksChosenLayer | applications/WindProfileRadar/plt_helper.py:297-306 | as written, the 3500 m row keeps its value and the chosen 0 m row is blanked |
| DataHelperV1.SpeRowNameError | applications/WindProfileRadar/data_helper1.py:169-175 | as written, a first frame of only 0 m raises NameError |
| DataHelperV1.RemainSpeRowByHeight | applications/WindProfileRadar/data_helper1.py:146-182 | corrected: AssertionError and IndexError as before; otherwise every row whose height is not a settled height is blanked, wherever it stands |
| DataHelperV1.MaskRowsReverse | applications/WindProfileRadar/data_helper1.py:179-181 | blanking by height commutes with reversing the rows |
| DataHelperV1.SpeRowAgreesOnAscendingFrame | applications/WindProfileRadar/data_helper1.py:159-181 | on an ascending frame without NameError the as-written and corrected versions blank the same rows |
| DataHelperV1.SpeLayerExamples | applications/WindProfileRadar/data_helper1.py:146-182 | corrected, on both counterexamples: the 3500 m row is blanked, and a 0 m-only frame keeps 0 m |
| CacheStore.FirstIndex | applications/WindProfileRadar/database/crud.py:15 | `.first()`: the first matching row in table order, None exactly when none matches |
| CacheStore.Filter | applications/WindProfileRadar/database/crud.py:59-60 | `.all()`: exactly the matching rows |
| CacheStore.AddHeightKeepsWf | applications/WindProfileRadar/database/crud.py:13-22 | insert-if-absent keeps one profile per station and date and ids in insertion order |
| CacheStore.AddHeightThenQuery | applications/WindProfileRadar/database/crud.py:13-32 | the answer is the existing row or the new one; query then finds it; a repeat adds nothing |
| CacheStore.UpdateHeightKeepsWf | applications/WindProfileRadar/database/crud.py:34-43 | the update keeps the table invariants |
| CacheStore.UpdateHeightChangesFlagOnly | applications/WindProfileRadar/database/crud.py:34-43 | only `finish_cached` of the first row with the date and height list changes; None exactly when there is no such row |
| CacheStore.UpdateHeightOfStationStaysOnStation | applications/WindProfileRadar/database/crud.py:34-43 | corrected: other stations' rows are untouched and the station's row then carries the flag |
| CacheStore.UpdateHeightFlipsOtherStation | applications/WindProfileRadar/database/crud.py:36 | as written, an update from station B flips the flag of station A's row; the corrected update changes nothing |
| CacheStore.AddWindKeepsWf | applications/WindProfileRadar/database/crud.py:46-55 | insert-if-absent keeps one wind row per profile, time point and kinds |
| CacheStore.AddWindThenQuery | applications/WindProfileRadar/database/crud.py:46-63 | None with no change exactly on a duplicate; otherwise the new row is appended to what the query lists |
| CacheStore.QueryWindsExact | applications/WindProfileRadar/database/crud.py:57-63 | the query lists exactly the rows of the profile and kinds |
| CacheStore.AddCombinedKeepsWf | applications/WindProfileRadar/database/crud.py:65-76 | the insert keeps `hid` unique |
| CacheStore.AddCombinedCases | applications/WindProfileRadar/database/crud.py:65-83 | an existing row is returned; a row of the other kind makes the insert fail (None, session needs rollback); otherwise the new row is appended and found |
| CacheStore.AddCombinedFresh | applications/WindProfileRadar/database/crud.py:65-83 | for a height profile with no row yet, the insert appends the row with the next id, the query then finds it, and a repeated insert returns it and changes nothing |
| CacheStore.InactiveAnswersNone | applications/WindProfileRadar/database/crud.py:23-25 | a session needing a rollback answers None to everything and changes nothing |
| CacheStore.UpdateCombinedKeepsWf | applications/WindProfileRadar/database/crud.py:85-104 | the upsert keeps the table invariants |
| CacheStore.UpdateCombinedOverwrites | applications/WindProfileRadar/database/crud.py:85-104 | on an existing row only time_cols and the six matrices change and query finds them; otherwise it is the insert |
| CacheStore.Session.constructor | applications/WindProfileRadar/database/models.py:5-57 | a session starts on three empty tables |
| CacheStore.Session.AddHeightData | applications/WindProfileRadar/database/crud.py:13-25 | the new tables and answer are `AddHeight` of the old tables |
| CacheStore.Session.QueryHeightData | applications/WindProfileRadar/database/crud.py:26-32 | answers `QueryHeight` of the tables |
| CacheStore.Session.UpdateHeightData | applications/WindProfileRadar/database/crud.py:34-43 | the new tables and answer are `UpdateHeight` of the old tables |
| CacheStore.Session.UpdateStationHeightData | applications/WindProfileRadar/database/crud.py:34-43 | corrected update: the new tables and answer are `UpdateHeightOfStation` of the old tables |
| CacheStore.Session.AddWindData | applications/WindProfileRadar/database/crud.py:46-55 | the new tables and answer are `AddWind` of the old tables |
| CacheStore.Session.QueryWindDatas | applications/WindProfileRadar/database/crud.py:57-63 | answers `QueryWinds` of the tables |
| CacheStore.Session.AddWindDataCombined | applications/WindProfileRadar/database/crud.py:65-76 | the new tables and answer are `AddCombined` of the old tables |
| CacheStore.Session.QueryWindDataCombined | applications/WindProfileRadar/database/crud.py:78-83 | answers `QueryCombined` of the tables |
| CacheStore.Session.UpdateWindDataCombined | applications/WindProfileRadar/database/crud.py:85-104 | the new tables and answer are `UpdateCombined` of the old tables |

## Left out

- The HTTP fetch (`api.get_WPR_data`) is a parameter: no response, a dict without usable 'data', or a list of rows.
- Schemas.GetColsDict: returns a `map`; the insertion order of the dict comprehension (member order) is not kept, and nothing in the core iterates the dict.
- Schemas.GetNameLabelDict: returns a `map`; the insertion order of the dict comprehension (member order) is not kept, and nothing in the core iterates the dict.
- The process pool of `get_WPR_data_all` is a sequential loop in submission order; worker processes and pickling are not modelled.
- `calcUV`/`calUV` and the `U`/`V` fields of `WindFieldData` are not modelled: they need floating-point sine and cosine.
- `get_add_x` and the `add_x` property are not modelled: floating-point quadratic used only for plotting offsets.
- `get_pollutant_max` and the pollutant tables are not modelled: they belong to the pollutant charts, not the wind grids.
- Plotting (`plt_helper.py` and `plt_helper/`) is not modelled, beyond the way it calls the `data_helper1.py` helpers.
- Heights and wind values are exact reals, so float rounding is not modelled. `round_half_even` is modelled on the exact binary value of its argument.
- `sort_values` is modelled as a sort by height that gives a permutation. Which of several equal-height rows comes first is not fixed.
- pandas label lookup with duplicate heights (`.loc[idx]` returning several rows) is modelled as the first row of that height.
- `strptime` is modelled on zero-padded 'YYYY-MM-DD HH:MM:SS' input only. Its acceptance of unpadded fields is not modelled.
- `datetime` is modelled down to the second. Sub-second parts are never printed by the formats used.
- GridAssembly.GetWprDataAll: models `get_WPR_data_all` with `remove_over_height_data` corrected. As written, every payload with rows raises AttributeError at `data_helper/__init__.py:48` (see Findings, `GridAssembly.AssembleAsWrittenRaises`).
- GridAssembly.AssembleErrors: states the errors of the corrected `get_WPR_data_all`. As written, a payload with rows raises AttributeError instead of succeeding or raising ValueError.
- GridAssembly.AssembleOfRows: states the result of the corrected `get_WPR_data_all`. As written, no payload with rows gets this far.
- GridAssembly.GroupKeys: the rows' `timePoint` is a timestamp, so the group keys are sorted by time. pandas sorts the raw `timePoint` values. The two orders agree when the API delivers timestamps, or zero-padded 'YYYY-MM-DD HH:MM:SS' strings, which is what the model assumes.
- `database/crud.py:9` imports `js2str` from `utils/common.py`, which does not define it, so importing the module raises ImportError. The CRUD models assume the import resolves. `js2str` is never called.
- Common.GetAttr: `DictAttrNames` lists the attributes of `dict` in Python 3.11 and later. Other Python versions add or drop a few dunder names.
- Common.RoundHalfEven: the ValueError for `num <= -4300` follows the int-to-text digit limit of Python 3.11 and later; older versions build the quantum and go on to quantize.
- Common.GetTimeStr: timestamps are the whole years 1678-2261 that pandas can hold, where `%Y` always prints four digits. The partial years 1677 (from 21 September) and 2262 (to 11 April) are left out, and so is `OutOfBoundsDatetime` for times outside that span.
- Common.ParseYmdHMS: `datetime.strptime` also accepts years 1-1677 and 2262-9999. The model treats such keys as unparsable (ValueError). Keys the data layer produces come from pandas timestamps and never fall there.
- CacheStore.UpdateHeight: the lookup of `update_height_data` compares `height_list` as serialised JSON text, so `[0, 300]` and `[0.0, 300.0]` differ. The model compares the lists as numbers and assumes every list is always serialised the same way.
- CacheStore.UpdateHeightChangesFlagOnly: stated for the numeric comparison of `height_list`. A stored list spelled differently in JSON would not match, and the source would answer None.
- CacheStore.Session.UpdateHeightData: stated for the numeric comparison of `height_list`, under the same assumption as `CacheStore.UpdateHeight`.
- Common.RoundHalfEven: models quantize on the exact value and returns that value. The final `float(...)` rounding to the nearest double is not modelled. NaN and infinite arguments are not modelled either.
- `data_helper1.py` selects 14 columns of its own, larger `WPR_DataType`. The model keeps the five columns the helpers read.
- The `set_index(inplace=True)` of `get_WPR_data_all` is modelled by looking rows up by height. The frame it changes is not used afterwards.
- DB plumbing (`database.py`, `create_all`, `utils/database`) is not modelled. The session is an in-memory copy of the tables.
- The server-side `create_time`/`update_time` timestamps are not modelled.
- SQLite does not enforce the foreign keys by default, so they are not checked.
- NOT NULL constraints are taken as met by the inputs.
- `print_exc` output is not modelled. Only the `None` answer is.
- `get_heat_map_from_wdc` (the cache merge driver) is not part of this model, and neither are the scheduler, web, config and Excel modules.
- `zip_folder` and `get_random_str` are not modelled: filesystem and randomness.
- Frames.Frame.constructor: only states the grid a new frame holds. `Valid()` (rows of equal width) is a separate predicate that the frame-changing methods require and keep.
- GridAssembly.Series: its own contract states only the length. The value at each height is stated by `SeriesSound` and `GetWprDataByHeightIdx`.
- HeightProfile.TargetedHeights: its own contract states only the error kind. Its success condition and result are stated by `TargetsFailIffBelowTop` and `TargetsProperties`.
- DataHelperV1.SpeLayerHeights: its own contract states only that the heights come from the frame. Which ones they are is stated by `HeightIndexSelects` and `SpeLayerHeightsSnoc`.
- `remain_spe_row` reading an unset `yTickTemp` raises UnboundLocalError, a subclass of NameError; the model names it NameError.
- DataHelperV1.SpeRowOutcome: its own contract states only that the row count is kept. Its meaning is stated by `PositionalMaskOutcome`, `HeightIndexFails`, `HeightIndexSelects` and `SpeRowMirrors`.

## Findings

| source | as written | input that shows it | evidently intended | confidence | as-written member | corrected member |
|---|---|---|---|---|---|---|
| applications/WindProfileRadar/data_helper/utils.py:40 | the key format is read from `WPR_DataType.TIMEPOINT.value.key`, an attribute the annotation never gets | any call, e.g. the first time point of any fetch | the key in '%Y-%m-%d %H:%M:%S', as `data_helper1.py` uses | high (not executed) | HeightProfile.RemoveOverHeightDataAlwaysRaises | HeightProfile.RemoveOverHeightData |
| applications/WindProfileRadar/data_helper1.py:179-181 | rows are blanked by position in the first frame's ascending height order, while `plt_helper.py` passes a frame whose rows are descending | first frame heights 0, 3000, 3500 m, heat-map rows 3500, 3000, 0 m: the 3500 m row is kept and the chosen 0 m row blanked | blank the rows whose heights were not chosen, wherever they stand | high (not executed) | DataHelperV1.SpeRowBlanksChosenLayer | DataHelperV1.RemainSpeRowByHeight |
| applications/WindProfileRadar/data_helper1.py:169-175 | when no height lies above a layer the exception is swallowed and the unset `yTickTemp` is read | first frame of only 0 m with the default layers: at the 300 m layer `yTickTemp` was never set, so UnboundLocalError (a NameError) escapes | skip a layer that has no height at or above it | high (not executed) | DataHelperV1.SpeRowNameError | DataHelperV1.RemainSpeRowByHeight |
| applications/WindProfileRadar/database/crud.py:36 | the row is looked up by date and height list only, so another station's row can match | station A has a row for 2023-05-01 with heights [0, 300]; an update from station B with the same date and heights flips A's `finish_cached` | look up by station and date, as `add_height_data` and `query_height_data` do | medium (not executed) | CacheStore.UpdateHeightFlipsOtherStation | CacheStore.Session.UpdateStationHeightData |
| applications/WindProfileRadar/data_helper/__init__.py:48 | `get_WPR_data_all` calls `remove_over_height_data`, which raises AttributeError on the key lookup above | any fetch result whose 'data' holds rows | the rows of the first time point up to the first row above 3000 m | high (not executed) | GridAssembly.AssembleAsWrittenRaises | GridAssembly.GetWprDataAll |
