// Column and type tables of the wind-profile-radar data: the annotation
// record, the two enumerations built from it and the four table helpers.

module Schemas {
  import opened Wrappers
  import opened Common

  /** Attribute values an annotation can hold: text, a colour-bar range, or
      a time format. */
  datatype AttrValue = Text(s: string) | Limits(lo: int, hi: int) | Format(f: TimeStr)

  /** An annotation object, as its attribute dictionary. */
  datatype Annotation = Annotation(attrs: map<string, AttrValue>)

  const BaseKeys: set<string> := {"name", "col_name", "label"}

  /** The annotation constructor: the three base attributes, then one
      attribute per entry of `kwargs` when it is a dict (`None` stands for
      any argument that is not a dict), an entry overriding a base attribute
      of the same name. */
  function MakeAnnotation(name: string, colName: string, lbl: string,
                          kwargs: Option<map<string, AttrValue>>): (a: Annotation)
    ensures kwargs.None? ==> a.attrs.Keys == BaseKeys
    ensures kwargs.Some? ==> a.attrs.Keys == BaseKeys + kwargs.value.Keys
    ensures kwargs.Some? ==> forall k :: k in kwargs.value ==> a.attrs[k] == kwargs.value[k]
    ensures kwargs.None? || "name" !in kwargs.value ==> a.attrs["name"] == Text(name)
    ensures kwargs.None? || "col_name" !in kwargs.value ==> a.attrs["col_name"] == Text(colName)
    ensures kwargs.None? || "label" !in kwargs.value ==> a.attrs["label"] == Text(lbl)
  {
    var base := map["col_name" := Text(colName), "label" := Text(lbl), "name" := Text(name)];
    match kwargs
    case None => Annotation(base)
    case Some(kw) => Annotation(base + kw)
  }

  /** Attribute access: AttributeError for an attribute the object lacks. */
  function Attr(a: Annotation, key: string): (r: Result<AttrValue>)
    ensures r.Ok? <==> key in a.attrs
    ensures r.Ok? ==> r.value == a.attrs[key]
    ensures r.Err? ==> r.error == AttributeError
  {
    if key in a.attrs then Ok(a.attrs[key]) else Err(AttributeError)
  }

  /** The radar data series, in declaration order. */
  datatype WprDataType = TimePoint | Height | Hws | Hwd | Vws

  const Members: seq<WprDataType> := [TimePoint, Height, Hws, Hwd, Vws]

  /** The table of series: display name, raw column name, English label. */
  function NameOf(m: WprDataType): string {
    match m
    case TimePoint => "时间"
    case Height => "高度（米）"
    case Hws => "水平风速（米/秒）"
    case Hwd => "水平风向 (度)"
    case Vws => "垂直风速（米/秒）"
  }

  function ColNameOf(m: WprDataType): string {
    match m
    case TimePoint => "timePoint"
    case Height => "height"
    case Hws => "hws"
    case Hwd => "hwd"
    case Vws => "vws"
  }

  function LabelOf(m: WprDataType): string {
    match m
    case TimePoint => ""
    case Height => "Height (m)"
    case Hws => "HWS (m/s)"
    case Hwd => "HWD (°)"
    case Vws => "VWS (m/s)"
  }

  /** Each member's annotation: built without keyword arguments, so it holds
      exactly its name, column name and label. */
  function AnnotationOf(m: WprDataType): (a: Annotation)
    ensures a.attrs.Keys == BaseKeys
    ensures a.attrs["name"] == Text(NameOf(m))
    ensures a.attrs["col_name"] == Text(ColNameOf(m))
    ensures a.attrs["label"] == Text(LabelOf(m))
  {
    MakeAnnotation(NameOf(m), ColNameOf(m), LabelOf(m), None)
  }

  /** Every series appears once in the member list. */
  lemma MembersComplete(m: WprDataType)
    ensures m in Members
    ensures forall i, j :: 0 <= i < j < |Members| ==> Members[i] != Members[j]
  {
  }

  /** The display names are distinct, so a dict keyed by them loses nothing. */
  lemma NamesDistinct(m: WprDataType, n: WprDataType)
    ensures NameOf(m) == NameOf(n) <==> m == n
  {
    if m != n {
      var a, b := NameOf(m), NameOf(n);
      assert a[0] != b[0] || |a| != |b|;
    }
  }

  lemma AllNamesDistinct()
    ensures forall m, n :: NameOf(m) == NameOf(n) ==> m == n
  {
    forall m, n ensures NameOf(m) == NameOf(n) ==> m == n {
      NamesDistinct(m, n);
    }
  }

  /** get_cols_dict: display name to raw column name (the opposite of what
      its docstring announces). */
  function GetColsDict(): (d: map<string, string>)
    ensures forall m :: NameOf(m) in d && d[NameOf(m)] == ColNameOf(m)
    ensures forall k :: k in d ==> exists m :: NameOf(m) == k
    ensures |d| == |Members|
  {
    AllNamesDistinct();
    var d := map m | m in Members :: NameOf(m) := ColNameOf(m);
    DictSize(d.Keys);
    d
  }

  /** get_name_label_dict: display name to English label. */
  function GetNameLabelDict(): (d: map<string, string>)
    ensures forall m :: NameOf(m) in d && d[NameOf(m)] == LabelOf(m)
    ensures forall k :: k in d ==> exists m :: NameOf(m) == k
    ensures |d| == |Members|
  {
    AllNamesDistinct();
    var d := map m | m in Members :: NameOf(m) := LabelOf(m);
    DictSize(d.Keys);
    d
  }

  lemma DictSize(names: set<string>)
    requires names == set m | m in Members :: NameOf(m)
    ensures |names| == |Members|
  {
    var t, h, s, w, v := NameOf(TimePoint), NameOf(Height), NameOf(Hws), NameOf(Hwd), NameOf(Vws);
    assert names == {t, h, s, w, v};
    assert t[0] != h[0] && t[0] != s[0] && t[0] != w[0] && t[0] != v[0];
    assert h[0] != s[0] && h[0] != w[0] && h[0] != v[0];
    assert |s| != |w| && s[0] != v[0] && w[0] != v[0];
  }

  /** get_require_cols: the raw column names, in declaration order. */
  function GetRequireCols(): (cols: seq<string>)
    ensures |cols| == |Members|
    ensures forall i :: 0 <= i < |cols| ==> cols[i] == ColNameOf(Members[i])
    ensures cols == ["timePoint", "height", "hws", "hwd", "vws"]
  {
    seq(|Members|, i requires 0 <= i < |Members| => ColNameOf(Members[i]))
  }

  /** get_name_list: the display names, in declaration order. */
  function GetNameList(): (names: seq<string>)
    ensures |names| == |Members|
    ensures forall i :: 0 <= i < |names| ==> names[i] == NameOf(Members[i])
    ensures forall i, j :: 0 <= i < j < |names| ==> names[i] != names[j]
  {
    var names := seq(|Members|, i requires 0 <= i < |Members| => NameOf(Members[i]));
    forall i, j | 0 <= i < j < |names| ensures names[i] != names[j] {
      NamesDistinct(Members[i], Members[j]);
    }
    names
  }

  /** None of the series annotations has a `key` attribute: they are built
      without keyword arguments. */
  lemma NoKeyAttribute(m: WprDataType)
    ensures Attr(AnnotationOf(m), "key") == Err(AttributeError)
  {
  }

  /** The two wind-field series shown as heat maps, each the annotation of
      its radar series plus a colour-bar range and a colour map. */
  datatype WindFieldDataType = FieldHws | FieldVws

  function SeriesOf(f: WindFieldDataType): WprDataType {
    match f
    case FieldHws => Hws
    case FieldVws => Vws
  }

  function CbarLimitOf(f: WindFieldDataType): AttrValue {
    match f
    case FieldHws => Limits(0, 10)
    case FieldVws => Limits(-1, 1)
  }

  function CmapOf(f: WindFieldDataType): AttrValue {
    match f
    case FieldHws => Text("jet")
    case FieldVws => Text("seismic")
  }

  function WindFieldAnnotationOf(f: WindFieldDataType): (a: Annotation)
    ensures a.attrs.Keys == BaseKeys + {"cbar_limit", "cmap"}
    ensures a.attrs["cbar_limit"] == CbarLimitOf(f) && a.attrs["cmap"] == CmapOf(f)
    ensures a.attrs["name"] == Text(NameOf(SeriesOf(f)))
    ensures a.attrs["col_name"] == Text(ColNameOf(SeriesOf(f)))
    ensures a.attrs["label"] == Text(LabelOf(SeriesOf(f)))
  {
    var m := SeriesOf(f);
    var kw := map["cbar_limit" := CbarLimitOf(f), "cmap" := CmapOf(f)];
    assert "cbar_limit" in kw && "cmap" in kw;
    assert "name" !in kw && "col_name" !in kw && "label" !in kw;
    MakeAnnotation(NameOf(m), ColNameOf(m), LabelOf(m), Some(kw))
  }

  /** The colour-bar ranges and colour maps of the two wind fields. */
  lemma WindFieldStyles()
    ensures Attr(WindFieldAnnotationOf(FieldHws), "cbar_limit") == Ok(Limits(0, 10))
    ensures Attr(WindFieldAnnotationOf(FieldHws), "cmap") == Ok(Text("jet"))
    ensures Attr(WindFieldAnnotationOf(FieldVws), "cbar_limit") == Ok(Limits(-1, 1))
    ensures Attr(WindFieldAnnotationOf(FieldVws), "cmap") == Ok(Text("seismic"))
  {
  }
}
