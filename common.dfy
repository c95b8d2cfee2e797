/** Helpers of utils/common.py: the attribute-style dictionary and its
    recursive conversion, the fixed time-label formats, and decimal rounding
    with ties to even. */
module Common {
  import opened Wrappers
  import opened Dicts

  // ---------------------------------------------------------------------
  // Dict and dict_to_object
  // ---------------------------------------------------------------------

  /** A hashable dict key: a string, or any other hashable value (a number,
      a tuple, ...) told apart by its repr. Only string keys can be read as
      attributes. */
  datatype Key = StrKey(s: string) | OtherKey(repr: string)

  /** The Python values dict_to_object can meet. `AttrDict` is the `Dict`
      subclass (a dict whose attributes are its items); any other value
      that is not a dict is an `Atom` or a `List`. A dict is its items in
      insertion order. */
  datatype PyObject =
    | Atom(text: string)
    | List(items: seq<PyObject>)
    | PlainDict(entries: Dict<Key, PyObject>)
    | AttrDict(entries: Dict<Key, PyObject>)

  /** `isinstance(o, dict)`: true for `Dict` too, since it subclasses dict. */
  predicate IsDict(o: PyObject) {
    o.PlainDict? || o.AttrDict?
  }

  /** A value Python can build: every dict in it, at any depth, holds each
      key once. */
  ghost predicate WellFormed(o: PyObject) {
    match o
    case Atom(_) => true
    case List(xs) => forall i :: 0 <= i < |xs| ==> WellFormed(xs[i])
    case PlainDict(e) => DistinctKeys(e) && forall i :: 0 <= i < |e| ==> WellFormed(e[i].1)
    case AttrDict(e) => DistinctKeys(e) && forall i :: 0 <= i < |e| ==> WellFormed(e[i].1)
  }

  /** What dict_to_object returns: a dict becomes a fresh `Dict` into which
      its items are assigned in iteration order, each value converted
      recursively; everything else, lists included, is returned as it is. */
  function Converted(o: PyObject): (r: PyObject)
    ensures !IsDict(o) ==> r == o
    ensures IsDict(o) ==> r.AttrDict?
  {
    match o
    case PlainDict(e) => AttrDict(PutAll([], seq(|e|, i requires 0 <= i < |e| => (e[i].0, Converted(e[i].1)))))
    case AttrDict(e) => AttrDict(PutAll([], seq(|e|, i requires 0 <= i < |e| => (e[i].0, Converted(e[i].1)))))
    case _ => o
  }

  /** The items assigned by dict_to_object, in order. */
  function ConvertedItems(e: Dict<Key, PyObject>): (c: Dict<Key, PyObject>)
    ensures |c| == |e|
    ensures forall i :: 0 <= i < |e| ==> c[i] == (e[i].0, Converted(e[i].1))
  {
    seq(|e|, i requires 0 <= i < |e| => (e[i].0, Converted(e[i].1)))
  }

  lemma ConvertedEntries(o: PyObject)
    requires IsDict(o)
    ensures Converted(o) == AttrDict(PutAll([], ConvertedItems(o.entries)))
  {
    var e := o.entries;
    assert ConvertedItems(e) == seq(|e|, i requires 0 <= i < |e| => (e[i].0, Converted(e[i].1)));
  }

  lemma ItemsKeys(e: Dict<Key, PyObject>)
    ensures Keys(ConvertedItems(e)) == Keys(e)
  {
  }

  lemma ItemsDistinct(e: Dict<Key, PyObject>)
    requires DistinctKeys(e)
    ensures DistinctKeys(ConvertedItems(e))
  {
    var c := ConvertedItems(e);
    forall i, j | 0 <= i < j < |c| ensures c[i].0 != c[j].0 {
      assert c[i].0 == e[i].0 && c[j].0 == e[j].0;
    }
  }

  /** A dict whose keys are distinct is rebuilt item by item, in order:
      the same keys in the same places, each with its converted value. */
  lemma ConvertedKeepsOrder(o: PyObject)
    requires IsDict(o) && DistinctKeys(o.entries)
    ensures Converted(o).entries == ConvertedItems(o.entries)
    ensures Keys(Converted(o).entries) == Keys(o.entries)
  {
    ConvertedEntries(o);
    ItemsDistinct(o.entries);
    PutAllFromEmpty(ConvertedItems(o.entries));
    ItemsKeys(o.entries);
  }

  /** dict_to_object: a fresh `Dict` filled item by item, each value
      converted recursively. */
  method DictToObject(o: PyObject) returns (r: PyObject)
    ensures r == Converted(o)
    decreases o
  {
    if !IsDict(o) {
      return o;
    }
    var e := o.entries;
    var inst: Dict<Key, PyObject> := [];
    var i := 0;
    while i < |e|
      invariant 0 <= i <= |e|
      invariant inst == PutAll([], ConvertedItems(e)[..i])
    {
      assert e[i] in e;
      var v := DictToObject(e[i].1);
      FillOne(e, i, inst, v);
      inst := Put(inst, e[i].0, v);
      i := i + 1;
    }
    FillDone(o, inst);
    r := AttrDict(inst);
  }

  /** One step of dict_to_object's loop: `inst[k] = dict_to_object(v)`. */
  lemma FillOne(e: Dict<Key, PyObject>, i: nat, inst: Dict<Key, PyObject>, v: PyObject)
    requires i < |e| && inst == PutAll([], ConvertedItems(e)[..i]) && v == Converted(e[i].1)
    ensures Put(inst, e[i].0, v) == PutAll([], ConvertedItems(e)[..i + 1])
  {
    var items := ConvertedItems(e);
    assert items[i] == (e[i].0, v);
    PutAllPrefix([], items, i);
  }

  /** After the last item, the filled dict is the converted one. */
  lemma FillDone(o: PyObject, inst: Dict<Key, PyObject>)
    requires IsDict(o) && inst == PutAll([], ConvertedItems(o.entries)[..|o.entries|])
    ensures AttrDict(inst) == Converted(o)
  {
    var items := ConvertedItems(o.entries);
    assert items[..|o.entries|] == items;
    ConvertedEntries(o);
  }

  /** The same value with every `Dict` read back as a plain dict, inside
      lists as well. */
  function Erased(o: PyObject): PyObject {
    match o
    case Atom(_) => o
    case List(xs) => List(seq(|xs|, i requires 0 <= i < |xs| => Erased(xs[i])))
    case PlainDict(e) => PlainDict(seq(|e|, i requires 0 <= i < |e| => (e[i].0, Erased(e[i].1))))
    case AttrDict(e) => PlainDict(seq(|e|, i requires 0 <= i < |e| => (e[i].0, Erased(e[i].1))))
  }

  /** Converting only changes the class of the dicts: no key, value or list
      element is added, dropped, altered or moved. */
  lemma {:induction false} ConvertedKeepsContent(o: PyObject)
    requires WellFormed(o)
    ensures Erased(Converted(o)) == Erased(o)
  {
    if IsDict(o) {
      var e := o.entries;
      var c := ConvertedItems(e);
      ConvertedKeepsOrder(o);
      forall i | 0 <= i < |e| ensures Erased(Converted(e[i].1)) == Erased(e[i].1) {
        assert e[i] in e;
        ConvertedKeepsContent(e[i].1);
      }
      ErasedDicts(e, c);
    }
  }

  /** Two dicts whose items pair up with the same keys and erased values
      erase alike. */
  lemma ErasedDicts(e: Dict<Key, PyObject>, c: Dict<Key, PyObject>)
    requires c == ConvertedItems(e)
    requires forall i :: 0 <= i < |e| ==> Erased(Converted(e[i].1)) == Erased(e[i].1)
    ensures Erased(AttrDict(c)) == Erased(PlainDict(e))
  {
    var l := Erased(AttrDict(c)).entries;
    var r := Erased(PlainDict(e)).entries;
    forall i | 0 <= i < |e| ensures l[i] == r[i] {
      assert c[i] == (e[i].0, Converted(e[i].1));
    }
  }

  /** Converting twice is converting once (a `Dict` is a dict, so it is
      rebuilt with the same items). */
  lemma {:induction false} ConvertedIdempotent(o: PyObject)
    ensures Converted(Converted(o)) == Converted(o)
    decreases o, 1
  {
    if IsDict(o) {
      var d := Converted(o).entries;
      forall i | 0 <= i < |d| ensures Converted(d[i].1) == d[i].1 {
        FromItems(o, i);
      }
      ItemsFixed(d);
      ConvertedKeepsOrder(Converted(o));
    }
  }

  /** Every item of the rebuilt dict is a converted item of the original,
      so converting its value again changes nothing. */
  lemma {:induction false} FromItems(o: PyObject, i: nat)
    requires IsDict(o) && i < |Converted(o).entries|
    ensures Converted(Converted(o).entries[i].1) == Converted(o).entries[i].1
    decreases o, 0
  {
    var e := o.entries;
    var d := Converted(o).entries;
    var items := ConvertedItems(e);
    ConvertedEntries(o);
    assert d[i] in d;
    assert d[i] in items;
    var j :| 0 <= j < |items| && items[j] == d[i];
    assert e[j] in e;
    ConvertedIdempotent(e[j].1);
  }

  lemma ItemsFixed(d: Dict<Key, PyObject>)
    requires forall i :: 0 <= i < |d| ==> Converted(d[i].1) == d[i].1
    ensures ConvertedItems(d) == d
  {
    var c := ConvertedItems(d);
    forall i | 0 <= i < |d| ensures c[i] == d[i] {
    }
  }

  /** The names ordinary attribute lookup finds on a `Dict` before
      `__getattr__` is consulted: the methods and class attributes of
      `dict` (Python 3.11 and later) and those of the subclass itself. */
  const DictAttrNames: set<string> := {
    "clear", "copy", "fromkeys", "get", "items", "keys", "pop", "popitem",
    "setdefault", "update", "values",
    "__class__", "__class_getitem__", "__contains__", "__delattr__", "__delitem__",
    "__dir__", "__doc__", "__eq__", "__format__", "__ge__", "__getattribute__",
    "__getitem__", "__getstate__", "__gt__", "__hash__", "__init__", "__init_subclass__",
    "__ior__", "__iter__", "__le__", "__len__", "__lt__", "__ne__", "__new__", "__or__",
    "__reduce__", "__reduce_ex__", "__repr__", "__reversed__", "__ror__", "__setattr__",
    "__setitem__", "__sizeof__", "__str__", "__subclasshook__",
    "__dict__", "__module__", "__weakref__", "__getattr__"}

  /** What `o.name` reads: an item of the dict, or a member of its class. */
  datatype Attribute = Item(value: PyObject) | ClassMember(name: string)

  /** `Dict.__getattr__` is `dict.__getitem__`, consulted only when ordinary
      lookup fails: a name of `DictAttrNames` reads the class member, any
      other name the item, and a missing item raises KeyError, not
      AttributeError. */
  function GetAttr(d: Dict<Key, PyObject>, name: string): (r: Result<Attribute>)
    ensures name in DictAttrNames ==> r == Ok(ClassMember(name))
    ensures name !in DictAttrNames ==> (r.Ok? <==> StrKey(name) in Keys(d))
    ensures name !in DictAttrNames && r.Ok? ==> r == Ok(Item(Get(d, StrKey(name)).value))
    ensures r.Err? ==> r.error == KeyError
  {
    if name in DictAttrNames then Ok(ClassMember(name))
    else match Get(d, StrKey(name))
      case Ok(v) => Ok(Item(v))
      case Err(e) => Err(e)
  }

  /** `Dict.__setattr__` is `dict.__setitem__`, for every name: the item is
      always stored, but a name of `DictAttrNames` still reads the class
      member afterwards. */
  function SetAttr(d: Dict<Key, PyObject>, name: string, v: PyObject): (r: Dict<Key, PyObject>)
    ensures Get(r, StrKey(name)) == Ok(v)
    ensures name !in DictAttrNames ==> GetAttr(r, name) == Ok(Item(v))
    ensures name in DictAttrNames ==> GetAttr(r, name) == GetAttr(d, name)
    ensures forall other :: other != name ==> GetAttr(r, other) == GetAttr(d, other)
    ensures forall k :: k != StrKey(name) ==> Get(r, k) == Get(d, k)
  {
    Put(d, StrKey(name), v)
  }

  // ---------------------------------------------------------------------
  // Time labels (TimeStr and get_time_str)
  // ---------------------------------------------------------------------

  /** A `datetime` down to the second (sub-second parts are never printed by
      the formats below). */
  datatype DateTime = DateTime(year: int, month: int, day: int, hour: int, minute: int, second: int)

  predicate IsLeap(y: int) {
    y % 4 == 0 && (y % 100 != 0 || y % 400 == 0)
  }

  function DaysInMonth(y: int, m: int): int {
    if m == 2 then (if IsLeap(y) then 29 else 28)
    else if m == 4 || m == 6 || m == 9 || m == 11 then 30
    else 31
  }

  /** A time pandas can hold: every time point passes through
      `pd.to_datetime`, whose nanosecond timestamps span 1677-09-21 to
      2262-04-11; the model keeps the whole years inside that span. */
  predicate ValidDateTime(t: DateTime) {
    && 1678 <= t.year <= 2261
    && 1 <= t.month <= 12
    && 1 <= t.day <= DaysInMonth(t.year, t.month)
    && 0 <= t.hour < 24
    && 0 <= t.minute < 60
    && 0 <= t.second < 60
  }

  type Timestamp = t: DateTime | ValidDateTime(t) witness DateTime(1970, 1, 1, 0, 0, 0)

  /** Seconds-like rank of a timestamp; a larger rank is a later time. */
  function Ordinal(t: Timestamp): int {
    t.second + 60 * (t.minute + 60 * (t.hour + 24 * (t.day + 32 * (t.month + 13 * t.year))))
  }

  /** Different timestamps have different ranks, so ranks order them totally. */
  lemma OrdinalInjective(a: Timestamp, b: Timestamp)
    requires Ordinal(a) == Ordinal(b)
    ensures a == b
  {
    var ya := a.minute + 60 * (a.hour + 24 * (a.day + 32 * (a.month + 13 * a.year)));
    var yb := b.minute + 60 * (b.hour + 24 * (b.day + 32 * (b.month + 13 * b.year)));
    DigitSplit(a.second, b.second, ya, yb, 60);
    var za := a.hour + 24 * (a.day + 32 * (a.month + 13 * a.year));
    var zb := b.hour + 24 * (b.day + 32 * (b.month + 13 * b.year));
    DigitSplit(a.minute, b.minute, za, zb, 60);
    var wa := a.day + 32 * (a.month + 13 * a.year);
    var wb := b.day + 32 * (b.month + 13 * b.year);
    DigitSplit(a.hour, b.hour, wa, wb, 24);
    DigitSplit(a.day, b.day, a.month + 13 * a.year, b.month + 13 * b.year, 32);
    DigitSplit(a.month, b.month, a.year, b.year, 13);
  }

  /** One digit of a mixed-radix number and the rest are determined by it. */
  lemma DigitSplit(d1: int, d2: int, x1: int, x2: int, base: int)
    requires base == 60 || base == 24 || base == 32 || base == 13
    requires 0 <= d1 < base && 0 <= d2 < base
    requires d1 + base * x1 == d2 + base * x2
    ensures d1 == d2 && x1 == x2
  {
    if base == 60 {
      assert d1 + 60 * x1 == d2 + 60 * x2;
    } else if base == 24 {
      assert d1 + 24 * x1 == d2 + 24 * x2;
    } else if base == 32 {
      assert d1 + 32 * x1 == d2 + 32 * x2;
    } else {
      assert d1 + 13 * x1 == d2 + 13 * x2;
    }
  }

  /** The formats of the TimeStr enumeration. */
  datatype TimeStr =
    | Ymd        // "%Y-%m-%d"
    | YmdCN      // "%Y年%m月%d日"
    | Md         // "%m-%d"
    | MdCN       // "%m月%d日"
    | YmdH00     // "%Y-%m-%d %H:00:00"
    | YmdHMS     // "%Y-%m-%d %H:%M:%S"
    | YmdHMSNa   // "%Y%m%d%H%M%S"
    | YmdHMSCN   // "%Y年%m月%d日 %H时%M分%S秒"
    | HM         // "%H:%M"

  predicate IsDigit(c: char) {
    '0' <= c <= '9'
  }

  function DigitChar(d: int): (c: char)
    requires 0 <= d < 10
    ensures IsDigit(c)
  {
    (d + 48) as char
  }

  function DigitValue(c: char): int
    requires IsDigit(c)
  {
    c as int - 48
  }

  /** Two zero-padded decimal digits (`%m`, `%d`, `%H`, `%M`, `%S`). */
  function Pad2(n: int): (s: string)
    requires 0 <= n < 100
    ensures |s| == 2 && IsDigit(s[0]) && IsDigit(s[1])
  {
    [DigitChar(n / 10), DigitChar(n % 10)]
  }

  /** Four zero-padded decimal digits (`%Y`). */
  function Pad4(n: int): (s: string)
    requires 0 <= n < 10000
    ensures |s| == 4 && forall i :: 0 <= i < 4 ==> IsDigit(s[i])
  {
    Pad2(n / 100) + Pad2(n % 100)
  }

  function Parse2(s: string): int
    requires |s| == 2 && IsDigit(s[0]) && IsDigit(s[1])
  {
    DigitValue(s[0]) * 10 + DigitValue(s[1])
  }

  function Parse4(s: string): int
    requires |s| == 4 && forall i :: 0 <= i < 4 ==> IsDigit(s[i])
  {
    Parse2(s[..2]) * 100 + Parse2(s[2..])
  }

  lemma Parse2Pad2(n: int)
    requires 0 <= n < 100
    ensures Parse2(Pad2(n)) == n
  {
  }

  lemma Pad2Parse2(s: string)
    requires |s| == 2 && IsDigit(s[0]) && IsDigit(s[1])
    ensures 0 <= Parse2(s) < 100 && Pad2(Parse2(s)) == s
  {
  }

  lemma Parse4Pad4(n: int)
    requires 0 <= n < 10000
    ensures Parse4(Pad4(n)) == n
  {
    var s := Pad4(n);
    assert s[..2] == Pad2(n / 100) && s[2..] == Pad2(n % 100);
    Parse2Pad2(n / 100);
    Parse2Pad2(n % 100);
  }

  lemma Pad4Parse4(s: string)
    requires |s| == 4 && forall i :: 0 <= i < 4 ==> IsDigit(s[i])
    ensures 0 <= Parse4(s) < 10000 && Pad4(Parse4(s)) == s
  {
    var hi, lo := s[..2], s[2..];
    Pad2Parse2(hi);
    Pad2Parse2(lo);
    var n := Parse4(s);
    assert n / 100 == Parse2(hi) && n % 100 == Parse2(lo);
    assert s == hi + lo;
  }

  /** get_time_str: `time_.strftime(type_.value)`. */
  function GetTimeStr(t: Timestamp, f: TimeStr): (r: string)
    ensures f == HM ==> |r| == 5 && r[2] == ':'
    ensures f == YmdHMSNa ==> |r| == 14 && forall i :: 0 <= i < 14 ==> IsDigit(r[i])
    ensures f == YmdHMS ==> |r| == 19
  {
    var y, mo, d := Pad4(t.year), Pad2(t.month), Pad2(t.day);
    var h, mi, s := Pad2(t.hour), Pad2(t.minute), Pad2(t.second);
    match f
    case Ymd => y + "-" + mo + "-" + d
    case YmdCN => y + "年" + mo + "月" + d + "日"
    case Md => mo + "-" + d
    case MdCN => mo + "月" + d + "日"
    case YmdH00 => y + "-" + mo + "-" + d + " " + h + ":00:00"
    case YmdHMS => y + "-" + mo + "-" + d + " " + h + ":" + mi + ":" + s
    case YmdHMSNa => y + mo + d + h + mi + s
    case YmdHMSCN => y + "年" + mo + "月" + d + "日 " + h + "时" + mi + "分" + s + "秒"
    case HM => h + ":" + mi
  }

  /** Two timestamps get the same HH:MM label exactly when they fall in the
      same minute of the day. */
  lemma HMLabelSameMinute(a: Timestamp, b: Timestamp)
    ensures GetTimeStr(a, HM) == GetTimeStr(b, HM) <==> a.hour == b.hour && a.minute == b.minute
  {
    var la, lb := GetTimeStr(a, HM), GetTimeStr(b, HM);
    if la == lb {
      assert la[..2] == Pad2(a.hour) && lb[..2] == Pad2(b.hour);
      assert la[3..] == Pad2(a.minute) && lb[3..] == Pad2(b.minute);
      Parse2Pad2(a.hour);
      Parse2Pad2(b.hour);
      Parse2Pad2(a.minute);
      Parse2Pad2(b.minute);
    }
  }

  /** The YmdH00 label is the full YmdHMS label of the same hour's start. */
  lemma HourLabelIsHourStart(t: Timestamp)
    ensures GetTimeStr(t, YmdH00) == GetTimeStr(t.(minute := 0, second := 0), YmdHMS)
    ensures GetTimeStr(t, YmdH00)[13..] == ":00:00"
  {
    assert Pad2(0) == "00";
  }

  /** `datetime.strptime(s, "%Y-%m-%d %H:%M:%S")` on zero-padded input:
      None stands for the ValueError raised on any other string or on a
      date that does not exist. */
  function ParseYmdHMS(s: string): (r: Option<Timestamp>)
    ensures r.Some? ==> GetTimeStr(r.value, YmdHMS) == s
  {
    if |s| == 19 && s[4] == '-' && s[7] == '-' && s[10] == ' ' && s[13] == ':' && s[16] == ':'
       && (forall i :: 0 <= i < 4 ==> IsDigit(s[i]))
       && IsDigit(s[5]) && IsDigit(s[6]) && IsDigit(s[8]) && IsDigit(s[9])
       && IsDigit(s[11]) && IsDigit(s[12]) && IsDigit(s[14]) && IsDigit(s[15])
       && IsDigit(s[17]) && IsDigit(s[18])
    then
      var t := DateTime(Parse4(s[..4]), Parse2(s[5..7]), Parse2(s[8..10]),
                        Parse2(s[11..13]), Parse2(s[14..16]), Parse2(s[17..19]));
      if ValidDateTime(t) then
        LabelOfFields(s);
        Some(t)
      else None
    else None
  }

  /** A string of the accepted shape is the label of the fields read from
      it. */
  lemma LabelOfFields(s: string)
    requires |s| == 19 && s[4] == '-' && s[7] == '-' && s[10] == ' ' && s[13] == ':' && s[16] == ':'
    requires forall i :: 0 <= i < 4 ==> IsDigit(s[i])
    requires IsDigit(s[5]) && IsDigit(s[6]) && IsDigit(s[8]) && IsDigit(s[9])
    requires IsDigit(s[11]) && IsDigit(s[12]) && IsDigit(s[14]) && IsDigit(s[15])
    requires IsDigit(s[17]) && IsDigit(s[18])
    requires ValidDateTime(DateTime(Parse4(s[..4]), Parse2(s[5..7]), Parse2(s[8..10]),
                                    Parse2(s[11..13]), Parse2(s[14..16]), Parse2(s[17..19])))
    ensures GetTimeStr(DateTime(Parse4(s[..4]), Parse2(s[5..7]), Parse2(s[8..10]),
                                Parse2(s[11..13]), Parse2(s[14..16]), Parse2(s[17..19])), YmdHMS) == s
  {
    Pad4Parse4(s[..4]);
    Pad2Parse2(s[5..7]);
    Pad2Parse2(s[8..10]);
    Pad2Parse2(s[11..13]);
    Pad2Parse2(s[14..16]);
    Pad2Parse2(s[17..19]);
    assert s == s[..4] + [s[4]] + s[5..7] + [s[7]] + s[8..10] + [s[10]] + s[11..13] + [s[13]]
                + s[14..16] + [s[16]] + s[17..19];
  }

  /** Reading back a YmdHMS label gives the timestamp it was made from. */
  lemma ParseYmdHMSOfLabel(t: Timestamp)
    ensures ParseYmdHMS(GetTimeStr(t, YmdHMS)) == Some(t)
  {
    var s := GetTimeStr(t, YmdHMS);
    assert s[..4] == Pad4(t.year);
    assert s[5..7] == Pad2(t.month) && s[8..10] == Pad2(t.day);
    assert s[11..13] == Pad2(t.hour) && s[14..16] == Pad2(t.minute) && s[17..19] == Pad2(t.second);
    Parse4Pad4(t.year);
    Parse2Pad2(t.month);
    Parse2Pad2(t.day);
    Parse2Pad2(t.hour);
    Parse2Pad2(t.minute);
    Parse2Pad2(t.second);
  }

  /** Distinct timestamps never share a YmdHMS label. */
  lemma YmdHMSLabelInjective(a: Timestamp, b: Timestamp)
    requires GetTimeStr(a, YmdHMS) == GetTimeStr(b, YmdHMS)
    ensures a == b
  {
    ParseYmdHMSOfLabel(a);
    ParseYmdHMSOfLabel(b);
  }

  /** The separator-free label is the YmdHMS label with its five
      separators taken out, and putting them back gives the YmdHMS label. */
  lemma NaLabelIsYmdHMSWithoutSeparators(t: Timestamp)
    ensures var l := GetTimeStr(t, YmdHMS);
      GetTimeStr(t, YmdHMSNa) == l[..4] + l[5..7] + l[8..10] + l[11..13] + l[14..16] + l[17..19]
    ensures var n := GetTimeStr(t, YmdHMSNa);
      GetTimeStr(t, YmdHMS) == n[..4] + "-" + n[4..6] + "-" + n[6..8] + " " + n[8..10] + ":" + n[10..12] + ":" + n[12..]
  {
    var l, n := GetTimeStr(t, YmdHMS), GetTimeStr(t, YmdHMSNa);
    var y, mo, d := Pad4(t.year), Pad2(t.month), Pad2(t.day);
    var h, mi, s := Pad2(t.hour), Pad2(t.minute), Pad2(t.second);
    assert l[..4] == y && l[5..7] == mo && l[8..10] == d;
    assert l[11..13] == h && l[14..16] == mi && l[17..19] == s;
    assert n[..4] == y && n[4..6] == mo && n[6..8] == d;
    assert n[8..10] == h && n[10..12] == mi && n[12..] == s;
  }

  /** Distinct timestamps never share a separator-free label. */
  lemma YmdHMSNaLabelInjective(a: Timestamp, b: Timestamp)
    requires GetTimeStr(a, YmdHMSNa) == GetTimeStr(b, YmdHMSNa)
    ensures a == b
  {
    NaLabelIsYmdHMSWithoutSeparators(a);
    NaLabelIsYmdHMSWithoutSeparators(b);
    YmdHMSLabelInjective(a, b);
  }

  // ---------------------------------------------------------------------
  // round_half_even
  // ---------------------------------------------------------------------

  function Pow10(k: nat): (p: nat)
    ensures p >= 1
  {
    if k == 0 then 1 else 10 * Pow10(k - 1)
  }

  /** The exponent of `Decimal(f'{10**(-num)}')`. For `num <= 0` the quantum
      is the integer 10**(-num), written '1', '10', '100', ..., all of
      exponent 0. For a positive `num` it is the float 10.0**-num, written
      '0.1', '0.01', ..., '1e-05', ..., '1e-323', of exponent `num`, until it
      underflows to 0.0 at `num >= 324`, whose text '0.0' has exponent -1. */
  function QuantumExponent(num: int): (e: nat)
    ensures 0 < num < 324 ==> e == num
    ensures num <= 0 ==> e == 0
    ensures num >= 324 ==> e == 1
  {
    if num >= 324 then 1 else if num > 0 then num else 0
  }

  /** The precision of the default decimal context: a result coefficient
      must have at most 28 digits. */
  const MaxCoefficient: int := 10_000_000_000_000_000_000_000_000_000

  /** Python's limit on the digits of an int converted to text: the quantum
      10**(-num) of `num <= -4300` has more than 4300 digits, so building
      its text raises ValueError before quantize runs. */
  const MaxQuantumDigits: int := 4300

  /** `x` lies within half a unit of `n`, and on an exact tie `n` is even. */
  ghost predicate NearestEven(x: real, n: int) {
    && -1.0 / 2.0 <= x - n as real <= 1.0 / 2.0
    && (x - n as real == 1.0 / 2.0 || x - n as real == -1.0 / 2.0 ==> n % 2 == 0)
  }

  /** ROUND_HALF_EVEN to an integer. */
  function RoundHalfEvenToInt(x: real): int {
    var f := x.Floor;
    var frac := x - f as real;
    if frac < 1.0 / 2.0 then f
    else if frac > 1.0 / 2.0 then f + 1
    else if f % 2 == 0 then f
    else f + 1
  }

  /** RoundHalfEvenToInt returns the nearest integer, the even one on a tie,
      and no other integer is that. */
  lemma RoundHalfEvenToIntIsNearestEven(x: real, n: int)
    ensures NearestEven(x, n) <==> n == RoundHalfEvenToInt(x)
  {
    var f := x.Floor;
    assert f as real <= x < f as real + 1.0;
    if NearestEven(x, n) {
      assert f - 1 < n < f + 2;
    }
  }

  /** Quantizing `value` to multiples of `1 / p` with ROUND_HALF_EVEN: the
      result is a whole number of quanta. */
  function QuantizeHalfEven(value: real, p: real): (r: real)
    requires p >= 1.0
    ensures r * p == RoundHalfEvenToInt(value * p) as real
  {
    DivTimes(RoundHalfEvenToInt(value * p) as real, p);
    RoundHalfEvenToInt(value * p) as real / p
  }

  /** The number of quanta in the quantized value is the integer nearest to
      `value * p`, the even one on an exact tie, and no other integer is. */
  lemma QuantizeHalfEvenIsNearest(value: real, p: real, n: int)
    requires p >= 1.0
    ensures NearestEven(value * p, n) <==> QuantizeHalfEven(value, p) * p == n as real
  {
    RoundHalfEvenToIntIsNearestEven(value * p, n);
  }

  /** round_half_even: `Decimal(value).quantize(Decimal(f'{10**(-num)}'),
      rounding=ROUND_HALF_EVEN)`, `value` being the exact binary value of the
      float argument. The quantum is 10^-num for `0 < num < 324`, 1 for every
      `num <= 0` (those round to an integer) and 10^-1 once 10**(-num)
      underflows. quantize raises InvalidOperation when the rounded
      coefficient does not fit the context's 28 digits. */
  function RoundHalfEven(value: real, num: int): (r: Result<real>)
    ensures num <= -MaxQuantumDigits ==> r == Err(ValueError)
    ensures num > -MaxQuantumDigits && r.Err? ==> r.error == InvalidOperation
    ensures r.Ok? <==> num > -MaxQuantumDigits && -MaxCoefficient < Coefficient(value, num) < MaxCoefficient
    ensures 0 < num < 324 && r.Ok? ==> r.value == QuantizeHalfEven(value, Pow10(num) as real)
    ensures num <= 0 && r.Ok? ==> r.value == RoundHalfEvenToInt(value) as real
    ensures num >= 324 && r.Ok? ==> r.value == QuantizeHalfEven(value, 10.0)
  {
    var n := Coefficient(value, num);
    if num <= -MaxQuantumDigits then Err(ValueError)
    else if n <= -MaxCoefficient || MaxCoefficient <= n then Err(InvalidOperation)
    else if num <= 0 then
      QuantizeByOne(value);
      Ok(QuantizeHalfEven(value, 1.0))
    else if num >= 324 then
      assert Pow10(1) == 10;
      Ok(QuantizeHalfEven(value, 10.0))
    else Ok(QuantizeHalfEven(value, Pow10(num) as real))
  }

  /** The coefficient of the quantized Decimal: `value` counted in quanta,
      rounded half to even. */
  function Coefficient(value: real, num: int): int {
    RoundHalfEvenToInt(value * Pow10(QuantumExponent(num)) as real)
  }

  lemma QuantizeByOne(value: real)
    ensures QuantizeHalfEven(value, 1.0) == RoundHalfEvenToInt(value) as real
  {
    assert value * 1.0 == value;
  }

  lemma DivTimes(a: real, p: real)
    requires p > 0.0
    ensures a / p * p == a
  {
  }

  lemma RoundHalfEvenExamples()
    ensures RoundHalfEven(0.25, 1) == Ok(0.2)
    ensures RoundHalfEven(0.75, 1) == Ok(0.8)
    ensures RoundHalfEven(2.5, 0) == Ok(2.0)
    ensures RoundHalfEven(1234.5, -2) == Ok(1234.0)
    ensures RoundHalfEven(0.26, 400) == Ok(0.3)
    ensures RoundHalfEven(MaxCoefficient as real - 1.0, 0) == Ok(MaxCoefficient as real - 1.0)
    ensures RoundHalfEven(MaxCoefficient as real - 0.5, 0) == Err(InvalidOperation)
    ensures RoundHalfEven(-(MaxCoefficient as real) / 10.0, 1) == Err(InvalidOperation)
    ensures RoundHalfEven(1.0, -4299) == Ok(1.0)
    ensures RoundHalfEven(1.0, -4300) == Err(ValueError)
  {
    assert Pow10(1) == 10;
    assert (2.5).Floor == 2;
    assert (7.5).Floor == 7;
    assert (1234.5).Floor == 1234;
    assert (2.6).Floor == 2;
    assert (1.0).Floor == 1;
    assert (MaxCoefficient as real - 1.0).Floor == MaxCoefficient - 1;
    assert (MaxCoefficient as real - 0.5).Floor == MaxCoefficient - 1;
    assert (-(MaxCoefficient as real) / 10.0 * 10.0).Floor == -MaxCoefficient;
  }
}
