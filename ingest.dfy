/**
 * Shaping the log into a chartable frame: the two trailer rows are dropped,
 * the fractional seconds are cut from `Time`, `Date` and `Time` are joined
 * into timestamps that become whole seconds since the first sample (in a new
 * `Timestamps` column that replaces both), and every column whose unit is
 * `Yes/No` or `Ja/Nein` is turned into 1/0 values.
 *
 * Parsing a timestamp against the date/time format is a library call and
 * is a parameter here: a function from the joined text to seconds, or None
 * when the text does not match the format.
 */
module Ingest {
  import opened Wrappers
  import opened Strings
  import opened Tables
  import opened Units

  /** A column's values in the working frame: cells as read, or whole numbers once converted. */
  datatype Series = Cells(cells: seq<Cell>) | Ints(values: seq<int>)

  datatype FrameColumn = FrameColumn(name: string, data: Series)

  type Frame = seq<FrameColumn>

  datatype IngestError =
    | MissingColumn(name: string)  // `df['Time']` or `df['Date']` raises KeyError
    | BadTimestamp(row: nat)       // the joined text of this data row does not match the format
    | NoSamples                    // `df['Timestamps'][0]` raises KeyError on an empty log

  const SecondsPerDay := 86400

  // ---- Column access by name, as pandas does it ----

  /** The position of the first column called `name`, or -1. */
  function Find(df: Frame, name: string): (i: int)
    ensures -1 <= i < |df|
    ensures i >= 0 ==> df[i].name == name
    ensures forall k :: 0 <= k < |df| && (i < 0 || k < i) ==> df[k].name != name
    decreases |df|
  {
    if |df| == 0 then -1
    else if df[0].name == name then 0
    else
      var i := Find(df[1..], name);
      if i < 0 then -1 else i + 1
  }

  /** `df[name]`: the values of the column called `name`, None when there is none (a KeyError). */
  function Lookup(df: Frame, name: string): Option<Series> {
    var i := Find(df, name);
    if i < 0 then None else Some(df[i].data)
  }

  /** `df[name] = data`: replaces the column called `name`, or appends it when there is none. */
  function Assign(df: Frame, name: string, data: Series): (r: Frame)
    ensures Lookup(r, name) == Some(data)
    ensures forall m :: m != name ==> Find(r, m) == Find(df, m) && Lookup(r, m) == Lookup(df, m)
    ensures |r| >= |df|
  {
    var i := Find(df, name);
    if i < 0 then
      var r := df + [FrameColumn(name, data)];
      FindAppended(df, FrameColumn(name, data));
      assert forall m :: m != name ==> Find(r, m) == Find(df, m) by {
        forall m | m != name ensures Find(r, m) == Find(df, m) {
          FindExtended(df, FrameColumn(name, data), m);
        }
      }
      r
    else
      var r := df[i := FrameColumn(name, data)];
      assert forall m :: Find(r, m) == Find(df, m) || (m == name && Find(r, m) == i) by {
        forall m ensures Find(r, m) == Find(df, m) {
          FindReplaced(df, i, data, m);
        }
      }
      r
  }

  lemma {:induction false} FindExtended(df: Frame, col: FrameColumn, m: string)
    requires col.name != m
    ensures Find(df + [col], m) == Find(df, m)
    decreases |df|
  {
    if |df| > 0 && df[0].name != m {
      assert (df + [col])[1..] == df[1..] + [col];
      FindExtended(df[1..], col, m);
    }
  }

  lemma {:induction false} FindAppended(df: Frame, col: FrameColumn)
    requires Find(df, col.name) < 0
    ensures Find(df + [col], col.name) == |df|
    decreases |df|
  {
    if |df| > 0 {
      assert (df + [col])[1..] == df[1..] + [col];
      FindAppended(df[1..], col);
    }
  }

  lemma {:induction false} FindReplaced(df: Frame, i: nat, data: Series, m: string)
    requires i < |df|
    ensures Find(df[i := FrameColumn(df[i].name, data)], m) == Find(df, m)
    decreases |df|
  {
    if |df| > 0 && df[0].name != m && i > 0 {
      assert df[i := FrameColumn(df[i].name, data)][1..] == df[1..][i - 1 := FrameColumn(df[i].name, data)];
      FindReplaced(df[1..], i - 1, data, m);
    }
  }

  /** `df.drop(names, axis=1)`: every column called by one of `names` removed. */
  function Drop(df: Frame, names: set<string>): (r: Frame)
    ensures forall m :: m in names ==> Lookup(r, m) == None
    ensures forall m :: m !in names ==> Lookup(r, m) == Lookup(df, m)
    decreases |df|
  {
    if |df| == 0 then []
    else
      var rest := Drop(df[1..], names);
      if df[0].name in names then rest else [df[0]] + rest
  }

  // ---- Step 1: the two trailer rows ----

  /** `iloc[:-2]` on one column: everything but the last two rows (nothing when there are fewer). */
  function DropTrailer(cells: seq<Cell>): (rows: seq<Cell>)
    ensures |cells| >= 2 ==> rows + cells[|cells| - 2..] == cells
    ensures |cells| < 2 ==> rows == []
  {
    if |cells| >= 2 then cells[..|cells| - 2] else []
  }

  /** The data rows of the raw table, every column still holding its cells. */
  function DataRows(raw: seq<Column>): (df: Frame)
    ensures |df| == |raw|
    ensures forall i :: 0 <= i < |raw| ==> df[i] == FrameColumn(raw[i].name, Cells(DropTrailer(raw[i].cells)))
  {
    seq(|raw|, i requires 0 <= i < |raw| => FrameColumn(raw[i].name, Cells(DropTrailer(raw[i].cells))))
  }

  // ---- Step 2: the regular expression `[.]\d*$` on Time ----

  /** `s[p]` is a `.` and only digits follow it: the regular expression matches from `p` to the end. */
  ghost predicate FractionAt(s: string, p: int) {
    0 <= p < |s| && s[p] == '.' && AllDigits(s[p + 1..])
  }

  /** The number of digits at the end of `s`. */
  function TrailingDigits(s: string): (n: nat)
    ensures n <= |s|
    decreases |s|
  {
    if |s| == 0 || !IsDigit(s[|s| - 1]) then 0 else TrailingDigits(s[..|s| - 1]) + 1
  }

  /** The trailing digits are all digits, and the character before them, if any, is not one. */
  lemma {:induction false} TrailingDigitsShape(s: string)
    ensures var n := TrailingDigits(s);
      && AllDigits(s[|s| - n..])
      && (n < |s| ==> !IsDigit(s[|s| - n - 1]))
    decreases |s|
  {
    if |s| > 0 && IsDigit(s[|s| - 1]) {
      var init := s[..|s| - 1];
      TrailingDigitsShape(init);
      var n := TrailingDigits(init);
      var tail := s[|s| - (n + 1)..];
      forall k | 0 <= k < n + 1 ensures IsDigit(tail[k]) {
        if k < n {
          assert tail[k] == init[|init| - n..][k];
        }
      }
      assert n + 1 < |s| ==> s[|s| - n - 2] == init[|init| - n - 1];
    }
  }

  /** `s` without a final `.` and the digits after it; `s` itself when it has no such suffix. */
  function StripFraction(s: string): (r: string)
    ensures forall p :: FractionAt(s, p) ==> r == s[..p]
    ensures (forall p :: !FractionAt(s, p)) ==> r == s
  {
    var n := TrailingDigits(s);
    var p := |s| - n - 1;
    TrailingDigitsShape(s);
    forall q | FractionAt(s, q) ensures q == p {
      FractionUnique(s, q);
    }
    if p >= 0 && s[p] == '.' then
      assert FractionAt(s, p);
      s[..p]
    else s
  }

  /** At most one position can start the match: the `.` just before the trailing digits. */
  lemma FractionUnique(s: string, q: int)
    requires FractionAt(s, q)
    ensures q == |s| - TrailingDigits(s) - 1
  {
    TrailingDigitsShape(s);
  }

  /**
   * `re.sub(r"[.]\d*$", "", s)`: Python's `$` also matches just before a
   * final newline, so a fraction in front of a trailing `\n` goes too.
   */
  function StripMilliseconds(s: string): (r: string)
    ensures (|s| == 0 || s[|s| - 1] != '\n') ==> r == StripFraction(s)
    ensures |s| > 0 && s[|s| - 1] == '\n' ==> r == StripFraction(s[..|s| - 1]) + "\n"
  {
    if |s| > 0 && s[|s| - 1] == '\n' then StripFraction(s[..|s| - 1]) + "\n"
    else StripFraction(s)
  }

  /** The replacement leaves a missing (NaN) cell missing. */
  function StripCell(c: Cell): Cell {
    match c
    case Missing => Missing
    case Text(s) => Text(StripMilliseconds(s))
  }

  function StripAll(cells: seq<Cell>): (r: seq<Cell>)
    ensures |r| == |cells|
  {
    seq(|cells|, i requires 0 <= i < |cells| => StripCell(cells[i]))
  }

  lemma StripExample()
    ensures StripMilliseconds("10:00:00.123") == "10:00:00"
    ensures StripMilliseconds("10:00:00") == "10:00:00"
    ensures StripMilliseconds("10:00:00.123\n") == "10:00:00\n"
  {
    assert FractionAt("10:00:00.123", 8);
    assert "10:00:00.123\n"[..12] == "10:00:00.123";
    var s := "10:00:00";
    forall p ensures !FractionAt(s, p) {
      if 0 <= p < |s| && s[p] == '.' { assert false; }
    }
  }

  // ---- Step 3: timestamps ----

  /** `df['Date'] + ' ' + df['Time']` on one row: a missing cell on either side gives a missing cell. */
  function JoinCell(date: Cell, time: Cell): Cell {
    if date.Text? && time.Text? then Text(date.text + " " + time.text) else Missing
  }

  function JoinAll(dates: seq<Cell>, times: seq<Cell>): (r: seq<Cell>)
    requires |dates| == |times|
    ensures |r| == |dates|
  {
    seq(|dates|, i requires 0 <= i < |dates| => JoinCell(dates[i], times[i]))
  }

  /** One timestamp: None for a missing cell or a text that does not match the format. */
  function ParseCell(c: Cell, parse: string -> Option<int>): Option<int> {
    if c.Text? then parse(c.text) else None
  }

  /** `pd.to_datetime` on the joined column: every row parsed, or the first row that fails. */
  function ParseAll(cells: seq<Cell>, parse: string -> Option<int>): (r: Result<seq<int>, IngestError>)
    ensures r.Ok? <==> forall i :: 0 <= i < |cells| ==> ParseCell(cells[i], parse).Some?
    ensures r.Ok? ==> |r.value| == |cells| && forall i :: 0 <= i < |cells| ==> ParseCell(cells[i], parse) == Some(r.value[i])
    ensures r.Err? ==> r.error.BadTimestamp? && r.error.row < |cells| && ParseCell(cells[r.error.row], parse).None?
    ensures r.Err? ==> forall i :: 0 <= i < r.error.row ==> ParseCell(cells[i], parse).Some?
    decreases |cells|
  {
    if |cells| == 0 then Ok([])
    else
      var n := |cells| - 1;
      match ParseAll(cells[..n], parse)
      case Err(e) => Err(e)
      case Ok(ts) =>
        match ParseCell(cells[n], parse)
        case None => Err(BadTimestamp(n))
        case Some(t) => Ok(ts + [t])
  }

  /** `(t - t0).seconds`: the seconds part of a timedelta, which leaves out whole days (floored). */
  function Elapsed(t: int, t0: int): (s: int)
    ensures 0 <= s < SecondsPerDay
    ensures 0 <= t - t0 < SecondsPerDay ==> s == t - t0
  {
    (t - t0) % SecondsPerDay
  }

  /** The relative time axis: each timestamp against the first one. */
  function RelativeSeconds(ts: seq<int>): (axis: seq<int>)
    ensures |axis| == |ts|
    ensures |ts| > 0 ==> axis[0] == 0
    ensures forall i :: 0 <= i < |ts| ==> 0 <= axis[i] < SecondsPerDay
    ensures forall i :: 0 <= i < |ts| ==> axis[i] == Elapsed(ts[i], ts[0])
  {
    seq(|ts|, i requires 0 <= i < |ts| => Elapsed(ts[i], ts[0]))
  }

  /** Within one day, non-decreasing timestamps give a non-decreasing axis of true elapsed seconds. */
  lemma AxisMonotone(ts: seq<int>)
    requires forall i, j :: 0 <= i <= j < |ts| ==> ts[i] <= ts[j]
    requires |ts| > 0 ==> ts[|ts| - 1] - ts[0] < SecondsPerDay
    ensures forall i :: 0 <= i < |ts| ==> RelativeSeconds(ts)[i] == ts[i] - ts[0]
    ensures forall i, j :: 0 <= i <= j < |ts| ==> RelativeSeconds(ts)[i] <= RelativeSeconds(ts)[j]
  {
    var axis := RelativeSeconds(ts);
    forall i | 0 <= i < |ts| ensures axis[i] == ts[i] - ts[0] {
      assert ts[0] <= ts[i] <= ts[|ts| - 1];
    }
  }

  /** Whole days between two samples do not show on the axis: the axis wraps every 24 hours. */
  lemma ElapsedDropsWholeDays(t: int, t0: int, days: nat)
    ensures Elapsed(t + days * SecondsPerDay, t0) == Elapsed(t, t0)
  {
    var d := t - t0;
    assert t + days * SecondsPerDay - t0 == d + days * SecondsPerDay;
    ModAddMultiple(d, days);
  }

  lemma {:induction false} ModAddMultiple(d: int, days: nat)
    ensures (d + days * SecondsPerDay) % SecondsPerDay == d % SecondsPerDay
  {
    if days > 0 {
      ModAddMultiple(d, days - 1);
      assert d + days * SecondsPerDay == (d + (days - 1) * SecondsPerDay) + SecondsPerDay;
    }
  }

  // ---- Step 4: Yes/No columns ----

  predicate IsYesNoUnit(unit: string) {
    unit == "Yes/No" || unit == "Ja/Nein"
  }

  /** `int(value == "Yes" or value == "Ja")`: anything but these two texts, a missing cell included, is 0. */
  function YesNo(c: Cell): int {
    if c == Text("Yes") || c == Text("Ja") then 1 else 0
  }

  function SeriesLength(d: Series): nat {
    match d
    case Cells(cs) => |cs|
    case Ints(vs) => |vs|
  }

  /** A numeric value never equals "Yes" or "Ja", so a numeric column converts to all zeros. */
  function ToYesNo(d: Series): Series {
    match d
    case Cells(cs) => Ints(seq(|cs|, i requires 0 <= i < |cs| => YesNo(cs[i])))
    case Ints(vs) => Ints(seq(|vs|, i requires 0 <= i < |vs| => 0))
  }

  /** A column after the conversion loop: converted iff its unit is a yes/no unit. */
  function CoerceColumn(c: FrameColumn): (r: FrameColumn)
    ensures r.name == c.name
    ensures !IsYesNoUnit(GetUnit(c.name)) ==> r == c
    ensures IsYesNoUnit(GetUnit(c.name)) ==>
      && r.data.Ints?
      && |r.data.values| == SeriesLength(c.data)
      && forall k :: 0 <= k < |r.data.values| ==>
           && (r.data.values[k] == 0 || r.data.values[k] == 1)
           && (r.data.values[k] == 1 <==> c.data.Cells? && (c.data.cells[k] == Text("Yes") || c.data.cells[k] == Text("Ja")))
  {
    if IsYesNoUnit(GetUnit(c.name)) then FrameColumn(c.name, ToYesNo(c.data)) else c
  }

  /** The conversion loop over the columns of the frame. */
  method ParseBooleans(df: Frame) returns (out: Frame)
    ensures |out| == |df|
    ensures forall i :: 0 <= i < |df| ==> out[i] == CoerceColumn(df[i])
  {
    out := df;
    for i := 0 to |df|
      invariant |out| == |df|
      invariant forall j :: 0 <= j < i ==> out[j] == CoerceColumn(df[j])
      invariant forall j :: i <= j < |df| ==> out[j] == df[j]
    {
      var name := out[i].name;
      var unit := GetUnit(name);
      if unit == "Yes/No" || unit == "Ja/Nein" {
        out := out[i := FrameColumn(name, ToYesNo(out[i].data))];
      }
    }
  }

  // ---- The whole shaping, in the order of the script ----

  lemma FindInNames(raw: seq<Column>, m: string)
    ensures Find(DataRows(raw), m) >= 0 <==> m in Names(raw)
  {
    var df := DataRows(raw);
    if m in Names(raw) {
      var k :| 0 <= k < |raw| && Names(raw)[k] == m;
      assert df[k].name == m;
    }
  }

  lemma {:induction false} FindSameNames(a: Frame, b: Frame, m: string)
    requires |a| == |b| && forall i :: 0 <= i < |a| ==> a[i].name == b[i].name
    ensures Find(a, m) == Find(b, m)
    decreases |a|
  {
    if |a| > 0 {
      FindSameNames(a[1..], b[1..], m);
    }
  }

  /** The joined `Date Time` cells of the data rows, with the fraction cut from Time; None without both columns. */
  function Stamps(raw: seq<Column>): (st: Option<seq<Cell>>)
    requires Rectangular(raw)
    ensures st.Some? <==> "Date" in Names(raw) && "Time" in Names(raw)
  {
    FindInNames(raw, "Date");
    FindInNames(raw, "Time");
    var df := DataRows(raw);
    var d, t := Find(df, "Date"), Find(df, "Time");
    if d < 0 || t < 0 then None
    else Some(JoinAll(DropTrailer(raw[d].cells), StripAll(DropTrailer(raw[t].cells))))
  }

  /** What the conversion loop makes of a column found under `name`. */
  function Coerced(data: Option<Series>, name: string): Option<Series> {
    match data
    case None => None
    case Some(d) => Some(CoerceColumn(FrameColumn(name, d)).data)
  }

  /**
   * The shaping steps of the script, from dropping the trailer rows to the
   * yes/no conversion. On success the frame has a `Timestamps` column with the
   * relative axis, no `Date` or `Time` column, and every other column as read,
   * less the trailer rows, converted when its unit is a yes/no unit.
   */
  method Ingest(raw: seq<Column>, parse: string -> Option<int>) returns (result: Result<Frame, IngestError>)
    requires Rectangular(raw)
    ensures "Time" !in Names(raw) ==> result == Err(MissingColumn("Time"))
    ensures "Time" in Names(raw) && "Date" !in Names(raw) ==> result == Err(MissingColumn("Date"))
    ensures Stamps(raw).Some? ==>
      var parsed := ParseAll(Stamps(raw).value, parse);
      && (parsed.Err? ==> result == Err(parsed.error))
      && (parsed.Ok? && |parsed.value| == 0 ==> result == Err(NoSamples))
      && (parsed.Ok? && |parsed.value| > 0 ==>
            && result.Ok?
            && Lookup(result.value, "Timestamps") == Some(Ints(RelativeSeconds(parsed.value)))
            && Lookup(result.value, "Date") == None
            && Lookup(result.value, "Time") == None
            && forall m :: m != "Date" && m != "Time" && m != "Timestamps" ==>
                 Lookup(result.value, m) == Coerced(Lookup(DataRows(raw), m), m))
  {
    FindInNames(raw, "Date");
    FindInNames(raw, "Time");
    var df := DataRows(raw);
    ghost var df0 := df;
    var ti := Find(df, "Time");
    if ti < 0 {
      return Err(MissingColumn("Time"));
    }
    var time := StripAll(df[ti].data.cells);
    df := Assign(df, "Time", Cells(time));
    var di := Find(df, "Date");
    if di < 0 {
      return Err(MissingColumn("Date"));
    }
    assert di == Find(df0, "Date") && df[di] == df0[di];
    var stamps := JoinAll(df[di].data.cells, time);
    assert Stamps(raw) == Some(stamps);
    ghost var df1 := df;
    df := Assign(df, "Timestamps", Cells(stamps));
    var parsed := ParseAll(stamps, parse);
    if parsed.Err? {
      return Err(parsed.error);
    }
    if |parsed.value| == 0 {
      return Err(NoSamples);
    }
    var axis := RelativeSeconds(parsed.value);
    df := Assign(df, "Timestamps", Ints(axis));
    df := Drop(df, {"Time", "Date"});
    ghost var dropped := df;
    df := ParseBooleans(df);
    LookupCoercedFrame(dropped, df);
    ShapedTimeColumns(df1, stamps, axis, dropped, df);
    ShapedOtherColumns(df1, stamps, axis, dropped, df);
    return Ok(df);
  }

  /** Columns keep their names through the conversion loop, so each is found where it was, converted. */
  lemma LookupCoercedFrame(df: Frame, out: Frame)
    requires |out| == |df| && forall i :: 0 <= i < |df| ==> out[i] == CoerceColumn(df[i])
    ensures forall m :: Lookup(out, m) == Coerced(Lookup(df, m), m)
  {
    forall m ensures Lookup(out, m) == Coerced(Lookup(df, m), m) {
      FindSameNames(out, df, m);
    }
  }

  /** `Timestamps` has no brackets, so its "unit" is `Timestamp` and the conversion loop leaves it alone. */
  lemma TimestampsUnit()
    ensures !IsYesNoUnit(GetUnit("Timestamps"))
  {
    Units.UnitWithoutBrackets("Timestamps");
    assert GetUnit("Timestamps") == "Timestamp";
  }

  /** After the last steps of the shaping: the axis under `Timestamps`, and no `Date` or `Time`. */
  lemma ShapedTimeColumns(df1: Frame, stamps: seq<Cell>, axis: seq<int>, dropped: Frame, out: Frame)
    requires dropped == Drop(Assign(Assign(df1, "Timestamps", Cells(stamps)), "Timestamps", Ints(axis)), {"Time", "Date"})
    requires forall m :: Lookup(out, m) == Coerced(Lookup(dropped, m), m)
    ensures Lookup(out, "Timestamps") == Some(Ints(axis))
    ensures Lookup(out, "Date") == None && Lookup(out, "Time") == None
  {
    TimestampsUnit();
    assert Lookup(out, "Timestamps") == Coerced(Lookup(dropped, "Timestamps"), "Timestamps");
    assert Lookup(out, "Date") == Coerced(Lookup(dropped, "Date"), "Date");
    assert Lookup(out, "Time") == Coerced(Lookup(dropped, "Time"), "Time");
  }

  /** After the last steps of the shaping, every other column is found as it was, converted. */
  lemma ShapedOtherColumns(df1: Frame, stamps: seq<Cell>, axis: seq<int>, dropped: Frame, out: Frame)
    requires dropped == Drop(Assign(Assign(df1, "Timestamps", Cells(stamps)), "Timestamps", Ints(axis)), {"Time", "Date"})
    requires forall m :: Lookup(out, m) == Coerced(Lookup(dropped, m), m)
    ensures forall m :: m != "Date" && m != "Time" && m != "Timestamps" ==> Lookup(out, m) == Coerced(Lookup(df1, m), m)
  {
    var df2 := Assign(df1, "Timestamps", Cells(stamps));
    var df3 := Assign(df2, "Timestamps", Ints(axis));
    forall m | m != "Date" && m != "Time" && m != "Timestamps"
      ensures Lookup(out, m) == Coerced(Lookup(df1, m), m)
    {
      assert Lookup(dropped, m) == Lookup(df3, m) == Lookup(df2, m) == Lookup(df1, m);
    }
  }
}
