/**
 * The control flow of the plotter after the log is shaped: where the
 * selection comes from (layout file or interactive prompts), when it is
 * exported, and what is drawn for it — one chart per unit, one line per
 * selected column with its legend text and its colour.
 */
module Pipeline {
  import opened Wrappers
  import opened Units
  import opened ColFams
  import opened Colors
  import opened Ingest
  import opened Layout
  import opened Selector
  import opened Grouping

  /** The `--layout` argument: absent, naming a file that cannot be read, or naming a file with this text. */
  datatype LayoutFile = NoLayout | Unreadable | Contents(text: string)

  /** The columns to draw and, when the selection is exported, the text written to the `--export` file. */
  datatype Selection = Selection(names: seq<string>, exported: Option<string>)

  /**
   * The selection: the layout file's lines if there are any, else an
   * interactive session; it is exported only when no layout was given.
   */
  function Choose(layout: LayoutFile, exporting: bool, s: IndexState, lines: seq<string>): Result<Selection, SelectError> {
    var loaded := if layout.Contents? then Parse(layout.text) else [];
    var chosen := if |loaded| > 0 then Selected(loaded) else Session(s, lines, []);
    match chosen
    case Failed(e) => Err(e)
    case Selected(names) =>
      Ok(Selection(names, if exporting && layout.NoLayout? then Some(Serialize(names)) else None))
  }

  /** Reading the layout, falling back to the prompts, and exporting, in the order the program does them. */
  method ChooseColumns(layout: LayoutFile, exporting: bool, index: ColFamInfo, lines: seq<string>)
    returns (r: Result<Selection, SelectError>)
    requires index.Valid()
    ensures r == Choose(layout, exporting, index.State(), lines)
  {
    var selected: seq<string> := [];
    if layout.Contents? {
      selected := Load(layout.text);
    }
    if |selected| == 0 {
      var outcome := SelectColumns(index, lines);
      if outcome.Failed? {
        return Err(outcome.error);
      }
      selected := outcome.names;
    }
    var exported: Option<string> := None;
    if exporting && layout.NoLayout? {
      var text := Export(selected);
      exported := Some(text);
    }
    return Ok(Selection(selected, exported));
  }

  /**
   * A layout file written by `--export` reproduces the exported selection
   * when given as `--layout`, whatever is typed at the prompts, and is not
   * exported again.
   */
  lemma ExportThenLayout(s: IndexState, lines: seq<string>, lines': seq<string>, exporting': bool)
    requires Choose(NoLayout, true, s, lines).Ok?
    requires var names := Choose(NoLayout, true, s, lines).value.names;
      names != [] && forall k :: 0 <= k < |names| ==> LineSafe(names[k])
    ensures var sel := Choose(NoLayout, true, s, lines).value;
      && sel.exported == Some(Serialize(sel.names))
      && Choose(Contents(sel.exported.value), exporting', s, lines') == Ok(Selection(sel.names, None))
  {
    var sel := Choose(NoLayout, true, s, lines).value;
    ParseSerialize(sel.names);
  }

  /** A layout file without a single line falls back to the prompts, and the result is not exported. */
  lemma EmptyLayoutPrompts(text: string, exporting: bool, s: IndexState, lines: seq<string>)
    requires Parse(text) == []
    ensures Choose(Contents(text), exporting, s, lines) ==
      match Session(s, lines, [])
      case Failed(e) => Err(e)
      case Selected(names) => Ok(Selection(names, None))
  {
  }

  /** One line of a chart: the column, its legend text, its colour and its values. */
  datatype Trace = Trace(column: string, legend: string, color: string, values: Series)

  /** One chart: the y-axis label of its unit and its lines. */
  datatype Chart = Chart(ylabel: string, traces: seq<Trace>)

  /** `f"{colname} ({devicename})"`, where a column without a family prints as "None". */
  function Legend(name: string, family: Option<string>): string {
    name + " (" + (if family.Some? then family.value else "None") + ")"
  }

  /** `f"Sensor data [{unit}]"`. */
  function YLabel(unit: string): string {
    "Sensor data [" + unit + "]"
  }

  /** The y-axis label names the chart's unit in the same bracket notation the columns use. */
  lemma UnitOfYLabel(unit: string)
    requires '[' !in unit
    ensures GetUnit(YLabel(unit)) == unit
  {
    UnitOfBracketedSuffix("Sensor data ", unit, "");
    assert "Sensor data " + "[" + unit + "]" + "" == YLabel(unit);
  }

  /** `xs` in front of a successful result; an error stays. */
  function PrependOk<T>(xs: seq<T>, r: Result<seq<T>, string>): Result<seq<T>, string> {
    if r.Err? then r else Ok(xs + r.value)
  }

  /**
   * The lines of one chart, the first with colour `start`; the first column
   * the frame does not hold stops the drawing (a KeyError).
   */
  function TracesOf(s: IndexState, df: Frame, names: seq<string>, start: nat): Result<seq<Trace>, string>
    decreases |names|
  {
    if names == [] then Ok([])
    else
      match Lookup(df, names[0])
      case None => Err(names[0])
      case Some(values) =>
        var trace := Trace(names[0], Legend(names[0], FamilyOf(s, names[0])), ColorAt(start), values);
        PrependOk([trace], TracesOf(s, df, names[1..], start + 1))
  }

  /**
   * A chart draws every column of its group, in group order, with its family
   * in the legend and consecutive colours from `start`, unless a column is
   * missing from the frame; then the first missing one is reported.
   */
  lemma {:induction false} TracesShape(s: IndexState, df: Frame, names: seq<string>, start: nat)
    ensures var r := TracesOf(s, df, names, start);
      && (r.Ok? <==> forall k :: 0 <= k < |names| ==> Lookup(df, names[k]).Some?)
      && (r.Err? ==> exists k :: 0 <= k < |names| && names[k] == r.error && Lookup(df, r.error).None? &&
                                 forall j :: 0 <= j < k ==> Lookup(df, names[j]).Some?)
      && (r.Ok? ==> |r.value| == |names| && forall k :: 0 <= k < |names| ==>
            r.value[k] == Trace(names[k], Legend(names[k], FamilyOf(s, names[k])), ColorAt(start + k), Lookup(df, names[k]).value))
    decreases |names|
  {
    if names != [] {
      TracesShape(s, df, names[1..], start + 1);
      var r := TracesOf(s, df, names, start);
      var rest := TracesOf(s, df, names[1..], start + 1);
      if Lookup(df, names[0]).Some? {
        if rest.Err? {
          var k :| 0 <= k < |names[1..]| && names[1..][k] == rest.error && Lookup(df, rest.error).None? &&
                   forall j :: 0 <= j < k ==> Lookup(df, names[1..][j]).Some?;
          assert names[k + 1] == r.error;
          assert forall j :: 0 <= j < k + 1 ==> Lookup(df, names[j]).Some? by {
            forall j | 0 <= j < k + 1 ensures Lookup(df, names[j]).Some? {
              if j > 0 { assert names[j] == names[1..][j - 1]; }
            }
          }
        } else {
          forall k | 0 <= k < |names| ensures Lookup(df, names[k]).Some? {
            if k > 0 { assert names[k] == names[1..][k - 1]; }
          }
          forall k | 0 <= k < |names| ensures
            r.value[k] == Trace(names[k], Legend(names[k], FamilyOf(s, names[k])), ColorAt(start + k), Lookup(df, names[k]).value)
          {
            if k > 0 { assert names[k] == names[1..][k - 1] && r.value[k] == rest.value[k - 1]; }
          }
        }
      } else {
        assert names[0] == r.error;
      }
    }
  }

  /** The charts of `units` in order; the colour counter starts at `start` and is reset after every chart. */
  function ChartsOf(s: IndexState, df: Frame, units: seq<string>, groups: map<string, seq<string>>, start: nat)
    : Result<seq<Chart>, string>
    requires forall u :: u in units ==> u in groups
    decreases |units|
  {
    if units == [] then Ok([])
    else
      match TracesOf(s, df, groups[units[0]], start)
      case Err(e) => Err(e)
      case Ok(traces) =>
        var rest := ChartsOf(s, df, units[1..], groups, 0);
        if rest.Err? then Err(rest.error) else Ok([Chart(YLabel(units[0]), traces)] + rest.value)
  }

  lemma PrependNothing<T>(r: Result<seq<T>, string>)
    ensures PrependOk([], r) == r
  {
    if r.Ok? {
      assert [] + r.value == r.value;
    }
  }

  lemma PrependOkTwice<T>(xs: seq<T>, ys: seq<T>, r: Result<seq<T>, string>)
    ensures PrependOk(xs, PrependOk(ys, r)) == PrependOk(xs + ys, r)
  {
    if r.Ok? {
      assert xs + (ys + r.value) == (xs + ys) + r.value;
    }
  }

  /** One column of the drawing loop, as `TracesOf` sees it from position `k` on. */
  lemma TracesStep(s: IndexState, df: Frame, names: seq<string>, start: nat, k: nat)
    requires k < |names|
    ensures Lookup(df, names[k]).None? ==> TracesOf(s, df, names[k..], start + k) == Err(names[k])
    ensures Lookup(df, names[k]).Some? ==>
      TracesOf(s, df, names[k..], start + k) ==
        PrependOk([Trace(names[k], Legend(names[k], FamilyOf(s, names[k])), ColorAt(start + k), Lookup(df, names[k]).value)],
                  TracesOf(s, df, names[k + 1..], start + k + 1))
  {
    assert names[k..][0] == names[k] && names[k..][1..] == names[k + 1..];
  }

  /** After `k` passes of the drawing loop, `traces` are the first lines of the chart of `names`. */
  ghost predicate Drawn(s: IndexState, df: Frame, names: seq<string>, first: nat, k: nat, traces: seq<Trace>) {
    k <= |names| && TracesOf(s, df, names, first) == PrependOk(traces, TracesOf(s, df, names[k..], first + k))
  }

  /** One pass of the drawing loop: the line drawn for column `k` extends the lines drawn so far. */
  lemma TracesLoopStep(s: IndexState, df: Frame, names: seq<string>, first: nat, k: nat, traces: seq<Trace>, trace: Trace)
    requires Drawn(s, df, names, first, k, traces) && k < |names| && Lookup(df, names[k]).Some?
    requires trace == Trace(names[k], Legend(names[k], FamilyOf(s, names[k])), ColorAt(first + k), Lookup(df, names[k]).value)
    ensures Drawn(s, df, names, first, k + 1, traces + [trace])
  {
    TracesStep(s, df, names, first, k);
    PrependOkTwice(traces, [trace], TracesOf(s, df, names[k + 1..], first + k + 1));
  }

  /** The first chart of `units` fails, and so do all of them. */
  lemma ChartsStop(s: IndexState, df: Frame, units: seq<string>, groups: map<string, seq<string>>, start: nat, e: string)
    requires units != [] && forall u :: u in units ==> u in groups
    requires TracesOf(s, df, groups[units[0]], start) == Err(e)
    ensures ChartsOf(s, df, units, groups, start) == Err(e)
  {
  }

  /** The first chart of `units` succeeds with `traces`; the rest are drawn after a reset. */
  lemma ChartsStep(s: IndexState, df: Frame, units: seq<string>, groups: map<string, seq<string>>, start: nat,
                   traces: seq<Trace>)
    requires units != [] && forall u :: u in units ==> u in groups
    requires TracesOf(s, df, groups[units[0]], start) == Ok(traces)
    ensures ChartsOf(s, df, units, groups, start) ==
      PrependOk([Chart(YLabel(units[0]), traces)], ChartsOf(s, df, units[1..], groups, 0))
  {
  }

  /** The chart of one unit, or the first of its columns the frame does not hold. */
  function ChartOf(s: IndexState, df: Frame, unit: string, names: seq<string>, start: nat): Result<Chart, string> {
    match TracesOf(s, df, names, start)
    case Err(e) => Err(e)
    case Ok(traces) => Ok(Chart(YLabel(unit), traces))
  }

  /** The body of the drawing loop for one unit: a line per column with the next colour, then a colour reset. */
  method DrawChart(index: ColFamInfo, factory: ColorFactory, df: Frame, unit: string, names: seq<string>)
    returns (r: Result<Chart, string>)
    requires index.Valid()
    modifies factory
    ensures r == ChartOf(index.State(), df, unit, names, old(factory.currColorIndex))
    ensures r.Ok? ==> factory.currColorIndex == 0
  {
    ghost var s := index.State();
    ghost var first := factory.currColorIndex;
    var traces: seq<Trace> := [];
    assert names[0..] == names;
    PrependNothing(TracesOf(s, df, names, first));
    for k := 0 to |names|
      invariant factory.currColorIndex == first + k
      invariant Drawn(s, df, names, first, k, traces)
    {
      var colname := names[k];
      var family := index.GetFamily(colname);
      assert family == FamilyOf(s, colname);
      var values := Lookup(df, colname);
      if values.None? {
        TracesStep(s, df, names, first, k);
        return Err(colname);
      }
      var color := factory.Next();
      var trace := Trace(colname, Legend(colname, family), color, values.value);
      TracesLoopStep(s, df, names, first, k, traces, trace);
      traces := traces + [trace];
    }
    assert names[|names|..] == [] && traces + [] == traces;
    factory.Reset();
    return Ok(Chart(YLabel(unit), traces));
  }

  /** The drawing loop: one chart per unit, in key order. */
  method PlanCharts(index: ColFamInfo, factory: ColorFactory, df: Frame, units: seq<string>,
                    groups: map<string, seq<string>>)
    returns (r: Result<seq<Chart>, string>)
    requires index.Valid()
    requires forall u :: u in units ==> u in groups
    modifies factory
    ensures r == ChartsOf(index.State(), df, units, groups, old(factory.currColorIndex))
    ensures r.Ok? && |units| > 0 ==> factory.currColorIndex == 0
  {
    ghost var s := index.State();
    ghost var start := factory.currColorIndex;
    var charts: seq<Chart> := [];
    assert units[0..] == units;
    PrependNothing(ChartsOf(s, df, units, groups, start));
    for i := 0 to |units|
      invariant factory.currColorIndex == if i == 0 then start else 0
      invariant ChartsOf(s, df, units, groups, start) ==
        PrependOk(charts, ChartsOf(s, df, units[i..], groups, factory.currColorIndex))
    {
      var unit := units[i];
      ghost var first := factory.currColorIndex;
      var chart := DrawChart(index, factory, df, unit, groups[unit]);
      assert units[i..][0] == unit && units[i..][1..] == units[i + 1..];
      if chart.Err? {
        ChartsStop(s, df, units[i..], groups, first, chart.error);
        return Err(chart.error);
      }
      ChartsStep(s, df, units[i..], groups, first, chart.value.traces);
      PrependOkTwice(charts, [chart.value], ChartsOf(s, df, units[i + 1..], groups, 0));
      charts := charts + [chart.value];
    }
    assert units[|units|..] == [] && charts + [] == charts;
    return Ok(charts);
  }

  /** The columns the charts draw, chart after chart and line after line. */
  function ColumnsDrawn(charts: seq<Chart>): seq<string>
    decreases |charts|
  {
    if charts == [] then []
    else
      var traces := charts[0].traces;
      seq(|traces|, k requires 0 <= k < |traces| => traces[k].column) + ColumnsDrawn(charts[1..])
  }

  /** When the drawing succeeds, chart `i` holds the lines of unit `i`'s group, each coloured from the counter. */
  lemma {:induction false} ChartsDrawGroups(s: IndexState, df: Frame, units: seq<string>,
                                            groups: map<string, seq<string>>, start: nat, names: seq<string>)
    requires forall u :: u in units ==> u in groups && groups[u] == WithUnit(names, u)
    requires ChartsOf(s, df, units, groups, start).Ok?
    ensures var charts := ChartsOf(s, df, units, groups, start).value;
      && |charts| == |units|
      && (forall i :: 0 <= i < |charts| ==> charts[i].ylabel == YLabel(units[i]))
      && ColumnsDrawn(charts) == Concat(units, names)
    decreases |units|
  {
    if units != [] {
      var traces := TracesOf(s, df, groups[units[0]], start).value;
      TracesShape(s, df, groups[units[0]], start);
      ChartsDrawGroups(s, df, units[1..], groups, 0, names);
      var charts := ChartsOf(s, df, units, groups, start).value;
      var rest := ChartsOf(s, df, units[1..], groups, 0).value;
      assert charts == [Chart(YLabel(units[0]), traces)] + rest;
      assert charts[1..] == rest;
      assert seq(|traces|, k requires 0 <= k < |traces| => traces[k].column) == WithUnit(names, units[0]);
      forall i | 0 <= i < |charts| ensures charts[i].ylabel == YLabel(units[i]) {
        if i > 0 { assert charts[i] == rest[i - 1]; }
      }
    }
  }

  /**
   * The charts drawn for a selection grouped by `GroupByUnit` show every
   * selected column exactly as often as it was selected.
   */
  lemma PlotCoversSelection(s: IndexState, df: Frame, names: seq<string>, groups: map<string, seq<string>>, start: nat)
    requires forall u :: u in Keys(names) ==> u in groups && groups[u] == WithUnit(names, u)
    requires ChartsOf(s, df, Keys(names), groups, start).Ok?
    ensures multiset(ColumnsDrawn(ChartsOf(s, df, Keys(names), groups, start).value)) == multiset(names)
  {
    ChartsDrawGroups(s, df, Keys(names), groups, start, names);
    GroupsPermutation(names);
  }

  /** The lines of a chart take consecutive colours from `start`. */
  lemma {:induction false} TracesColors(s: IndexState, df: Frame, names: seq<string>, start: nat)
    requires TracesOf(s, df, names, start).Ok?
    ensures var traces := TracesOf(s, df, names, start).value;
      forall k :: 0 <= k < |traces| ==> traces[k].color == ColorAt(start + k)
    decreases |names|
  {
    if names != [] {
      TracesColors(s, df, names[1..], start + 1);
      var traces := TracesOf(s, df, names, start).value;
      var rest := TracesOf(s, df, names[1..], start + 1).value;
      assert traces[1..] == rest;
      forall k | 1 <= k < |traces| ensures traces[k].color == ColorAt(start + k) {
        assert traces[k] == rest[k - 1];
      }
    }
  }

  /**
   * Every chart after the first starts its colours at "red"; a chart of at
   * most nine lines never repeats a colour.
   */
  lemma ChartColors(s: IndexState, df: Frame, unit: string, names: seq<string>, start: nat)
    requires ChartOf(s, df, unit, names, start).Ok?
    ensures var traces := ChartOf(s, df, unit, names, start).value.traces;
      && (start == 0 && |traces| > 0 ==> traces[0].color == "red")
      && (|traces| <= 9 ==> forall i, j :: 0 <= i < j < |traces| ==> traces[i].color != traces[j].color)
  {
    TracesColors(s, df, names, start);
    var traces := TracesOf(s, df, names, start).value;
    if |traces| <= 9 {
      ColorsOfRunDistinct(start, |traces|);
      var run := seq(|traces|, k requires 0 <= k < |traces| => ColorAt(start + k));
      forall i, j | 0 <= i < j < |traces| ensures traces[i].color != traces[j].color {
        assert traces[i].color == run[i] && traces[j].color == run[j];
      }
    }
  }
}
