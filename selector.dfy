/**
 * The interactive column selector. The console is modelled as the sequence
 * of lines `input()` returns: a session alternates a device line (an index
 * into the family list, or an empty line that confirms the selection) and an
 * index line (space-separated indices into that family's columns, or an
 * empty line that picks nothing). Indices are not validated by the program:
 * an unparsable or out-of-range index ends it with an exception, modelled as
 * a `Failed` outcome, and so does running out of input.
 */
module Selector {
  import opened Wrappers
  import opened Strings
  import opened ColFams

  datatype SelectError =
    | EndOfInput                   // `input()` raises EOFError
    | NotAnInteger(text: string)   // `int(text)` raises ValueError
    | NoSuchDevice(index: int)     // `devices[index]` raises IndexError
    | NoSuchColumn(index: int)     // `get_colnames(device)[index]` raises IndexError

  datatype Outcome = Selected(names: seq<string>) | Failed(error: SelectError)

  /**
   * The characters `int()` ignores around a number of an ASCII text, C's
   * `isspace`: tab, line feed, vertical tab, form feed, carriage return and space.
   */
  predicate IsSpace(c: char) {
    9 <= c as int <= 13 || c == ' '
  }

  /** `s` with its leading white space removed. */
  function TrimStart(s: string): string
    decreases |s|
  {
    if s != [] && IsSpace(s[0]) then TrimStart(s[1..]) else s
  }

  /** `s` with its trailing white space removed. */
  function TrimEnd(s: string): string
    decreases |s|
  {
    if s != [] && IsSpace(s[|s| - 1]) then TrimEnd(s[..|s| - 1]) else s
  }

  /** Trimming the front keeps a suffix that does not start with white space and drops only white space. */
  lemma {:induction false} TrimStartShape(s: string)
    ensures var r := TrimStart(s);
      && |r| <= |s| && r == s[|s| - |r|..]
      && (r == [] || !IsSpace(r[0]))
      && forall k :: 0 <= k < |s| - |r| ==> IsSpace(s[k])
    decreases |s|
  {
    if s != [] && IsSpace(s[0]) {
      TrimStartShape(s[1..]);
      var r := TrimStart(s);
      assert r == s[1..][|s| - 1 - |r|..];
      forall k | 0 < k < |s| - |r| ensures IsSpace(s[k]) {
        assert s[k] == s[1..][k - 1];
      }
    }
  }

  /** Trimming the end keeps a prefix that does not end with white space and drops only white space. */
  lemma {:induction false} TrimEndShape(s: string)
    ensures var r := TrimEnd(s);
      && |r| <= |s| && r == s[..|r|]
      && (r == [] || !IsSpace(r[|r| - 1]))
      && forall k :: |r| <= k < |s| ==> IsSpace(s[k])
    decreases |s|
  {
    if s != [] && IsSpace(s[|s| - 1]) {
      TrimEndShape(s[..|s| - 1]);
      var r := TrimEnd(s);
      assert r == s[..|s| - 1][..|r|];
      forall k | |r| <= k < |s| - 1 ensures IsSpace(s[k]) {
        assert s[k] == s[..|s| - 1][k];
      }
    }
  }

  /** An optional `+` or `-` followed by at least one decimal digit: the text `int()` accepts once trimmed. */
  predicate IsNumeral(t: string) {
    if |t| > 0 && (t[0] == '-' || t[0] == '+') then |t| > 1 && AllDigits(t[1..])
    else |t| > 0 && AllDigits(t)
  }

  /** `int(s)` for an optionally signed decimal numeral surrounded by white space. */
  function ParseInt(s: string): (r: Option<int>)
    ensures r.Some? <==> IsNumeral(TrimEnd(TrimStart(s)))
    ensures r.Some? && r.value < 0 ==> TrimEnd(TrimStart(s))[0] == '-'
  {
    var t := TrimEnd(TrimStart(s));
    if |t| > 0 && (t[0] == '-' || t[0] == '+') then
      match ParseNat(t[1..])
      case None => None
      case Some(n) => Some(if t[0] == '-' then -(n as int) else n)
    else
      match ParseNat(t)
      case None => None
      case Some(n) => Some(n)
  }

  /** Leading white space is dropped whatever follows it. */
  lemma {:induction false} TrimStartSpaces(pre: string, u: string)
    requires forall k :: 0 <= k < |pre| ==> IsSpace(pre[k])
    ensures TrimStart(pre + u) == TrimStart(u)
    decreases |pre|
  {
    if pre != [] {
      var rest := pre[1..];
      assert (pre + u)[0] == pre[0] && IsSpace(pre[0]);
      assert (pre + u)[1..] == rest + u;
      assert TrimStart(pre + u) == TrimStart(rest + u);
      assert forall k :: 0 <= k < |rest| ==> IsSpace(rest[k]) by {
        forall k | 0 <= k < |rest| ensures IsSpace(rest[k]) {
          assert rest[k] == pre[k + 1];
        }
      }
      TrimStartSpaces(rest, u);
    } else {
      assert pre + u == u;
    }
  }

  /** Trailing white space is dropped whatever precedes it. */
  lemma {:induction false} TrimEndSpaces(u: string, post: string)
    requires forall k :: 0 <= k < |post| ==> IsSpace(post[k])
    ensures TrimEnd(u + post) == TrimEnd(u)
    decreases |post|
  {
    if post != [] {
      var n := |post| - 1;
      var rest := post[..n];
      assert (u + post)[|u + post| - 1] == post[n] && IsSpace(post[n]);
      assert (u + post)[..|u + post| - 1] == u + rest;
      assert TrimEnd(u + post) == TrimEnd(u + rest);
      assert forall k :: 0 <= k < |rest| ==> IsSpace(rest[k]) by {
        forall k | 0 <= k < |rest| ensures IsSpace(rest[k]) {
          assert rest[k] == post[k];
        }
      }
      TrimEndSpaces(u, rest);
    } else {
      assert u + post == u;
    }
  }

  /**
   * White space around a numeral does not change what `int()` reads: a text
   * padded on both sides parses exactly when its core is a numeral, and to
   * the same value as the core alone.
   */
  lemma ParseIntPadded(pre: string, t: string, post: string)
    requires forall k :: 0 <= k < |pre| ==> IsSpace(pre[k])
    requires forall k :: 0 <= k < |post| ==> IsSpace(post[k])
    requires t == [] || (!IsSpace(t[0]) && !IsSpace(t[|t| - 1]))
    ensures ParseInt(pre + t + post) == ParseInt(t)
    ensures ParseInt(pre + t + post).Some? <==> IsNumeral(t)
  {
    assert pre + t + post == pre + (t + post);
    TrimStartSpaces(pre, t + post);
    if t == [] {
      assert t + post == post + [];
      TrimStartSpaces(post, []);
      assert TrimStart(t) == [];
    } else {
      assert (t + post)[0] == t[0];
      assert TrimStart(t + post) == t + post;
      assert TrimStart(t) == t;
      TrimEndSpaces(t, post);
      assert TrimEnd(t) == t;
    }
  }

  /** Tab, newline and space around a numeral are skipped; the information separators 0x1c to 0x1f are not. */
  lemma ParseIntSpaceExamples()
    ensures ParseInt("\t 5\n") == Some(5)
    ensures ParseInt("\U{1c}5") == None
    ensures ParseInt("5\U{1f}") == None
  {
    ParseIntPadded("\t ", "5", "\n");
    assert "\t " + "5" + "\n" == "\t 5\n";
    assert ParseNat("5") == Some(5);
    assert TrimStart("\U{1c}5") == "\U{1c}5";
    assert TrimEnd("5\U{1f}") == "5\U{1f}";
    assert TrimStart("5\U{1f}") == "5\U{1f}";
  }

  lemma TrimUnpadded(t: string)
    requires t != [] && !IsSpace(t[0]) && !IsSpace(t[|t| - 1])
    ensures TrimEnd(TrimStart(t)) == t
  {
    assert TrimStart(t) == t;
  }

  /** `int()` reads back what `str()` writes, for both signs. */
  lemma ParseIntDigitsOf(n: nat)
    ensures ParseInt(DigitsOf(n)) == Some(n)
    ensures ParseInt("-" + DigitsOf(n)) == Some(-(n as int))
  {
    var d := DigitsOf(n);
    ParseNatDigitsOf(n);
    TrimUnpadded(d);
    var m := "-" + d;
    assert m[1..] == d && m[|m| - 1] == d[|d| - 1];
    TrimUnpadded(m);
  }

  /** A Python list index into a list of length `len`: a negative index counts from the end. */
  function PyIndex(n: int, len: nat): (r: Option<nat>)
    ensures r.Some? <==> -(len as int) <= n < len
    ensures r.Some? ==> r.value < len
    ensures r.Some? && 0 <= n ==> r.value == n
    ensures r.Some? && n < 0 ==> r.value == n + len
  {
    if 0 <= n < len then Some(n)
    else if -(len as int) <= n < 0 then Some(n + len)
    else None
  }

  /** The element an index token picks from `cols`, or why it picks none. */
  function PickOne(cols: seq<string>, token: string): (r: Result<string, SelectError>)
    ensures r.Ok? ==> r.value in cols
    ensures r.Err? ==> r.error == NotAnInteger(token) || r.error.NoSuchColumn?
  {
    match ParseInt(token)
    case None => Err(NotAnInteger(token))
    case Some(n) =>
      match PyIndex(n, |cols|)
      case None => Err(NoSuchColumn(n))
      case Some(i) => Ok(cols[i])
  }

  /** The selection `o` extended in front by `names`; a failure stays a failure. */
  function Prepend(names: seq<string>, o: Outcome): Outcome {
    if o.Failed? then o else Selected(names + o.names)
  }

  lemma PrependTwice(a: seq<string>, b: seq<string>, o: Outcome)
    ensures Prepend(a, Prepend(b, o)) == Prepend(a + b, o)
  {
    if o.Selected? {
      assert a + (b + o.names) == (a + b) + o.names;
    }
  }

  /** What each index token of a line picks, in input order. */
  function PickEach(cols: seq<string>, tokens: seq<string>): (rs: seq<Result<string, SelectError>>)
    ensures |rs| == |tokens|
  {
    seq(|tokens|, k requires 0 <= k < |tokens| => PickOne(cols, tokens[k]))
  }

  /** The tokens' results taken in order: the first failure stops everything. */
  function Collect(rs: seq<Result<string, SelectError>>): Outcome
    decreases |rs|
  {
    if rs == [] then Selected([])
    else
      match rs[0]
      case Err(e) => Failed(e)
      case Ok(name) => Prepend([name], Collect(rs[1..]))
  }

  /** The columns one index line picks from `cols`. */
  function Pick(cols: seq<string>, tokens: seq<string>): Outcome {
    Collect(PickEach(cols, tokens))
  }

  /** Collecting succeeds iff every result does, and then it lists their values in order. */
  lemma {:induction false} CollectShape(rs: seq<Result<string, SelectError>>)
    ensures Collect(rs).Selected? <==> forall k :: 0 <= k < |rs| ==> rs[k].Ok?
    ensures Collect(rs).Selected? ==>
      && |Collect(rs).names| == |rs|
      && forall k :: 0 <= k < |rs| ==> Collect(rs).names[k] == rs[k].value
    decreases |rs|
  {
    if rs != [] {
      CollectShape(rs[1..]);
      forall k | 1 <= k < |rs| ensures rs[1..][k - 1] == rs[k] { }
    }
  }

  /** A failed collection reports the first failed result. */
  lemma {:induction false} CollectFirstError(rs: seq<Result<string, SelectError>>) returns (k: nat)
    requires Collect(rs).Failed?
    ensures k < |rs| && rs[k] == Err(Collect(rs).error)
    ensures forall j :: 0 <= j < k ==> rs[j].Ok?
    decreases |rs|
  {
    if rs[0].Err? {
      k := 0;
    } else {
      var k' := CollectFirstError(rs[1..]);
      k := k' + 1;
      forall j | 0 < j < k ensures rs[j].Ok? {
        assert rs[j] == rs[1..][j - 1];
      }
    }
  }

  /** A line selects iff every token picks a column, and then it selects one column per token, in order. */
  lemma PickShape(cols: seq<string>, tokens: seq<string>)
    ensures Pick(cols, tokens).Selected? <==> forall k :: 0 <= k < |tokens| ==> PickOne(cols, tokens[k]).Ok?
    ensures Pick(cols, tokens).Selected? ==>
      && |Pick(cols, tokens).names| == |tokens|
      && forall k :: 0 <= k < |tokens| ==> Pick(cols, tokens).names[k] == PickOne(cols, tokens[k]).value
  {
    var rs := PickEach(cols, tokens);
    CollectShape(rs);
    forall k | 0 <= k < |tokens| ensures rs[k] == PickOne(cols, tokens[k]) { }
  }

  /** A failed line reports the first token that picks nothing. */
  lemma PickFirstError(cols: seq<string>, tokens: seq<string>)
    requires Pick(cols, tokens).Failed?
    ensures exists k :: && 0 <= k < |tokens|
                        && PickOne(cols, tokens[k]) == Err(Pick(cols, tokens).error)
                        && forall j :: 0 <= j < k ==> PickOne(cols, tokens[j]).Ok?
  {
    var rs := PickEach(cols, tokens);
    var k := CollectFirstError(rs);
    assert PickOne(cols, tokens[k]) == rs[k];
    forall j | 0 <= j < k ensures PickOne(cols, tokens[j]).Ok? {
      assert PickOne(cols, tokens[j]) == rs[j];
    }
  }


  /** What one round of the loop, a device line and then an index line, does to the selection. */
  datatype Round = Confirm | Abort(error: SelectError) | Add(names: seq<string>)

  function NextRound(s: IndexState, lines: seq<string>): (r: Round)
    ensures r.Add? ==> |lines| >= 2
  {
    if lines == [] then Abort(EndOfInput)
    else if lines[0] == "" then Confirm
    else
      match ParseInt(lines[0])
      case None => Abort(NotAnInteger(lines[0]))
      case Some(n) =>
        match PyIndex(n, |s.families|)
        case None => Abort(NoSuchDevice(n))
        case Some(d) =>
          if |lines| == 1 then Abort(EndOfInput)
          else if lines[1] == "" then Add([])
          else
            match Pick(ColumnsOf(s, s.families[d]), Split(lines[1], ' '))
            case Failed(e) => Abort(e)
            case Selected(names) => Add(names)
  }

  /**
   * The selector loop from the selection made so far, over the remaining
   * input lines; the family list does not change during a session.
   */
  function Session(s: IndexState, lines: seq<string>, chosen: seq<string>): Outcome
    decreases |lines|
  {
    match NextRound(s, lines)
    case Confirm => Selected(chosen)
    case Abort(e) => Failed(e)
    case Add(names) => Session(s, lines[2..], chosen + names)
  }

  lemma CollectStep(rs: seq<Result<string, SelectError>>, j: int)
    requires 0 <= j < |rs|
    ensures rs[j].Err? ==> Collect(rs[j..]) == Failed(rs[j].error)
    ensures rs[j].Ok? ==> Collect(rs[j..]) == Prepend([rs[j].value], Collect(rs[j + 1..]))
  {
    assert rs[j..][0] == rs[j] && rs[j..][1..] == rs[j + 1..];
  }

  /** The loop over one line's index tokens, looking each up in the device's column list. */
  method PickIndices(index: ColFamInfo, device: string, tokens: seq<string>) returns (outcome: Outcome)
    requires index.Valid()
    ensures outcome == Pick(index.GetColnames(device), tokens)
  {
    ghost var rs := PickEach(index.GetColnames(device), tokens);
    var picked: seq<string> := [];
    assert rs[0..] == rs && Prepend([], Collect(rs)) == Collect(rs);
    for j := 0 to |tokens|
      invariant Collect(rs) == Prepend(picked, Collect(rs[j..]))
    {
      var one := PickOne(index.GetColnames(device), tokens[j]);
      assert one == rs[j];
      CollectStep(rs, j);
      if one.Err? {
        return Failed(one.error);
      }
      PrependTwice(picked, [one.value], Collect(rs[j + 1..]));
      picked := picked + [one.value];
    }
    assert rs[|tokens|..] == [];
    return Selected(picked);
  }

  /** `select_columns`: the device/index prompts repeated until an empty device line. */
  method SelectColumns(index: ColFamInfo, lines: seq<string>) returns (outcome: Outcome)
    requires index.Valid()
    ensures outcome == Session(index.State(), lines, [])
  {
    ghost var s := index.State();
    var selected: seq<string> := [];
    var i := 0;
    while true
      invariant 0 <= i <= |lines|
      invariant Session(s, lines, []) == Session(s, lines[i..], selected)
      decreases |lines| - i
    {
      var devices := index.GetFamilies();
      assert devices == s.families;
      if i == |lines| {
        return Failed(EndOfInput);
      }
      var deviceLine := lines[i];
      if deviceLine == "" {
        return Selected(selected);
      }
      var n := ParseInt(deviceLine);
      if n.None? {
        return Failed(NotAnInteger(deviceLine));
      }
      var d := PyIndex(n.value, |devices|);
      if d.None? {
        return Failed(NoSuchDevice(n.value));
      }
      var device := devices[d.value];
      if i + 1 == |lines| {
        return Failed(EndOfInput);
      }
      var indices := lines[i + 1];
      ghost var remaining := lines[i..];
      assert remaining[0] == deviceLine && remaining[1] == indices && remaining[2..] == lines[i + 2..];
      i := i + 2;
      if indices == "" {
        assert NextRound(s, remaining) == Add([]);
        assert selected + [] == selected;
        continue;
      }
      var picked := PickIndices(index, device, Split(indices, ' '));
      assert index.GetColnames(device) == ColumnsOf(s, s.families[d.value]);
      if picked.Failed? {
        assert NextRound(s, remaining) == Abort(picked.error);
        return picked;
      }
      selected := selected + picked.names;
      assert NextRound(s, remaining) == Add(picked.names);
    }
  }

  /** The columns a round adds all come from the list of the device it chose. */
  lemma RoundFamily(s: IndexState, lines: seq<string>) returns (f: string)
    requires NextRound(s, lines).Add?
    ensures f in s.families
    ensures forall c :: c in NextRound(s, lines).names ==> c in ColumnsOf(s, f)
  {
    var d := PyIndex(ParseInt(lines[0]).value, |s.families|).value;
    f := s.families[d];
    if lines[1] != "" {
      var o := Pick(ColumnsOf(s, f), Split(lines[1], ' '));
      PickShape(ColumnsOf(s, f), Split(lines[1], ' '));
      assert NextRound(s, lines).names == o.names;
      assert forall k :: 0 <= k < |o.names| ==> o.names[k] in ColumnsOf(s, f);
    }
  }

  /** A session selects only indexed columns, after what was chosen before it. */
  lemma {:induction false} SessionSelectsIndexed(s: IndexState, lines: seq<string>, chosen: seq<string>)
    requires WellFormed(s)
    ensures Session(s, lines, chosen).Selected? ==>
      var names := Session(s, lines, chosen).names;
      && |chosen| <= |names| && names[..|chosen|] == chosen
      && forall k :: |chosen| <= k < |names| ==> FamilyOf(s, names[k]).Some?
    decreases |lines|
  {
    var r := NextRound(s, lines);
    if r.Add? {
      var f := RoundFamily(s, lines);
      var more := chosen + r.names;
      assert Session(s, lines, chosen) == Session(s, lines[2..], more);
      SessionSelectsIndexed(s, lines[2..], more);
      var rest := Session(s, lines[2..], more);
      if rest.Selected? {
        var names := rest.names;
        assert names[..|chosen|] == more[..|chosen|];
        forall k | |chosen| <= k < |names| ensures FamilyOf(s, names[k]).Some? {
          if k < |more| {
            var c := r.names[k - |chosen|];
            assert names[k] == more[k] == c && c in r.names;
            assert c in ColumnsOf(s, f) && f in s.columnsOf;
          }
        }
      }
    }
  }

  /** A choice a user can make at the prompts: a device index, then column indices into its list. */
  datatype Choice = Choice(device: nat, columns: seq<nat>)

  predicate ValidChoice(s: IndexState, c: Choice) {
    && c.device < |s.families|
    && forall k :: 0 <= k < |c.columns| ==> c.columns[k] < |ColumnsOf(s, s.families[c.device])|
  }

  /** The decimal numerals of some indices. */
  function Numerals(ks: seq<nat>): (r: seq<string>)
    ensures |r| == |ks| && forall k :: 0 <= k < |ks| ==> r[k] == DigitsOf(ks[k])
  {
    seq(|ks|, k requires 0 <= k < |ks| => DigitsOf(ks[k]))
  }

  /** The input lines that make a sequence of choices. */
  function Script(choices: seq<Choice>): seq<string>
    decreases |choices|
  {
    if choices == [] then []
    else [DigitsOf(choices[0].device), Join(Numerals(choices[0].columns), ' ')] + Script(choices[1..])
  }

  /** The columns one valid choice names, in the order its indices are given. */
  function Picked(s: IndexState, c: Choice): seq<string>
    requires ValidChoice(s, c)
  {
    var cols := ColumnsOf(s, s.families[c.device]);
    seq(|c.columns|, k requires 0 <= k < |c.columns| => cols[c.columns[k]])
  }

  /** The columns a sequence of valid choices names. */
  function AllPicked(s: IndexState, choices: seq<Choice>): seq<string>
    requires forall k :: 0 <= k < |choices| ==> ValidChoice(s, choices[k])
    decreases |choices|
  {
    if choices == [] then [] else Picked(s, choices[0]) + AllPicked(s, choices[1..])
  }

  lemma PickOneNumeral(cols: seq<string>, i: nat)
    requires i < |cols|
    ensures PickOne(cols, DigitsOf(i)) == Ok(cols[i])
  {
    ParseIntDigitsOf(i);
  }

  /** The index line of a valid choice picks exactly the columns the choice names. */
  lemma PickedByLine(s: IndexState, c: Choice)
    requires ValidChoice(s, c) && c.columns != []
    ensures Pick(ColumnsOf(s, s.families[c.device]), Split(Join(Numerals(c.columns), ' '), ' ')) == Selected(Picked(s, c))
  {
    var cols := ColumnsOf(s, s.families[c.device]);
    var tokens := Numerals(c.columns);
    forall k | 0 <= k < |tokens| ensures ' ' !in tokens[k] {
      assert AllDigits(tokens[k]);
    }
    SplitJoin(tokens, ' ');
    forall k | 0 <= k < |tokens| ensures PickOne(cols, tokens[k]) == Ok(cols[c.columns[k]]) {
      PickOneNumeral(cols, c.columns[k]);
    }
    var o := Pick(cols, tokens);
    PickShape(cols, tokens);
    assert o.Selected?;
    assert o.names == Picked(s, c);
  }

  /** One round driven by a valid choice adds the columns it names. */
  lemma RoundOfChoice(s: IndexState, c: Choice, rest: seq<string>)
    requires ValidChoice(s, c)
    ensures NextRound(s, [DigitsOf(c.device), Join(Numerals(c.columns), ' ')] + rest) == Add(Picked(s, c))
  {
    var line := Join(Numerals(c.columns), ' ');
    var lines := [DigitsOf(c.device), line] + rest;
    assert lines[0] == DigitsOf(c.device) && lines[1] == line && |lines| >= 2;
    ParseIntDigitsOf(c.device);
    assert PyIndex(c.device, |s.families|) == Some(c.device);
    if c.columns == [] {
      assert line == "";
      assert Picked(s, c) == [];
    } else {
      assert |line| >= |DigitsOf(c.columns[0])| > 0;
      PickedByLine(s, c);
    }
  }

  lemma ConcatAssoc(a: seq<string>, b: seq<string>, c: seq<string>)
    ensures a + b + c == a + (b + c)
  {
  }

  /**
   * Typing the numerals of valid choices and then an empty device line
   * selects the named columns, choice by choice and in the order given.
   */
  lemma {:induction false} ScriptedSession(s: IndexState, choices: seq<Choice>, chosen: seq<string>)
    requires forall k :: 0 <= k < |choices| ==> ValidChoice(s, choices[k])
    ensures Session(s, Script(choices) + [""], chosen) == Selected(chosen + AllPicked(s, choices))
    decreases |choices|
  {
    if choices == [] {
      assert Script(choices) + [""] == [""];
    } else {
      var c := choices[0];
      var tail := Script(choices[1..]) + [""];
      var lines := [DigitsOf(c.device), Join(Numerals(c.columns), ' ')] + tail;
      assert Script(choices) + [""] == lines;
      RoundOfChoice(s, c, tail);
      assert lines[2..] == tail;
      assert Session(s, lines, chosen) == Session(s, tail, chosen + Picked(s, c));
      ScriptedSession(s, choices[1..], chosen + Picked(s, c));
      var later := AllPicked(s, choices[1..]);
      assert AllPicked(s, choices) == Picked(s, c) + later;
      ConcatAssoc(chosen, Picked(s, c), later);
    }
  }
}
