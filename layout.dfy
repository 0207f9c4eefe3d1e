/**
 * The layout file: a selection of column names stored as text, one name per
 * line. Exporting writes `name + "\n"` for each name; loading reads the lines
 * back (`readlines()` in text mode, where "\r\n" and a lone "\r" both read as
 * "\n") and deletes the "\n" from each of them, in place in the list.
 */
module Layout {
  import opened Strings

  /** The text the export loop writes for a selection. */
  function Serialize(names: seq<string>): string
    decreases |names|
  {
    if names == [] then "" else names[0] + "\n" + Serialize(names[1..])
  }

  lemma {:induction false} SerializeAppend(names: seq<string>, name: string)
    ensures Serialize(names + [name]) == Serialize(names) + name + "\n"
    decreases |names|
  {
    if names != [] {
      assert (names + [name])[1..] == names[1..] + [name];
      SerializeAppend(names[1..], name);
    }
  }

  /** The export loop: `file.write(colname + "\n")` for each selected column. */
  method Export(names: seq<string>) returns (text: string)
    ensures text == Serialize(names)
  {
    text := "";
    for i := 0 to |names|
      invariant text == Serialize(names[..i])
    {
      SerializeAppend(names[..i], names[i]);
      assert names[..i + 1] == names[..i] + [names[i]];
      text := text + names[i] + "\n";
    }
    assert names[..|names|] == names;
  }

  /** Universal newlines on reading: "\r\n" and a lone "\r" both become "\n". */
  function Translate(text: string): (r: string)
    ensures '\r' !in r
    ensures '\r' !in text ==> r == text
    decreases |text|
  {
    if text == [] then []
    else if text[0] == '\r' then
      "\n" + Translate(if |text| > 1 && text[1] == '\n' then text[2..] else text[1..])
    else [text[0]] + Translate(text[1..])
  }

  /** Text-mode writing on Windows: every "\n" written reaches the file as "\r\n". */
  function ToCrlf(text: string): string
    decreases |text|
  {
    if text == [] then []
    else (if text[0] == '\n' then "\r\n" else [text[0]]) + ToCrlf(text[1..])
  }

  /** Reading with universal newlines undoes the Windows line endings of text-mode writing. */
  lemma {:induction false} TranslateToCrlf(text: string)
    requires '\r' !in text
    ensures Translate(ToCrlf(text)) == text
    decreases |text|
  {
    if text != [] {
      var rest := text[1..];
      assert '\r' !in rest by { assert forall j :: 0 <= j < |rest| ==> rest[j] == text[j + 1]; }
      TranslateToCrlf(rest);
      var w := ToCrlf(text);
      if text[0] == '\n' {
        assert w == "\r\n" + ToCrlf(rest);
        assert w[0] == '\r' && w[1] == '\n' && w[2..] == ToCrlf(rest);
        assert text == "\n" + rest;
      } else {
        assert w == [text[0]] + ToCrlf(rest);
        assert w[0] != '\r' && w[1..] == ToCrlf(rest);
        assert text == [text[0]] + rest;
      }
    }
  }

  /** `readlines()`: the text cut after each "\n", which every line but possibly the last keeps. */
  function Lines(text: string): (lines: seq<string>)
    decreases |text|
  {
    if text == [] then []
    else
      var k := IndexOf(text, '\n');
      if k < 0 then [text] else [text[..k + 1]] + Lines(text[k + 1..])
  }

  /** `selected_cols[i].replace("\n", "")` for every line. */
  function StripLines(lines: seq<string>): (names: seq<string>)
    ensures |names| == |lines|
    ensures forall i :: 0 <= i < |lines| ==> names[i] == RemoveAll(lines[i], '\n')
    decreases |lines|
  {
    if lines == [] then [] else [RemoveAll(lines[0], '\n')] + StripLines(lines[1..])
  }

  /** The selection read from a layout file's text. */
  function Parse(text: string): seq<string> {
    StripLines(Lines(Translate(text)))
  }

  /** Loading a layout: `readlines()`, then the loop that deletes "\n" from each entry of the list. */
  method Load(text: string) returns (names: seq<string>)
    ensures names == Parse(text)
    ensures forall i :: 0 <= i < |names| ==> '\n' !in names[i]
  {
    var lines := Lines(Translate(text));
    var selected := new string[|lines|](i requires 0 <= i < |lines| => lines[i]);
    for i := 0 to selected.Length
      invariant forall j :: 0 <= j < i ==> selected[j] == RemoveAll(lines[j], '\n')
      invariant forall j :: i <= j < selected.Length ==> selected[j] == lines[j]
    {
      selected[i] := RemoveAll(selected[i], '\n');
    }
    names := selected[..];
  }

  /** A name free of line breaks survives the line format. */
  predicate LineSafe(name: string) {
    '\n' !in name && '\r' !in name
  }

  lemma {:induction false} RemoveAllLine(name: string)
    requires '\n' !in name
    ensures RemoveAll(name + "\n", '\n') == name
    decreases |name|
  {
    if name != [] {
      assert (name + "\n")[1..] == name[1..] + "\n";
      RemoveAllLine(name[1..]);
    }
  }

  /** Loading what was exported gives back the selection, for names without line breaks. */
  lemma {:induction false} ParseSerialize(names: seq<string>)
    requires forall i :: 0 <= i < |names| ==> LineSafe(names[i])
    ensures Parse(Serialize(names)) == names
    decreases |names|
  {
    var text := Serialize(names);
    NoCarriageReturn(names);
    if names != [] {
      var name := names[0];
      assert text == (name + "\n") + Serialize(names[1..]);
      assert IndexOf(text, '\n') == |name| by {
        assert text[|name|] == '\n';
        forall k | 0 <= k < |name| ensures text[k] != '\n' {
          assert text[k] == name[k];
        }
      }
      assert text[..|name| + 1] == name + "\n";
      assert text[|name| + 1..] == Serialize(names[1..]);
      ParseSerialize(names[1..]);
      NoCarriageReturn(names[1..]);
      RemoveAllLine(name);
    }
  }

  lemma {:induction false} NoCarriageReturn(names: seq<string>)
    requires forall i :: 0 <= i < |names| ==> LineSafe(names[i])
    ensures '\r' !in Serialize(names)
    decreases |names|
  {
    if names != [] {
      NoCarriageReturn(names[1..]);
    }
  }

  /** An export written on Windows, with "\r\n" line ends, loads back as the selection too. */
  lemma ParseWindowsExport(names: seq<string>)
    requires forall i :: 0 <= i < |names| ==> LineSafe(names[i])
    ensures Parse(ToCrlf(Serialize(names))) == names
  {
    NoCarriageReturn(names);
    TranslateToCrlf(Serialize(names));
    ParseSerialize(names);
  }

  /** The first line of a text without "\r" that holds a "\n" is loaded as its text up to that "\n". */
  lemma ParseFirstLine(text: string, k: int)
    requires '\r' !in text
    requires k == IndexOf(text, '\n') && 0 <= k
    ensures '\r' !in text[k + 1..]
    ensures Parse(text) == [text[..k]] + Parse(text[k + 1..])
  {
    var rest := text[k + 1..];
    assert '\r' !in rest by { assert forall j :: 0 <= j < |rest| ==> rest[j] == text[k + 1 + j]; }
    var lines := Lines(text);
    assert Translate(text) == text;
    assert Translate(rest) == rest;
    assert lines == [text[..k + 1]] + Lines(rest);
    assert lines[1..] == Lines(rest);
    assert text[..k + 1] == text[..k] + "\n";
    RemoveAllLine(text[..k]);
    assert StripLines(lines) == [RemoveAll(lines[0], '\n')] + StripLines(lines[1..]);
  }

  lemma SerializeCons(name: string, names: seq<string>)
    ensures Serialize([name] + names) == name + "\n" + Serialize(names)
  {
    assert ([name] + names)[1..] == names;
  }

  lemma SplitAtNewline(text: string, k: int)
    requires 0 <= k < |text| && text[k] == '\n'
    ensures text == text[..k] + "\n" + text[k + 1..]
    ensures text[k + 1..] == [] || text[|text| - 1] == text[k + 1..][|text| - k - 2]
  {
    assert text == text[..k] + [text[k]] + text[k + 1..];
  }

  /** Re-exporting a loaded layout reproduces the file, when it has no "\r" and ends its last line. */
  lemma {:induction false} SerializeParse(text: string)
    requires '\r' !in text
    requires text == [] || text[|text| - 1] == '\n'
    ensures Serialize(Parse(text)) == text
    decreases |text|
  {
    if text != [] {
      var k := IndexOf(text, '\n');
      assert k >= 0 by { assert text[|text| - 1] == '\n'; }
      var rest := text[k + 1..];
      ParseFirstLine(text, k);
      SplitAtNewline(text, k);
      SerializeParse(rest);
      SerializeCons(text[..k], Parse(rest));
    }
  }
}
