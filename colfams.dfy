/**
 * The column-family index (`ColFamInfo`): which device family each column
 * belongs to, and which columns each family has. It is built in one pass over
 * the raw table from each column's trailer cell. The index lives in two
 * class-level dictionaries that `Init` only ever adds to: it never clears
 * them, so a second `Init` accumulates on top of the first.
 */
module ColFams {
  import opened Wrappers
  import opened Seqs
  import opened Tables

  /**
   * The content of the two dictionaries: `familyOf` is `colfam_by_col`,
   * `columnsOf` is `cols_by_colfam`, and `families` records the insertion
   * order of the keys of `cols_by_colfam`.
   */
  datatype IndexState = IndexState(
    familyOf: map<string, string>,
    columnsOf: map<string, seq<string>>,
    families: seq<string>)

  /** The dictionaries as the class defines them, before any `Init`. */
  const Empty := IndexState(map[], map[], [])

  function FamilyOf(s: IndexState, c: string): Option<string> {
    if c in s.familyOf then Some(s.familyOf[c]) else None
  }

  function ColumnsOf(s: IndexState, f: string): seq<string> {
    if f in s.columnsOf then s.columnsOf[f] else []
  }

  /**
   * What every reachable state satisfies: the key order lists each family
   * once, every family has a non-empty column list, every indexed column is
   * in the list of its family, and every listed column is indexed.
   */
  ghost predicate WellFormed(s: IndexState) {
    && Distinct(s.families)
    && (forall f :: f in s.columnsOf <==> f in s.families)
    && (forall f :: f in s.columnsOf ==> |s.columnsOf[f]| > 0)
    && (forall c :: c in s.familyOf ==> c in ColumnsOf(s, s.familyOf[c]))
    && (forall f, c :: f in s.columnsOf && c in s.columnsOf[f] ==> c in s.familyOf)
  }

  /** Both directions agree exactly: every listed column maps back to the family that lists it. */
  ghost predicate Agrees(s: IndexState) {
    forall f, c :: f in s.columnsOf && c in s.columnsOf[f] ==> FamilyOf(s, c) == Some(f)
  }

  /** One iteration of the `Init` loop: a labelled column is recorded under its label, a Missing one skipped. */
  function Register(s: IndexState, col: Column): IndexState
    requires |col.cells| > 0
  {
    match Trailer(col)
    case Missing => s
    case Text(f) =>
      IndexState(
        s.familyOf[col.name := f],
        s.columnsOf[f := ColumnsOf(s, f) + [col.name]],
        if f in s.columnsOf then s.families else s.families + [f])
  }

  /** The dictionaries after `Init` has passed over `t`, starting from `s`. */
  function Build(s: IndexState, t: seq<Column>): IndexState
    requires HasTrailer(t)
    decreases |t|
  {
    if t == [] then s else Register(Build(s, t[..|t| - 1]), t[|t| - 1])
  }

  /** Recording one column keeps the dictionaries well formed. */
  lemma RegisterWellFormed(s: IndexState, col: Column)
    requires WellFormed(s) && |col.cells| > 0
    ensures WellFormed(Register(s, col))
  {
  }

  /** Init keeps the dictionaries well formed, whatever they held before. */
  lemma {:induction false} BuildWellFormed(s: IndexState, t: seq<Column>)
    requires WellFormed(s) && HasTrailer(t)
    ensures WellFormed(Build(s, t))
    decreases |t|
  {
    if t != [] {
      BuildWellFormed(s, t[..|t| - 1]);
      RegisterWellFormed(Build(s, t[..|t| - 1]), t[|t| - 1]);
    }
  }

  // ---- Reference definitions, stated on the table alone ----

  /** The names of the columns whose trailer is the label `f`, in table order. */
  function LabelledNames(t: seq<Column>, f: string): seq<string>
    requires HasTrailer(t)
    decreases |t|
  {
    if t == [] then []
    else LabelledNames(t[..|t| - 1], f) + (if Trailer(t[|t| - 1]) == Text(f) then [t[|t| - 1].name] else [])
  }

  /** The trailer labels of the labelled columns, in table order (with repeats). */
  function Labels(t: seq<Column>): seq<string>
    requires HasTrailer(t)
    decreases |t|
  {
    if t == [] then []
    else Labels(t[..|t| - 1]) + (match Trailer(t[|t| - 1]) case Missing => [] case Text(f) => [f])
  }

  /** The label of the last labelled column named `c`, if there is one. */
  function LastLabel(t: seq<Column>, c: string): Option<string>
    requires HasTrailer(t)
    decreases |t|
  {
    if t == [] then None
    else if t[|t| - 1].name == c && Trailer(t[|t| - 1]).Text? then Some(Trailer(t[|t| - 1]).text)
    else LastLabel(t[..|t| - 1], c)
  }

  // ---- What a pass of Init does, from any starting state ----

  /** Each family's list grows by the table's columns with that label, in table order. */
  lemma {:induction false} BuildColumnsOf(s: IndexState, t: seq<Column>, f: string)
    requires HasTrailer(t)
    ensures ColumnsOf(Build(s, t), f) == ColumnsOf(s, f) + LabelledNames(t, f)
    decreases |t|
  {
    if t != [] {
      BuildColumnsOf(s, t[..|t| - 1], f);
    }
  }

  /** The family key order grows by the table's new labels, in order of first appearance. */
  lemma {:induction false} BuildFamilies(s: IndexState, t: seq<Column>)
    requires WellFormed(s) && HasTrailer(t)
    ensures Build(s, t).families == AppendNew(s.families, Labels(t))
    decreases |t|
  {
    if t != [] {
      var p, last := t[..|t| - 1], t[|t| - 1];
      var b := Build(s, p);
      BuildFamilies(s, p);
      BuildWellFormed(s, p);
      assert Build(s, t) == Register(b, last);
      match Trailer(last)
      case Missing =>
        assert Labels(t) == Labels(p);
      case Text(f) =>
        var xs := Labels(t);
        assert xs == Labels(p) + [f];
        assert xs[..|xs| - 1] == Labels(p);
        var r := AppendNew(s.families, Labels(p));
        assert AppendNew(s.families, xs) == if f in r then r else r + [f];
        assert WellFormed(b);
        assert f in b.columnsOf <==> f in r;
    }
  }

  /** A column's family is the label of its last labelled occurrence in the table, else what it was. */
  lemma {:induction false} BuildFamilyOf(s: IndexState, t: seq<Column>, c: string)
    requires HasTrailer(t)
    ensures FamilyOf(Build(s, t), c) == if LastLabel(t, c).Some? then LastLabel(t, c) else FamilyOf(s, c)
    decreases |t|
  {
    if t != [] {
      BuildFamilyOf(s, t[..|t| - 1], c);
    }
  }

  // ---- Facts about the reference definitions for tables with distinct column names ----

  lemma {:induction false} LastLabelAbsent(t: seq<Column>, c: string)
    requires HasTrailer(t)
    requires forall i :: 0 <= i < |t| ==> t[i].name != c
    ensures LastLabel(t, c) == None
    decreases |t|
  {
    if t != [] {
      LastLabelAbsent(t[..|t| - 1], c);
    }
  }

  lemma {:induction false} LastLabelOfColumn(t: seq<Column>, i: nat)
    requires HasTrailer(t) && Distinct(Names(t)) && i < |t|
    ensures LastLabel(t, t[i].name) == match Trailer(t[i]) case Missing => None case Text(f) => Some(f)
    decreases |t|
  {
    var p := t[..|t| - 1];
    if i < |t| - 1 {
      assert t[|t| - 1].name != t[i].name by { assert Names(t)[i] != Names(t)[|t| - 1]; }
      assert Names(p) == Names(t)[..|t| - 1];
      LastLabelOfColumn(p, i);
    } else {
      forall k | 0 <= k < |p| ensures p[k].name != t[i].name {
        assert Names(t)[k] != Names(t)[i];
      }
      LastLabelAbsent(p, t[i].name);
    }
  }

  lemma {:induction false} LabelledNamesSource(t: seq<Column>, f: string, c: string)
    requires HasTrailer(t) && c in LabelledNames(t, f)
    ensures exists i :: 0 <= i < |t| && t[i].name == c && Trailer(t[i]) == Text(f)
    decreases |t|
  {
    var p := t[..|t| - 1];
    if c in LabelledNames(p, f) {
      LabelledNamesSource(p, f, c);
      var i :| 0 <= i < |p| && p[i].name == c && Trailer(p[i]) == Text(f);
      assert t[i] == p[i];
    } else {
      assert t[|t| - 1].name == c && Trailer(t[|t| - 1]) == Text(f);
    }
  }

  lemma {:induction false} NotLabelledNotListed(t: seq<Column>, f: string, i: nat)
    requires HasTrailer(t) && Distinct(Names(t)) && i < |t|
    requires Trailer(t[i]) != Text(f)
    ensures t[i].name !in LabelledNames(t, f)
  {
    if t[i].name in LabelledNames(t, f) {
      LabelledNamesSource(t, f, t[i].name);
      var j :| 0 <= j < |t| && t[j].name == t[i].name && Trailer(t[j]) == Text(f);
    }
  }

  // ---- Init on a fresh index ----

  /** A column is indexed iff its trailer is a label, and then under that label. */
  lemma FreshIndexFamilyOf(t: seq<Column>, i: nat)
    requires HasTrailer(t) && Distinct(Names(t)) && i < |t|
    ensures FamilyOf(Build(Empty, t), t[i].name) == match Trailer(t[i]) case Missing => None case Text(f) => Some(f)
  {
    BuildFamilyOf(Empty, t, t[i].name);
    LastLabelOfColumn(t, i);
  }

  /** A column whose trailer is Missing is in neither dictionary. */
  lemma FreshIndexSkipsMissing(t: seq<Column>, i: nat)
    requires HasTrailer(t) && Distinct(Names(t)) && i < |t|
    requires Trailer(t[i]) == Missing
    ensures t[i].name !in Build(Empty, t).familyOf
    ensures forall f :: t[i].name !in ColumnsOf(Build(Empty, t), f)
  {
    FreshIndexFamilyOf(t, i);
    forall f ensures t[i].name !in ColumnsOf(Build(Empty, t), f) {
      BuildColumnsOf(Empty, t, f);
      NotLabelledNotListed(t, f, i);
    }
  }

  /** Families are listed in order of first appearance, each with its columns in table order. */
  lemma FreshIndexOrder(t: seq<Column>)
    requires HasTrailer(t)
    ensures Build(Empty, t).families == AppendNew([], Labels(t))
    ensures forall f :: ColumnsOf(Build(Empty, t), f) == LabelledNames(t, f)
  {
    BuildFamilies(Empty, t);
    forall f ensures ColumnsOf(Build(Empty, t), f) == LabelledNames(t, f) {
      BuildColumnsOf(Empty, t, f);
    }
  }

  /** Both directions agree: each listed family has columns, and each of them maps back to it. */
  lemma FreshIndexAgrees(t: seq<Column>)
    requires HasTrailer(t) && Distinct(Names(t))
    ensures Agrees(Build(Empty, t))
    ensures forall f :: f in Build(Empty, t).families ==> |ColumnsOf(Build(Empty, t), f)| > 0
  {
    var s := Build(Empty, t);
    forall f, c | f in s.columnsOf && c in s.columnsOf[f]
      ensures FamilyOf(s, c) == Some(f)
    {
      BuildColumnsOf(Empty, t, f);
      LabelledNamesSource(t, f, c);
      var i :| 0 <= i < |t| && t[i].name == c && Trailer(t[i]) == Text(f);
      FreshIndexFamilyOf(t, i);
    }
  }

  /** A second Init over the same table lists every labelled column twice. */
  lemma ReinitDuplicates(t: seq<Column>, f: string)
    requires HasTrailer(t)
    ensures ColumnsOf(Build(Build(Empty, t), t), f) == LabelledNames(t, f) + LabelledNames(t, f)
  {
    BuildColumnsOf(Empty, t, f);
    BuildColumnsOf(Build(Empty, t), t, f);
  }

  /** A second Init over the same table adds no family and keeps the family order. */
  lemma ReinitKeepsFamilies(t: seq<Column>)
    requires HasTrailer(t)
    ensures Build(Build(Empty, t), t).families == Build(Empty, t).families
  {
    var once := Build(Empty, t);
    BuildWellFormed(Empty, t);
    BuildFamilies(Empty, t);
    BuildFamilies(once, t);
    AppendNewKnown(once.families, Labels(t));
  }

  /** Offering only known keys leaves an insertion order unchanged. */
  lemma {:induction false} AppendNewKnown(known: seq<string>, xs: seq<string>)
    requires forall x :: x in xs ==> x in known
    ensures AppendNew(known, xs) == known
    decreases |xs|
  {
    if xs != [] {
      AppendNewKnown(known, xs[..|xs| - 1]);
    }
  }

  /** `ColFamInfo`: the two class-level dictionaries, shared by every caller. */
  class ColFamInfo {
    var familyByColumn: map<string, string>
    var columnsByFamily: map<string, seq<string>>
    var familyOrder: seq<string>

    function State(): IndexState
      reads this
    {
      IndexState(familyByColumn, columnsByFamily, familyOrder)
    }

    ghost predicate Valid()
      reads this
    {
      WellFormed(State())
    }

    /** The class attributes as defined: both dictionaries empty. */
    constructor ()
      ensures Valid() && State() == Empty
    {
      familyByColumn, columnsByFamily, familyOrder := map[], map[], [];
    }

    /** `init`: one pass over the columns, adding to the dictionaries without clearing them. */
    method Init(table: seq<Column>)
      requires Valid() && HasTrailer(table)
      modifies this
      ensures Valid()
      ensures State() == Build(old(State()), table)
    {
      for i := 0 to |table|
        invariant State() == Build(old(State()), table[..i])
      {
        assert table[..i + 1][..i] == table[..i];
        ghost var before := State();
        var name := table[i].name;
        var colfam := table[i].cells[|table[i].cells| - 1];
        if colfam.Missing? {
          assert Register(before, table[i]) == before;
          continue;
        }
        var f := colfam.text;
        familyByColumn := familyByColumn[name := f];
        if f !in columnsByFamily {
          columnsByFamily := columnsByFamily[f := []];
          familyOrder := familyOrder + [f];
        }
        assert columnsByFamily[f] == ColumnsOf(before, f);
        columnsByFamily := columnsByFamily[f := columnsByFamily[f] + [name]];
        assert columnsByFamily == before.columnsOf[f := ColumnsOf(before, f) + [name]];
        assert familyOrder == if f in before.columnsOf then before.families else before.families + [f];
        assert State() == Register(before, table[i]);
      }
      assert table[..|table|] == table;
      BuildWellFormed(old(State()), table);
    }

    /** `get_family`: None for a column that no family lists. */
    function GetFamily(name: string): (family: Option<string>)
      requires Valid()
      reads this
      ensures family.Some? ==> name in ColumnsOf(State(), family.value) && family.value in familyOrder
      ensures family.None? <==> forall f :: name !in ColumnsOf(State(), f)
    {
      if name in familyByColumn then Some(familyByColumn[name]) else None
    }

    /** `get_colnames`: the family's columns, [] for a family the index does not know. */
    function GetColnames(family: string): (names: seq<string>)
      requires Valid()
      reads this
      ensures |names| > 0 <==> family in familyOrder
      ensures forall c :: c in names ==> FamilyOf(State(), c).Some?
    {
      if family in columnsByFamily then columnsByFamily[family] else []
    }

    /** `get_families`: the families, each once, in the order they were first seen. */
    function GetFamilies(): (families: seq<string>)
      requires Valid()
      reads this
      ensures Distinct(families)
      ensures forall f :: f in families <==> |ColumnsOf(State(), f)| > 0
    {
      familyOrder
    }
  }
}
