/**
 * Sorting the selection into units: `cols_by_units` maps each unit to the
 * selected columns that carry it, in selection order, and its keys follow
 * the order in which each unit first appears. One chart is drawn per key.
 */
module Grouping {
  import opened Seqs
  import opened Units

  /** The unit of every selected column, in selection order. */
  function UnitsOf(names: seq<string>): (units: seq<string>)
    ensures |units| == |names|
    ensures forall k :: 0 <= k < |names| ==> units[k] == GetUnit(names[k])
  {
    seq(|names|, k requires 0 <= k < |names| => GetUnit(names[k]))
  }

  /** The key order of `cols_by_units`: each unit once, where it first appears. */
  function Keys(names: seq<string>): (keys: seq<string>)
    ensures Distinct(keys)
    ensures forall u :: u in keys <==> exists k :: 0 <= k < |names| && GetUnit(names[k]) == u
  {
    var units := UnitsOf(names);
    assert forall u :: u in units <==> exists k :: 0 <= k < |names| && GetUnit(names[k]) == u by {
      forall u ensures u in units ==> exists k :: 0 <= k < |names| && GetUnit(names[k]) == u {
        if u in units {
          var k :| 0 <= k < |units| && units[k] == u;
          assert GetUnit(names[k]) == u;
        }
      }
    }
    AppendNew([], units)
  }

  /** The group of unit `u`: the selected columns with that unit, in selection order. */
  function WithUnit(names: seq<string>, u: string): (group: seq<string>)
    ensures forall k :: 0 <= k < |group| ==> GetUnit(group[k]) == u
    decreases |names|
  {
    if names == [] then []
    else
      var last := names[|names| - 1];
      var prefix := names[..|names| - 1];
      assert names == prefix + [last];
      WithUnit(prefix, u) + (if GetUnit(last) == u then [last] else [])
  }

  /** The units are keyed in the order in which each first occurs in the selection. */
  lemma KeysFollowFirstAppearance(names: seq<string>)
    ensures var keys := Keys(names);
      forall i, j :: 0 <= i < j < |keys| ==> FirstIndex(UnitsOf(names), keys[i]) < FirstIndex(UnitsOf(names), keys[j])
  {
    AppendNewFirstSeen(UnitsOf(names));
  }

  /** The groups of `keys` laid end to end, in key order. */
  function Concat(keys: seq<string>, names: seq<string>): seq<string>
    decreases |keys|
  {
    if keys == [] then [] else WithUnit(names, keys[0]) + Concat(keys[1..], names)
  }

  lemma {:induction false} ConcatSnoc(keys: seq<string>, u: string, names: seq<string>)
    ensures Concat(keys + [u], names) == Concat(keys, names) + WithUnit(names, u)
    decreases |keys|
  {
    if keys != [] {
      assert (keys + [u])[1..] == keys[1..] + [u];
      ConcatSnoc(keys[1..], u, names);
    } else {
      assert ([] + [u])[1..] == [];
    }
  }

  lemma PrefixStep(names: seq<string>, i: nat)
    requires i < |names|
    ensures names[..i + 1] == names[..i] + [names[i]]
  {
  }

  /** One more selected column: its unit becomes a key if new, and it joins the end of that group. */
  lemma GroupStep(names: seq<string>, name: string)
    ensures AppendNew([], UnitsOf(names + [name])) ==
      var keys := AppendNew([], UnitsOf(names));
      if GetUnit(name) in keys then keys else keys + [GetUnit(name)]
    ensures forall u :: WithUnit(names + [name], u) == WithUnit(names, u) + (if GetUnit(name) == u then [name] else [])
  {
    var longer := names + [name];
    assert longer[..|names|] == names;
    assert UnitsOf(longer) == UnitsOf(names) + [GetUnit(name)];
    assert UnitsOf(longer)[..|names|] == UnitsOf(names);
  }

  /** `units` and `groups` are the key order and the contents of `cols_by_units` after the columns `names`. */
  ghost predicate Grouped(names: seq<string>, units: seq<string>, groups: map<string, seq<string>>) {
    && units == AppendNew([], UnitsOf(names))
    && (forall u :: u in groups <==> u in units)
    && (forall u :: u in groups ==> groups[u] == WithUnit(names, u))
  }

  /** One iteration of the grouping loop keeps `Grouped`: the column's unit gets a (new) key and the column joins its list. */
  lemma GroupedStep(names: seq<string>, name: string, units: seq<string>, groups: map<string, seq<string>>,
                    units': seq<string>, groups': map<string, seq<string>>)
    requires Grouped(names, units, groups)
    requires units' == if GetUnit(name) in groups then units else units + [GetUnit(name)]
    requires forall u :: u in groups' <==> u in groups || u == GetUnit(name)
    requires GetUnit(name) in groups' &&
      groups'[GetUnit(name)] == (if GetUnit(name) in groups then groups[GetUnit(name)] else []) + [name]
    requires forall u :: u in groups && u != GetUnit(name) ==> groups'[u] == groups[u]
    ensures Grouped(names + [name], units', groups')
  {
    GroupStep(names, name);
    var u := GetUnit(name);
    if u !in groups {
      WithUnitAbsent(names, u);
    }
  }

  /** The grouping loop, with the dictionary's key order kept as a sequence next to the map. */
  method GroupByUnit(selected: seq<string>) returns (units: seq<string>, groups: map<string, seq<string>>)
    ensures units == Keys(selected)
    ensures forall u :: u in groups <==> u in units
    ensures forall u :: u in groups ==> groups[u] == WithUnit(selected, u)
  {
    units := [];
    groups := map[];
    for i := 0 to |selected|
      invariant Grouped(selected[..i], units, groups)
    {
      var name := selected[i];
      var unit := GetUnit(name);
      PrefixStep(selected, i);
      ghost var before, keys := groups, units;
      if unit !in groups {
        groups := groups[unit := []];
        units := units + [unit];
      }
      groups := groups[unit := groups[unit] + [name]];
      GroupedStep(selected[..i], name, keys, before, units, groups);
    }
    assert selected[..|selected|] == selected;
  }

  /** A unit no selected column carries has an empty group. */
  lemma {:induction false} WithUnitAbsent(names: seq<string>, u: string)
    requires u !in UnitsOf(names)
    ensures WithUnit(names, u) == []
    decreases |names|
  {
    if names != [] {
      var prefix := names[..|names| - 1];
      assert u != GetUnit(names[|names| - 1]);
      assert UnitsOf(names) == UnitsOf(prefix) + [GetUnit(names[|names| - 1])];
      WithUnitAbsent(prefix, u);
    }
  }

  /** Selecting one more column adds it to its unit's group, once, if that unit is among `keys`. */
  lemma {:induction false} ConcatStep(keys: seq<string>, names: seq<string>, name: string)
    requires Distinct(keys)
    ensures multiset(Concat(keys, names + [name])) ==
      multiset(Concat(keys, names)) + (if GetUnit(name) in keys then multiset{name} else multiset{})
    decreases |keys|
  {
    if keys != [] {
      var k := keys[0];
      var rest := keys[1..];
      assert Distinct(rest) && k !in rest by {
        assert forall i :: 0 <= i < |rest| ==> rest[i] == keys[i + 1];
      }
      ConcatStep(rest, names, name);
      var longer := names + [name];
      assert longer[..|longer| - 1] == names;
      assert GetUnit(name) in keys <==> GetUnit(name) in rest || GetUnit(name) == k;
    }
  }

  /** Drawing the groups one after another draws every selected column exactly as often as it was selected. */
  lemma {:induction false} GroupsPermutation(names: seq<string>)
    ensures multiset(Concat(Keys(names), names)) == multiset(names)
    decreases |names|
  {
    if names != [] {
      var prefix := names[..|names| - 1];
      var name := names[|names| - 1];
      var u := GetUnit(name);
      assert names == prefix + [name];
      GroupsPermutation(prefix);
      var keys := Keys(prefix);
      assert UnitsOf(names) == UnitsOf(prefix) + [u];
      ConcatStep(keys, prefix, name);
      if u in keys {
        assert Keys(names) == keys;
      } else {
        assert Keys(names) == keys + [u];
        ConcatSnoc(keys, u, names);
        assert u !in UnitsOf(prefix);
        WithUnitAbsent(prefix, u);
        assert WithUnit(names, u) == [name];
      }
    }
  }
}
