/**
 * The physical unit of a sensor column, taken from its name: the text between
 * the last `[` and the last `]`, computed exactly as the Python slice
 * `name[name.rfind('[') + 1 : name.rfind(']')]` computes it, degenerate cases included.
 */
module Units {
  import opened Strings

  function GetUnit(name: string): (unit: string)
    ensures '[' !in unit
  {
    var start := LastIndexOf(name, '[') + 1;
    var end := LastIndexOf(name, ']');
    Slice(name, start, end)
  }

  /** `c` occurs at `p` and nowhere after it, so `rfind` finds `p`. */
  lemma LastIndexAt(s: string, c: char, p: nat)
    requires p < |s| && s[p] == c
    requires forall k :: p < k < |s| ==> s[k] != c
    ensures LastIndexOf(s, c) == p
  {
  }

  /**
   * A name ending in a bracketed unit: the unit is exactly the text strictly
   * between the last `[` and the last `]`, even when that text holds `]`.
   */
  lemma UnitOfBracketedSuffix(prefix: string, unit: string, suffix: string)
    requires '[' !in unit
    requires '[' !in suffix && ']' !in suffix
    ensures GetUnit(prefix + "[" + unit + "]" + suffix) == unit
  {
    var name := prefix + "[" + unit + "]" + suffix;
    var i, j := |prefix|, |prefix| + 1 + |unit|;
    assert name[i] == '[' && name[j] == ']';
    forall k | i < k < |name|
      ensures name[k] != '['
    {
      if k < j { assert name[k] == unit[k - i - 1]; }
      else if k > j { assert name[k] == suffix[k - j - 1]; }
    }
    forall k | j < k < |name|
      ensures name[k] != ']'
    {
      assert name[k] == suffix[k - j - 1];
    }
    LastIndexAt(name, '[', i);
    LastIndexAt(name, ']', j);
    assert name[i + 1..j] == unit;
  }

  /** Without any bracket both `rfind`s give -1 and the slice `name[0:-1]` drops the last character. */
  lemma UnitWithoutBrackets(name: string)
    requires '[' !in name && ']' !in name
    ensures GetUnit(name) == if |name| == 0 then "" else name[..|name| - 1]
  {
  }

  /**
   * An opening bracket with no closing bracket anywhere: `rfind(']')` is -1,
   * so the slice `name[start:-1]` keeps the text after the last `[` without
   * its final character.
   */
  lemma UnitOfUnclosed(prefix: string, rest: string)
    requires ']' !in prefix && '[' !in rest && ']' !in rest
    ensures GetUnit(prefix + "[" + rest) == if |rest| > 0 then rest[..|rest| - 1] else ""
  {
    var name := prefix + "[" + rest;
    var i := |prefix|;
    assert name[i] == '[';
    forall k | i < k < |name| ensures name[k] != '[' {
      assert name[k] == rest[k - i - 1];
    }
    LastIndexAt(name, '[', i);
    forall k | 0 <= k < |name| ensures name[k] != ']' {
      if k < i { assert name[k] == prefix[k]; }
      else if k > i { assert name[k] == rest[k - i - 1]; }
    }
    assert LastIndexOf(name, ']') == -1;
    if |rest| > 0 {
      assert name[i + 1..|name| - 1] == rest[..|rest| - 1];
    }
  }

  /**
   * A closing bracket with no opening bracket anywhere: `rfind('[')` is -1,
   * so the slice starts at 0 and the unit is everything before the last `]`.
   */
  lemma UnitOfUnopened(prefix: string, suffix: string)
    requires '[' !in prefix && '[' !in suffix && ']' !in suffix
    ensures GetUnit(prefix + "]" + suffix) == prefix
  {
    var name := prefix + "]" + suffix;
    var j := |prefix|;
    assert name[j] == ']';
    forall k | j < k < |name| ensures name[k] != ']' {
      assert name[k] == suffix[k - j - 1];
    }
    LastIndexAt(name, ']', j);
    forall k | 0 <= k < |name| ensures name[k] != '[' {
      if k < j { assert name[k] == prefix[k]; }
      else if k > j { assert name[k] == suffix[k - j - 1]; }
    }
    assert LastIndexOf(name, '[') == -1;
    assert name[..j] == prefix;
  }

  /** When the last `]` comes before the last `[`, the slice is empty. */
  lemma UnitOfCrossedBrackets(name: string)
    requires 0 <= LastIndexOf(name, ']') < LastIndexOf(name, '[')
    ensures GetUnit(name) == ""
  {
  }

  /** A bracket-enclosed text without `[` is its own unit, even when it contains `]`. */
  lemma UnitOfEnclosed(unit: string)
    requires '[' !in unit
    ensures GetUnit("[" + unit + "]") == unit
  {
    var name := "[" + unit + "]";
    forall k | 0 < k < |name|
      ensures name[k] != '['
    {
      if k <= |unit| { assert name[k] == unit[k - 1]; }
    }
    LastIndexAt(name, '[', 0);
    LastIndexAt(name, ']', |name| - 1);
    assert name[1..|name| - 1] == unit;
  }

  /** Unit extraction is idempotent: re-extracting from `[u]` for an extracted unit `u` gives `u` again. */
  lemma UnitIdempotent(name: string)
    ensures GetUnit("[" + GetUnit(name) + "]") == GetUnit(name)
  {
    UnitOfEnclosed(GetUnit(name));
  }
}
