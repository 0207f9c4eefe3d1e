/**
 * The colour cycler (`ColorFactory`): a counter over a fixed palette of nine
 * colour names. `Next` hands out the colour at the counter modulo nine and
 * advances the counter; `Reset` sets it back to zero.
 */
module Colors {
  import opened Seqs

  const Palette: seq<string> := ["red", "blue", "green", "purple", "orange", "brown", "cyan", "magenta", "gray"]

  /** The colour handed out when the counter stands at `k`. */
  function ColorAt(k: nat): string {
    Palette[k % |Palette|]
  }

  lemma PaletteDistinct()
    ensures |Palette| == 9 && Distinct(Palette)
  {
  }

  /** The cycle has period exactly nine: two counter values give the same colour iff they agree modulo nine. */
  lemma ColorAtCycle(j: nat, k: nat)
    ensures ColorAt(j) == ColorAt(k) <==> j % 9 == k % 9
  {
    PaletteDistinct();
    if ColorAt(j) == ColorAt(k) {
      assert Palette[j % 9] == Palette[k % 9];
    }
  }

  /** Up to nine consecutive draws give pairwise different colours. */
  lemma ColorsOfRunDistinct(start: nat, n: nat)
    requires n <= 9
    ensures Distinct(seq(n, k requires 0 <= k < n => ColorAt(start + k)))
  {
    var run := seq(n, k requires 0 <= k < n => ColorAt(start + k));
    forall i, j | 0 <= i < j < n
      ensures run[i] != run[j]
    {
      ColorAtCycle(start + i, start + j);
    }
  }

  class ColorFactory {
    const colors: seq<string> := Palette
    var currColorIndex: nat

    /** The class attributes as defined: the counter starts at zero. */
    constructor ()
      ensures currColorIndex == 0
    {
      currColorIndex := 0;
    }

    /** `reset`: the counter back to zero, so that the next colour is "red". */
    method Reset()
      modifies this
      ensures currColorIndex == 0
      ensures ColorAt(currColorIndex) == "red"
    {
      currColorIndex := 0;
    }

    /** `next`: the palette entry at the counter modulo nine; then the counter advances by one. */
    method Next() returns (c: string)
      modifies this
      ensures c == ColorAt(old(currColorIndex))
      ensures currColorIndex == old(currColorIndex) + 1
    {
      c := colors[currColorIndex % |colors|];
      currColorIndex := currColorIndex + 1;
    }
  }
}
