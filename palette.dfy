/** `create_iso_colormap`: the five fixed layer colours, looked up cyclically
    by iso level. */
module Palette {

  /** An integer RGB triple as the layer loop hands it to the PLY writer. */
  datatype Rgb8 = Rgb8(r: int, g: int, b: int)

  predicate ByteRange(c: Rgb8)
  {
    0 <= c.r <= 255 && 0 <= c.g <= 255 && 0 <= c.b <= 255
  }

  /** Red, orange, yellow, green, blue. */
  const Colours: seq<Rgb8> := [Rgb8(255, 0, 0), Rgb8(255, 165, 0), Rgb8(255, 255, 0), Rgb8(0, 255, 0), Rgb8(0, 0, 255)]

  /** `color_palette[iso_level % len(color_palette)]`.  Python's `%` by a
      positive divisor is never negative, as Dafny's is, so negative levels
      index the palette the same way.  The level count is accepted and
      ignored, as in the source. */
  function IsoColour(level: int, totalLevels: int): (c: Rgb8)
    ensures ByteRange(c)
  {
    Colours[level % |Colours|]
  }

  /** Every level gets one of the five palette colours. */
  lemma IsoColourInPalette(level: int, t: int)
    ensures IsoColour(level, t) in Colours
  {
  }

  /** The colour depends on the level alone. */
  lemma IsoColourIgnoresTotal(level: int, t: int, t': int)
    ensures IsoColour(level, t) == IsoColour(level, t')
  {
  }

  /** The palette repeats every five levels. */
  lemma IsoColourPeriodic(level: int, t: int)
    ensures IsoColour(level + 5, t) == IsoColour(level, t)
  {
    assert (level + 5) % 5 == level % 5;
  }

  /** Levels 0 to 4 get red, orange, yellow, green and blue, in order. */
  lemma IsoColourFirstLevels(t: int)
    ensures IsoColour(0, t) == Rgb8(255, 0, 0) && IsoColour(1, t) == Rgb8(255, 165, 0)
    ensures IsoColour(2, t) == Rgb8(255, 255, 0) && IsoColour(3, t) == Rgb8(0, 255, 0)
    ensures IsoColour(4, t) == Rgb8(0, 0, 255)
  {
  }

  /** Every palette colour is used: any five consecutive levels take all
      five colours. */
  lemma IsoColourCovers(c: Rgb8, level: int, t: int)
    requires c in Colours
    ensures exists k :: level <= k < level + 5 && IsoColour(k, t) == c
  {
    var i :| 0 <= i < |Colours| && Colours[i] == c;
    var q, r := level / 5, level % 5;
    var k := if i >= r then 5 * q + i else 5 * q + 5 + i;
    assert k % 5 == i;
    assert IsoColour(k, t) == c;
  }

  /** Neighbouring levels, and any two levels fewer than five apart, are
      told apart by colour. */
  lemma IsoColourDistinct(level: int, level': int, t: int)
    requires level < level' < level + 5
    ensures IsoColour(level, t) != IsoColour(level', t)
  {
    var k, k' := level % 5, level' % 5;
    assert level' - level == (level' / 5 - level / 5) * 5 + (k' - k);
    assert k != k';
  }
}
