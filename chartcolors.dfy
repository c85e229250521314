/**
 * The colour cycling shared by the line and pie charts: item `i` takes
 * colour `i mod 6` of a six-colour palette (the theme's blue, red, yellow,
 * teal, purple and orange, kept abstract here).
 */
module ChartColors {
  const PaletteSize: nat := 6

  /** A palette of the charts: six colour values. */
  predicate IsPalette(palette: seq<string>) {
    |palette| == PaletteSize
  }

  /** `defaultColors[index % defaultColors.length]`. */
  function CycleColor(palette: seq<string>, index: nat): string
    requires IsPalette(palette)
  {
    palette[index % |palette|]
  }

  /** The colours of items `start`, `start + 1`, ..., `start + n - 1`. */
  function CycleColors(palette: seq<string>, start: nat, n: nat): (r: seq<string>)
    requires IsPalette(palette)
    ensures |r| == n
    ensures forall i :: 0 <= i < n ==> r[i] == palette[(start + i) % PaletteSize]
    decreases n
  {
    if n == 0 then [] else [CycleColor(palette, start)] + CycleColors(palette, start + 1, n - 1)
  }

  /** The first six items take the palette in order, and colours repeat with period six. */
  lemma CyclePeriod(palette: seq<string>, index: nat)
    requires IsPalette(palette)
    ensures index < PaletteSize ==> CycleColor(palette, index) == palette[index]
    ensures CycleColor(palette, index + PaletteSize) == CycleColor(palette, index)
  {
  }
}
