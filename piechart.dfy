/** `pieChartData`: one dataset of the counts, slice colours cycling through the palette. */
module PieChart {
  import opened ChartColors

  const PieBorderWidth: nat := 1

  /** An input slice `{label, count}` (`labelText` is the `label` field). */
  datatype Slice = Slice(labelText: string, count: real)

  datatype PieDataset = PieDataset(data: seq<real>, backgroundColor: seq<string>, borderColor: seq<string>, borderWidth: nat)

  datatype PieChartData = PieChartData(labels: seq<string>, datasets: seq<PieDataset>)

  /** `data.map(entry => entry.label)`. */
  function Labels(slices: seq<Slice>): (r: seq<string>)
    ensures |r| == |slices|
    ensures forall i :: 0 <= i < |slices| ==> r[i] == slices[i].labelText
  {
    if slices == [] then [] else [slices[0].labelText] + Labels(slices[1..])
  }

  /** `data.map(entry => entry.count)`. */
  function Counts(slices: seq<Slice>): (r: seq<real>)
    ensures |r| == |slices|
    ensures forall i :: 0 <= i < |slices| ==> r[i] == slices[i].count
  {
    if slices == [] then [] else [slices[0].count] + Counts(slices[1..])
  }

  function PieChartDataOf(palette: seq<string>, slices: seq<Slice>): (r: PieChartData)
    requires IsPalette(palette)
    ensures |r.labels| == |slices| && |r.datasets| == 1
    ensures forall i :: 0 <= i < |slices| ==> r.labels[i] == slices[i].labelText
    ensures |r.datasets[0].data| == |slices|
    ensures forall i :: 0 <= i < |slices| ==> r.datasets[0].data[i] == slices[i].count
    ensures |r.datasets[0].backgroundColor| == |slices| && r.datasets[0].borderColor == r.datasets[0].backgroundColor
    ensures forall i :: 0 <= i < |slices| ==> r.datasets[0].backgroundColor[i] == palette[i % PaletteSize]
    ensures r.datasets[0].borderWidth == PieBorderWidth
  {
    var colours := CycleColors(palette, 0, |slices|);
    PieChartData(Labels(slices), [PieDataset(Counts(slices), colours, colours, PieBorderWidth)])
  }

  /** Slices six apart share a colour. */
  lemma PieColoursRepeat(palette: seq<string>, slices: seq<Slice>, i: nat)
    requires IsPalette(palette) && i + PaletteSize < |slices|
    ensures PieChartDataOf(palette, slices).datasets[0].backgroundColor[i]
         == PieChartDataOf(palette, slices).datasets[0].backgroundColor[i + PaletteSize]
  {
    assert (i + PaletteSize) % PaletteSize == i % PaletteSize;
  }
}
