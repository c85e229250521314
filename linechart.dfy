/** `createLineChartData`: the line chart's datasets, styled with cycling colours. */
module LineChart {
  import opened ChartColors

  const LineBorderWidth: nat := 2

  /** An input series `{data, label}` (`labelText` is the `label` field). */
  datatype Series = Series(data: seq<real>, labelText: string)

  /** A series after the spread and the four style fields. */
  datatype LineDataset = LineDataset(
    data: seq<real>, labelText: string, backgroundColor: string, borderColor: string, borderWidth: nat, fill: bool)

  datatype LineChartData = LineChartData(labels: seq<string>, datasets: seq<LineDataset>)

  /** The styled dataset at position `index`. */
  function Styled(palette: seq<string>, series: Series, index: nat): LineDataset
    requires IsPalette(palette)
  {
    var colour := CycleColor(palette, index);
    LineDataset(series.data, series.labelText, colour, colour, LineBorderWidth, false)
  }

  /** The `datasets.map((dataset, index) => ...)` from position `start` on. */
  function StyleFrom(palette: seq<string>, series: seq<Series>, start: nat): (r: seq<LineDataset>)
    requires IsPalette(palette)
    ensures |r| == |series|
    ensures forall i :: 0 <= i < |series| ==> r[i] == Styled(palette, series[i], start + i)
  {
    if series == [] then [] else [Styled(palette, series[0], start)] + StyleFrom(palette, series[1..], start + 1)
  }

  function CreateLineChartData(palette: seq<string>, datasets: seq<Series>, labels: seq<string>): (r: LineChartData)
    requires IsPalette(palette)
    ensures r.labels == labels
    ensures |r.datasets| == |datasets|
    ensures forall i :: 0 <= i < |datasets| ==>
      && r.datasets[i].data == datasets[i].data
      && r.datasets[i].labelText == datasets[i].labelText
      && r.datasets[i].backgroundColor == palette[i % PaletteSize]
      && r.datasets[i].borderColor == r.datasets[i].backgroundColor
      && r.datasets[i].borderWidth == LineBorderWidth
      && !r.datasets[i].fill
  {
    LineChartData(labels, StyleFrom(palette, datasets, 0))
  }

  /** Adding series at the end leaves the styling of the earlier ones unchanged. */
  lemma StyleFromConcat(palette: seq<string>, a: seq<Series>, b: seq<Series>, start: nat)
    requires IsPalette(palette)
    ensures StyleFrom(palette, a + b, start) == StyleFrom(palette, a, start) + StyleFrom(palette, b, start + |a|)
  {
    var whole := StyleFrom(palette, a + b, start);
    var parts := StyleFrom(palette, a, start) + StyleFrom(palette, b, start + |a|);
    assert |whole| == |parts|;
    forall i | 0 <= i < |whole| ensures whole[i] == parts[i] {
      if i < |a| {
        assert (a + b)[i] == a[i];
      } else {
        assert (a + b)[i] == b[i - |a|];
      }
    }
  }

  /** The datasets of a longer input extend those of its prefix. */
  lemma AppendedSeriesKeepStyles(palette: seq<string>, a: seq<Series>, b: seq<Series>, labels: seq<string>)
    requires IsPalette(palette)
    ensures CreateLineChartData(palette, a + b, labels).datasets[..|a|] == CreateLineChartData(palette, a, labels).datasets
  {
    StyleFromConcat(palette, a, b, 0);
  }
}
