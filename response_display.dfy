/** The results view of one experiment (src/components/ResponseDisplay.tsx):
    the chart rows, the best response, the per-metric averages, the radar
    profile, the "Best Overall" badge and the export dropdown flag. */
module ResponseDisplay {
  import opened Wrappers
  import opened Types
  import opened Metrics
  import Export

  predicate IsDigit(c: char)
  {
    '0' <= c <= '9'
  }

  function DigitChar(d: nat): (c: char)
    requires d < 10
    ensures IsDigit(c) && c as int - '0' as int == d
  {
    ('0' as int + d) as char
  }

  /** The decimal text JavaScript writes for a natural number: no leading
      zero except for zero itself. */
  function NatToString(n: nat): (s: string)
    ensures s != []
    ensures forall i :: 0 <= i < |s| ==> IsDigit(s[i])
    ensures n > 0 ==> s[0] != '0'
    decreases n
  {
    if n < 10 then [DigitChar(n)] else NatToString(n / 10) + [DigitChar(n % 10)]
  }

  /** The number a string of decimal digits denotes. */
  function DecimalValue(s: string): nat
    requires forall i :: 0 <= i < |s| ==> IsDigit(s[i])
  {
    if s == [] then 0
    else
      assert IsDigit(s[|s| - 1]);
      DecimalValue(s[..|s| - 1]) * 10 + (s[|s| - 1] as int - '0' as int)
  }

  /** Reading back the decimal text of `n` gives `n`. */
  lemma {:induction false} DecimalRoundTrip(n: nat)
    ensures DecimalValue(NatToString(n)) == n
  {
    if n >= 10 {
      var s := NatToString(n);
      assert s[..|s| - 1] == NatToString(n / 10);
      DecimalRoundTrip(n / 10);
    }
  }

  /** The label of the chart bar and card of the response at `index`. */
  function ResponseLabel(index: nat): string
  {
    "Response " + NatToString(index + 1)
  }

  /** Different positions get different labels. */
  lemma ResponseLabelInjective(i: nat, j: nat)
    requires ResponseLabel(i) == ResponseLabel(j)
    ensures i == j
  {
    var p := "Response ";
    assert ResponseLabel(i)[|p|..] == NatToString(i + 1);
    assert ResponseLabel(j)[|p|..] == NatToString(j + 1);
    DecimalRoundTrip(i + 1);
    DecimalRoundTrip(j + 1);
  }

  /** One bar group of the comparison chart. */
  datatype ChartRow = ChartRow(
    name: string,
    coherence: real,
    completeness: real,
    readability: real,
    relevance: real,
    overall: real)

  /** `chartData`: one row per response, in order, labelled by its 1-based
      position and carrying that response's metrics. */
  function ChartData(rs: seq<ResponseData>): (rows: seq<ChartRow>)
    ensures |rows| == |rs|
    ensures forall i :: 0 <= i < |rs| ==> rows[i].name == ResponseLabel(i)
    ensures forall i :: 0 <= i < |rs| ==>
      && rows[i].coherence == rs[i].metrics.coherence
      && rows[i].completeness == rs[i].metrics.completeness
      && rows[i].readability == rs[i].metrics.readability
      && rows[i].relevance == rs[i].metrics.relevance
      && rows[i].overall == rs[i].metrics.overallScore
  {
    seq(|rs|, i requires 0 <= i < |rs| =>
      var m := rs[i].metrics;
      ChartRow(ResponseLabel(i), m.coherence, m.completeness, m.readability, m.relevance, m.overallScore))
  }

  /** No two bars of the chart share a name. */
  lemma ChartNamesDistinct(rs: seq<ResponseData>, i: nat, j: nat)
    requires i < j < |rs|
    ensures ChartData(rs)[i].name != ChartData(rs)[j].name
  {
    if ChartData(rs)[i].name == ChartData(rs)[j].name {
      ResponseLabelInjective(i, j);
    }
  }

  function OverallOf(r: ResponseData): real
  {
    r.metrics.overallScore
  }

  /** The position `bestResponse` ends on: the reduce keeps its accumulator
      unless the next response scores strictly higher, so the result is the
      first response with the highest overall score. */
  function BestIndex(rs: seq<ResponseData>): (k: nat)
    requires |rs| > 0
    ensures k < |rs|
    ensures forall j :: 0 <= j < |rs| ==> OverallOf(rs[j]) <= OverallOf(rs[k])
    ensures forall j :: 0 <= j < k ==> OverallOf(rs[j]) < OverallOf(rs[k])
  {
    if |rs| == 1 then 0
    else
      var front := rs[..|rs| - 1];
      var b := BestIndex(front);
      assert front[b] == rs[b];
      if OverallOf(rs[|rs| - 1]) > OverallOf(rs[b]) then |rs| - 1 else b
  }

  /** `bestResponse`; `None` for an empty list, where `reduce` without an
      initial value throws. */
  function BestResponse(rs: seq<ResponseData>): (r: Option<ResponseData>)
    ensures r.None? <==> rs == []
    ensures r.Some? ==> r.value in rs
    ensures r.Some? ==> forall j :: 0 <= j < |rs| ==> OverallOf(rs[j]) <= OverallOf(r.value)
  {
    if rs == [] then None else Some(rs[BestIndex(rs)])
  }

  /** Among responses tied for the top score, the earliest one wins. */
  lemma BestIsEarliestMaximum(rs: seq<ResponseData>, j: nat)
    requires j < |rs|
    requires forall i :: 0 <= i < |rs| ==> OverallOf(rs[i]) <= OverallOf(rs[j])
    requires forall i :: 0 <= i < j ==> OverallOf(rs[i]) < OverallOf(rs[j])
    ensures BestIndex(rs) == j
  {
  }

  /** The test that puts the "Best Overall" badge on a card. */
  predicate ShowsBestBadge(r: ResponseData, best: ResponseData)
  {
    r.id == best.id
  }

  predicate UniqueIds(rs: seq<ResponseData>)
  {
    forall i, j :: 0 <= i < j < |rs| ==> rs[i].id != rs[j].id
  }

  /** The best response always carries the badge; when response ids are
      unique, it is the only one that does. */
  lemma BadgeOnBestOnly(rs: seq<ResponseData>, i: nat)
    requires i < |rs|
    ensures ShowsBestBadge(rs[BestIndex(rs)], BestResponse(rs).value)
    ensures UniqueIds(rs) ==> (ShowsBestBadge(rs[i], BestResponse(rs).value) <==> i == BestIndex(rs))
  {
  }

  /** `averageMetrics`: each field is the mean of that metric over the
      responses. `None` for an empty list, where every field would be `NaN`. */
  function AverageMetrics(rs: seq<ResponseData>): (r: Option<QualityMetrics>)
    ensures r.None? <==> rs == []
    ensures r.Some? ==> forall k :: Score(r.value, k) == Sum(rs, k) / (|rs| as real)
  {
    if rs == [] then None
    else Some(QualityMetrics(
      Mean(rs, Coherence), Mean(rs, Completeness), Mean(rs, Readability),
      Mean(rs, Relevance), Mean(rs, Overall)))
  }

  /** One spoke of the average quality profile. */
  datatype RadarPoint = RadarPoint(metric: string, score: real)

  /** The metrics the radar shows, in order; the overall score is not one. */
  const RadarMetrics: seq<Metric> := [Coherence, Completeness, Readability, Relevance]

  function MetricLabel(k: Metric): string
  {
    match k
    case Coherence => "Coherence"
    case Completeness => "Completeness"
    case Readability => "Readability"
    case Relevance => "Relevance"
    case Overall => "Overall"
  }

  /** `radarData`: four spokes, Coherence, Completeness, Readability and
      Relevance, each scored by the matching average. */
  function RadarData(avg: QualityMetrics): (r: seq<RadarPoint>)
    ensures |r| == |RadarMetrics| == 4
    ensures forall i :: 0 <= i < 4 ==> r[i] == RadarPoint(MetricLabel(RadarMetrics[i]), Score(avg, RadarMetrics[i]))
    ensures Overall !in RadarMetrics
  {
    [ RadarPoint("Coherence", avg.coherence),
      RadarPoint("Completeness", avg.completeness),
      RadarPoint("Readability", avg.readability),
      RadarPoint("Relevance", avg.relevance) ]
  }

  /** When every response scores within the charts' `[0, 1]` domain on a
      metric, so does its spoke of the average profile. */
  lemma RadarWithinUnit(rs: seq<ResponseData>, i: nat)
    requires rs != [] && i < 4
    requires AllAtLeast(rs, RadarMetrics[i], 0.0) && AllAtMost(rs, RadarMetrics[i], 1.0)
    ensures 0.0 <= RadarData(AverageMetrics(rs).value)[i].score <= 1.0
  {
    var k := RadarMetrics[i];
    MeanAtLeast(rs, k, 0.0);
    MeanAtMost(rs, k, 1.0);
    assert Score(AverageMetrics(rs).value, k) == Mean(rs, k);
  }

  /** The export dropdown of the results view. */
  class ResultsView {
    var showExportDropdown: bool

    constructor ()
      ensures !showExportDropdown
    {
      showExportDropdown := false;
    }

    /** The Export button flips the dropdown. */
    method ToggleExportDropdown()
      modifies this
      ensures showExportDropdown == !old(showExportDropdown)
    {
      showExportDropdown := !showExportDropdown;
    }

    /** `exportExperiment(format)`: the dropdown closes and the file is saved
        under its download name only on a successful answer; a failed or
        thrown request leaves the dropdown as it was. */
    method ExportExperiment(experimentId: string, format: ExportFormat, exportOk: bool)
      returns (request: ExportRequest, download: Option<string>)
      modifies this
      ensures request == Export.RequestFor(experimentId, format)
      ensures download == if exportOk then Some(Export.Filename(experimentId, format)) else None
      ensures showExportDropdown == if exportOk then false else old(showExportDropdown)
    {
      request := Export.RequestFor(experimentId, format);
      if exportOk {
        download := Some(Export.Filename(experimentId, format));
        showExportDropdown := false;
      } else {
        download := None;
      }
    }
  }
}
