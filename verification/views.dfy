/** The tables each version of the application derives at start-up.
    dashboard.py is the deployed version; app.py is an earlier copy that
    builds the same tables except the pick-probability curves. */
module Views {
  import opened Keys
  import opened Groups
  import opened Dataset
  import opened PickValue
  import opened PlayerSummary
  import opened LongForm

  datatype StaticViews = StaticViews(
    pickValue: seq<Entry<Key>>,
    roundCurve: seq<Entry<Key>>,
    playerSummary: seq<SummaryRow>,
    melted: seq<MeltedRow>,
    probabilities: Option<seq<PickProbability>>)

  function DashboardViews(data: seq<PlayerSeason>, pickData: seq<PickProbability>): (v: StaticViews)
    ensures v.probabilities.Some?
    ensures forall x :: x in v.probabilities.value <==> x in pickData && ShownYear(x)
    ensures Total(v.pickValue) == Total(PickYearMeans(RfaWindow(data)))
    ensures PsDescending(v.playerSummary)
    ensures |v.melted| == 2 * |data|
  {
    StaticViews(PickValueCurve(data), RoundCurve(data), PlayerSummaryTable(data), Melt(data),
      Some(ProbabilityCurves(pickData)))
  }

  function AppViews(data: seq<PlayerSeason>): (v: StaticViews)
    ensures v.probabilities.None?
    ensures Total(v.pickValue) == Total(PickYearMeans(RfaWindow(data)))
    ensures PsDescending(v.playerSummary)
    ensures |v.melted| == 2 * |data|
  {
    StaticViews(PickValueCurve(data), RoundCurve(data), PlayerSummaryTable(data), Melt(data), None)
  }
}
