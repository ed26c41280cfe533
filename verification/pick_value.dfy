/** The static pick-value views: the value of each pick over the restricted
    free agency (RFA) window, the mean value per round and year, and the
    pick-probability curves. */
module PickValue {
  import opened Sequences
  import opened Keys
  import opened Groups
  import opened Dataset

  /** A season inside the first seven seasons after the draft. */
  predicate InRfaWindow(r: PlayerSeason)
  {
    r.seasonStart < r.draftYear + 7
  }

  /** The seasons of the RFA window, in dataset order. */
  function RfaWindow(data: seq<PlayerSeason>): (r: seq<PlayerSeason>)
    ensures FilteredBy(r, data, InRfaWindow)
    ensures forall x :: x in r <==> x in data && InRfaWindow(x)
  {
    var r := Filter(data, InRfaWindow);
    FilteredMembers(r, data, InRfaWindow);
    r
  }

  function PickYearKey(r: PlayerSeason): Key
  {
    [r.pick, r.yearsAfterDraft]
  }

  function YearRoundKey(r: PlayerSeason): Key
  {
    [r.yearsAfterDraft, r.round]
  }

  function PredictionOf(r: PlayerSeason): real
  {
    r.prediction
  }

  /** Mean Prediction per (Pick, Years_After_Draft), keys ascending. */
  function PickYearMeans(rows: seq<PlayerSeason>): (r: seq<Entry<Key>>)
    ensures EntriesAscending(r)
    ensures forall k :: HasKey(r, k) <==> exists j :: 0 <= j < |rows| && PickYearKey(rows[j]) == k
    ensures forall i :: 0 <= i < |r| ==>
      && |r[i].key| == 2
      && HasKey(Column(rows, PickYearKey, PredictionOf), r[i].key)
      && r[i].value == MeanFor(Column(rows, PickYearKey, PredictionOf), r[i].key)
  {
    var col := Column(rows, PickYearKey, PredictionOf);
    forall k {
      HasKeyColumn(rows, PickYearKey, PredictionOf, k);
    }
    GroupMean(col)
  }

  /** The per-year means re-keyed by their Pick alone. */
  function DropYear(means: seq<Entry<Key>>): (r: seq<Entry<Key>>)
    requires forall i :: 0 <= i < |means| ==> |means[i].key| == 2
    ensures |r| == |means|
    ensures forall i :: 0 <= i < |means| ==> r[i] == Entry([means[i].key[0]], means[i].value)
  {
    if |means| == 0 then []
    else [Entry([means[0].key[0]], means[0].value)] + DropYear(means[1..])
  }

  lemma {:induction false} DropYearTotal(means: seq<Entry<Key>>)
    requires forall i :: 0 <= i < |means| ==> |means[i].key| == 2
    ensures Total(DropYear(means)) == Total(means)
  {
    if |means| > 0 {
      assert DropYear(means)[1..] == DropYear(means[1..]);
      DropYearTotal(means[1..]);
    }
  }

  lemma PickOfWindow(data: seq<PlayerSeason>, j: int)
    requires 0 <= j < |data| && InRfaWindow(data[j])
    ensures HasKey(DropYear(PickYearMeans(RfaWindow(data))), [data[j].pick])
  {
    var window := RfaWindow(data);
    var means := PickYearMeans(window);
    var picks := DropYear(means);
    assert data[j] in window;
    var w :| 0 <= w < |window| && window[w] == data[j];
    assert HasKey(means, PickYearKey(window[w]));
    var i :| 0 <= i < |means| && means[i].key == PickYearKey(window[w]);
    assert picks[i].key == [data[j].pick];
  }

  /** A Pick has a per-year mean exactly when some RFA-window season was drafted at it. */
  lemma PicksInWindow(data: seq<PlayerSeason>, k: Key)
    ensures HasKey(DropYear(PickYearMeans(RfaWindow(data))), k) <==>
      exists j :: 0 <= j < |data| && InRfaWindow(data[j]) && [data[j].pick] == k
  {
    if HasKey(DropYear(PickYearMeans(RfaWindow(data))), k) {
      var window := RfaWindow(data);
      var means := PickYearMeans(window);
      var picks := DropYear(means);
      var i :| 0 <= i < |picks| && picks[i].key == k;
      assert HasKey(means, means[i].key);
      var w :| 0 <= w < |window| && PickYearKey(window[w]) == means[i].key;
      assert window[w] in data && InRfaWindow(window[w]);
      var j :| 0 <= j < |data| && data[j] == window[w];
      assert [data[j].pick] == k;
    }
    if exists j :: 0 <= j < |data| && InRfaWindow(data[j]) && [data[j].pick] == k {
      var j :| 0 <= j < |data| && InRfaWindow(data[j]) && [data[j].pick] == k;
      PickOfWindow(data, j);
    }
  }

  /** The pick-value curve: one entry per Pick seen in the RFA window, in
      ascending Pick order, holding the sum over the years of that pick's
      mean Prediction; the curve's total is the total of the per-year means. */
  function PickValueCurve(data: seq<PlayerSeason>): (r: seq<Entry<Key>>)
    ensures EntriesAscending(r)
    ensures forall k :: HasKey(r, k) <==>
      exists j :: 0 <= j < |data| && InRfaWindow(data[j]) && [data[j].pick] == k
    ensures forall i :: 0 <= i < |r| ==>
      r[i].value == SumFor(DropYear(PickYearMeans(RfaWindow(data))), r[i].key)
    ensures Total(r) == Total(PickYearMeans(RfaWindow(data)))
  {
    var window := RfaWindow(data);
    var means := PickYearMeans(window);
    var picks := DropYear(means);
    DropYearTotal(means);
    var r := GroupSum(picks);
    forall k {
      PicksInWindow(data, k);
    }
    r
  }

  /** The round curve: mean Prediction per (Years_After_Draft, Round) over the
      whole dataset, one entry per pair present, keys ascending. */
  function RoundCurve(data: seq<PlayerSeason>): (r: seq<Entry<Key>>)
    ensures EntriesAscending(r)
    ensures forall k :: HasKey(r, k) <==> exists j :: 0 <= j < |data| && YearRoundKey(data[j]) == k
    ensures forall i :: 0 <= i < |r| ==>
      && HasKey(Column(data, YearRoundKey, PredictionOf), r[i].key)
      && r[i].value == MeanFor(Column(data, YearRoundKey, PredictionOf), r[i].key)
  {
    forall k {
      HasKeyColumn(data, YearRoundKey, PredictionOf, k);
    }
    GroupMean(Column(data, YearRoundKey, PredictionOf))
  }

  /** Every point of the round curve lies within the range of the Predictions
      averaged into it. */
  lemma RoundCurveWithin(data: seq<PlayerSeason>, k: Key, lo: real, hi: real)
    requires forall j :: 0 <= j < |data| && YearRoundKey(data[j]) == k ==> lo <= data[j].prediction <= hi
    ensures forall i :: 0 <= i < |RoundCurve(data)| && RoundCurve(data)[i].key == k ==>
      lo <= RoundCurve(data)[i].value <= hi
  {
    var col := Column(data, YearRoundKey, PredictionOf);
    var r := RoundCurve(data);
    forall i | 0 <= i < |r| && r[i].key == k
      ensures lo <= r[i].value <= hi
    {
      MeanWithin(col, k, lo, hi);
    }
  }

  /** The years after the draft shown on the probability curves. */
  predicate ShownYear(r: PickProbability)
  {
    r.yearsAfterDraft in {0, 1, 3, 7, 10}
  }

  /** `isin([0, 1, 3, 7, 10])`: the probability rows of the shown years, in order. */
  function ProbabilityCurves(pickData: seq<PickProbability>): (r: seq<PickProbability>)
    ensures FilteredBy(r, pickData, ShownYear)
    ensures forall x :: x in r <==> x in pickData && ShownYear(x)
  {
    var r := Filter(pickData, ShownYear);
    FilteredMembers(r, pickData, ShownYear);
    r
  }
}
