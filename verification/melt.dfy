/** The long-form table behind the player comparison chart: wide to long
    over Prediction and PS, with Player and Season_Start as id columns
    (dashboard.py:76). */
module LongForm {
  import opened Dataset

  /** The `variable` column: which wide column a long row came from. */
  datatype Variable = Prediction | PS

  datatype MeltedRow = MeltedRow(player: string, seasonStart: int, variable: Variable, value: real)

  /** The four selected columns of one player season. */
  datatype WideRow = WideRow(player: string, seasonStart: int, prediction: real, ps: real)

  function ValueOf(v: Variable, r: PlayerSeason): real
  {
    match v
    case Prediction => r.prediction
    case PS => r.ps
  }

  /** The long rows contributed by one value column, in row order. */
  function MeltColumn(data: seq<PlayerSeason>, v: Variable): (r: seq<MeltedRow>)
    ensures |r| == |data|
    ensures forall i :: 0 <= i < |data| ==>
      r[i] == MeltedRow(data[i].player, data[i].seasonStart, v, ValueOf(v, data[i]))
  {
    if |data| == 0 then []
    else [MeltedRow(data[0].player, data[0].seasonStart, v, ValueOf(v, data[0]))] + MeltColumn(data[1..], v)
  }

  /** Wide to long: the Prediction block for all rows, then the PS block;
      row `i` and row `n + i` keep row `i`'s Player and Season_Start. */
  function Melt(data: seq<PlayerSeason>): (r: seq<MeltedRow>)
    ensures |r| == 2 * |data|
    ensures forall i :: 0 <= i < |data| ==>
      r[i] == MeltedRow(data[i].player, data[i].seasonStart, Prediction, data[i].prediction)
    ensures forall i :: 0 <= i < |data| ==>
      r[|data| + i] == MeltedRow(data[i].player, data[i].seasonStart, PS, data[i].ps)
  {
    MeltColumn(data, Prediction) + MeltColumn(data, PS)
  }

  /** The wide table selected before melting. */
  function Wide(data: seq<PlayerSeason>): (r: seq<WideRow>)
    ensures |r| == |data|
    ensures forall i :: 0 <= i < |data| ==>
      r[i] == WideRow(data[i].player, data[i].seasonStart, data[i].prediction, data[i].ps)
  {
    if |data| == 0 then []
    else [WideRow(data[0].player, data[0].seasonStart, data[0].prediction, data[0].ps)] + Wide(data[1..])
  }

  /** Long to wide for a table in melt layout: row `i` of the first half
      paired with row `i` of the second half. */
  function Pivot(m: seq<MeltedRow>): (r: seq<WideRow>)
    ensures |r| == |m| / 2
  {
    var n := |m| / 2;
    seq(n, i requires 0 <= i < n => WideRow(m[i].player, m[i].seasonStart, m[i].value, m[n + i].value))
  }

  /** Melting loses nothing: pivoting the long table gives back the wide one. */
  lemma MeltRoundTrip(data: seq<PlayerSeason>)
    ensures Pivot(Melt(data)) == Wide(data)
  {
    var m := Melt(data);
    assert |m| / 2 == |data|;
    assert forall i :: 0 <= i < |data| ==> Pivot(m)[i] == Wide(data)[i];
  }
}
