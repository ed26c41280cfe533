/** The player summary table: each player's draft facts and cumulative
    predicted and actual point shares, sorted by actual point shares. */
module PlayerSummary {
  import opened Sequences
  import opened Groups
  import opened Dataset

  /** The selected columns of one player season plus its Residual. */
  datatype SummaryInput = SummaryInput(
    player: string,
    draftYear: int,
    pick: int,
    season: string,
    prediction: real,
    ps: real,
    draftTeam: string,
    residual: real)

  /** One row of the summary table. */
  datatype SummaryRow = SummaryRow(
    player: string,
    pick: int,
    draftYear: int,
    draftTeam: string,
    prediction: real,
    ps: real,
    residual: real)

  /** The three summed columns. */
  datatype Measure = Predicted | Actual | Residual

  function InputValue(m: Measure, row: SummaryInput): real
  {
    match m
    case Predicted => row.prediction
    case Actual => row.ps
    case Residual => row.residual
  }

  function SummaryValue(m: Measure, row: SummaryRow): real
  {
    match m
    case Predicted => row.prediction
    case Actual => row.ps
    case Residual => row.residual
  }

  /** Column total of a measure over the input rows. */
  function InputTotal(rows: seq<SummaryInput>, m: Measure): real
  {
    if |rows| == 0 then 0.0 else InputValue(m, rows[0]) + InputTotal(rows[1..], m)
  }

  /** Column total of a measure over the summary rows. */
  function SummaryTotal(rows: seq<SummaryRow>, m: Measure): real
  {
    if |rows| == 0 then 0.0 else SummaryValue(m, rows[0]) + SummaryTotal(rows[1..], m)
  }

  /** Column selection plus `Residual = PS - Prediction`, row by row. */
  function WithResidual(data: seq<PlayerSeason>): (r: seq<SummaryInput>)
    ensures |r| == |data|
    ensures forall i :: 0 <= i < |data| ==>
      && r[i].player == data[i].player
      && r[i].draftYear == data[i].draftYear
      && r[i].pick == data[i].pick
      && r[i].draftTeam == data[i].draftTeam
      && r[i].prediction == data[i].prediction
      && r[i].ps == data[i].ps
      && r[i].residual == r[i].ps - r[i].prediction
  {
    if |data| == 0 then []
    else
      var d := data[0];
      [SummaryInput(d.player, d.draftYear, d.pick, d.season, d.prediction, d.ps, d.draftTeam, d.ps - d.prediction)]
        + WithResidual(data[1..])
  }

  /** The (Player, measure) column pair. */
  function MeasureColumn(rows: seq<SummaryInput>, m: Measure): (r: seq<Entry<string>>)
    ensures |r| == |rows|
    ensures forall i :: 0 <= i < |rows| ==> r[i] == Entry(rows[i].player, InputValue(m, rows[i]))
  {
    if |rows| == 0 then [] else [Entry(rows[0].player, InputValue(m, rows[0]))] + MeasureColumn(rows[1..], m)
  }

  /** Sum of a measure over the rows of player `p`. */
  function PlayerSum(rows: seq<SummaryInput>, p: string, m: Measure): real
  {
    SumFor(MeasureColumn(rows, m), p)
  }

  lemma {:induction false} MeasureColumnTotal(rows: seq<SummaryInput>, m: Measure)
    ensures Total(MeasureColumn(rows, m)) == InputTotal(rows, m)
  {
    if |rows| > 0 {
      assert MeasureColumn(rows, m)[1..] == MeasureColumn(rows[1..], m);
      MeasureColumnTotal(rows[1..], m);
    }
  }

  predicate HasPlayer(rows: seq<SummaryInput>, p: string)
  {
    exists j :: 0 <= j < |rows| && rows[j].player == p
  }

  /** Some row of the summary table belongs to player `p`. */
  predicate Lists(r: seq<SummaryRow>, p: string)
  {
    exists i :: 0 <= i < |r| && r[i].player == p
  }

  /** The distinct players, in order of first appearance. */
  function Players(rows: seq<SummaryInput>): (ps: seq<string>)
    ensures Distinct(ps)
    ensures forall p :: p in ps <==> HasPlayer(rows, p)
  {
    if |rows| == 0 then []
    else
      var front := rows[..|rows| - 1];
      var p := rows[|rows| - 1].player;
      var ps := Players(front);
      assert forall q :: HasPlayer(rows, q) <==> HasPlayer(front, q) || q == p by {
        forall q
          ensures HasPlayer(rows, q) <==> HasPlayer(front, q) || q == p
        {
          if HasPlayer(front, q) {
            var j :| 0 <= j < |front| && front[j].player == q;
            assert rows[j].player == q;
          }
          if HasPlayer(rows, q) && q != p {
            var j :| 0 <= j < |rows| && rows[j].player == q;
            assert front[j].player == q;
          }
        }
      }
      if p in ps then ps else ps + [p]
  }

  /** Index of the first row of player `p` (`|rows|` when there is none). */
  function FindFirst(rows: seq<SummaryInput>, p: string): (j: nat)
    ensures j <= |rows|
    ensures j < |rows| ==> rows[j].player == p
    ensures forall k :: 0 <= k < j ==> rows[k].player != p
    ensures j == |rows| <==> !HasPlayer(rows, p)
  {
    if |rows| == 0 then 0
    else if rows[0].player == p then 0
    else
      var j := 1 + FindFirst(rows[1..], p);
      assert forall k :: 1 <= k < j ==> rows[1..][k - 1] == rows[k];
      j
  }

  /** Pick, Draft_Year and Draft_Team of `s` are those of its player's first row. */
  predicate FromFirstRow(rows: seq<SummaryInput>, s: SummaryRow)
  {
    var j := FindFirst(rows, s.player);
    && j < |rows|
    && s.pick == rows[j].pick
    && s.draftYear == rows[j].draftYear
    && s.draftTeam == rows[j].draftTeam
  }

  /** "first" for the draft facts, "sum" for the three measures. */
  function SummaryOf(rows: seq<SummaryInput>, p: string): SummaryRow
    requires HasPlayer(rows, p)
  {
    var first := rows[FindFirst(rows, p)];
    SummaryRow(p, first.pick, first.draftYear, first.draftTeam,
      PlayerSum(rows, p, Predicted), PlayerSum(rows, p, Actual), PlayerSum(rows, p, Residual))
  }

  function SummaryRows(rows: seq<SummaryInput>, ps: seq<string>): (r: seq<SummaryRow>)
    requires forall p :: p in ps ==> HasPlayer(rows, p)
    ensures |r| == |ps|
    ensures forall i :: 0 <= i < |ps| ==> r[i] == SummaryOf(rows, ps[i])
  {
    if |ps| == 0 then [] else [SummaryOf(rows, ps[0])] + SummaryRows(rows, ps[1..])
  }

  lemma {:induction false} SummaryRowsTotal(rows: seq<SummaryInput>, ps: seq<string>, m: Measure)
    requires forall p :: p in ps ==> HasPlayer(rows, p)
    ensures SummaryTotal(SummaryRows(rows, ps), m) == Total(SumRows(MeasureColumn(rows, m), ps))
  {
    if |ps| > 0 {
      assert SummaryRows(rows, ps)[1..] == SummaryRows(rows, ps[1..]);
      TotalSumRowsCons(MeasureColumn(rows, m), ps);
      SummaryRowsTotal(rows, ps[1..], m);
      match m
      case Predicted =>
      case Actual =>
      case Residual =>
    }
  }

  /** `groupby("Player").agg(...)`: one row per distinct player, whose draft
      facts come from that player's first row and whose measures are the
      player's sums; every column total equals the input's. */
  function GroupPlayers(rows: seq<SummaryInput>): (r: seq<SummaryRow>)
    ensures forall i, j :: 0 <= i < j < |r| ==> r[i].player != r[j].player
    ensures forall p :: Lists(r, p) <==> HasPlayer(rows, p)
    ensures forall i :: 0 <= i < |r| ==> FromFirstRow(rows, r[i])
    ensures forall i :: 0 <= i < |r| ==>
      && r[i].prediction == PlayerSum(rows, r[i].player, Predicted)
      && r[i].ps == PlayerSum(rows, r[i].player, Actual)
      && r[i].residual == PlayerSum(rows, r[i].player, Residual)
    ensures forall m :: SummaryTotal(r, m) == InputTotal(rows, m)
  {
    var ps := Players(rows);
    var r := SummaryRows(rows, ps);
    forall m
      ensures SummaryTotal(r, m) == InputTotal(rows, m)
    {
      SummaryRowsTotal(rows, ps, m);
      SumRowsTotal(MeasureColumn(rows, m), ps);
      MeasureColumnTotal(rows, m);
    }
    assert forall p :: Lists(r, p) <==> p in ps;
    r
  }

  /** PS non-increasing from the top of the table to the bottom. */
  predicate PsDescending(s: seq<SummaryRow>)
  {
    forall i, j :: 0 <= i < j < |s| ==> s[i].ps >= s[j].ps
  }

  function InsertByPs(x: SummaryRow, s: seq<SummaryRow>): (r: seq<SummaryRow>)
    requires PsDescending(s)
    ensures PsDescending(r)
    ensures multiset(r) == multiset(s) + multiset{x}
    ensures |r| > 0 && (r[0] == x || (|s| > 0 && r[0] == s[0]))
  {
    if |s| == 0 then [x]
    else if x.ps >= s[0].ps then [x] + s
    else
      var rest := InsertByPs(x, s[1..]);
      assert s == [s[0]] + s[1..];
      [s[0]] + rest
  }

  lemma {:induction false} InsertByPsTotal(x: SummaryRow, s: seq<SummaryRow>, m: Measure)
    requires PsDescending(s)
    ensures SummaryTotal(InsertByPs(x, s), m) == SummaryTotal(s, m) + SummaryValue(m, x)
  {
    var r := InsertByPs(x, s);
    if |s| == 0 {
    } else if x.ps >= s[0].ps {
      assert r[1..] == s;
    } else {
      assert r[1..] == InsertByPs(x, s[1..]);
      InsertByPsTotal(x, s[1..], m);
    }
  }

  /** The summary ordered by PS, largest first: a permutation with PS non-increasing. */
  function SortByPs(s: seq<SummaryRow>): (r: seq<SummaryRow>)
    ensures PsDescending(r)
    ensures multiset(r) == multiset(s)
  {
    if |s| == 0 then []
    else
      assert s == [s[0]] + s[1..];
      InsertByPs(s[0], SortByPs(s[1..]))
  }

  /** Sorting moves rows but keeps every column total. */
  lemma {:induction false} SortByPsTotal(s: seq<SummaryRow>, m: Measure)
    ensures SummaryTotal(SortByPs(s), m) == SummaryTotal(s, m)
  {
    if |s| > 0 {
      SortByPsTotal(s[1..], m);
      InsertByPsTotal(s[0], SortByPs(s[1..]), m);
    }
  }

  /** Per player, the summed Residual is the summed PS minus the summed Prediction. */
  lemma ResidualOfSums(data: seq<PlayerSeason>, p: string)
    ensures PlayerSum(WithResidual(data), p, Residual) ==
      PlayerSum(WithResidual(data), p, Actual) - PlayerSum(WithResidual(data), p, Predicted)
  {
    var rows := WithResidual(data);
    SumForDifference(MeasureColumn(rows, Residual), MeasureColumn(rows, Actual), MeasureColumn(rows, Predicted), p);
  }

  /** Two rows of a table with one row per player are equal when their players are. */
  lemma SamePlayerSameRow(g: seq<SummaryRow>, x: SummaryRow, y: SummaryRow)
    requires forall i, j :: 0 <= i < j < |g| ==> g[i].player != g[j].player
    requires x in g && y in g
    ensures x.player == y.player ==> x == y
  {
  }

  /** Any permutation of a table with one row per player has one row per player. */
  lemma PlayersOnce(g: seq<SummaryRow>, r: seq<SummaryRow>)
    requires forall i, j :: 0 <= i < j < |g| ==> g[i].player != g[j].player
    requires multiset(r) == multiset(g)
    ensures forall i, j :: 0 <= i < j < |r| ==> r[i].player != r[j].player
  {
    CountsAtMostOne(g);
    DistinctFromCounts(r);
    forall i, j | 0 <= i < j < |r|
      ensures r[i].player != r[j].player
    {
      assert r[i] in multiset(g) && r[j] in multiset(g);
      SamePlayerSameRow(g, r[i], r[j]);
    }
  }

  lemma WithResidualPlayers(data: seq<PlayerSeason>, p: string)
    ensures HasPlayer(WithResidual(data), p) <==> InDataset(data, p)
  {
    var rows := WithResidual(data);
    if HasPlayer(rows, p) {
      var j :| 0 <= j < |rows| && rows[j].player == p;
      assert data[j].player == p;
    }
    if InDataset(data, p) {
      var j :| 0 <= j < |data| && data[j].player == p;
      assert rows[j].player == p;
    }
  }

  /** A permutation of a table lists the same players. */
  lemma ListsPermutation(g: seq<SummaryRow>, r: seq<SummaryRow>, p: string)
    requires multiset(r) == multiset(g)
    ensures Lists(r, p) <==> Lists(g, p)
  {
    if Lists(r, p) {
      var i :| 0 <= i < |r| && r[i].player == p;
      assert r[i] in multiset(g);
      var k :| 0 <= k < |g| && g[k] == r[i];
    }
    if Lists(g, p) {
      var k :| 0 <= k < |g| && g[k].player == p;
      assert g[k] in multiset(r);
      var i :| 0 <= i < |r| && r[i] == g[k];
    }
  }

  lemma PlayersPresent(data: seq<PlayerSeason>, r: seq<SummaryRow>, p: string)
    requires multiset(r) == multiset(GroupPlayers(WithResidual(data)))
    ensures Lists(r, p) <==> InDataset(data, p)
  {
    ListsPermutation(GroupPlayers(WithResidual(data)), r, p);
    WithResidualPlayers(data, p);
  }

  /** The deployed summary table: the grouped rows sorted by PS, each row's
      Residual its PS minus its Prediction, and each column total the
      total of the player seasons. */
  function PlayerSummaryTable(data: seq<PlayerSeason>): (r: seq<SummaryRow>)
    ensures multiset(r) == multiset(GroupPlayers(WithResidual(data)))
    ensures PsDescending(r)
    ensures forall x :: x in r ==> x.residual == x.ps - x.prediction
    ensures forall x :: x in r ==> FromFirstRow(WithResidual(data), x)
    ensures forall m :: SummaryTotal(r, m) == InputTotal(WithResidual(data), m)
    ensures forall i, j :: 0 <= i < j < |r| ==> r[i].player != r[j].player
    ensures forall p :: Lists(r, p) <==>
      InDataset(data, p)
  {
    var grouped := GroupPlayers(WithResidual(data));
    var r := SortByPs(grouped);
    forall x | x in r
      ensures x in grouped
      ensures x.residual == x.ps - x.prediction
    {
      assert x in multiset(grouped);
      ResidualOfSums(data, x.player);
    }
    forall m
      ensures SummaryTotal(r, m) == InputTotal(WithResidual(data), m)
    {
      SortByPsTotal(grouped, m);
    }
    PlayersOnce(grouped, r);
    forall p
      ensures Lists(r, p) <==>
        InDataset(data, p)
    {
      PlayersPresent(data, r, p);
    }
    r
  }
}
