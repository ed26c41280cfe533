/** The two parsed input tables. Loading the CSV files is outside the model:
    every view takes the already-parsed rows. */
module Dataset {

  /** One row of the player-season table: a drafted player in one season.
      `round` is the draft round number; `prediction` is the precomputed
      expected point shares and `ps` the actual point shares. */
  datatype PlayerSeason = PlayerSeason(
    player: string,
    draftYear: int,
    pick: int,
    round: int,
    draftTeam: string,
    season: string,
    seasonStart: int,
    yearsAfterDraft: int,
    prediction: real,
    ps: real)

  /** Player `p` has at least one season in the dataset. */
  predicate InDataset(data: seq<PlayerSeason>, p: string)
  {
    exists j :: 0 <= j < |data| && data[j].player == p
  }

  /** One row of the pick-probability table. */
  datatype PickProbability = PickProbability(
    pick: int,
    yearsAfterDraft: int,
    nhlProbability: real,
    starProbability: real)

  datatype Option<T> = None | Some(value: T)
}
