/** Validators of the game-match request bodies (`GameMatchBase` and its subclasses). */
module GameMatchSchema {
  import opened Validation

  /** Round 3 is the final round. */
  const FinalRound := 3

  datatype GameMatch = GameMatch(matchId: int, roundNumber: int)

  /** `GameMatchBase.validate_round_number`: rounds 1 to 3, returned unchanged. */
  function ValidateRoundNumber(v: int): (r: Checked<int>)
    ensures r.Accepted? <==> 1 <= v <= FinalRound
    ensures r.Accepted? ==> r.value == v
  {
    if v < 1 || v > FinalRound then Rejected("Round number should be between 1 and 3") else Accepted(v)
  }

  /** Validation of a `GameMatchBase` body: only its round number has a validator. */
  function ValidateGameMatch(g: GameMatch): (r: Checked<GameMatch>)
    ensures r.Accepted? <==> 1 <= g.roundNumber <= FinalRound
    ensures r.Accepted? ==> r.value == g
  {
    match ValidateRoundNumber(g.roundNumber)
    case Rejected(m) => Rejected(m)
    case Accepted(_) => Accepted(g)
  }

  /** `CreateGameMatch` declares nothing of its own, so it inherits the base check exactly. */
  function ValidateCreateGameMatch(g: GameMatch): (r: Checked<GameMatch>)
    ensures r == ValidateGameMatch(g)
    ensures r.Accepted? <==> 1 <= g.roundNumber <= FinalRound
    ensures r.Accepted? ==> r.value == g
  {
    ValidateGameMatch(g)
  }

  /** `BatchCreateGameMatch`: every element is validated as a `CreateGameMatch`; the first
      failure is reported. */
  function ValidateBatchCreateGameMatch(gs: seq<GameMatch>): (r: Checked<seq<GameMatch>>)
    ensures r.Accepted? <==> forall i :: 0 <= i < |gs| ==> ValidateCreateGameMatch(gs[i]).Accepted?
    ensures r.Accepted? ==> r.value == gs
    ensures r.Rejected? ==> exists i :: 0 <= i < |gs| && ValidateCreateGameMatch(gs[i]) == Rejected(r.message)
  {
    if gs == [] then Accepted([])
    else match ValidateCreateGameMatch(gs[0])
      case Rejected(m) => Rejected(m)
      case Accepted(g) =>
        match ValidateBatchCreateGameMatch(gs[1..])
        case Rejected(m) => Rejected(m)
        case Accepted(rest) => Accepted([g] + rest)
  }

  /** A batch is accepted exactly when every element's round lies in 1..3. */
  lemma BatchRoundsInRange(gs: seq<GameMatch>)
    ensures ValidateBatchCreateGameMatch(gs).Accepted? <==>
              forall i :: 0 <= i < |gs| ==> 1 <= gs[i].roundNumber <= FinalRound
  {
  }
}
