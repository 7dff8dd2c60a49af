/** Sequences of actions: the player's two buttons and the opponent's delayed
    turn, each taken as an explicit step with its random outcomes supplied. */
module Play {
  import opened DrinkRoulette

  /** One action, with the outcome of its poison roll (and the opponent's choice). */
  datatype Move =
    | PlayerDrinks(roll: bool)
    | PlayerPasses(roll: bool)
    | OpponentActs(aiChoiceDrink: bool, roll: bool)

  /** One action: at most one hit point is lost, by at most one, and the batch
      settings never change. */
  function Step(g: Game, m: Move): (r: Game)
    ensures g.playerHP - 1 <= r.playerHP <= g.playerHP
    ensures g.opponentHP - 1 <= r.opponentHP <= g.opponentHP
    ensures r.playerHP == g.playerHP || r.opponentHP == g.opponentHP
    ensures IsGameOver(g) ==> r == g
    ensures SameSettings(g, r)
  {
    match m
    case PlayerDrinks(roll) => OnDrink(g, roll)
    case PlayerPasses(roll) => OnPassDrink(g, roll)
    case OpponentActs(aiChoiceDrink, roll) => OpponentTurn(g, aiChoiceDrink, roll)
  }

  /** The game after a sequence of actions: hit points never rise, every action
      costs at most one hit point in all, and a finished game stays as it is. */
  function Run(g: Game, ms: seq<Move>): (r: Game)
    ensures r.playerHP <= g.playerHP && r.opponentHP <= g.opponentHP
    ensures (g.playerHP - r.playerHP) + (g.opponentHP - r.opponentHP) <= |ms|
    ensures IsGameOver(g) ==> r == g
    ensures SameSettings(g, r)
    decreases |ms|
  {
    if |ms| == 0 then g else Run(Step(g, ms[0]), ms[1..])
  }

  /** Every poison roll of the run is certain when every drink left is poisoned. */
  predicate HonestRolls(g: Game, ms: seq<Move>)
    decreases |ms|
  {
    |ms| == 0 || (CertainWhenAllPoisoned(g, ms[0].roll) && HonestRolls(Step(g, ms[0]), ms[1..]))
  }

  /** Hit points never negative and never both spent. */
  predicate HPInv(g: Game)
  {
    0 <= g.playerHP && 0 <= g.opponentHP && (0 < g.playerHP || 0 < g.opponentHP)
  }

  predicate Inv(g: Game)
  {
    BatchInv(g) && HPInv(g)
  }

  /** Every action, whatever its rolls, keeps both hit points non-negative and
      never leaves both sides out. */
  lemma StepKeepsHPInv(g: Game, m: Move)
    requires HPInv(g)
    ensures HPInv(Step(g, m))
  {
  }

  /** A run of actions, whatever its rolls, keeps the hit-point invariant. */
  lemma {:induction false} RunKeepsHPInv(g: Game, ms: seq<Move>)
    requires HPInv(g)
    ensures HPInv(Run(g, ms))
    decreases |ms|
  {
    if |ms| > 0 {
      StepKeepsHPInv(g, ms[0]);
      RunKeepsHPInv(Step(g, ms[0]), ms[1..]);
    }
  }

  /** From a start with both sides alive, whatever the rolls and whatever the
      batch settings, the two sides are never out at the same time. */
  lemma NeverBothOut(playerHP: Int32, opponentHP: Int32, total: Int32, poisoned: Int32, ms: seq<Move>)
    requires 0 < playerHP && 0 < opponentHP
    ensures !(Run(Start(playerHP, opponentHP, total, poisoned), ms).playerHP <= 0 &&
              Run(Start(playerHP, opponentHP, total, poisoned), ms).opponentHP <= 0)
  {
    RunKeepsHPInv(Start(playerHP, opponentHP, total, poisoned), ms);
  }

  /** One action with an honest roll keeps the batch invariant (and the
      hit-point invariant, which needs no honest roll). */
  lemma StepKeepsInv(g: Game, m: Move)
    requires Inv(g)
    requires CertainWhenAllPoisoned(g, m.roll)
    ensures Inv(Step(g, m))
  {
  }

  /** A run of honest actions keeps both invariants. */
  lemma {:induction false} RunKeepsInv(g: Game, ms: seq<Move>)
    requires Inv(g)
    requires HonestRolls(g, ms)
    ensures Inv(Run(g, ms))
    decreases |ms|
  {
    if |ms| > 0 {
      StepKeepsInv(g, ms[0]);
      RunKeepsInv(Step(g, ms[0]), ms[1..]);
    }
  }

  /** Every state reachable from a sane start by honest actions satisfies both
      invariants. */
  lemma ReachableStatesAreSound(playerHP: Int32, opponentHP: Int32, total: Int32, poisoned: Int32, ms: seq<Move>)
    requires 0 < playerHP && 0 < opponentHP
    requires 1 <= total && 0 <= poisoned <= total
    requires HonestRolls(Start(playerHP, opponentHP, total, poisoned), ms)
    ensures Inv(Run(Start(playerHP, opponentHP, total, poisoned), ms))
  {
    RunKeepsInv(Start(playerHP, opponentHP, total, poisoned), ms);
  }

  /** A run that ends the game lost the side whose hit points ran out, and the
      winner is the other side. */
  lemma {:induction false} LoserRanOut(g: Game, ms: seq<Move>)
    requires HPInv(g) && !IsGameOver(g)
    requires IsGameOver(Run(g, ms))
    ensures Outcome(Run(g, ms)) == OpponentWins <==> Run(g, ms).playerHP == 0
    ensures Outcome(Run(g, ms)) == PlayerWins <==> Run(g, ms).opponentHP == 0
    decreases |ms|
  {
    var g' := Step(g, ms[0]);
    if !IsGameOver(g') {
      LoserRanOut(g', ms[1..]);
    }
  }

  /** The player's first drink is poisoned: one hit point is lost and the
      opponent moves next. */
  lemma PoisonedFirstDrink()
    ensures
      var r := OnDrink(Start(5, 5, 6, 2), true);
      r.playerHP == 4 && r.opponentHP == 5 && !r.isPlayerTurn && r.drinksLeft == 5 && r.poisonedLeft == 1
  {
  }

  /** The player's last hit point goes: the opponent wins, the turn stays, and
      no later action of either side, whatever its rolls, changes the game. */
  lemma LastHitPointEndsTheGame(m: Move)
    ensures
      var r := OnDrink(Start(1, 5, 6, 2), true);
      && r.playerHP == 0 && Outcome(r) == OpponentWins && r.isPlayerTurn
      && Step(r, m) == r
  {
  }
}
