/** The turn engine of the `DrinkRoulette` behaviour: a batch (urn) of drinks of
    which some are poisoned, the player's and the opponent's hit points, and whose
    turn it is.

    Every step is a pure function of the game and of the outcomes of the
    behaviour's two random draws, which are passed in as booleans:
    - `roll` stands for `Random.value < chance`, the poison roll of a draw; it is
      only consulted when a poisoned drink is left in the batch;
    - `aiChoiceDrink` stands for `Random.value > 0.5f`, the opponent's choice. */
module DrinkRoulette {

  /** C#'s `int`. */
  type Int32 = x: int | -0x8000_0000 <= x < 0x8000_0000

  /** Unchecked C# `int` arithmetic: `x` wrapped into 32-bit two's complement. */
  function Wrap32(x: int): (r: Int32)
    ensures -0x8000_0000 <= x < 0x8000_0000 ==> r == x
    ensures (x - r) % 0x1_0000_0000 == 0
  {
    (x + 0x8000_0000) % 0x1_0000_0000 - 0x8000_0000
  }

  /** The fields of the behaviour the turn engine reads and writes. The first four
      are inspector settings; `drinksLeft` and `poisonedLeft` describe the current
      batch. */
  datatype Game = Game(
    playerHP: Int32,
    opponentHP: Int32,
    totalDrinksInBatch: Int32,
    poisonedDrinksInBatch: Int32,
    drinksLeft: Int32,
    poisonedLeft: Int32,
    isPlayerTurn: bool)

  /** The outcome of one draw: the game afterwards, and whether the drink was poisoned. */
  datatype Draw = Draw(game: Game, poisoned: bool)

  /** Who has won, as `IsGameOver` decides it. */
  datatype Verdict = InPlay | OpponentWins | PlayerWins

  /** The batch settings are the same in both games. */
  predicate SameSettings(g: Game, r: Game)
  {
    && r.totalDrinksInBatch == g.totalDrinksInBatch
    && r.poisonedDrinksInBatch == g.poisonedDrinksInBatch
  }

  /** `StartNewBatch`: the batch is filled up again from the settings. */
  function StartNewBatch(g: Game): (r: Game)
    ensures r.drinksLeft == g.totalDrinksInBatch && r.poisonedLeft == g.poisonedDrinksInBatch
    ensures r == g.(drinksLeft := r.drinksLeft, poisonedLeft := r.poisonedLeft)
    ensures SaneSettings(g) ==> BatchInv(r)
  {
    g.(drinksLeft := g.totalDrinksInBatch, poisonedLeft := g.poisonedDrinksInBatch)
  }

  /** The game as `Start` leaves it: the inspector settings, a fresh batch, and the
      player to move (`isPlayerTurn` starts out true; the batch fields start at 0). */
  function Start(playerHP: Int32, opponentHP: Int32, totalDrinksInBatch: Int32, poisonedDrinksInBatch: Int32): (g: Game)
    ensures g.isPlayerTurn
    ensures g.playerHP == playerHP && g.opponentHP == opponentHP
    ensures g.drinksLeft == g.totalDrinksInBatch == totalDrinksInBatch
    ensures g.poisonedLeft == g.poisonedDrinksInBatch == poisonedDrinksInBatch
  {
    StartNewBatch(Game(playerHP, opponentHP, totalDrinksInBatch, poisonedDrinksInBatch, 0, 0, true))
  }

  /** The batch a draw is taken from: refilled first when it is empty (or overdrawn). */
  function Refill(g: Game): Game
  {
    if g.drinksLeft <= 0 then StartNewBatch(g) else g
  }

  /** `DrawDrink`: refill an empty batch, remove one drink, and use up one poisoned
      drink when the drink is poisoned. */
  function DrawDrink(g: Game, roll: bool): (d: Draw)
    // the batch is refilled to the settings exactly when it is empty; one drink goes
    ensures g.drinksLeft <= 0 ==> d.game.drinksLeft == Wrap32(g.totalDrinksInBatch - 1)
    ensures g.drinksLeft > 0 ==> d.game.drinksLeft == g.drinksLeft - 1
    ensures g.drinksLeft <= 0 ==> d.game.poisonedLeft + (if d.poisoned then 1 else 0) == g.poisonedDrinksInBatch
    ensures g.drinksLeft > 0 ==> d.game.poisonedLeft + (if d.poisoned then 1 else 0) == g.poisonedLeft
    // only a batch that still holds poison can yield a poisoned drink
    ensures d.poisoned <==> roll && Refill(g).poisonedLeft > 0
    ensures g.totalDrinksInBatch >= 1 ==> d.game.drinksLeft >= 0
    ensures Refill(g).poisonedLeft >= 0 ==> d.game.poisonedLeft >= 0
    // hit points, settings and the turn are untouched
    ensures d.game == g.(drinksLeft := d.game.drinksLeft, poisonedLeft := d.game.poisonedLeft)
  {
    var b := Refill(g);
    var drinksLeft := Wrap32(b.drinksLeft - 1);
    if b.poisonedLeft > 0 && roll then
      Draw(b.(drinksLeft := drinksLeft, poisonedLeft := b.poisonedLeft - 1), true)
    else
      Draw(b.(drinksLeft := drinksLeft), false)
  }

  /** `IsGameOver`, without its text and button side effects: the player's defeat
      is checked before the opponent's. */
  function Outcome(g: Game): (v: Verdict)
    ensures v == OpponentWins <==> g.playerHP <= 0
    ensures v == PlayerWins <==> 0 < g.playerHP && g.opponentHP <= 0
    ensures v == InPlay <==> 0 < g.playerHP && 0 < g.opponentHP
  {
    if g.playerHP <= 0 then OpponentWins
    else if g.opponentHP <= 0 then PlayerWins
    else InPlay
  }

  predicate IsGameOver(g: Game)
  {
    Outcome(g) != InPlay
  }

  /** `EndTurn`: the turn passes to the other side unless the game is over. */
  function EndTurn(g: Game): (r: Game)
    ensures r.isPlayerTurn != g.isPlayerTurn <==> 0 < g.playerHP && 0 < g.opponentHP
    ensures r == g.(isPlayerTurn := r.isPlayerTurn)
  {
    if IsGameOver(g) then g else g.(isPlayerTurn := !g.isPlayerTurn)
  }

  /** The guard of `OnDrink` and `OnPassDrink`. */
  predicate PlayerMayAct(g: Game)
  {
    g.isPlayerTurn && !IsGameOver(g)
  }

  /** `OnDrink`: the player drinks. A poisoned drink costs the player one hit point
      and ends the turn; a safe one lets the player choose again. */
  function OnDrink(g: Game, roll: bool): (r: Game)
    ensures !PlayerMayAct(g) ==> r == g
    ensures PlayerMayAct(g) ==>
      var d := DrawDrink(g, roll);
      && r.opponentHP == g.opponentHP
      && r.playerHP == (if d.poisoned then g.playerHP - 1 else g.playerHP)
      && (r.isPlayerTurn <==> !d.poisoned || r.playerHP <= 0)
      && r.drinksLeft == d.game.drinksLeft
      && r.poisonedLeft == d.game.poisonedLeft
      && SameSettings(g, r)
  {
    if !PlayerMayAct(g) then g
    else
      var d := DrawDrink(g, roll);
      if d.poisoned then EndTurn(d.game.(playerHP := g.playerHP - 1))
      else d.game
  }

  /** `OnPassDrink`: the player passes the drink on. A poisoned drink costs the
      opponent one hit point; either way the turn ends. */
  function OnPassDrink(g: Game, roll: bool): (r: Game)
    ensures !PlayerMayAct(g) ==> r == g
    ensures PlayerMayAct(g) ==>
      var d := DrawDrink(g, roll);
      && r.playerHP == g.playerHP
      && r.opponentHP == (if d.poisoned then g.opponentHP - 1 else g.opponentHP)
      && (r.isPlayerTurn <==> r.opponentHP <= 0)
      && r.drinksLeft == d.game.drinksLeft
      && r.poisonedLeft == d.game.poisonedLeft
      && SameSettings(g, r)
  {
    if !PlayerMayAct(g) then g
    else
      var d := DrawDrink(g, roll);
      var hit := if d.poisoned then d.game.(opponentHP := g.opponentHP - 1) else d.game;
      EndTurn(hit)
  }

  /** `OpponentTurn`: the opponent drinks (`aiChoiceDrink`) or passes, and the turn
      always ends, even after a safe drink. A poisoned drink costs the opponent a hit
      point; a poisoned pass costs the player one. Only a finished game stops it:
      it does not look at `isPlayerTurn`. */
  function OpponentTurn(g: Game, aiChoiceDrink: bool, roll: bool): (r: Game)
    ensures IsGameOver(g) ==> r == g
    ensures !IsGameOver(g) ==>
      var d := DrawDrink(g, roll);
      && r.opponentHP == (if d.poisoned && aiChoiceDrink then g.opponentHP - 1 else g.opponentHP)
      && r.playerHP == (if d.poisoned && !aiChoiceDrink then g.playerHP - 1 else g.playerHP)
      && (r.isPlayerTurn == g.isPlayerTurn <==> IsGameOver(r))
      && r.drinksLeft == d.game.drinksLeft
      && r.poisonedLeft == d.game.poisonedLeft
      && SameSettings(g, r)
  {
    if IsGameOver(g) then g
    else
      var d := DrawDrink(g, roll);
      var hit :=
        if !d.poisoned then d.game
        else if aiChoiceDrink then d.game.(opponentHP := g.opponentHP - 1)
        else d.game.(playerHP := g.playerHP - 1);
      EndTurn(hit)
  }

  /** Settings the behaviour relies on but never checks: a non-empty batch with no
      more poisoned drinks than drinks. */
  predicate SaneSettings(g: Game)
  {
    1 <= g.totalDrinksInBatch && 0 <= g.poisonedDrinksInBatch <= g.totalDrinksInBatch
  }

  /** The batch invariant: no more poisoned drinks left than drinks, no more
      drinks than a full batch. */
  predicate BatchInv(g: Game)
  {
    SaneSettings(g) && 0 <= g.poisonedLeft <= g.drinksLeft <= g.totalDrinksInBatch
  }

  /** The roll an honest `Random.value < chance` gives when every drink left is
      poisoned, that is when the chance is 1: poisoned. */
  predicate CertainWhenAllPoisoned(g: Game, roll: bool)
  {
    var b := Refill(g);
    0 < b.drinksLeft <= b.poisonedLeft ==> roll
  }

  /** A draw keeps the batch invariant exactly when the poison roll is certain
      once every drink left is poisoned. */
  lemma DrawKeepsBatchInv(g: Game, roll: bool)
    requires BatchInv(g)
    ensures BatchInv(DrawDrink(g, roll).game) <==> CertainWhenAllPoisoned(g, roll)
  {
  }

  /** Passing the turn twice in a game still in play hands it back. */
  lemma EndTurnTwice(g: Game)
    requires !IsGameOver(g)
    ensures EndTurn(EndTurn(g)) == g
  {
  }
}
