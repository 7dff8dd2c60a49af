/** The game-over check as the behaviour writes it. When the game is over,
    `IsGameOver` calls `UpdateButtonVisibility`, which evaluates
    `isPlayerTurn && !IsGameOver()`; while `isPlayerTurn` holds the two call each
    other until the call stack runs out. A call is modelled with the number of
    stack frames it still has room for, `depth`. The functions of `DrinkRoulette`
    are the intended behaviour, in which the check always returns. */
module GameOverCheck {
  import opened DrinkRoulette

  /** How a call ends: with a value, or by running out of stack. */
  datatype Call<T> = Returns(value: T) | Overflows

  /** The states in which a call of `IsGameOver` never returns: the game is
      over and it is the player's turn. */
  predicate Stuck(g: Game)
  {
    g.isPlayerTurn && IsGameOver(g)
  }

  /** `IsGameOver` as written, with room for `depth` frames. */
  function GameOverCall(g: Game, depth: nat): Call<bool>
    decreases depth
  {
    if depth == 0 then Overflows
    else if !IsGameOver(g) then Returns(false)
    else
      match ButtonsCall(g, depth - 1)
      case Overflows => Overflows
      case Returns(_) => Returns(true)
  }

  /** `UpdateButtonVisibility` as written, with room for `depth` frames; it
      yields whether the buttons are shown. `&&` does not evaluate
      `IsGameOver()` when it is not the player's turn. */
  function ButtonsCall(g: Game, depth: nat): Call<bool>
    decreases depth
  {
    if depth == 0 then Overflows
    else if !g.isPlayerTurn then Returns(false)
    else
      match GameOverCall(g, depth - 1)
      case Overflows => Overflows
      case Returns(over) => Returns(!over)
  }

  /** However deep the stack, the check never returns in a stuck state; in any
      other state two frames are enough for it to return the right answer. */
  lemma {:induction false} GameOverCallEnds(g: Game, depth: nat)
    ensures Stuck(g) ==> GameOverCall(g, depth) == Overflows
    ensures Stuck(g) ==> ButtonsCall(g, depth) == Overflows
    ensures !Stuck(g) && depth >= 2 ==> GameOverCall(g, depth) == Returns(IsGameOver(g))
    ensures !Stuck(g) && depth >= 2 ==> ButtonsCall(g, depth) == Returns(g.isPlayerTurn && !IsGameOver(g))
    decreases depth
  {
    if depth > 0 {
      GameOverCallEnds(g, depth - 1);
    }
  }

  /** `EndTurn` as written: the check at the start, then the button update
      after the turn has passed. */
  function EndTurnAsWritten(g: Game, depth: nat): Call<Game>
  {
    match GameOverCall(g, depth)
    case Overflows => Overflows
    case Returns(over) =>
      if over then Returns(g)
      else
        var r := g.(isPlayerTurn := !g.isPlayerTurn);
        match ButtonsCall(r, depth)
        case Overflows => Overflows
        case Returns(_) => Returns(r)
  }

  /** `OnDrink` as written. */
  function OnDrinkAsWritten(g: Game, roll: bool, depth: nat): (c: Call<Game>)
    requires depth >= 2
    ensures c == Overflows <==> Stuck(OnDrink(g, roll))
    ensures c != Overflows ==> c == Returns(OnDrink(g, roll))
  {
    GameOverCallEnds(g, depth);
    if !g.isPlayerTurn then Returns(g)
    else
      match GameOverCall(g, depth)
      case Overflows => Overflows
      case Returns(over) =>
        if over then Returns(g)
        else
          var d := DrawDrink(g, roll);
          if d.poisoned then
            var h := d.game.(playerHP := g.playerHP - 1);
            EndTurnEnds(h, depth);
            EndTurnAsWritten(h, depth)
          else Returns(d.game)
  }

  /** `OnPassDrink` as written. */
  function OnPassDrinkAsWritten(g: Game, roll: bool, depth: nat): (c: Call<Game>)
    requires depth >= 2
    ensures c == Overflows <==> Stuck(OnPassDrink(g, roll))
    ensures c != Overflows ==> c == Returns(OnPassDrink(g, roll))
  {
    GameOverCallEnds(g, depth);
    if !g.isPlayerTurn then Returns(g)
    else
      match GameOverCall(g, depth)
      case Overflows => Overflows
      case Returns(over) =>
        if over then Returns(g)
        else
          var d := DrawDrink(g, roll);
          var hit := if d.poisoned then d.game.(opponentHP := g.opponentHP - 1) else d.game;
          EndTurnEnds(hit, depth);
          EndTurnAsWritten(hit, depth)
  }

  /** `OpponentTurn` as written. Scheduled on the opponent's turn, it always
      returns. */
  function OpponentTurnAsWritten(g: Game, aiChoiceDrink: bool, roll: bool, depth: nat): (c: Call<Game>)
    requires depth >= 2
    ensures c == Overflows <==> Stuck(OpponentTurn(g, aiChoiceDrink, roll))
    ensures c != Overflows ==> c == Returns(OpponentTurn(g, aiChoiceDrink, roll))
    ensures !g.isPlayerTurn ==> c == Returns(OpponentTurn(g, aiChoiceDrink, roll))
  {
    GameOverCallEnds(g, depth);
    match GameOverCall(g, depth)
    case Overflows => Overflows
    case Returns(over) =>
      if over then Returns(g)
      else
        var d := DrawDrink(g, roll);
        var hit :=
          if !d.poisoned then d.game
          else if aiChoiceDrink then d.game.(opponentHP := g.opponentHP - 1)
          else d.game.(playerHP := g.playerHP - 1);
        EndTurnEnds(hit, depth);
        EndTurnAsWritten(hit, depth)
  }

  /** `EndTurn` as written ends like the intended one, except that it never
      returns once the game is over on the player's turn. */
  lemma EndTurnEnds(g: Game, depth: nat)
    requires depth >= 2
    ensures EndTurnAsWritten(g, depth) == Overflows <==> Stuck(g)
    ensures !Stuck(g) ==> EndTurnAsWritten(g, depth) == Returns(EndTurn(g))
  {
    GameOverCallEnds(g, depth);
    GameOverCallEnds(g.(isPlayerTurn := !g.isPlayerTurn), depth);
  }

  /** `Start` as written: its button update never returns when a side starts
      without hit points. */
  function StartAsWritten(playerHP: Int32, opponentHP: Int32, total: Int32, poisoned: Int32, depth: nat): (c: Call<Game>)
    requires depth >= 2
    ensures c == Overflows <==> playerHP <= 0 || opponentHP <= 0
    ensures c != Overflows ==> c == Returns(Start(playerHP, opponentHP, total, poisoned))
  {
    var g := Start(playerHP, opponentHP, total, poisoned);
    GameOverCallEnds(g, depth);
    match ButtonsCall(g, depth)
    case Overflows => Overflows
    case Returns(_) => Returns(g)
  }

  /** Whenever the player ends the game (a poisoned drink on the last hit point,
      or a poisoned pass on the opponent's last), the action never returns, however
      deep the stack; nor does any later press. A game the opponent ends on
      its own turn finishes normally. */
  lemma EndingOnPlayersTurnOverflows(depth: nat)
    requires depth >= 2
    ensures OnDrinkAsWritten(Start(1, 5, 6, 2), true, depth) == Overflows
    ensures OnPassDrinkAsWritten(Start(5, 1, 6, 2), true, depth) == Overflows
    ensures OnPassDrinkAsWritten(OnDrink(Start(1, 5, 6, 2), true), false, depth) == Overflows
    ensures
      var g := Start(1, 5, 6, 2).(isPlayerTurn := false);
      OpponentTurnAsWritten(g, false, true, depth) == Returns(g.(playerHP := 0, drinksLeft := 5, poisonedLeft := 1))
  {
  }
}
