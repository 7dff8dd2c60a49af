# DrinkRoulette turn engine in Dafny

This project models the turn engine of `DrinkRoulette`, the single Unity behaviour of the
"poisoned glass" party game. The game has a shared batch of drinks, some of them poisoned, and two
hit-point counters: the player's and the opponent's. On each turn the side to move either drinks or
passes the drink on:

- A poisoned drink costs the drinker one hit point.
- A poisoned pass costs the other side one hit point.
- The player keeps the turn after a safe drink. Every other action ends the turn.
- The opponent acts after a delay. Its turn always ends, even after a safe drink.
- The game is over as soon as one side has no hit points left. The player's defeat is checked first.

The game is the immutable record `DrinkRoulette.Game`. Its fields are the behaviour's own fields:
`playerHP`, `opponentHP`, `totalDrinksInBatch`, `poisonedDrinksInBatch`, `drinksLeft`, `poisonedLeft`
and `isPlayerTurn`. Each of them is a C# `int` (the subset type `Int32`), except `isPlayerTurn`.
Every action is a pure function of the game and of the outcomes of the behaviour's random draws:

- `roll` is the outcome of `Random.value < chance`, the poison roll of a draw;
- `aiChoiceDrink` is the outcome of `Random.value > 0.5f`, the opponent's choice.

Modules:

- `DrinkRoulette` (`drink_roulette.dfy`): the record and the methods `StartNewBatch`, `DrawDrink`,
  `IsGameOver`, `EndTurn`, `OnDrink`, `OnPassDrink` and `OpponentTurn`. It also holds the batch invariant
  `0 <= poisonedLeft <= drinksLeft <= totalDrinksInBatch`.
- `PoisonChance` (`poison_chance.dfy`): the poison roll computed from a sample `u` of `Random.value`.
  Unity draws `u` from [0.0, 1.0] with both ends included. The chance
  `(float)poisonedLeft / (drinksLeft + 1)` is computed exactly over the reals. Its divisor is the
  drink count before the draw, and a zero divisor counts as +infinity. The module also holds the draw of
  a whole batch with the corrected roll.
- `GameOverCheck` (`game_over_check.dfy`): the game-over check as written, with the call stack it runs on.
  When the game is over, `IsGameOver` calls `UpdateButtonVisibility`, which evaluates
  `isPlayerTurn && !IsGameOver()`. While `isPlayerTurn` holds, the two call each other until the stack
  runs out. So an action never returns if it ends the game on the player's turn, and neither does any
  later button press. The functions of `DrinkRoulette` model the intended behaviour, in which the check
  returns its verdict (see Findings).
- `Play` (`play.dfy`): sequences of actions and the invariants of the states they reach.

The batch invariant needs an honest poison roll. When every drink left is poisoned, the chance is 1 and
the roll must say "poisoned" (`CertainWhenAllPoisoned`). `DrawKeepsBatchInv` proves that this condition is
necessary as well as sufficient. The code itself does not guarantee it: see Findings.

Where descriptions of the game and the code differ, the model follows the code:

- The opponent never keeps its turn after a safe drink. Only the player does.
- A batch is refilled when `drinksLeft <= 0`, not only when it is exactly 0.
- No settings are validated. With `totalDrinksInBatch == 0`, a draw divides by zero, which makes the
  drink poisoned whenever poison is left. With a negative total above the smallest `int`, every draw
  refills the batch and is never poisoned. With the smallest `int` as the total, the first draw wraps
  `drinksLeft` round to the largest `int`, and later draws can be poisoned.
- `OpponentTurn` stops only for a finished game. It does not check `isPlayerTurn`.

## Model

| member | source | states |
|---|---|---|
| DrinkRoulette.Start | Assets/Scripts/PoisonedGlass.cs:37-39 | the opening game keeps the configured hit points and batch settings, has a full batch and gives the player the first move |
| DrinkRoulette.StartNewBatch | Assets/Scripts/PoisonedGlass.cs:171-175 | the batch counters are reset to the settings and nothing else changes; with sane settings the fresh batch satisfies the batch invariant |
| DrinkRoulette.DrawDrink | Assets/Scripts/PoisonedGlass.cs:86-108 | the batch is refilled to the settings (`Refill`, `StartNewBatch`) exactly when `drinksLeft <= 0`, and then one drink is removed; a draw is poisoned exactly when the roll says so and poison is left; `poisonedLeft` drops by one exactly on a poisoned draw; `drinksLeft >= 0` afterwards when the batch size is at least 1; `poisonedLeft` never goes negative; nothing but the two batch counters changes |
| DrinkRoulette.Outcome | Assets/Scripts/PoisonedGlass.cs:190-207 | the opponent wins exactly when `playerHP <= 0`; the player wins exactly when the player is still alive and `opponentHP <= 0`; otherwise the game is in play; `IsGameOver` holds exactly when the verdict is not in play; this is the verdict the check is meant to return; as written it never returns when the game is over on the player's turn (see GameOverCheck) |
| DrinkRoulette.EndTurn | Assets/Scripts/PoisonedGlass.cs:110-126 | the turn flips exactly when both sides still have hit points; nothing else changes; this is the intended behaviour, which as written returns only when the game is not over on the player's turn |
| DrinkRoulette.EndTurnTwice | Assets/Scripts/PoisonedGlass.cs:110-115 | in a game still in play, ending the turn twice hands the turn back |
| DrinkRoulette.OnDrink | Assets/Scripts/PoisonedGlass.cs:48-64 | nothing happens unless it is the player's turn in a live game; a poisoned drink lowers `playerHP` by exactly one and the turn passes unless the player is out; a safe drink keeps both hit points and the player's turn; `opponentHP` and the settings are untouched; the batch moves on by one draw; this is the intended behaviour; as written, a drink that ends the game never returns (see GameOverCheck) |
| DrinkRoulette.OnPassDrink | Assets/Scripts/PoisonedGlass.cs:67-84 | nothing happens unless it is the player's turn in a live game; `playerHP` is never touched; `opponentHP` drops by one exactly when the drink is poisoned; the turn passes unless the opponent is out; this is the intended behaviour; as written, a pass that ends the game never returns (see GameOverCheck) |
| DrinkRoulette.OpponentTurn | Assets/Scripts/PoisonedGlass.cs:134-169 | nothing happens in a finished game; a poisoned drink costs the opponent one hit point; a poisoned pass costs the player one; a safe action costs nothing; the turn always changes unless the game has just ended |
| DrinkRoulette.DrawKeepsBatchInv | Assets/Scripts/PoisonedGlass.cs:88-104 | from a batch satisfying the invariant, a draw keeps the invariant if and only if the roll is poisoned whenever every drink left is poisoned |
| PoisonChance.RollAsWritten | Assets/Scripts/PoisonedGlass.cs:96-104 | with poison left and `n` drinks before the draw: for `n > 0` the drink is poisoned exactly when `u * n < poisonedLeft`; for `n == 0` it is always poisoned; for `n < 0` it is never poisoned |
| PoisonChance.PoisonRoll | Assets/Scripts/PoisonedGlass.cs:98-99 | the corrected roll is certain when every drink left is poisoned; it differs from the roll as written exactly when the sample is 1.0 and every drink left is poisoned |
| PoisonChance.CountBeforeDraw | Assets/Scripts/PoisonedGlass.cs:93-98 | the divisor `drinksLeft + 1`, taken after `drinksLeft--`, equals the count before the draw, even across 32-bit wrap-around; `Divisor` computes it for a draw from a game |
| PoisonChance.CorrectedRollIsCertain | Assets/Scripts/PoisonedGlass.cs:98-99 | whatever the sample, the corrected roll is honest when every drink left is poisoned |
| PoisonChance.DrawAsWritten | Assets/Scripts/PoisonedGlass.cs:86-104 | the draw as written is poisoned only when poison is left; from a batch satisfying the invariant, it breaks the invariant exactly when the sample is 1.0 and every drink left is poisoned |
| PoisonChance.AsWrittenRollKeepsBatchInv | Assets/Scripts/PoisonedGlass.cs:93-103 | from a batch satisfying the invariant, the roll as written, with the divisor computed as the code computes it, keeps the invariant unless the sample is 1.0 and every drink left is poisoned |
| PoisonChance.AsWrittenLeavesPoisonBehind | Assets/Scripts/PoisonedGlass.cs:88-104 | as written, a sample of 1.0 draws a safe drink from a batch whose last drink is poisoned; the batch is then empty but still holds poison, which the next refill discards |
| PoisonChance.DrawWithSample | Assets/Scripts/PoisonedGlass.cs:86-104 | the corrected draw keeps the batch invariant for every sample in [0, 1], and it equals the draw as written for every sample below 1.0 |
| PoisonChance.DrawRestOfBatch | Assets/Scripts/PoisonedGlass.cs:86-104 | drawing out the rest of a batch with the corrected roll (`DrawWithSample`) yields exactly as many poisoned drinks as were left in it, whatever the samples, and leaves the batch empty with everything else unchanged |
| GameOverCheck.GameOverCallEnds | Assets/Scripts/PoisonedGlass.cs:184-207 | `IsGameOver` and `UpdateButtonVisibility` as written (`GameOverCall`, `ButtonsCall`), run with a given room on the call stack: however deep the stack, it and `UpdateButtonVisibility` never return when the game is over on the player's turn; in every other state, two frames are enough for `IsGameOver` to return whether the game is over and for the buttons to show exactly on the player's turn in a live game |
| GameOverCheck.EndTurnEnds | Assets/Scripts/PoisonedGlass.cs:110-126 | `EndTurn` as written (`EndTurnAsWritten`) overflows exactly when the game is over on the player's turn; otherwise it returns the intended `EndTurn` |
| GameOverCheck.OnDrinkAsWritten | Assets/Scripts/PoisonedGlass.cs:48-64 | `OnDrink` as written never returns exactly when the intended result is a finished game on the player's turn: a drink that costs the player the last hit point, or any press after the player's own turn ended the game; otherwise it returns the intended result |
| GameOverCheck.OnPassDrinkAsWritten | Assets/Scripts/PoisonedGlass.cs:67-84 | `OnPassDrink` as written never returns exactly when the intended result is a finished game on the player's turn, so every win by a poisoned pass; otherwise it returns the intended result |
| GameOverCheck.OpponentTurnAsWritten | Assets/Scripts/PoisonedGlass.cs:134-169 | `OpponentTurn` as written returns the intended result whenever it starts on the opponent's turn, which is the only way the code schedules it |
| GameOverCheck.StartAsWritten | Assets/Scripts/PoisonedGlass.cs:37-45 | `Start` as written never returns exactly when a side starts without hit points; otherwise it returns the opening game |
| GameOverCheck.EndingOnPlayersTurnOverflows | Assets/Scripts/PoisonedGlass.cs:48-84 | a poisoned drink on the player's last hit point, a poisoned pass on the opponent's last, and a pass after the player has lost never return, however deep the stack; a game the opponent ends on its own turn returns normally |
| Play.Step | Assets/Scripts/PoisonedGlass.cs:48-169 | every action lowers at most one hit point, by at most one; it changes nothing in a finished game and never changes the settings |
| Play.Run | Assets/Scripts/PoisonedGlass.cs:48-169 | over a sequence of actions, hit points never rise and fall by at most one per action in all; a finished game stays finished and unchanged |
| Play.StepKeepsHPInv | Assets/Scripts/PoisonedGlass.cs:48-169 | every action, whatever its rolls, keeps both hit points non-negative and never leaves both sides out |
| Play.RunKeepsHPInv | Assets/Scripts/PoisonedGlass.cs:48-169 | a sequence of actions, whatever its rolls, keeps the hit-point invariant |
| Play.NeverBothOut | Assets/Scripts/PoisonedGlass.cs:37-169 | from a start where both sides are alive, whatever the rolls and the batch settings, the two sides are never out at the same time |
| Play.StepKeepsInv | Assets/Scripts/PoisonedGlass.cs:48-169 | an action with an honest roll keeps the batch invariant and keeps both hit points non-negative and not both spent |
| Play.RunKeepsInv | Assets/Scripts/PoisonedGlass.cs:48-169 | a sequence of actions with honest rolls keeps both invariants |
| Play.ReachableStatesAreSound | Assets/Scripts/PoisonedGlass.cs:37-169 | from a start with positive hit points and sane batch settings, every state reached with honest rolls satisfies both invariants |
| Play.LoserRanOut | Assets/Scripts/PoisonedGlass.cs:190-207 | when a run ends a live game, the opponent has won exactly when `playerHP` is 0, and the player has won exactly when `opponentHP` is 0 |
| Play.PoisonedFirstDrink | Assets/Scripts/PoisonedGlass.cs:48-64 | with 5 and 5 hit points and a batch of 6 holding 2 poisoned, a poisoned first drink leaves the player with 4 hit points and gives the opponent the move |
| Play.LastHitPointEndsTheGame | Assets/Scripts/PoisonedGlass.cs:48-84 | a poisoned drink that takes the player's last hit point makes the opponent the winner and freezes the turn; after that, no action of either side changes the game, whatever its rolls |

## Left out

- UI: `UpdateUI`, the `resultText` messages and the `SetActive` calls on the buttons are presentation and are not modelled. `UpdateButtonVisibility` also calls back into `IsGameOver`, and that part is modelled in `GameOverCheck`, as the flag it computes.
- DrinkRoulette.Outcome: returns the verdict in every state. As written, `IsGameOver` never returns when the game is over on the player's turn; `GameOverCheck.GameOverCall` models that.
- DrinkRoulette.EndTurn: returns normally in every state. As written, it never returns when the game is over on the player's turn; `GameOverCheck.EndTurnEnds` models that.
- DrinkRoulette.OnDrink: returns normally when the drink ends the game, and ignores presses after it. As written, those calls never return; `GameOverCheck.OnDrinkAsWritten` models that.
- DrinkRoulette.OnPassDrink: returns normally when the pass ends the game, and ignores presses after it. As written, those calls never return; `GameOverCheck.OnPassDrinkAsWritten` models that.
- `OpponentTurnWithDelay` and `aiResponseDelay` are Unity coroutine scheduling and wall-clock time. The opponent's turn is an explicit step, `OpponentTurn` or `Play.OpponentActs`.
- `RestartGame` reloads the scene through the engine. That amounts to `Start` again with the inspector settings.
- Cancelling a pending opponent turn on restart is not modelled. The code has no cancellation of its own: reloading the scene destroys the pending coroutine.
- `Start` is modelled without its UI calls. The behaviour's lifecycle is not modelled.
- `Random.value` is a parameter: a boolean outcome in `DrinkRoulette` and `Play`, a real sample in `PoisonChance`. The opponent's choice `Random.value > 0.5f` is always a boolean outcome.
- PoisonChance.DrawRestOfBatch: counts the poisoned drinks of a batch drawn with the corrected roll. With the roll as written, a sample of 1.0 when every drink left is poisoned delivers one poisoned drink fewer (see Findings).
- Float arithmetic is not modelled. `PoisonChance` computes the chance exactly over the reals. It does not round `(float)poisonedLeft` or the quotient, so a sample lying between the exact chance and its float rounding may be judged differently.
- Play.StepKeepsInv: assumes the honest roll of `CertainWhenAllPoisoned` for the batch half, because the code as written does not guarantee it (see Findings). The hit-point half holds for every roll (`Play.StepKeepsHPInv`).
- Play.RunKeepsInv: assumes honest rolls throughout, for the same reason. The hit-point half holds for every roll (`Play.RunKeepsHPInv`).
- Play.ReachableStatesAreSound: assumes honest rolls and sane batch settings (`1 <= totalDrinksInBatch`, `0 <= poisonedDrinksInBatch <= totalDrinksInBatch`), because the code validates neither. `Play.NeverBothOut` needs neither assumption.
- 32-bit wrap-around is modelled explicitly for `drinksLeft--` and for the divisor `drinksLeft + 1`. Both wrap only when the batch count is the smallest `int`, that is, when `totalDrinksInBatch` is. The hit-point and `poisonedLeft` decrements are proved never to leave the `int` range, because the code only lowers positive values.

## Findings

| source | as written | input that shows it | evidently intended | confidence | as-written member | corrected member |
|---|---|---|---|---|---|---|
| Assets/Scripts/PoisonedGlass.cs:98-99 | the drink is poisoned when `Random.value < chance`; Unity's `Random.value` can return exactly 1.0, and `1.0 < 1.0` is false | a batch whose last drink is poisoned (`drinksLeft` 1, `poisonedLeft` 1), so the chance is 1, and `Random.value` returning 1.0: a safe drink is drawn, the batch is empty yet `poisonedLeft` is 1, and the next refill discards that poison | a chance of 1 means the drink is certainly poisoned, so `poisonedLeft <= drinksLeft` holds and every batch delivers all its poisoned drinks | medium, not executed | PoisonChance.AsWrittenLeavesPoisonBehind | PoisonChance.DrawWithSample |
| Assets/Scripts/PoisonedGlass.cs:184-207 | when the game is over, `IsGameOver` calls `UpdateButtonVisibility`, which calls `IsGameOver` again while `isPlayerTurn` holds, so neither ever returns | the player drinks poison on the last hit point (playerHP 1, opponentHP 5, batch 6 with 2 poisoned), or passes poison to an opponent on 1 hit point: `EndTurn` never returns, the restart button is never shown, and every later press recurses again in its guard | the check returns true once, shows the restart button and hides the drink and pass buttons | high, not executed | GameOverCheck.EndingOnPlayersTurnOverflows | DrinkRoulette.Outcome |
