/** The poison roll of `DrawDrink` computed from a sample `u` of `Random.value`,
    which Unity draws from [0.0, 1.0] with both ends included.

    The behaviour computes `chance = (float)poisonedLeft / (drinksLeft + 1)` after
    the decrement, so the divisor is the number of drinks in the batch before the
    draw. Here the quotient is exact (a real); a zero divisor gives IEEE +infinity. */
module PoisonChance {
  import opened DrinkRoulette

  /** `Random.value < chance`, as the behaviour writes it. It is only evaluated
      when a poisoned drink is left. */
  function RollAsWritten(u: real, poisonedLeft: int, countBefore: int): (poisoned: bool)
    requires poisonedLeft > 0
    ensures countBefore == 0 ==> poisoned
    ensures countBefore < 0 && 0.0 <= u ==> !poisoned
    ensures countBefore > 0 ==> (poisoned <==> u * countBefore as real < poisonedLeft as real)
  {
    if countBefore == 0 then true
    else
      var chance := poisonedLeft as real / countBefore as real;
      assert countBefore > 0 ==> (u < chance <==> u * countBefore as real < chance * countBefore as real);
      u < chance
  }

  /** The roll with a chance of 1 or more treated as certain, which is what the
      chance formula evidently means: once every drink left is poisoned, the drink
      drawn is poisoned. It differs from `RollAsWritten` only on a sample of
      exactly 1.0 when every drink left is poisoned. */
  function PoisonRoll(u: real, poisonedLeft: int, countBefore: int): (poisoned: bool)
    requires 0.0 <= u <= 1.0
    requires poisonedLeft > 0
    ensures 0 < countBefore <= poisonedLeft ==> poisoned
    ensures poisoned != RollAsWritten(u, poisonedLeft, countBefore) <==> u == 1.0 && countBefore == poisonedLeft
  {
    (0 < countBefore <= poisonedLeft) || RollAsWritten(u, poisonedLeft, countBefore)
  }

  /** The divisor the behaviour uses, `drinksLeft + 1` after `drinksLeft--`, is
      the count before the draw, also across 32-bit wrap-around. */
  lemma CountBeforeDraw(count: Int32)
    ensures Wrap32(Wrap32(count - 1) + 1) == count
  {
  }

  /** The divisor of the chance, as the behaviour computes it for a draw from `g`. */
  function Divisor(g: Game): Int32
  {
    var b := Refill(g);
    Wrap32(Wrap32(b.drinksLeft - 1) + 1)
  }

  /** `DrawDrink` with its poison roll taken from the sample `u`, as written. From
      a batch satisfying the invariant it breaks the invariant exactly when the
      sample is 1.0 and every drink left is poisoned. */
  function DrawAsWritten(g: Game, u: real): (d: Draw)
    requires 0.0 <= u <= 1.0
    ensures d.poisoned ==> Refill(g).poisonedLeft > 0
    ensures BatchInv(g) ==>
      (!BatchInv(d.game) <==> u == 1.0 && 0 < Refill(g).drinksLeft == Refill(g).poisonedLeft)
  {
    var b := Refill(g);
    var roll := b.poisonedLeft > 0 && RollAsWritten(u, b.poisonedLeft, Divisor(g));
    AsWrittenRollKeepsBatchInv(g, u);
    DrawDrink(g, roll)
  }

  /** From a batch satisfying the invariant, the roll as written keeps it unless
      the sample is 1.0 and every drink left is poisoned. */
  lemma AsWrittenRollKeepsBatchInv(g: Game, u: real)
    requires 0.0 <= u <= 1.0
    ensures
      var b := Refill(g);
      var roll := b.poisonedLeft > 0 && RollAsWritten(u, b.poisonedLeft, Divisor(g));
      BatchInv(g) ==>
        (BatchInv(DrawDrink(g, roll).game) <==> !(u == 1.0 && 0 < b.drinksLeft == b.poisonedLeft))
  {
    var b := Refill(g);
    CountBeforeDraw(b.drinksLeft);
    var roll := b.poisonedLeft > 0 && RollAsWritten(u, b.poisonedLeft, Divisor(g));
    if BatchInv(g) {
      DrawKeepsBatchInv(g, roll);
      if 0 < b.drinksLeft <= b.poisonedLeft {
        assert PoisonRoll(u, b.poisonedLeft, b.drinksLeft);
        assert roll <==> u != 1.0;
      }
    }
  }

  /** `DrawDrink` with the corrected poison roll taken from the sample `u`. */
  function DrawWithSample(g: Game, u: real): (d: Draw)
    requires 0.0 <= u <= 1.0
    ensures BatchInv(g) ==> BatchInv(d.game)
    ensures u < 1.0 ==> d == DrawAsWritten(g, u)
  {
    var b := Refill(g);
    CountBeforeDraw(b.drinksLeft);
    CorrectedRollIsCertain(g, u);
    DrawDrink(g, b.poisonedLeft > 0 && PoisonRoll(u, b.poisonedLeft, Divisor(g)))
  }

  /** The corrected roll is certain when every drink left is poisoned, whatever the sample. */
  lemma CorrectedRollIsCertain(g: Game, u: real)
    requires 0.0 <= u <= 1.0
    ensures
      var b := Refill(g);
      CertainWhenAllPoisoned(g, b.poisonedLeft > 0 && PoisonRoll(u, b.poisonedLeft, b.drinksLeft))
  {
  }

  /** As written, a sample of exactly 1.0 draws a safe drink from a batch whose
      only drink left is poisoned: the batch is then empty but still holds a
      poisoned drink, which the next refill throws away. */
  lemma AsWrittenLeavesPoisonBehind()
    ensures
      var g := Game(5, 5, 6, 2, 1, 1, true);
      var d := DrawAsWritten(g, 1.0);
      && BatchInv(g)
      && !d.poisoned
      && d.game.drinksLeft == 0 && d.game.poisonedLeft == 1
      && !BatchInv(d.game)
      && Refill(d.game).poisonedLeft == 2
  {
  }

  /** Drawing out the rest of a batch with the corrected roll yields exactly the
      poisoned drinks left in it, whatever the samples. With the roll as written,
      a sample of 1.0 can leave one behind (`AsWrittenLeavesPoisonBehind`). */
  method DrawRestOfBatch(g: Game, samples: seq<real>) returns (r: Game, poisonedCount: nat)
    requires BatchInv(g)
    requires |samples| == g.drinksLeft
    requires forall i :: 0 <= i < |samples| ==> 0.0 <= samples[i] <= 1.0
    ensures poisonedCount == g.poisonedLeft
    ensures r == g.(drinksLeft := 0, poisonedLeft := 0)
  {
    r := g;
    poisonedCount := 0;
    var i := 0;
    while i < |samples|
      invariant 0 <= i <= |samples|
      invariant BatchInv(r)
      invariant r.drinksLeft == g.drinksLeft - i
      invariant poisonedCount + r.poisonedLeft == g.poisonedLeft
      invariant r == g.(drinksLeft := r.drinksLeft, poisonedLeft := r.poisonedLeft)
    {
      var d := DrawWithSample(r, samples[i]);
      if d.poisoned {
        poisonedCount := poisonedCount + 1;
      }
      r := d.game;
      i := i + 1;
    }
  }
}
