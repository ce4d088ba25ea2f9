/** The draw engine of DuckGacha.tsx: one draw picks a rarity tier (the pity
    rule first, then the rate thresholds) and a template of that tier; a roll
    checks the tickets and draws a batch, threading the pity counter. */
module Gacha {

  import opened Types
  import opened Catalog

  /** A draw made when this many rolls have passed since the last Legendary
      is Legendary: the 150th roll is guaranteed. */
  const PityLimit: int := 149

  /** What one draw takes from outside: `Math.random() * 100` for the tier,
      `Math.random()` for the template, and the id and timestamp it stamps. */
  datatype DrawInput = DrawInput(rarityRoll: real, pickRoll: real, id: string, obtainedAt: int)

  predicate ValidInput(d: DrawInput) {
    0.0 <= d.rarityRoll < 100.0 && 0.0 <= d.pickRoll < 1.0
  }

  predicate ValidInputs(ds: seq<DrawInput>) {
    forall i :: 0 <= i < |ds| ==> ValidInput(ds[i])
  }

  /** The tier of one draw: Legendary exactly when the pity counter has
      reached its limit or the roll is above 98; below the limit the roll
      falls into Epic on (85, 98], Rare on (55, 85] and Common up to 55. */
  function SelectRarity(pity: int, rand: real): (r: DuckRarity)
    ensures r == Legendary <==> pity >= PityLimit || rand > 98.0
    ensures pity < PityLimit ==> (r == Epic <==> 85.0 < rand <= 98.0)
    ensures pity < PityLimit ==> (r == Rare <==> 55.0 < rand <= 85.0)
    ensures pity < PityLimit ==> (r == Common <==> rand <= 55.0)
  {
    if pity >= PityLimit then Legendary
    else if rand > 98.0 then Legendary
    else if rand > 85.0 then Epic
    else if rand > 55.0 then Rare
    else Common
  }

  function Rank(r: DuckRarity): nat {
    match r
    case Common => 0
    case Rare => 1
    case Epic => 2
    case Legendary => 3
  }

  /** `Math.floor(u * n)` for `u` in [0, 1) is an index of a list of `n` items. */
  function PickIndex(u: real, n: nat): (k: nat)
    requires 0.0 <= u < 1.0 && n > 0
    ensures k < n
  {
    assert 0.0 <= u * n as real < n as real by {
      assert u * n as real <= u * n as real + (1.0 - u) * n as real;
    }
    (u * n as real).Floor
  }

  /** A fresh duck made from a catalog template. */
  function Instance(t: Template, id: string, at: int): Duck {
    Duck(id, t.name, t.rarity, t.imageUrl, t.description, at, 1)
  }

  /** The catalog entry a duck was made from. */
  function TemplateOf(d: Duck): Template {
    Template(d.name, d.rarity, d.imageUrl, d.description, 1)
  }

  datatype Drawn = Drawn(duck: Duck, isLegendary: bool)

  /** `generateDuck` */
  function GenerateDuck(pity: int, input: DrawInput): (g: Drawn)
    requires ValidInput(input)
    ensures g.duck.rarity == SelectRarity(pity, input.rarityRoll)
    ensures TemplateOf(g.duck) in Pool(MockDucksDb, g.duck.rarity)
    ensures g.duck.stars == 1 && g.duck.id == input.id && g.duck.obtainedAt == input.obtainedAt
    ensures g.isLegendary <==> g.duck.rarity == Legendary
  {
    var rarity := SelectRarity(pity, input.rarityRoll);
    var pool := Pool(MockDucksDb, rarity);
    PoolNonEmpty(rarity);
    CatalogOneStar(rarity);
    var template := pool[PickIndex(input.pickRoll, |pool|)];
    Drawn(Instance(template, input.id, input.obtainedAt), rarity == Legendary)
  }

  lemma CatalogOneStar(r: DuckRarity)
    ensures forall i :: 0 <= i < |Pool(MockDucksDb, r)| ==> Pool(MockDucksDb, r)[i].stars == 1
  {
    CatalogEntries();
    forall i | 0 <= i < |Pool(MockDucksDb, r)| ensures Pool(MockDucksDb, r)[i].stars == 1 {
      PoolMembers(MockDucksDb, r, Pool(MockDucksDb, r)[i]);
    }
  }

  /** The pity counter after a draw: from a non-negative counter it is 0
      exactly after a Legendary, and never more than one above. */
  function NextPity(pity: int, isLegendary: bool): (p: int)
    ensures 0 <= pity ==> 0 <= p <= pity + 1
    ensures 0 <= pity ==> (p == 0 <==> isLegendary)
  {
    if isLegendary then 0 else pity + 1
  }

  datatype Batch = Batch(ducks: seq<Duck>, pity: int)

  /** The ducks of a batch, in draw order, and the pity counter it ends with. */
  function DrawBatch(pity: int, inputs: seq<DrawInput>): (b: Batch)
    requires ValidInputs(inputs)
    ensures forall d :: d in b.ducks ==> d.stars == 1 && TemplateOf(d) in Pool(MockDucksDb, d.rarity)
  {
    if inputs == [] then Batch([], pity)
    else
      var prev := DrawBatch(pity, inputs[..|inputs| - 1]);
      var g := GenerateDuck(prev.pity, inputs[|inputs| - 1]);
      Batch(prev.ducks + [g.duck], NextPity(prev.pity, g.isLegendary))
  }

  datatype RollOutcome = Refused | Rolled(spent: int, ducks: seq<Duck>, newPity: int)

  /** `roll(amount)`: refused outright when the tickets do not cover it;
      otherwise `amount` tickets are spent and `amount` draws made in order,
      each with the pity counter the previous one left. */
  method Roll(tickets: int, pityCounter: int, amount: nat, inputs: seq<DrawInput>) returns (outcome: RollOutcome)
    requires |inputs| == amount && ValidInputs(inputs)
    ensures outcome.Refused? <==> tickets < amount
    ensures outcome.Rolled? ==> outcome.spent == amount && |outcome.ducks| == amount
    ensures outcome.Rolled? ==> outcome.ducks == DrawBatch(pityCounter, inputs).ducks
    ensures outcome.Rolled? ==> outcome.newPity == DrawBatch(pityCounter, inputs).pity
    ensures outcome.Rolled? && 0 <= pityCounter <= PityLimit ==> 0 <= outcome.newPity <= PityLimit
  {
    if tickets < amount {
      return Refused;
    }
    var newDucks: seq<Duck> := [];
    var tempPity := pityCounter;
    for i := 0 to amount
      invariant Batch(newDucks, tempPity) == DrawBatch(pityCounter, inputs[..i])
    {
      assert inputs[..i + 1][..i] == inputs[..i];
      var drawn := GenerateDuck(tempPity, inputs[i]);
      newDucks := newDucks + [drawn.duck];
      if drawn.isLegendary {
        tempPity := 0;
      } else {
        tempPity := tempPity + 1;
      }
    }
    assert inputs[..amount] == inputs;
    BatchLength(pityCounter, inputs);
    if 0 <= pityCounter <= PityLimit {
      BatchPityBound(pityCounter, inputs);
    }
    outcome := Rolled(amount, newDucks, tempPity);
  }

  /** A draw with the pity counter at the limit is Legendary whatever the
      random value; otherwise the tier only rises with the random value. */
  lemma RarityOrder(p1: int, p2: int, r1: real, r2: real)
    requires p1 <= p2 && r1 <= r2
    ensures p1 >= PityLimit ==> SelectRarity(p1, r1) == Legendary
    ensures Rank(SelectRarity(p1, r1)) <= Rank(SelectRarity(p2, r2))
  {
  }

  /** The thresholds are strict: a value exactly on one falls in the lower tier. */
  lemma RarityBoundaries(pity: int)
    requires pity < PityLimit
    ensures SelectRarity(pity, 98.0) == Epic
    ensures SelectRarity(pity, 85.0) == Rare
    ensures SelectRarity(pity, 55.0) == Common
  {
  }

  /** The pity counter in force for draw `i` of a batch. */
  function PityBefore(pity: int, inputs: seq<DrawInput>, i: nat): int
    requires ValidInputs(inputs) && i <= |inputs|
  {
    DrawBatch(pity, inputs[..i]).pity
  }

  /** One duck per input. */
  lemma {:induction false} BatchLength(pity: int, inputs: seq<DrawInput>)
    requires ValidInputs(inputs)
    ensures |DrawBatch(pity, inputs).ducks| == |inputs|
  {
    if inputs != [] {
      BatchLength(pity, inputs[..|inputs| - 1]);
    }
  }

  /** The first `k` draws of a batch are the batch of the first `k` inputs. */
  lemma {:induction false} BatchPrefix(pity: int, inputs: seq<DrawInput>, k: nat)
    requires ValidInputs(inputs) && k <= |inputs|
    ensures |DrawBatch(pity, inputs).ducks| == |inputs|
    ensures DrawBatch(pity, inputs[..k]).ducks == DrawBatch(pity, inputs).ducks[..k]
    decreases |inputs| - k
  {
    BatchLength(pity, inputs);
    if k == |inputs| {
      assert inputs[..k] == inputs;
    } else {
      var init := inputs[..|inputs| - 1];
      BatchPrefix(pity, init, k);
      assert init[..k] == inputs[..k];
      var b := DrawBatch(pity, inputs);
      assert b.ducks[..|init|] == DrawBatch(pity, init).ducks;
    }
  }

  /** Draw `i` of a batch is made with the pity counter the first `i` draws
      left; after it the counter is 0 if it was Legendary and one more
      otherwise. */
  lemma DrawInOrder(pity: int, inputs: seq<DrawInput>, i: nat)
    requires ValidInputs(inputs) && i < |inputs|
    ensures |DrawBatch(pity, inputs).ducks| == |inputs|
    ensures DrawBatch(pity, inputs).ducks[i] == GenerateDuck(PityBefore(pity, inputs, i), inputs[i]).duck
    ensures PityBefore(pity, inputs, i + 1)
      == NextPity(PityBefore(pity, inputs, i), DrawBatch(pity, inputs).ducks[i].rarity == Legendary)
  {
    var upto := inputs[..i + 1];
    assert upto[..i] == inputs[..i];
    BatchLength(pity, inputs[..i]);
    BatchPrefix(pity, inputs, i + 1);
  }

  /** Starting at most at the limit, the pity counter stays within [0, 149]. */
  lemma {:induction false} BatchPityBound(pity: int, inputs: seq<DrawInput>)
    requires ValidInputs(inputs) && 0 <= pity <= PityLimit
    ensures 0 <= DrawBatch(pity, inputs).pity <= PityLimit
  {
    if inputs != [] {
      BatchPityBound(pity, inputs[..|inputs| - 1]);
    }
  }

  /** Without a Legendary the counter grows by one per draw. */
  lemma {:induction false} BatchWithoutLegendary(pity: int, inputs: seq<DrawInput>)
    requires ValidInputs(inputs)
    requires forall d :: d in DrawBatch(pity, inputs).ducks ==> d.rarity != Legendary
    ensures DrawBatch(pity, inputs).pity == pity + |inputs|
  {
    if inputs != [] {
      var init := inputs[..|inputs| - 1];
      var prev := DrawBatch(pity, init);
      var g := GenerateDuck(prev.pity, inputs[|inputs| - 1]);
      assert DrawBatch(pity, inputs).ducks == prev.ducks + [g.duck];
      assert g.duck in DrawBatch(pity, inputs).ducks;
      BatchWithoutLegendary(pity, init);
    }
  }

  /** No more than 150 draws in a row go without a Legendary: from a counter
      of `pity` (at most 149), one of the first `150 - pity` draws is Legendary. */
  lemma LegendaryGuaranteed(pity: int, inputs: seq<DrawInput>)
    requires ValidInputs(inputs) && 0 <= pity <= PityLimit
    requires |inputs| >= PityLimit + 1 - pity
    ensures |DrawBatch(pity, inputs).ducks| == |inputs|
    ensures exists i :: 0 <= i <= PityLimit - pity && DrawBatch(pity, inputs).ducks[i].rarity == Legendary
  {
    var k := PityLimit - pity;
    var ducks := DrawBatch(pity, inputs).ducks;
    BatchPrefix(pity, inputs, k);
    DrawInOrder(pity, inputs, k);
    if forall i :: 0 <= i < k ==> ducks[i].rarity != Legendary {
      var before := DrawBatch(pity, inputs[..k]).ducks;
      assert forall d :: d in before ==> d.rarity != Legendary;
      BatchWithoutLegendary(pity, inputs[..k]);
      assert ducks[k].rarity == Legendary;
    }
  }
}
