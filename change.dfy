/**
 The greedy change-making procedure of the vending machine, as functions on
 the part of the machine it touches: the coin inventory, the coin return and
 the amount still owed. `DrainCoin` is the inner loop for one coin kind,
 `Greedy` the outer loop over the kinds. With `commit` set, every coin taken
 moves from the inventory to the coin return; without it (the dry run used to
 decide "exact change only") nothing moves and the stock is never used up.
 */
module Change {
  import opened Money

  /** The accepted coins sorted by value, largest first. */
  function ChangeOrder(): (order: seq<Coin>)
    ensures |order| == |ValidCoins.Keys|
    ensures forall i :: 0 <= i < |order| ==> order[i] in ValidCoins
    ensures forall c :: c in ValidCoins ==> c in order
    ensures forall i, j :: 0 <= i < j < |order| ==> ValidCoins[order[i]] > ValidCoins[order[j]]
  {
    assert ValidCoins.Keys == {Nickel, Dime, Quarter};
    [Quarter, Dime, Nickel]
  }

  /** The coin inventory, the coin return and the amount of change still owed. */
  datatype Till = Till(inventory: CoinCounts, returned: map<Coin, nat>, owed: int)

  /** One more coin of kind `c` fits in what is still owed and the stock shows one. */
  predicate CanTake(t: Till, c: Coin)
    requires c in ValidCoins
  {
    ValidCoins[c] <= t.owed && t.inventory.Get(c) > 0
  }

  /** Takes one coin of kind `c` off the amount owed; with `commit` the coin also moves from the inventory to the return. */
  function TakeOne(t: Till, c: Coin, commit: bool): (r: Till)
    requires c in ValidCoins && CanTake(t, c)
    ensures r.owed == t.owed - ValidCoins[c]
  {
    var owed := t.owed - ValidCoins[c];
    if commit then Till(t.inventory.Set(c, t.inventory.Get(c) - 1), AddCoins(t.returned, c, 1), owed)
    else t.(owed := owed)
  }

  /** Takes coins of kind `c` while one fits in what is still owed and the stock shows one. */
  function DrainCoin(t: Till, c: Coin, commit: bool): (r: Till)
    requires c in ValidCoins
    decreases t.owed
  {
    if CanTake(t, c) then DrainCoin(TakeOne(t, c, commit), c, commit) else t
  }

  /** Drains the coin kinds of `order` one after the other. */
  function Greedy(t: Till, order: seq<Coin>, commit: bool): (r: Till)
    requires forall c :: c in order ==> c in ValidCoins
    decreases |order|
  {
    if order == [] then t else Greedy(DrainCoin(t, order[0], commit), order[1..], commit)
  }

  /** The whole change-making run, largest coin first. */
  function GreedyChange(t: Till, commit: bool): Till
  {
    Greedy(t, ChangeOrder(), commit)
  }

  /** Whether a dry run with stock `inventory` makes exact change for `amount`. */
  predicate DryRunSucceeds(inventory: CoinCounts, amount: int)
  {
    GreedyChange(Till(inventory, map[], amount), false).owed == 0
  }

  /** The amounts checked for exact change: multiples of the smallest coin, from it up to the largest minus the smallest. */
  function SampleAmounts(): (amounts: seq<int>)
    ensures |amounts| == (MaxCoinValue() - MinCoinValue()) / MinCoinValue()
    ensures forall i :: 0 <= i < |amounts| ==> amounts[i] == (i + 1) * MinCoinValue()
  {
    [5, 10, 15, 20]
  }

  /** The machine cannot promise change when some sampled amount fails the dry run. */
  predicate NeedsExactChange(inventory: CoinCounts)
  {
    exists amount :: amount in SampleAmounts() && !DryRunSucceeds(inventory, amount)
  }

  // ---------------------------------------------------------------------
  // One coin kind

  /** The inner loop stops only once the coin no longer fits or the stock of it is gone; it never overshoots. */
  lemma {:induction false} DrainCoinStops(t: Till, c: Coin, commit: bool)
    requires c in ValidCoins
    ensures var r := DrainCoin(t, c, commit);
      && (r.owed < ValidCoins[c] || r.inventory.Get(c) == 0)
      && r.owed <= t.owed
      && (t.owed >= 0 ==> r.owed >= 0)
    decreases t.owed
  {
    if CanTake(t, c) {
      DrainCoinStops(TakeOne(t, c, commit), c, commit);
    }
  }

  /** A committing drain moves coins of kind `c` only, from the inventory to the return. */
  lemma {:induction false} DrainCoinConserves(t: Till, c: Coin, d: Coin)
    requires c in ValidCoins
    ensures var r := DrainCoin(t, c, true);
      && r.inventory.Get(d) + Count(r.returned, d) == t.inventory.Get(d) + Count(t.returned, d)
      && (d != c ==> r.inventory.Get(d) == t.inventory.Get(d) && Count(r.returned, d) == Count(t.returned, d))
    decreases t.owed
  {
    if CanTake(t, c) {
      var next := TakeOne(t, c, true);
      DrainCoinConserves(next, c, d);
    }
  }

  /** The coins a committing drain moves are worth exactly what it took off the amount owed. */
  lemma {:induction false} DrainCoinMovesOwed(t: Till, c: Coin)
    requires c in ValidCoins
    ensures var r := DrainCoin(t, c, true);
      && Worth(r.returned) - Worth(t.returned) == t.owed - r.owed
      && t.inventory.Worth() - r.inventory.Worth() == t.owed - r.owed
    decreases t.owed
  {
    if CanTake(t, c) {
      var next := TakeOne(t, c, true);
      DrainCoinMovesOwed(next, c);
      WorthOfOneMore(t.returned, c);
      WorthOfSet(t.inventory, c, t.inventory.Get(c) - 1);
    }
  }

  /** A dry drain leaves the stock alone and, when the kind is in stock, leaves the remainder of the amount modulo the coin's value. */
  lemma {:induction false} DryDrainRemainder(t: Till, c: Coin)
    requires c in ValidCoins
    ensures DrainCoin(t, c, false)
         == t.(owed := if t.owed >= 0 && t.inventory.Get(c) > 0 then t.owed % ValidCoins[c] else t.owed)
    decreases t.owed
  {
    var v := ValidCoins[c];
    if CanTake(t, c) {
      var u := TakeOne(t, c, false);
      DryDrainRemainder(u, c);
      CoinValues(c);
      ModuloAfterSubtracting(t.owed, v);
    }
  }

  /** Taking one coin's value off an amount that covers it leaves the amount's remainder modulo that value alone. */
  lemma ModuloAfterSubtracting(x: int, v: int)
    requires v == 5 || v == 10 || v == 25
    requires v <= x
    ensures (x - v) % v == x % v
  {
    if v == 5 {
    } else if v == 10 {
    } else {
    }
  }

  /** The accepted coins are worth 5, 10 and 25 cents. */
  lemma CoinValues(c: Coin)
    requires c in ValidCoins
    ensures ValidCoins[c] == 5 || ValidCoins[c] == 10 || ValidCoins[c] == 25
  {
    assert ValidCoins.Keys == {Nickel, Dime, Quarter};
  }

  // ---------------------------------------------------------------------
  // The whole run

  /** The run tries quarters, then dimes, then nickels. */
  lemma GreedyChangeUnfolds(t: Till, commit: bool)
    ensures GreedyChange(t, commit)
         == DrainCoin(DrainCoin(DrainCoin(t, Quarter, commit), Dime, commit), Nickel, commit)
  {
    assert ValidCoins.Keys == {Nickel, Dime, Quarter};
    var order := ChangeOrder();
    assert order == [Quarter, Dime, Nickel];
    var t1 := DrainCoin(t, Quarter, commit);
    var t2 := DrainCoin(t1, Dime, commit);
    var t3 := DrainCoin(t2, Nickel, commit);
    calc {
      Greedy(t, order, commit);
      Greedy(t1, [Dime, Nickel], commit);
      { assert [Dime, Nickel][1..] == [Nickel]; }
      Greedy(t2, [Nickel], commit);
      { assert [Nickel][1..] == []; }
      Greedy(t3, [], commit);
    }
  }

  /** Committed change keeps inventory plus return constant per coin kind, and the value moved to the return is the amount minus what is left owed. */
  lemma GreedyChangeConserves(t: Till)
    ensures var r := GreedyChange(t, true);
      && (forall d :: r.inventory.Get(d) + Count(r.returned, d) == t.inventory.Get(d) + Count(t.returned, d))
      && Worth(r.returned) - Worth(t.returned) == t.owed - r.owed
      && t.inventory.Worth() - r.inventory.Worth() == t.owed - r.owed
  {
    assert ValidCoins.Keys == {Nickel, Dime, Quarter};
    GreedyChangeUnfolds(t, true);
    var t1 := DrainCoin(t, Quarter, true);
    var t2 := DrainCoin(t1, Dime, true);
    forall d ensures GreedyChange(t, true).inventory.Get(d) + Count(GreedyChange(t, true).returned, d)
                  == t.inventory.Get(d) + Count(t.returned, d) {
      DrainCoinConserves(t, Quarter, d);
      DrainCoinConserves(t1, Dime, d);
      DrainCoinConserves(t2, Nickel, d);
    }
    DrainCoinMovesOwed(t, Quarter);
    DrainCoinMovesOwed(t1, Dime);
    DrainCoinMovesOwed(t2, Nickel);
  }

  /** When the run ends, every accepted kind still in stock is worth more than what is left owed; an amount owed that was not negative stays so. */
  lemma GreedyChangeStops(t: Till, commit: bool)
    ensures var r := GreedyChange(t, commit);
      && (forall c :: c in ValidCoins && r.inventory.Get(c) > 0 ==> r.owed < ValidCoins[c])
      && r.owed <= t.owed
      && (t.owed >= 0 ==> r.owed >= 0)
  {
    assert ValidCoins.Keys == {Nickel, Dime, Quarter};
    GreedyChangeUnfolds(t, commit);
    var t1 := DrainCoin(t, Quarter, commit);
    var t2 := DrainCoin(t1, Dime, commit);
    var t3 := DrainCoin(t2, Nickel, commit);
    DrainCoinStops(t, Quarter, commit);
    DrainCoinStops(t1, Dime, commit);
    DrainCoinStops(t2, Nickel, commit);
    if commit {
      DrainCoinConserves(t1, Dime, Quarter);
      DrainCoinConserves(t2, Nickel, Quarter);
      DrainCoinConserves(t2, Nickel, Dime);
    } else {
      DryDrainRemainder(t1, Dime);
      DryDrainRemainder(t2, Nickel);
    }
    assert t3.inventory.quarters == t2.inventory.quarters == t1.inventory.quarters;
    assert t3.inventory.dimes == t2.inventory.dimes;
  }

  /** A dry run changes neither the stock nor the return, and its outcome depends only on the amount and on which kinds are in stock, not on how many. */
  lemma DryRunDependsOnlyOnStockedKinds(t: Till, u: Till)
    requires t.owed == u.owed
    requires forall c :: c in ValidCoins ==> (t.inventory.Get(c) > 0 <==> u.inventory.Get(c) > 0)
    ensures GreedyChange(t, false).inventory == t.inventory
    ensures GreedyChange(t, false).returned == t.returned
    ensures GreedyChange(t, false).owed == GreedyChange(u, false).owed
  {
    assert ValidCoins.Keys == {Nickel, Dime, Quarter};
    GreedyChangeUnfolds(t, false);
    GreedyChangeUnfolds(u, false);
    DryDrainRemainder(t, Quarter);
    DryDrainRemainder(u, Quarter);
    var t1, u1 := DrainCoin(t, Quarter, false), DrainCoin(u, Quarter, false);
    DryDrainRemainder(t1, Dime);
    DryDrainRemainder(u1, Dime);
    var t2, u2 := DrainCoin(t1, Dime, false), DrainCoin(u1, Dime, false);
    DryDrainRemainder(t2, Nickel);
    DryDrainRemainder(u2, Nickel);
  }

  /** A dry run with coins already in the return leaves inventory and return alone and succeeds exactly as the dry run from an empty return does. */
  lemma DryRunLeavesTill(inventory: CoinCounts, returned: map<Coin, nat>, amount: int)
    ensures var r := GreedyChange(Till(inventory, returned, amount), false);
      && r.inventory == inventory && r.returned == returned
      && (r.owed == 0 <==> DryRunSucceeds(inventory, amount))
  {
    DryRunDependsOnlyOnStockedKinds(Till(inventory, returned, amount), Till(inventory, map[], amount));
  }

  /** Each amount the machine checks is a multiple of the smallest coin value between that value and the largest minus the smallest. */
  lemma SampleAmountsAre(amount: int)
    ensures amount in SampleAmounts()
        <==> MinCoinValue() <= amount <= MaxCoinValue() - MinCoinValue() && amount % MinCoinValue() == 0
  {
    var amounts := SampleAmounts();
    if MinCoinValue() <= amount <= MaxCoinValue() - MinCoinValue() && amount % MinCoinValue() == 0 {
      assert amounts[amount / 5 - 1] == amount;
    }
  }

  /** The amounts checked step up by the smallest coin value up to the largest minus the smallest. */
  lemma NextSampleAmount(amount: int)
    requires amount in SampleAmounts()
    ensures amount + MinCoinValue() in SampleAmounts() || amount + MinCoinValue() == MaxCoinValue()
  {
  }

  /** The machine needs exact change exactly when it holds no nickels. */
  lemma ExactChangeIffNoNickels(inventory: CoinCounts)
    ensures NeedsExactChange(inventory) <==> inventory.nickels == 0
  {
    var amounts := SampleAmounts();
    if inventory.nickels == 0 {
      NoNickelNoChangeForOne(inventory);
      assert amounts[0] in amounts;
    } else {
      forall amount | amount in amounts
        ensures DryRunSucceeds(inventory, amount)
      {
        DryRunWithNickels(inventory, amount);
      }
    }
  }

  /** With a nickel in stock, the dry run makes change for every amount that is a multiple of five cents. */
  lemma DryRunWithNickels(inventory: CoinCounts, amount: int)
    requires inventory.nickels > 0
    requires amount >= 0 && amount % 5 == 0
    ensures DryRunSucceeds(inventory, amount)
  {
    DryRunOutcome(inventory, amount);
    var afterQuarters := if inventory.quarters > 0 then amount % 25 else amount;
    StillFiveCents(amount, 25);
    StillFiveCents(afterQuarters, 10);
    var afterDimes := if inventory.dimes > 0 then afterQuarters % 10 else afterQuarters;
    assert afterDimes % 5 == 0;
  }

  /** The remainder of a multiple of five by a coin value that is itself a multiple of five is again a multiple of five. */
  lemma StillFiveCents(amount: int, v: int)
    requires amount >= 0 && amount % 5 == 0
    requires v == 10 || v == 25
    ensures amount % v >= 0 && (amount % v) % 5 == 0
  {
    var k := amount / 5;
    if v == 10 {
      var q := amount / 10;
      assert amount % 10 == 5 * (k - 2 * q);
    } else {
      var q := amount / 25;
      assert amount % 25 == 5 * (k - 5 * q);
    }
  }

  /** Without nickels, the dry run cannot change a single nickel's worth. */
  lemma NoNickelNoChangeForOne(inventory: CoinCounts)
    requires inventory.nickels == 0
    ensures !DryRunSucceeds(inventory, MinCoinValue())
  {
    DryRunOutcome(inventory, 5);
  }

  /** The remainder of a dry run, worked out kind by kind. */
  lemma DryRunOutcome(inventory: CoinCounts, amount: int)
    requires amount >= 0
    ensures var afterQuarters := if inventory.quarters > 0 then amount % 25 else amount;
      var afterDimes := if inventory.dimes > 0 then afterQuarters % 10 else afterQuarters;
      GreedyChange(Till(inventory, map[], amount), false).owed
        == if inventory.nickels > 0 then afterDimes % 5 else afterDimes
  {
    var t := Till(inventory, map[], amount);
    GreedyChangeUnfolds(t, false);
    DryDrainRemainder(t, Quarter);
    var t1 := DrainCoin(t, Quarter, false);
    DryDrainRemainder(t1, Dime);
    DryDrainRemainder(DrainCoin(t1, Dime, false), Nickel);
  }
}
