/**
 The vending machine: it accepts or rejects coins and keeps a running
 balance, sells a product once the balance covers its price, hands back the
 coins inserted so far, makes change greedily from the coins it holds, and
 shows a status message on its display.
 */
module Machine {
  import opened Money
  import opened Change

  /** No product has a positive count left. */
  predicate SoldOutStock(products: ProductCounts)
  {
    forall p :: products.Get(p) <= 0
  }

  /**
   The coin inventory after a sale. Each kind with coins pending takes the
   pending count, replacing the count that was there; other kinds keep theirs.
   */
  function Committed(inventory: CoinCounts, inserted: CoinCounts): (r: CoinCounts)
    ensures forall c :: r.Get(c) == if inserted.Get(c) > 0 then inserted.Get(c) else inventory.Get(c)
  {
    CoinCounts(
      if inserted.nickels > 0 then inserted.nickels else inventory.nickels,
      if inserted.dimes > 0 then inserted.dimes else inventory.dimes,
      if inserted.quarters > 0 then inserted.quarters else inventory.quarters)
  }

  /** The kinds with coins pending. */
  function PendingKinds(inserted: CoinCounts): set<Coin>
  {
    set c | c in ValidCoins.Keys && inserted.Get(c) > 0
  }

  /** The coin return after the pending coins `inserted` are handed back. */
  function ReturnedAll(returned: map<Coin, nat>, inserted: CoinCounts): (r: map<Coin, nat>)
    ensures r.Keys == returned.Keys + PendingKinds(inserted)
  {
    map c | c in returned.Keys + PendingKinds(inserted) :: Count(returned, c) + inserted.Get(c)
  }

  /** Handing back pending coins adds each kind's pending count to the coin return, and so their worth to the return's worth. */
  lemma ReturnedAllAdds(returned: map<Coin, nat>, inserted: CoinCounts)
    ensures forall c :: Count(ReturnedAll(returned, inserted), c) == Count(returned, c) + inserted.Get(c)
    ensures Worth(ReturnedAll(returned, inserted)) == Worth(returned) + inserted.Worth()
  {
    var r := ReturnedAll(returned, inserted);
    forall c ensures Count(r, c) == Count(returned, c) + inserted.Get(c) {
      if c !in r {
        assert c !in returned && c !in PendingKinds(inserted);
        assert c !in ValidCoins ==> c == Penny;
      }
    }
  }

  /** With nothing pending, handing the pending coins back leaves the coin return as it was. */
  lemma ReturnedAllOfNothing(returned: map<Coin, nat>)
    ensures ReturnedAll(returned, NoCoins) == returned
  {
    assert PendingKinds(NoCoins) == {};
  }

  /** Handing back pending coins worth nothing leaves the coin return as it was. */
  lemma ReturnedAllOfWorthless(returned: map<Coin, nat>, inserted: CoinCounts)
    requires inserted.Worth() == 0
    ensures ReturnedAll(returned, inserted) == returned
  {
    ReturnedAllOfNothing(returned);
  }

  /** Handing back one pending kind's coins, then the rest, is handing back all of them. */
  lemma ReturnedOneKind(returned: map<Coin, nat>, inserted: CoinCounts, c: Coin)
    requires c in ValidCoins && inserted.Get(c) > 0
    ensures ReturnedAll(AddCoins(returned, c, inserted.Get(c)), inserted.Set(c, 0)) == ReturnedAll(returned, inserted)
  {
    var r := ReturnedAll(AddCoins(returned, c, inserted.Get(c)), inserted.Set(c, 0));
    var s := ReturnedAll(returned, inserted);
    PendingKindsWithout(inserted, c);
    forall d | d in r.Keys ensures r[d] == s[d] {
    }
  }

  /** Clearing a pending kind removes just that kind from the pending kinds. */
  lemma PendingKindsWithout(inserted: CoinCounts, c: Coin)
    requires c in ValidCoins && inserted.Get(c) > 0
    ensures PendingKinds(inserted) == PendingKinds(inserted.Set(c, 0)) + {c}
  {
  }

  /**
   A sale keeps the worth of the coins only when no kind is both in the
   inventory and pending; otherwise the overwritten inventory coins are lost.
   */
  lemma CommittedWorth(inventory: CoinCounts, inserted: CoinCounts)
    ensures Committed(inventory, inserted).Worth() <= inventory.Worth() + inserted.Worth()
    ensures Committed(inventory, inserted).Worth() == inventory.Worth() + inserted.Worth()
        <==> forall c :: c in ValidCoins ==> inventory.Get(c) == 0 || inserted.Get(c) == 0
  {
    assert ValidCoins.Keys == {Nickel, Dime, Quarter};
  }

  class VendingMachine {
    /** Coins the machine keeps to make change from, per accepted kind. */
    var coinInventory: CoinCounts
    /** Coins waiting in the coin return for the customer, per kind; an entry appears with the first coin of its kind. */
    var coinReturn: map<Coin, nat>
    /** The money inserted and not yet spent or handed back, in cents. */
    var currentAmount: int
    /** A message waiting to be shown once in place of the status. */
    var pendingMessage: Option<Message>
    /** The product last dispensed. */
    var dispenseBin: Option<Product>
    /** Products left, per product; a sale does not check it, so it can go negative. */
    var productInventory: ProductCounts
    /** Coins inserted and pending the outcome of a sale, per accepted kind. */
    var insertedCoins: CoinCounts

    /**
     The balance covers the pending coins. It is no more than that: a sale
     zeroes the pending coins but leaves any overpayment on the balance.
     */
    ghost predicate Valid()
      reads this
    {
      currentAmount >= insertedCoins.Worth()
    }

    /** The balance is exactly the pending coins' worth, as it is from construction until the first sale. */
    ghost predicate Balanced()
      reads this
    {
      currentAmount == insertedCoins.Worth()
    }

    /** A machine with no coins, no balance, no products and nothing to show. */
    constructor ()
      ensures Balanced()
      ensures Valid()
      ensures coinInventory == NoCoins && insertedCoins == NoCoins
      ensures productInventory == ProductCounts(0, 0, 0)
      ensures coinReturn == map[] && currentAmount == 0
      ensures pendingMessage == None && dispenseBin == None
    {
      coinInventory := CoinCounts(0, 0, 0);
      coinReturn := map[];
      currentAmount := 0;
      pendingMessage := None;
      dispenseBin := None;
      productInventory := ProductCounts(0, 0, 0);
      insertedCoins := CoinCounts(0, 0, 0);
    }

    /** Replaces the message waiting to be shown; `None` clears it. */
    method SetDisplay(value: Option<Message>)
      modifies this`pendingMessage
      ensures pendingMessage == value
    {
      pendingMessage := value;
    }

    /**
     Reads the display. A waiting message is shown once and then cleared;
     otherwise the first that applies of: sold out, the balance, exact change
     only, insert coin.
     */
    method Display() returns (message: Message)
      modifies this`pendingMessage, this`coinInventory, this`coinReturn
      ensures pendingMessage == None
      ensures coinInventory == old(coinInventory) && coinReturn == old(coinReturn)
      ensures old(pendingMessage).Some? ==> message == old(pendingMessage).value
      ensures old(pendingMessage).None? ==>
        message == (if SoldOutStock(productInventory) then SoldOut
                    else if currentAmount > 0 then Amount(currentAmount)
                    else if NeedsExactChange(coinInventory) then Message.ExactChangeOnly
                    else Message.InsertCoin)
      ensures old(pendingMessage).None? && !SoldOutStock(productInventory) && currentAmount <= 0 ==>
        (message == Message.ExactChangeOnly <==> coinInventory.nickels == 0)
    {
      if pendingMessage.Some? {
        message := pendingMessage.value;
        pendingMessage := None;
        return;
      }
      var soldOut := IsMachineSoldOut();
      if soldOut {
        return SoldOut;
      }
      if currentAmount > 0 {
        return Amount(currentAmount);
      }
      var exactChange := ExactChangeOnly();
      if exactChange {
        return Message.ExactChangeOnly;
      }
      return Message.InsertCoin;
    }

    /**
     Sells `product` if the balance covers its price: the pending coins
     replace the inventory counts of their kinds, the product goes to the
     dispense bin and its count drops by one, the price comes off the
     balance, and "THANK YOU" waits on the display. Otherwise only the price
     waits on the display.
     */
    method DispenseProduct(product: Product)
      modifies this
      ensures old(Valid()) ==> Valid()
      ensures Sold(product)
    {
      var price := Price(product);
      if currentAmount < price {
        SetDisplay(Some(PriceTag(price)));
        return;
      }
      CommitInsertedCoins();
      dispenseBin := Some(product);
      productInventory := productInventory.Set(product, productInventory.Get(product) - 1);
      currentAmount := currentAmount - price;
      pendingMessage := Some(ThankYou);
    }

    /**
     Moves the pending coins into the stock: each accepted kind with coins pending
     has its stock count set to the pending count, and its pending count zeroed.
     */
    method CommitInsertedCoins()
      modifies this`coinInventory, this`insertedCoins
      ensures coinInventory == Committed(old(coinInventory), old(insertedCoins))
      ensures insertedCoins == NoCoins
    {
      AcceptedCoinsAreValid();
      for i := 0 to |AcceptedCoins|
        invariant forall j :: 0 <= j < i ==>
          insertedCoins.Get(AcceptedCoins[j]) == 0
          && coinInventory.Get(AcceptedCoins[j]) == Committed(old(coinInventory), old(insertedCoins)).Get(AcceptedCoins[j])
        invariant forall j :: i <= j < |AcceptedCoins| ==>
          insertedCoins.Get(AcceptedCoins[j]) == old(insertedCoins).Get(AcceptedCoins[j])
          && coinInventory.Get(AcceptedCoins[j]) == old(coinInventory).Get(AcceptedCoins[j])
      {
        var coin := AcceptedCoins[i];
        if insertedCoins.Get(coin) > 0 {
          coinInventory := coinInventory.Set(coin, insertedCoins.Get(coin));
          insertedCoins := insertedCoins.Set(coin, 0);
        }
      }
      SaleLoopDone(old(coinInventory), old(insertedCoins), coinInventory, insertedCoins);
    }

    /** The outcome of selecting `product`, as `DispenseProduct` leaves it. */
    twostate predicate Sold(product: Product)
      reads this
    {
      && coinReturn == old(coinReturn)
      && (old(currentAmount) < Price(product) ==>
            && pendingMessage == Some(PriceTag(Price(product)))
            && currentAmount == old(currentAmount)
            && insertedCoins == old(insertedCoins)
            && coinInventory == old(coinInventory)
            && productInventory == old(productInventory)
            && dispenseBin == old(dispenseBin))
      && (old(currentAmount) >= Price(product) ==>
            && pendingMessage == Some(ThankYou)
            && currentAmount == old(currentAmount) - Price(product)
            && insertedCoins == NoCoins
            && coinInventory == Committed(old(coinInventory), old(insertedCoins))
            && productInventory == old(productInventory).Set(product, old(productInventory).Get(product) - 1)
            && dispenseBin == Some(product))
    }

    /**
     Whether some amount from the smallest coin value up to the difference
     between the largest and the smallest, in steps of the smallest, fails a
     dry run of making change.
     */
    method ExactChangeOnly() returns (needed: bool)
      modifies this`coinInventory, this`coinReturn
      ensures coinInventory == old(coinInventory) && coinReturn == old(coinReturn)
      ensures needed == NeedsExactChange(coinInventory)
      ensures needed <==> coinInventory.nickels == 0
    {
      ExactChangeIffNoNickels(coinInventory);
      var minCoin: int := MinCoinValue();
      var maxCoin: int := MaxCoinValue();
      var coinValueDelta := maxCoin - minCoin;
      var valueNeeded := minCoin;
      while valueNeeded <= coinValueDelta
        invariant coinInventory == old(coinInventory) && coinReturn == old(coinReturn)
        invariant valueNeeded in SampleAmounts() || valueNeeded == coinValueDelta + minCoin
        invariant forall amount :: amount in SampleAmounts() && amount < valueNeeded ==> DryRunSucceeds(coinInventory, amount)
        decreases coinValueDelta + minCoin - valueNeeded
      {
        DryRunLeavesTill(coinInventory, coinReturn, valueNeeded);
        var canMakeChange := MakeChange(valueNeeded, false);
        if !canMakeChange {
          SampleAmountsAre(valueNeeded);
          return true;
        }
        assert DryRunSucceeds(coinInventory, valueNeeded);
        NextSampleAmount(valueNeeded);
        valueNeeded := valueNeeded + minCoin;
      }
      forall amount | amount in SampleAmounts() ensures amount < valueNeeded {
        SampleAmountsAre(amount);
      }
      return false;
    }

    /** Accepts a nickel, dime or quarter into the pending coins and the balance; any other coin goes to the coin return. */
    method InsertCoin(coin: Coin)
      modifies this`currentAmount, this`insertedCoins, this`coinReturn
      ensures old(Valid()) ==> Valid()
      ensures old(Balanced()) ==> Balanced()
      ensures IsValidCoin(coin) ==>
        && currentAmount == old(currentAmount) + ValidCoins[coin]
        && insertedCoins == old(insertedCoins).Set(coin, old(insertedCoins).Get(coin) + 1)
        && coinReturn == old(coinReturn)
      ensures !IsValidCoin(coin) ==>
        && currentAmount == old(currentAmount)
        && insertedCoins == old(insertedCoins)
        && coinReturn == AddCoins(old(coinReturn), coin, 1)
    {
      var valid := IsValidCoin(coin);
      if valid {
        currentAmount := currentAmount + ValidCoins[coin];
        WorthOfSet(insertedCoins, coin, insertedCoins.Get(coin) + 1);
        insertedCoins := insertedCoins.Set(coin, insertedCoins.Get(coin) + 1);
      } else {
        ReturnCoin(coin, 1);
      }
    }

    /** Whether no product has a positive count; stops at the first that has. */
    method IsMachineSoldOut() returns (soldOut: bool)
      ensures soldOut <==> SoldOutStock(productInventory)
    {
      for i := 0 to |ProductOrder|
        invariant forall j :: 0 <= j < i ==> productInventory.Get(ProductOrder[j]) <= 0
      {
        if productInventory.Get(ProductOrder[i]) > 0 {
          return false;
        }
      }
      forall p ensures productInventory.Get(p) <= 0 {
        assert p == ProductOrder[0] || p == ProductOrder[1] || p == ProductOrder[2];
      }
      return true;
    }

    /**
     Makes change for `amount` greedily, largest coin first, taking a coin of
     a kind while it fits in what is still owed and the inventory shows one.
     With `returnCoin` the coins taken move from the inventory to the coin
     return; without it nothing changes and a kind in stock is never used up.
     Tells whether nothing is left owed.
     */
    method MakeChange(amount: int, returnCoin: bool := true) returns (ok: bool)
      modifies this`coinInventory, this`coinReturn
      ensures var r := GreedyChange(Till(old(coinInventory), old(coinReturn), amount), returnCoin);
        && coinInventory == r.inventory
        && coinReturn == r.returned
        && (ok <==> r.owed == 0)
    {
      var order := ChangeOrder();
      ghost var outcome := GreedyChange(Till(coinInventory, coinReturn, amount), returnCoin);
      var owed := amount;
      for i := 0 to |order|
        invariant Greedy(Till(coinInventory, coinReturn, owed), order[i..], returnCoin) == outcome
      {
        owed := TakeCoins(order[i], owed, returnCoin);
        assert order[i..][1..] == order[i + 1..];
      }
      ok := owed == 0;
    }

    /**
     Pays `owed` with coins of kind `coin` while one fits and the stock shows one;
     with `returnCoin` each coin taken leaves the stock for the coin return.
     Returns what is still owed.
     */
    method TakeCoins(coin: Coin, owed: int, returnCoin: bool) returns (left: int)
      requires coin in ValidCoins
      modifies this`coinInventory, this`coinReturn
      ensures var r := DrainCoin(Till(old(coinInventory), old(coinReturn), owed), coin, returnCoin);
        && coinInventory == r.inventory
        && coinReturn == r.returned
        && left == r.owed
    {
      var coinValue := ValidCoins[coin];
      ghost var drained := DrainCoin(Till(coinInventory, coinReturn, owed), coin, returnCoin);
      left := owed;
      while coinValue <= left && coinInventory.Get(coin) > 0
        invariant DrainCoin(Till(coinInventory, coinReturn, left), coin, returnCoin) == drained
        decreases left
      {
        ghost var before := Till(coinInventory, coinReturn, left);
        ghost var after := TakeOne(before, coin, returnCoin);
        left := left - coinValue;
        if returnCoin {
          coinInventory := coinInventory.Set(coin, coinInventory.Get(coin) - 1);
          ReturnCoin(coin, 1);
          assert coinInventory == after.inventory && coinReturn == after.returned;
        }
        assert Till(coinInventory, coinReturn, left) == after;
      }
    }

    /** Puts `quantity` coins of kind `coin` in the coin return, creating its entry if absent. */
    method ReturnCoin(coin: Coin, quantity: nat)
      modifies this`coinReturn
      ensures coinReturn == AddCoins(old(coinReturn), coin, quantity)
    {
      if coin in coinReturn {
        coinReturn := coinReturn[coin := coinReturn[coin] + quantity];
      } else {
        coinReturn := coinReturn[coin := quantity];
      }
    }

    /**
     Hands every pending coin back through the coin return and takes their
     worth off the balance. While the balance is just the pending coins, it
     ends at zero; with nothing pending, nothing changes.
     */
    method ReturnInsertedCoins()
      modifies this`coinReturn, this`currentAmount, this`insertedCoins
      ensures old(Valid()) ==> Valid()
      ensures coinReturn == ReturnedAll(old(coinReturn), old(insertedCoins))
      ensures currentAmount == old(currentAmount) - old(insertedCoins).Worth()
      ensures insertedCoins == NoCoins
      ensures old(Balanced()) ==> currentAmount == 0
      ensures old(insertedCoins).Worth() == 0 ==> coinReturn == old(coinReturn) && currentAmount == old(currentAmount)
    {
      ghost var balance, pendingWorth := currentAmount, insertedCoins.Worth();
      ReturnEachKind();
      if pendingWorth == 0 {
        ReturnedAllOfWorthless(old(coinReturn), old(insertedCoins));
        assert currentAmount == balance;
      }
    }

    /** The loop of `ReturnInsertedCoins`: each accepted kind with coins pending goes to the coin return in turn. */
    method ReturnEachKind()
      modifies this`coinReturn, this`currentAmount, this`insertedCoins
      ensures coinReturn == ReturnedAll(old(coinReturn), old(insertedCoins))
      ensures currentAmount == old(currentAmount) - old(insertedCoins).Worth()
      ensures insertedCoins == NoCoins
    {
      AcceptedCoinsAreValid();
      for i := 0 to |AcceptedCoins|
        invariant currentAmount - insertedCoins.Worth() == old(currentAmount) - old(insertedCoins).Worth()
        invariant ReturnedAll(coinReturn, insertedCoins) == ReturnedAll(old(coinReturn), old(insertedCoins))
        invariant forall j :: 0 <= j < i ==> insertedCoins.Get(AcceptedCoins[j]) == 0
      {
        var coin := AcceptedCoins[i];
        var count := insertedCoins.Get(coin);
        if count > 0 {
          ReturnedOneKind(coinReturn, insertedCoins, coin);
          WorthOfSet(insertedCoins, coin, 0);
          ReturnCoin(coin, count);
          currentAmount := currentAmount - ValidCoins[coin] * count;
          ClearOneMore(insertedCoins, i);
          insertedCoins := insertedCoins.Set(coin, 0);
        }
      }
      ClearedAll(insertedCoins);
      ReturnedAllOfNothing(coinReturn);
    }

    /** Selects cola. */
    method SelectCola()
      modifies this
      ensures old(Valid()) ==> Valid()
      ensures Sold(Cola)
    {
      DispenseProduct(Cola);
    }

    /** Selects chips. */
    method SelectChips()
      modifies this
      ensures old(Valid()) ==> Valid()
      ensures Sold(Chips)
    {
      DispenseProduct(Chips);
    }

    /** Selects candy. */
    method SelectCandy()
      modifies this
      ensures old(Valid()) ==> Valid()
      ensures Sold(Candy)
    {
      DispenseProduct(Candy);
    }
  }

  /** Zeroing the next coin of the table's order extends the zeroed prefix by one. */
  lemma ClearOneMore(counts: CoinCounts, i: nat)
    requires i < |AcceptedCoins|
    requires forall j :: 0 <= j < i ==> counts.Get(AcceptedCoins[j]) == 0
    ensures forall j :: 0 <= j <= i ==> counts.Set(AcceptedCoins[i], 0).Get(AcceptedCoins[j]) == 0
  {
    AcceptedCoinsAreValid();
  }

  /** A table with every accepted coin zeroed is the empty table. */
  lemma ClearedAll(counts: CoinCounts)
    requires forall j :: 0 <= j < |AcceptedCoins| ==> counts.Get(AcceptedCoins[j]) == 0
    ensures counts == NoCoins
  {
    forall c | c in ValidCoins ensures counts.Get(c) == NoCoins.Get(c) {
      var j := AcceptedCoinIndex(c);
    }
    SameCoinCounts(counts, NoCoins);
  }

  /** Once the sale loop has handled every accepted coin, the tables hold the committed inventory and no pending coins. */
  lemma SaleLoopDone(inventory: CoinCounts, inserted: CoinCounts, inventory': CoinCounts, inserted': CoinCounts)
    requires forall j :: 0 <= j < |AcceptedCoins| ==>
      inserted'.Get(AcceptedCoins[j]) == 0
      && inventory'.Get(AcceptedCoins[j]) == Committed(inventory, inserted).Get(AcceptedCoins[j])
    ensures inventory' == Committed(inventory, inserted) && inserted' == NoCoins
  {
    forall c | c in ValidCoins
      ensures inserted'.Get(c) == NoCoins.Get(c) && inventory'.Get(c) == Committed(inventory, inserted).Get(c)
    {
      var j := AcceptedCoinIndex(c);
    }
    SameCoinCounts(inventory', Committed(inventory, inserted));
    SameCoinCounts(inserted', NoCoins);
  }
}
