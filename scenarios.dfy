/**
 Client code driving a vending machine through concrete situations. Each
 method performs one operation on a machine in a concretely described
 state and asserts what the machine's contracts guarantee afterwards;
 `Initial` is the state the constructor leaves.
 */
module Scenarios {
  import opened Money
  import opened Change
  import opened Machine

  /** The state a newly constructed machine is in. */
  ghost predicate Initial(m: VendingMachine)
    reads m
  {
    && m.coinInventory == NoCoins && m.insertedCoins == NoCoins
    && m.productInventory == ProductCounts(0, 0, 0)
    && m.coinReturn == map[] && m.currentAmount == 0
    && m.pendingMessage == None && m.dispenseBin == None
  }

  /** A newly constructed machine is in the initial state. */
  method NewMachine() returns (m: VendingMachine)
    ensures fresh(m) && Initial(m)
  {
    m := new VendingMachine();
  }

  /** Nickels, dimes and quarters are accepted; a penny is not. */
  method CoinsAccepted()
  {
    assert IsValidCoin(Nickel) && IsValidCoin(Dime) && IsValidCoin(Quarter);
    assert !IsValidCoin(Penny);
  }

  /** A quarter after a dime: the balance grows by 25 cents and one quarter joins the pending dime. */
  method QuarterAfterDime(m: VendingMachine)
    requires m.currentAmount == 10 && m.insertedCoins == CoinCounts(0, 1, 0)
    modifies m
  {
    assert CoinCounts(0, 1, 0).Set(Quarter, 1) == CoinCounts(0, 1, 1);
    m.InsertCoin(Quarter);
    assert m.currentAmount == 35 && m.insertedCoins == CoinCounts(0, 1, 1);
    assert m.coinReturn == old(m.coinReturn);
  }

  /** A penny lands in an empty coin return and touches neither the balance nor the pending coins. */
  method PennyRejected(m: VendingMachine)
    requires m.coinReturn == map[]
    modifies m
  {
    assert AddCoins(map[], Penny, 1) == map[Penny := 1];
    m.InsertCoin(Penny);
    assert m.currentAmount == old(m.currentAmount) && m.insertedCoins == old(m.insertedCoins);
    assert m.coinReturn == map[Penny := 1];
  }

  /** A second penny adds to the existing coin return entry. */
  method SecondPenny(m: VendingMachine)
    requires m.coinReturn == map[Penny := 1]
    modifies m
  {
    assert AddCoins(map[Penny := 1], Penny, 1) == map[Penny := 2];
    m.InsertCoin(Penny);
    assert m.coinReturn == map[Penny := 2];
  }

  /** Four pending quarters buy a cola: no balance left, the quarters kept, the cola dispensed. */
  method FourQuartersBuyCola(m: VendingMachine)
    requires m.currentAmount == 100 && m.insertedCoins == CoinCounts(0, 0, 4)
    requires m.coinInventory == NoCoins && m.productInventory == ProductCounts(0, 0, 0)
    modifies m
  {
    m.SelectCola();
    assert m.currentAmount == 0;
    assert m.coinInventory == CoinCounts(0, 0, 4) && m.insertedCoins == NoCoins;
    assert m.dispenseBin == Some(Cola);
    assert m.productInventory == ProductCounts(-1, 0, 0);
    assert m.pendingMessage == Some(ThankYou);
  }

  /** Three quarters and three dimes buy a cola and leave five cents on the balance. */
  method CoinsBeyondThePrice(m: VendingMachine)
    requires m.currentAmount == 105 && m.insertedCoins == CoinCounts(0, 3, 3)
    requires m.coinInventory == NoCoins
    modifies m
  {
    m.SelectCola();
    assert m.currentAmount == 5;
    assert m.coinInventory == CoinCounts(0, 3, 3);
  }

  /** A sale replaces the stock count of each kind paid with, so stocked coins of that kind are lost. */
  method SaleOverwritesStock(m: VendingMachine)
    requires m.currentAmount == 50 && m.insertedCoins == CoinCounts(0, 0, 2)
    requires m.coinInventory == CoinCounts(4, 0, 10)
    modifies m
  {
    m.SelectChips();
    assert m.coinInventory == CoinCounts(4, 0, 2);
  }

  /** Too little money shows the price and sells nothing. */
  method ShortBalanceShowsPrice(m: VendingMachine)
    requires m.currentAmount == 10 && m.dispenseBin == None
    modifies m
  {
    m.SelectChips();
    assert m.dispenseBin == None && m.currentAmount == 10;
    assert m.pendingMessage == Some(PriceTag(50));
  }

  /** A waiting message is shown once and then cleared. */
  method MessageShownOnce(m: VendingMachine)
    requires m.pendingMessage == Some(ThankYou)
    modifies m
  {
    var shown := m.Display();
    assert shown == ThankYou && m.pendingMessage == None;
  }

  /** With nothing waiting and no product in stock, the display says sold out. */
  method SoldOutDisplay(m: VendingMachine)
    requires Initial(m)
    modifies m
  {
    var shown := m.Display();
    assert shown == SoldOut;
  }

  /** With one nickel in stock, change for five cents moves that nickel to the coin return. */
  method ChangeFromOneNickel(m: VendingMachine)
    requires m.coinInventory == CoinCounts(1, 0, 0) && m.coinReturn == map[]
    modifies m
  {
    var t := Till(CoinCounts(1, 0, 0), map[], 5);
    GreedyChangeUnfolds(t, true);
    assert DrainCoin(t, Nickel, true) == TakeOne(t, Nickel, true);
    assert AddCoins(map[], Nickel, 1) == map[Nickel := 1];
    var ok := m.MakeChange(5);
    assert ok;
    assert m.coinInventory == NoCoins;
    assert m.coinReturn == map[Nickel := 1];
  }

  /** An empty coin stock needs exact change. */
  method EmptyStockNeedsExactChange(m: VendingMachine)
    requires Initial(m)
    modifies m
  {
    var needed := m.ExactChangeOnly();
    assert needed;
  }

  /** Three nickels and three dimes in stock do not need exact change. */
  method NickelsAndDimesSuffice(m: VendingMachine)
    requires m.coinInventory == CoinCounts(3, 3, 0)
    modifies m
  {
    var needed := m.ExactChangeOnly();
    assert !needed;
  }

  /** A new machine is sold out. */
  method NewMachineSoldOut(m: VendingMachine)
    requires Initial(m)
  {
    var soldOut := m.IsMachineSoldOut();
    assert soldOut;
  }

  /** One bag of chips in stock means the machine is not sold out. */
  method ChipsInStock(m: VendingMachine)
    requires m.productInventory == ProductCounts(0, 1, 0)
  {
    var soldOut := m.IsMachineSoldOut();
    assert m.productInventory.Get(Chips) > 0;
    assert !soldOut;
  }

  /** A stocked machine with no balance and no nickels asks for exact change. */
  method IdleWithoutNickels(m: VendingMachine)
    requires m.productInventory == ProductCounts(1, 1, 1) && m.coinInventory == CoinCounts(0, 4, 4)
    requires m.currentAmount == 0 && m.pendingMessage == None
    modifies m
  {
    assert m.productInventory.Get(Cola) > 0;
    var shown := m.Display();
    assert shown == Message.ExactChangeOnly;
  }

  /** A stocked machine with no balance and a nickel asks for coins. */
  method IdleWithNickel(m: VendingMachine)
    requires m.productInventory == ProductCounts(1, 1, 1) && m.coinInventory == CoinCounts(1, 0, 0)
    requires m.currentAmount == 0 && m.pendingMessage == None
    modifies m
  {
    assert m.productInventory.Get(Cola) > 0;
    var shown := m.Display();
    assert shown == Message.InsertCoin;
  }

  /** A stocked machine with a balance shows the balance. */
  method ShowsBalance(m: VendingMachine)
    requires m.productInventory == ProductCounts(1, 1, 1)
    requires m.currentAmount == 35 && m.pendingMessage == None
    modifies m
  {
    assert m.productInventory.Get(Cola) > 0;
    var shown := m.Display();
    assert shown == Amount(35);
  }

  /** Returning a quarter and two dimes empties the balance and fills the coin return. */
  method ReturnPending(m: VendingMachine)
    requires m.currentAmount == 45 && m.insertedCoins == CoinCounts(0, 2, 1) && m.coinReturn == map[]
    modifies m
  {
    ReturnedAllAdds(map[], CoinCounts(0, 2, 1));
    m.ReturnInsertedCoins();
    assert m.currentAmount == 0 && m.insertedCoins == NoCoins;
    assert Count(m.coinReturn, Dime) == 2 && Count(m.coinReturn, Quarter) == 1;
    assert Count(m.coinReturn, Nickel) == 0;
  }

  /** While the balance is just the pending coins, two inserts and a return leave no balance and nothing pending. */
  method ReturnAfterInserts(m: VendingMachine)
    requires m.Balanced()
    modifies m
  {
    m.InsertCoin(Quarter);
    m.InsertCoin(Dime);
    m.ReturnInsertedCoins();
    assert m.currentAmount == 0 && m.insertedCoins == NoCoins;
  }

  /** With nothing of value pending, handing the pending coins back changes neither the coin return nor the balance. */
  method SecondReturn(m: VendingMachine)
    requires m.insertedCoins.Worth() == 0
    modifies m
  {
    ghost var returned, balance := m.coinReturn, m.currentAmount;
    m.ReturnInsertedCoins();
    assert m.coinReturn == returned && m.currentAmount == balance;
  }

  /** A new machine takes four quarters and sells a cola: no balance left, the quarters kept, the cola dispensed and thanks shown. */
  method NewMachineFourQuartersBuyCola()
  {
    var m := new VendingMachine();
    m.InsertCoin(Quarter);
    m.InsertCoin(Quarter);
    m.InsertCoin(Quarter);
    m.InsertCoin(Quarter);
    assert m.currentAmount == 100 && m.insertedCoins == CoinCounts(0, 0, 4);
    m.SelectCola();
    assert m.currentAmount == 0 && m.dispenseBin == Some(Cola);
    assert m.coinInventory == CoinCounts(0, 0, 4) && m.insertedCoins == NoCoins;
    assert m.productInventory == ProductCounts(-1, 0, 0);
    var shown := m.Display();
    assert shown == ThankYou;
  }

  /** A new machine takes a quarter and a dime and hands them back; a second hand-back changes nothing. */
  method NewMachineReturnsInserts()
  {
    var m := new VendingMachine();
    m.InsertCoin(Quarter);
    m.InsertCoin(Dime);
    m.ReturnInsertedCoins();
    ReturnedAllAdds(map[], CoinCounts(0, 1, 1));
    assert m.currentAmount == 0 && m.insertedCoins == NoCoins;
    assert Count(m.coinReturn, Quarter) == 1 && Count(m.coinReturn, Dime) == 1;
    ghost var returned := m.coinReturn;
    m.ReturnInsertedCoins();
    assert m.currentAmount == 0 && m.coinReturn == returned;
  }

  /** On a new machine, selecting chips shows the price once; the display then falls back to sold out. */
  method NewMachineShowsPriceThenSoldOut()
  {
    var m := new VendingMachine();
    m.SelectChips();
    var first := m.Display();
    assert first == PriceTag(50);
    var second := m.Display();
    assert second == SoldOut;
  }
}
