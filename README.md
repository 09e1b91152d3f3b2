# Vending machine kata, modelled in Dafny

This project models a vending machine's control logic: a single `VendingMachine` object that

- accepts nickels, dimes and quarters and rejects any other coin into the coin return;
- keeps a running balance of the money inserted;
- sells cola (100 cents), chips (50 cents) or candy (65 cents) once the balance covers the price;
- hands the pending coins back on request;
- makes change greedily, largest coin first, from the coins it holds;
- derives what its display shows from its state.

Money is kept in whole cents, so every amount is exact.

The files are:

- `money.dfy` (module `Money`): coins, products, the value and price tables, the display messages, and the two count tables. `CoinCounts` holds one count per accepted coin and `ProductCounts` one count per product.
- `change.dfy` (module `Change`): the greedy change-making procedure as functions on a `Till`, which holds the coin inventory, the coin return and the amount still owed.
  - `DrainCoin` is the inner loop for one coin kind. `Greedy` and `GreedyChange` are the outer loop over the kinds.
  - With `commit` set, every coin taken moves from the inventory to the return. Without it (the dry run), nothing moves.
  - The lemmas here prove conservation, the stopping condition, and what the dry run depends on. The main one is that exact change is needed exactly when the machine holds no nickels.
- `vending_machine.dfy` (module `Machine`): the class `VendingMachine`.
  - Its fields are updated in place by methods with `modifies` clauses. The methods that loop in the program loop here too, with invariants.
  - Each method is proved against the specification functions of `Change` and of this module: `Committed`, `ReturnedAll` and the two-state predicate `Sold`.
  - `Valid()` holds when the balance covers the value of the pending coins. The constructor establishes it and every operation preserves it.
  - `Balanced()` holds when the balance is exactly the pending coins' worth. The constructor establishes it and inserting a coin preserves it, so returning the pending coins then leaves no balance. A sale that leaves an overpayment on the balance ends it, which is why `Valid()` is only an inequality.
- `scenarios.dfy` (module `Scenarios`): client code. Most scenarios run one operation on a concretely described machine; three run a whole session on a new machine. They cover:
  - a new machine taking four quarters, selling a cola and showing thanks;
  - four quarters already pending buying a cola, and a sale that leaves five cents on the balance;
  - a new machine showing the price of chips once, then sold out;
  - a new machine taking a quarter and a dime and handing them back, then a second hand-back that changes nothing;
  - a rejected penny;
  - a price shown when the balance is short;
  - change for five cents from a single nickel;
  - exact change with an empty stock and with three nickels and three dimes;
  - the display's priorities;
  - two coins inserted and handed back while the balance is just the pending coins, and a hand-back with nothing pending that changes nothing.

## Model

| member | source | states |
|---|---|---|
| Money.IsValidCoin | vending_machine.py:155-160 | A coin is accepted exactly when it has a value in the coin table, i.e. exactly when it is not a penny. An accepted coin is worth more than nothing. |
| Money.Price | vending_machine.py:25 | A product's price is its entry in the product table, and it is positive. |
| Money.MinCoinValue | vending_machine.py:113 | The smallest value in the coin table: it is one of the table's values and at most every accepted coin's value. |
| Money.MaxCoinValue | vending_machine.py:114 | The largest value in the coin table: it is one of the table's values and at least every accepted coin's value. |
| Money.AddCoins | vending_machine.py:200-205 | The coin return after putting `quantity` coins of one kind in it. That kind's count grows by `quantity`, and its entry is created if absent. Every other kind's count is unchanged. |
| Change.ChangeOrder | vending_machine.py:188 | The coin table sorted by value, largest first. It lists every accepted coin, each once, and the values strictly decrease. |
| Change.SampleAmounts | vending_machine.py:113-129 | The amounts the exact-change scan tries. There are (largest − smallest) / smallest of them, and the i-th is (i + 1) times the smallest coin value. |
| Change.SampleAmountsAre | vending_machine.py:123-129 | An amount is scanned exactly when it is a multiple of the smallest coin value between that value and largest − smallest. |
| Change.DrainCoinStops | vending_machine.py:190-191 | The inner loop for one kind ends only when that coin no longer fits in what is owed or the stock shows none. It never raises the amount owed, and it never takes an amount that was not negative below zero. |
| Change.DrainCoinConserves | vending_machine.py:190-196 | A committing inner loop keeps inventory plus return constant for every kind, and leaves every other kind's inventory and return alone. |
| Change.DrainCoinMovesOwed | vending_machine.py:190-196 | The coins a committing inner loop moves are worth exactly what it took off the amount owed, both as added to the return and as taken from the inventory. |
| Change.DryDrainRemainder | vending_machine.py:190-192 | A dry inner loop changes neither inventory nor return. When the kind is in stock and the amount is not negative, it leaves the amount modulo the coin's value; otherwise it leaves the amount as it was. |
| Change.GreedyChangeUnfolds | vending_machine.py:188-196 | Making change runs the inner loop for quarters, then dimes, then nickels. |
| Change.GreedyChangeConserves | vending_machine.py:188-198 | With coins returned, inventory plus return is conserved per kind. The value moved to the return, which is also the value taken from the inventory, equals the amount minus the final remainder. |
| Change.GreedyChangeStops | vending_machine.py:188-198 | When the run ends, the remainder is below the value of every accepted kind still in stock. It is at most the amount, and it is not negative when the amount was not. |
| Change.DryRunDependsOnlyOnStockedKinds | vending_machine.py:190-196 | A dry run changes neither inventory nor return. Its outcome depends only on the amount and on which kinds have a positive count, not on the counts themselves. |
| Change.DryRunLeavesTill | vending_machine.py:162-198 | A dry run from any coin return leaves inventory and return as they were. It succeeds exactly when the dry run from an empty return does. |
| Change.DryRunOutcome | vending_machine.py:188-198 | The remainder of a dry run, worked out kind by kind: modulo 25 if quarters are stocked, then modulo 10 if dimes are, then modulo 5 if nickels are. |
| Change.DryRunWithNickels | vending_machine.py:188-198 | With a nickel in stock, a dry run makes exact change for every non-negative multiple of five cents. |
| Change.NoNickelNoChangeForOne | vending_machine.py:188-198 | Without nickels, a dry run cannot make change for five cents. |
| Change.ExactChangeIffNoNickels | vending_machine.py:111-131 | Some scanned amount fails the dry run exactly when the inventory holds no nickels. |
| Machine.Committed | vending_machine.py:96-100 | The coin inventory after a sale. Each kind with coins pending takes the pending count, replacing the stocked count; every other kind keeps its count. |
| Machine.CommittedWorth | vending_machine.py:96-100 | After a sale, the inventory is worth at most the old inventory plus the pending coins. It is worth exactly that only when no kind was both stocked and pending; otherwise the overwritten coins are lost. |
| Machine.ReturnedAll | vending_machine.py:207-217 | The coin return after the pending coins are handed back. It has an entry for every kind it had before and for every pending kind. |
| Machine.ReturnedAllAdds | vending_machine.py:207-217 | Handing the pending coins back adds each kind's pending count to the return, and so adds the pending coins' worth to the return's worth. |
| Machine.ReturnedAllOfNothing | vending_machine.py:207-217 | With nothing pending, handing the pending coins back leaves the return unchanged, so an immediate second call is a no-op. |
| Machine.ReturnedAllOfWorthless | vending_machine.py:207-217 | When the pending coins are worth nothing, handing them back leaves the return unchanged. |
| Machine.ReturnedOneKind | vending_machine.py:209-217 | Handing back one pending kind and then the rest is the same as handing back all of them. This is the loop step of `ReturnInsertedCoins`. |
| Machine.VendingMachine.constructor | vending_machine.py:27-59 | A new machine has every coin and product count at zero, an empty coin return, a zero balance, no waiting message and an empty bin. Its balance is exactly its pending coins' worth. |
| Machine.VendingMachine.SetDisplay | vending_machine.py:82-84 | The waiting message becomes the given one. |
| Machine.VendingMachine.Display | vending_machine.py:61-80 | A waiting message is returned once and then cleared. Otherwise the first that applies is returned: sold out, the balance if positive, exact change only, insert coin. "Exact change only" then shows exactly when no nickels are stocked. Inventory and return are unchanged. |
| Machine.VendingMachine.DispenseProduct | vending_machine.py:86-109 | If the balance is below the price, only the waiting message changes, to the price. Otherwise: the pending coins become `Committed`, the pending counts are zeroed, the bin holds the product, that product's count drops by one, the price comes off the balance and "THANK YOU" waits. The coin return is untouched in both cases. |
| Machine.VendingMachine.CommitInsertedCoins | vending_machine.py:96-100 | The inventory becomes `Committed(old inventory, old pending)` and every pending count becomes zero. |
| Machine.VendingMachine.ExactChangeOnly | vending_machine.py:111-131 | Returns whether some scanned amount fails the dry run, which is exactly when no nickels are stocked. Inventory and return are unchanged. |
| Machine.VendingMachine.InsertCoin | vending_machine.py:133-145 | An accepted coin raises the balance by its value and its pending count by one, and leaves the return alone. Any other coin goes to the coin return (entry created at one if absent), and balance and pending counts stay as they were. A balance equal to the pending coins' worth stays equal to it. |
| Machine.VendingMachine.IsMachineSoldOut | vending_machine.py:147-153 | True exactly when no product has a positive count. |
| Machine.VendingMachine.MakeChange | vending_machine.py:162-198 | Inventory and return end as `GreedyChange` of the old ones for the amount leaves them. The result is true exactly when nothing is left owed. Coins are returned unless the caller asks for a dry run, as with the source's default argument. |
| Machine.VendingMachine.TakeCoins | vending_machine.py:190-196 | Inventory, return and the amount left end as `DrainCoin` leaves them for that kind. |
| Machine.VendingMachine.ReturnCoin | vending_machine.py:200-205 | The coin return becomes `AddCoins` of the old return. |
| Machine.VendingMachine.ReturnInsertedCoins | vending_machine.py:207-217 | The return becomes `ReturnedAll` of the old return and pending coins. The balance drops by the pending coins' worth, and every pending count becomes zero. If the balance was exactly the pending coins' worth, it ends at zero. With nothing pending, return and balance are unchanged, so an immediate second call is a no-op. |
| Machine.VendingMachine.ReturnEachKind | vending_machine.py:209-217 | The loop over the accepted kinds: the same new return, balance and pending counts as `ReturnInsertedCoins`, proved kind by kind. |
| Machine.VendingMachine.SelectCola | vending_machine.py:219-221 | The same outcome as `DispenseProduct(Cola)`. |
| Machine.VendingMachine.SelectChips | vending_machine.py:223-225 | The same outcome as `DispenseProduct(Chips)`. |
| Machine.VendingMachine.SelectCandy | vending_machine.py:227-229 | The same outcome as `DispenseProduct(Candy)`. |

### Where the code differs from its own comments

The model follows the code:

- **Sale:** the docstring of `dispense_product` says the inserted coins are transferred into the coin inventory (vending_machine.py:88-90). Line 99 instead sets each pending kind's inventory count to the pending count, so coins of that kind already in stock are lost. `Committed` and `CommittedWorth` model this, and the scenario `SaleOverwritesStock` exhibits it.

### Stock

The code treats the machine as sold out when no product count is positive (vending_machine.py:149-153). A sale does not check stock, and line 106 lets a count go negative. `IsMachineSoldOut` and `Sold` follow this.

## Left out

- Floating-point money and `round(x, 2)` (vending_machine.py:22, 25, 74, 92, 108, 116, 141, 190, 198, 214): amounts are whole cents, so every comparison is exact.
  - The source's float sums can fall just short. After ten dimes, line 141 leaves the balance at 0.9999999999999999, so line 92 shows the cola's price instead of selling it.
  - The model sells the cola, and it does not reproduce any other rounding artefact of the balance (lines 74, 108 and 214).
- The accumulated float in the exact-change scan (vending_machine.py:129): the model scans 5, 10, 15 and 20 cents. The outcome does not depend on whether the float loop reaches 20 cents. Five cents is always scanned and fails without a nickel, and with a nickel every multiple of five succeeds (`ExactChangeIffNoNickels`).
- The `%.2f` rendering of the display (vending_machine.py:75, 93): messages are the datatype `Message`, with amounts in cents.
- Coin and product names as strings (vending_machine.py:8-16): they are closed datatypes.
  - `Penny` stands for every coin name that is not accepted.
  - An unknown product name, which would raise a `KeyError` in the code, cannot be written.
- The display setter's free text (vending_machine.py:82-84): `SetDisplay` takes an `Option<Message>`. `None` stands for assigning the empty string, which the display treats as no message.
- The count dictionaries: they are records with one field per accepted coin or per product. A `KeyError` from a dictionary missing a key cannot arise.
- Machine.VendingMachine.MakeChange: its frame names the inventory and the coin return even for a dry run. That a dry run leaves both unchanged is stated through `GreedyChange` and `DryRunLeavesTill` rather than by the frame.
- The unittest harness in vending_machine_tests.py: it only checks which coins are accepted, which `IsValidCoin`'s contract states.
