/**
 The coins and products a vending machine knows, their values in cents, the
 messages its display can show, and the count tables the machine keeps.
 Money is kept in whole cents, so every amount is exact.
 */
module Money {

  datatype Option<+T> = None | Some(value: T)

  /** The coin names the machine recognises; only some of them are accepted. */
  datatype Coin = Penny | Nickel | Dime | Quarter

  /** The products on sale. */
  datatype Product = Cola | Chips | Candy

  /** The accepted coins and their values in cents. */
  const ValidCoins: map<Coin, nat> := map[Nickel := 5, Dime := 10, Quarter := 25]

  /** The products and their prices in cents. */
  const Products: map<Product, nat> := map[Cola := 100, Chips := 50, Candy := 65]

  /** The accepted coins in the order the machine's coin tables enumerate them. */
  const AcceptedCoins: seq<Coin> := [Nickel, Dime, Quarter]

  /** The products in the order the product table enumerates them. */
  const ProductOrder: seq<Product> := [Cola, Chips, Candy]

  /** What the display shows; amounts are in cents. */
  datatype Message =
    | PriceTag(price: nat)   // "PRICE $x.xx"
    | ThankYou               // "THANK YOU"
    | SoldOut                // "SOLD OUT"
    | Amount(balance: int)   // "$x.xx"
    | ExactChangeOnly        // "EXACT CHANGE ONLY"
    | InsertCoin             // "INSERT COIN"

  /** A coin is accepted exactly when it has a value in the coin table. */
  function IsValidCoin(coin: Coin): (valid: bool)
    ensures valid <==> coin != Penny
    ensures valid <==> coin in ValidCoins
    ensures valid ==> ValidCoins[coin] > 0
  {
    assert ValidCoins.Keys == {Nickel, Dime, Quarter};
    assert coin.Penny? || coin.Nickel? || coin.Dime? || coin.Quarter?;
    coin in ValidCoins
  }

  /** The price of a product, looked up in the product table. */
  function Price(product: Product): (cents: nat)
    ensures product in Products && cents == Products[product]
    ensures cents > 0
  {
    assert Products.Keys == {Cola, Chips, Candy};
    assert product.Cola? || product.Chips? || product.Candy?;
    Products[product]
  }

  /** The value of the smallest accepted coin. */
  function MinCoinValue(): (v: nat)
    ensures v in ValidCoins.Values
    ensures forall c :: c in ValidCoins ==> v <= ValidCoins[c]
  {
    assert ValidCoins[Nickel] == 5;
    5
  }

  /** The value of the largest accepted coin. */
  function MaxCoinValue(): (v: nat)
    ensures v in ValidCoins.Values
    ensures forall c :: c in ValidCoins ==> ValidCoins[c] <= v
  {
    assert ValidCoins[Quarter] == 25;
    25
  }

  /** A count per accepted coin: what the machine holds, or what is pending. */
  datatype CoinCounts = CoinCounts(nickels: nat, dimes: nat, quarters: nat)
  {
    /** The count of coin `c`; the tables hold no pennies. */
    function Get(c: Coin): nat
    {
      match c
      case Penny => 0
      case Nickel => nickels
      case Dime => dimes
      case Quarter => quarters
    }

    /** These counts with the count of `c` replaced by `n`. */
    function Set(c: Coin, n: nat): (r: CoinCounts)
      requires c in ValidCoins
      ensures r.Get(c) == n
      ensures forall d :: d != c ==> r.Get(d) == Get(d)
    {
      if c == Nickel then this.(nickels := n)
      else if c == Dime then this.(dimes := n)
      else this.(quarters := n)
    }

    /** The total value of the counted coins, in cents. */
    function Worth(): nat
    {
      // Binding the counts first keeps the verifier from unfolding the sum on literal counts.
      var n, d, q := nickels, dimes, quarters;
      5 * n + 10 * d + 25 * q
    }
  }

  /** A count of zero for every accepted coin. */
  const NoCoins: CoinCounts := CoinCounts(0, 0, 0)

  /** A count per product; it can go negative. */
  datatype ProductCounts = ProductCounts(cola: int, chips: int, candy: int)
  {
    /** The count of product `p`. */
    function Get(p: Product): int
    {
      match p
      case Cola => cola
      case Chips => chips
      case Candy => candy
    }

    /** These counts with the count of `p` replaced by `n`. */
    function Set(p: Product, n: int): (r: ProductCounts)
      ensures r.Get(p) == n
      ensures forall q :: q != p ==> r.Get(q) == Get(q)
    {
      match p
      case Cola => this.(cola := n)
      case Chips => this.(chips := n)
      case Candy => this.(candy := n)
    }
  }

  /** Two coin tables that agree on every accepted coin are the same table. */
  lemma SameCoinCounts(a: CoinCounts, b: CoinCounts)
    requires forall c :: c in ValidCoins ==> a.Get(c) == b.Get(c)
    ensures a == b
  {
    assert a.Get(Nickel) == b.Get(Nickel);
    assert a.Get(Dime) == b.Get(Dime);
    assert a.Get(Quarter) == b.Get(Quarter);
  }

  /** Where each accepted coin stands in the coin tables' order. */
  lemma AcceptedCoinIndex(c: Coin) returns (j: int)
    requires c in ValidCoins
    ensures 0 <= j < |AcceptedCoins| && AcceptedCoins[j] == c
  {
    assert ValidCoins.Keys == {Nickel, Dime, Quarter};
    j := if c == Nickel then 0 else if c == Dime then 1 else 2;
  }

  /** The coin tables' order lists accepted coins only, each once. */
  lemma AcceptedCoinsAreValid()
    ensures forall i :: 0 <= i < |AcceptedCoins| ==> AcceptedCoins[i] in ValidCoins
    ensures forall i, j :: 0 <= i < j < |AcceptedCoins| ==> AcceptedCoins[i] != AcceptedCoins[j]
  {
  }

  /** The number of coins of kind `c` in `m`; a missing entry counts as none. */
  function Count(m: map<Coin, nat>, c: Coin): nat
  {
    if c in m then m[c] else 0
  }

  /** `m` with `quantity` more coins of kind `c`, the entry created at `quantity` if absent. */
  function AddCoins(m: map<Coin, nat>, c: Coin, quantity: nat): (r: map<Coin, nat>)
    ensures r.Keys == m.Keys + {c}
    ensures Count(r, c) == Count(m, c) + quantity
    ensures forall d :: d != c ==> Count(r, d) == Count(m, d)
  {
    if c in m then m[c := m[c] + quantity] else m[c := quantity]
  }

  /** The total value, in cents, of the accepted coins counted in `m`; pennies add nothing. */
  function Worth(m: map<Coin, nat>): nat
  {
    Count(m, Nickel) * 5 + Count(m, Dime) * 10 + Count(m, Quarter) * 25
  }

  /** One more accepted coin in a bin adds its value to the bin's worth. */
  lemma WorthOfOneMore(m: map<Coin, nat>, c: Coin)
    requires c in ValidCoins
    ensures Worth(AddCoins(m, c, 1)) == Worth(m) + ValidCoins[c]
  {
    assert ValidCoins.Keys == {Nickel, Dime, Quarter};
  }

  /** Changing the count of one accepted coin changes the worth by that coin's value per coin. */
  lemma WorthOfSet(counts: CoinCounts, c: Coin, n: nat)
    requires c in ValidCoins
    ensures counts.Set(c, n).Worth() == counts.Worth() - ValidCoins[c] * counts.Get(c) + ValidCoins[c] * n
  {
    assert ValidCoins.Keys == {Nickel, Dime, Quarter};
  }
}
