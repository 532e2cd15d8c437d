/** The checkout flow of store/store.py: `shopping_list` reads cart lines until "STOP",
    `can_i_buy` prices the cart, compares the total with the budget and, when the buyer
    confirms, applies every cart line as a purchase. The console is replaced by parameters:
    the lines typed at the cart prompt and the word typed at the confirmation prompt. */
module Checkout {
  import opened Wrappers
  import opened Text
  import opened Records
  import opened Inventory

  /** The ways can_i_buy ends in a Python exception instead of a message. */
  datatype CheckoutError =
    | InputEnded    // the input ends before a "STOP" line: EOFError from input()
    | MissingField  // a cart line with too few words: IndexError
    | UnknownItem   // no record has the line's item and colour: int(None) raises TypeError
    | BadQuantity   // int() rejects the quantity word: ValueError

  // ---------------------------------------------------------------------------
  // shopping_list
  // ---------------------------------------------------------------------------

  /** shopping_list: each line typed before the first "STOP", split on single spaces. */
  function ShoppingList(lines: seq<string>): (r: Option<seq<seq<string>>>)
    ensures r.None? <==> "STOP" !in lines
    ensures r.Some? ==>
              && |r.value| < |lines|
              && lines[|r.value|] == "STOP"
              && "STOP" !in lines[..|r.value|]
              && forall i :: 0 <= i < |r.value| ==> r.value[i] == Split(lines[i], ' ')
    decreases |lines|
  {
    if |lines| == 0 then None
    else if lines[0] == "STOP" then Some([])
    else
      assert lines == [lines[0]] + lines[1..];
      match ShoppingList(lines[1..])
      case None => None
      case Some(rest) =>
        assert lines[..|rest| + 1] == [lines[0]] + lines[1..][..|rest|];
        Some([Split(lines[0], ' ')] + rest)
  }

  /** Nothing after the first "STOP" is read. */
  lemma {:induction false} ShoppingListStopsAtStop(lines: seq<string>, more: seq<string>)
    requires "STOP" in lines
    ensures ShoppingList(lines + more) == ShoppingList(lines)
    decreases |lines|
  {
    if lines[0] != "STOP" {
      assert (lines + more)[1..] == lines[1..] + more;
      assert "STOP" in lines[1..] by {
        var k :| 0 <= k < |lines| && lines[k] == "STOP";
        assert lines[1..][k - 1] == "STOP";
      }
      ShoppingListStopsAtStop(lines[1..], more);
    }
  }

  // ---------------------------------------------------------------------------
  // Pricing the cart
  // ---------------------------------------------------------------------------

  /** A cart line after pricing: the item, its colour, its unit price and the quantity asked for. */
  datatype CartLine = CartLine(item: string, colour: string, price: int, quantity: int)

  /** One pass of the cost loop: `get_item_price(item[0], item[1])`, then `int(price)`, then
      `int(item[2])`, failing at the first step Python fails at. */
  function PriceLine(st: Store, words: seq<string>): (r: Result<CartLine, CheckoutError>)
    ensures r.Success? <==>
              |words| >= 3 && !NoMatch(st.records, words[0], words[1]) && ParseInt(words[2]).Some?
    ensures r.Success? ==>
              && r.value.item == words[0] && r.value.colour == words[1]
              && GetItemPrice(st, words[0], words[1]) == Some(r.value.price)
              && ParseInt(words[2]) == Some(r.value.quantity)
    ensures r == Failure(UnknownItem) <==> |words| >= 2 && NoMatch(st.records, words[0], words[1])
    ensures r == Failure(MissingField) <==>
              |words| < 2 || (|words| == 2 && !NoMatch(st.records, words[0], words[1]))
    ensures r.Failure? ==> r.error != InputEnded
  {
    if |words| < 2 then Failure(MissingField)
    else match GetItemPrice(st, words[0], words[1])
      case None => Failure(UnknownItem)
      case Some(price) =>
        if |words| < 3 then Failure(MissingField)
        else match ParseInt(words[2])
          case None => Failure(BadQuantity)
          case Some(q) => Success(CartLine(words[0], words[1], price, q))
  }

  /** The cost loop over the whole cart: every line priced, or the failure of the first line
      that fails. */
  function PriceCart(st: Store, cart: seq<seq<string>>): (r: Result<seq<CartLine>, CheckoutError>)
    ensures r.Success? ==> |r.value| == |cart| && forall i :: 0 <= i < |cart| ==> PriceLine(st, cart[i]) == Success(r.value[i])
    ensures r.Failure? ==>
              exists i :: 0 <= i < |cart| && PriceLine(st, cart[i]) == Failure(r.error)
                          && forall j :: 0 <= j < i ==> PriceLine(st, cart[j]).Success?
    decreases |cart|
  {
    if |cart| == 0 then Success([])
    else match PriceLine(st, cart[0])
      case Failure(e) =>
        assert PriceLine(st, cart[0]) == Failure(e);
        Failure(e)
      case Success(line) =>
        match PriceCart(st, cart[1..])
        case Failure(e) =>
          PriceCartShift(st, cart, e);
          Failure(e)
        case Success(rest) => Success([line] + rest)
  }

  lemma PriceCartShift(st: Store, cart: seq<seq<string>>, e: CheckoutError)
    requires |cart| > 0 && PriceLine(st, cart[0]).Success?
    requires exists i :: 0 <= i < |cart[1..]| && PriceLine(st, cart[1..][i]) == Failure(e)
                         && forall j :: 0 <= j < i ==> PriceLine(st, cart[1..][j]).Success?
    ensures exists i :: 0 <= i < |cart| && PriceLine(st, cart[i]) == Failure(e)
                        && forall j :: 0 <= j < i ==> PriceLine(st, cart[j]).Success?
  {
    var i :| 0 <= i < |cart[1..]| && PriceLine(st, cart[1..][i]) == Failure(e)
             && forall j :: 0 <= j < i ==> PriceLine(st, cart[1..][j]).Success?;
    assert forall j :: 1 <= j < i + 1 ==> cart[j] == cart[1..][j - 1];
    assert PriceLine(st, cart[i + 1]) == Failure(e);
  }

  /** The total cost: the sum of unit price times quantity over the cart. */
  function Total(lines: seq<CartLine>): (cost: int)
    ensures (forall i :: 0 <= i < |lines| ==> lines[i].price >= 0 && lines[i].quantity >= 0) ==> cost >= 0
    decreases |lines|
  {
    if |lines| == 0 then 0
    else
      assert forall i :: 0 <= i < |lines[1..]| ==> lines[1..][i] == lines[i + 1];
      lines[0].price * lines[0].quantity + Total(lines[1..])
  }

  /** The total of a longer cart is the total of its first part plus that of the rest. */
  lemma {:induction false} TotalAppend(a: seq<CartLine>, b: seq<CartLine>)
    ensures Total(a + b) == Total(a) + Total(b)
    decreases |a|
  {
    if |a| == 0 {
      assert a + b == b;
    } else {
      TotalAppend(a[1..], b);
      assert (a + b)[0] == a[0] && (a + b)[1..] == a[1..] + b;
    }
  }

  /** The cost loop as written: `cost = 0`, then `cost += price * quantity` for each line in
      cart order. */
  method AccumulateCost(lines: seq<CartLine>) returns (cost: int)
    ensures cost == Total(lines)
  {
    cost := 0;
    var k := 0;
    while k < |lines|
      invariant 0 <= k <= |lines|
      invariant cost == Total(lines[..k])
    {
      TotalAppend(lines[..k], [lines[k]]);
      assert lines[..k + 1] == lines[..k] + [lines[k]];
      cost := cost + lines[k].price * lines[k].quantity;
      k := k + 1;
    }
    assert lines[..k] == lines;
  }

  // ---------------------------------------------------------------------------
  // Buying
  // ---------------------------------------------------------------------------

  /** `for item in cart: purchase_items(item[0], item[1], int(item[2]))`: every line is a separate
      purchase, applied in cart order, each one rewriting the file. */
  function ApplyPurchases(st: Store, lines: seq<CartLine>): (r: Store)
    ensures r.header == st.header
    ensures |r.records| == |st.records|
    decreases |lines|
  {
    if |lines| == 0 then st
    else
      var after := PurchaseItems(st, lines[0].item, lines[0].colour, lines[0].quantity);
      assert |after.records| == |multiset(after.records)| == |st.records|;
      ApplyPurchases(after, lines[1..])
  }

  /** How many units of one key a cart buys in total. */
  function Bought(lines: seq<CartLine>, item: string, colour: string): int
    decreases |lines|
  {
    if |lines| == 0 then 0
    else (if lines[0].item == item && lines[0].colour == colour then lines[0].quantity else 0)
         + Bought(lines[1..], item, colour)
  }

  /** Repeated cart lines for the same key accumulate: the key's record loses everything the
      cart buys of it, and every other field stays as it was. */
  lemma {:induction false} PurchasesAccumulate(st: Store, lines: seq<CartLine>, item: string, colour: string)
    requires UniqueKeys(st.records)
    ensures UniqueKeys(ApplyPurchases(st, lines).records)
    ensures Lookup(ApplyPurchases(st, lines).records, item, colour)
         == match Lookup(st.records, item, colour)
            case None => None
            case Some(x) => Some(Sold(x, Bought(lines, item, colour)))
    decreases |lines|
  {
    if |lines| == 0 {
      match Lookup(st.records, item, colour) {
        case None =>
        case Some(x) => assert Sold(x, 0) == x;
      }
    } else {
      var l := lines[0];
      var after := PurchaseItems(st, l.item, l.colour, l.quantity);
      assert ApplyPurchases(st, lines) == ApplyPurchases(after, lines[1..]);
      PurchaseItemsLookup(st, l.item, l.colour, l.quantity, item, colour);
      PurchasesAccumulate(after, lines[1..], item, colour);
      var here := if l.item == item && l.colour == colour then l.quantity else 0;
      assert Bought(lines, item, colour) == here + Bought(lines[1..], item, colour);
      match Lookup(st.records, item, colour) {
        case None =>
        case Some(x) =>
          assert Lookup(after.records, item, colour) == Some(Sold(x, here));
          assert Sold(Sold(x, here), Bought(lines[1..], item, colour)) == Sold(x, Bought(lines, item, colour));
      }
    }
  }

  /** The text can_i_buy returns, with the amount written by str(). */
  const ThanksPrefix := "Thanks for your purchase! Your change is $"
  const NotBought := "See you next time!"
  const ShortPrefix := "No, you are $"
  const ShortSuffix := " short"

  /** `message` is prefix + the decimal text of `amount` + suffix, the middle in the form str()
      writes: digits only, with no sign and no leading zero. */
  ghost predicate States(message: string, prefix: string, amount: int, suffix: string)
  {
    && |message| >= |prefix| + |suffix|
    && message[..|prefix|] == prefix
    && message[|message| - |suffix|..] == suffix
    && NatText(message[|prefix|..|message| - |suffix|])
    && ParseInt(message[|prefix|..|message| - |suffix|]) == Some(amount)
  }

  /** A message that states an amount is exactly prefix + str(amount) + suffix. */
  lemma StatesExactly(message: string, prefix: string, amount: int, suffix: string)
    requires States(message, prefix, amount, suffix)
    ensures amount >= 0 && message == prefix + NatToString(amount) + suffix
  {
    var middle := message[|prefix|..|message| - |suffix|];
    NatTextIsNatToString(middle);
    assert message == message[..|prefix|] + middle + message[|message| - |suffix|..];
  }

  lemma StatesNat(prefix: string, n: nat, suffix: string)
    ensures States(prefix + NatToString(n) + suffix, prefix, n, suffix)
  {
    var m := prefix + NatToString(n) + suffix;
    assert m[..|prefix|] == prefix;
    assert m[|m| - |suffix|..] == suffix;
    assert m[|prefix|..|m| - |suffix|] == NatToString(n);
    ParseIntNatToString(n);
  }

  /** What can_i_buy returns and the file as it stands afterwards. */
  datatype Receipt = Receipt(message: string, store: Store)

  /** The decision once the cart is priced. The budget comparison is inclusive: a budget equal
      to the cost is enough. */
  function Decide(st: Store, budget: int, lines: seq<CartLine>, confirmation: string): (r: Receipt)
    ensures budget >= Total(lines) && confirmation == "Yes" ==>
              r.store == ApplyPurchases(st, lines) && States(r.message, ThanksPrefix, budget - Total(lines), "")
    ensures budget >= Total(lines) && confirmation != "Yes" ==> r.store == st && r.message == NotBought
    ensures budget < Total(lines) ==>
              r.store == st && Total(lines) - budget > 0
              && States(r.message, ShortPrefix, Total(lines) - budget, ShortSuffix)
  {
    var cost := Total(lines);
    if budget >= cost then
      if confirmation == "Yes" then
        StatesNat(ThanksPrefix, budget - cost, "");
        Receipt(ThanksPrefix + NatToString(budget - cost) + "", ApplyPurchases(st, lines))
      else Receipt(NotBought, st)
    else
      StatesNat(ShortPrefix, cost - budget, ShortSuffix);
      Receipt(ShortPrefix + NatToString(cost - budget) + ShortSuffix, st)
  }

  /** A confirmed purchase within budget buys the cart and reports the change exactly as
      "Thanks for your purchase! Your change is $" + str(budget - cost). */
  lemma ConfirmedReceipt(st: Store, budget: int, lines: seq<CartLine>)
    requires budget >= Total(lines)
    ensures Decide(st, budget, lines, "Yes").store == ApplyPurchases(st, lines)
    ensures Decide(st, budget, lines, "Yes").message == ThanksPrefix + NatToString(budget - Total(lines)) + ""
  {
    var d := Decide(st, budget, lines, "Yes");
    StatesExactly(d.message, ThanksPrefix, budget - Total(lines), "");
  }

  /** Over budget, the reply is exactly "No, you are $" + str(cost - budget) + " short". */
  lemma ShortReceipt(st: Store, budget: int, lines: seq<CartLine>, confirmation: string)
    requires budget < Total(lines)
    ensures Decide(st, budget, lines, confirmation).store == st
    ensures Decide(st, budget, lines, confirmation).message == ShortPrefix + NatToString(Total(lines) - budget) + ShortSuffix
  {
    var d := Decide(st, budget, lines, confirmation);
    StatesExactly(d.message, ShortPrefix, Total(lines) - budget, ShortSuffix);
  }

  /** can_i_buy(budget), reading the cart from `input` and the confirmation from `confirmation`. */
  function CanIBuy(st: Store, budget: int, input: seq<string>, confirmation: string): (r: Result<Receipt, CheckoutError>)
    ensures r == Failure(InputEnded) <==> "STOP" !in input
    ensures r.Success? <==> "STOP" in input && PriceCart(st, ShoppingList(input).value).Success?
    ensures r.Success? ==> r.value.store == st || confirmation == "Yes"
    ensures r.Success? ==> r.value == Decide(st, budget, PriceCart(st, ShoppingList(input).value).value, confirmation)
    ensures "STOP" in input && r.Failure? ==> r == Failure(PriceCart(st, ShoppingList(input).value).error)
  {
    match ShoppingList(input)
    case None => Failure(InputEnded)
    case Some(cart) =>
      match PriceCart(st, cart)
      case Failure(e) => Failure(e)
      case Success(lines) => Success(Decide(st, budget, lines, confirmation))
  }

  // ---------------------------------------------------------------------------
  // The docstring example
  // ---------------------------------------------------------------------------

  /** can_i_buy(100) with one white shirt at 20 and two black notebooks at 15: the total is 50,
      and the code reports a change of $50 (100 - 50), not the $40 the docstring shows. */
  lemma CheckoutDoctest()
    ensures var r := CanIBuy(ExampleStore(), 100, ["shirt white 1", "notebook black 2", "STOP"], "Yes");
            && r.Success?
            && r.value.message == "Thanks for your purchase! Your change is $50"
            && GetItemQuantity(r.value.store, "shirt", "white") == Some(29)
            && GetItemQuantity(r.value.store, "notebook", "black") == Some(118)
  {
    var st := ExampleStore();
    var lines := DoctestLines();
    DoctestShoppingList();
    DoctestPricing();
    var r := CanIBuy(st, 100, ["shirt white 1", "notebook black 2", "STOP"], "Yes");
    assert r == Success(Decide(st, 100, lines, "Yes"));
    DoctestDecision();
  }

  function DoctestCart(): seq<seq<string>>
  {
    [["shirt", "white", "1"], ["notebook", "black", "2"]]
  }

  function DoctestLines(): seq<CartLine>
  {
    [CartLine("shirt", "white", 20, 1), CartLine("notebook", "black", 15, 2)]
  }

  lemma DoctestShoppingList()
    ensures ShoppingList(["shirt white 1", "notebook black 2", "STOP"]) == Some(DoctestCart())
  {
    SplitShirtLine();
    SplitNotebookLine();
    ShoppingListTwo("shirt white 1", "notebook black 2");
  }

  lemma SplitShirtLine()
    ensures "shirt white 1" != "STOP" && Split("shirt white 1", ' ') == ["shirt", "white", "1"]
  {
    var l := "shirt white 1";
    assert l[0] != "STOP"[0];
    assert l == "shirt" + [' '] + ("white" + [' '] + "1");
    SplitExample("shirt", "white", "1");
  }

  lemma SplitNotebookLine()
    ensures "notebook black 2" != "STOP" && Split("notebook black 2", ' ') == ["notebook", "black", "2"]
  {
    var l := "notebook black 2";
    assert l[0] != "STOP"[0];
    assert l == "notebook" + [' '] + ("black" + [' '] + "2");
    SplitExample("notebook", "black", "2");
  }

  /** Two ordinary lines followed by "STOP" make a cart of two entries. */
  lemma ShoppingListTwo(l1: string, l2: string)
    requires l1 != "STOP" && l2 != "STOP"
    ensures ShoppingList([l1, l2, "STOP"]) == Some([Split(l1, ' '), Split(l2, ' ')])
  {
    ShoppingListStop();
    ShoppingListLine(l2, ["STOP"]);
    assert [l2] + ["STOP"] == [l2, "STOP"];
    assert [Split(l2, ' ')] + [] == [Split(l2, ' ')];
    ShoppingListLine(l1, [l2, "STOP"]);
    assert [l1] + [l2, "STOP"] == [l1, l2, "STOP"];
    assert [Split(l1, ' ')] + [Split(l2, ' ')] == [Split(l1, ' '), Split(l2, ' ')];
  }

  lemma ShoppingListStop()
    ensures ShoppingList(["STOP"]) == Some([])
  {
    var input := ["STOP"];
    assert input[0] == "STOP";
  }

  /** An ordinary line in front of the rest of the input adds one cart entry. */
  lemma ShoppingListLine(line: string, rest: seq<string>)
    requires line != "STOP" && ShoppingList(rest).Some?
    ensures ShoppingList([line] + rest) == Some([Split(line, ' ')] + ShoppingList(rest).value)
  {
    var input := [line] + rest;
    assert input[0] == line && input[1..] == rest;
  }

  lemma SplitExample(a: string, b: string, c: string)
    requires ' ' !in a && ' ' !in b && ' ' !in c
    ensures Split(a + [' '] + (b + [' '] + c), ' ') == [a, b, c]
  {
    var parts := [a, b, c];
    assert parts[1..] == [b, c] && parts[1..][1..] == [c];
    assert Join(parts[1..][1..], ' ') == c;
    assert Join(parts[1..], ' ') == b + [' '] + c;
    assert Join(parts, ' ') == a + [' '] + (b + [' '] + c);
    SplitJoin(parts, ' ');
  }

  lemma DoctestPricing()
    ensures PriceCart(ExampleStore(), DoctestCart()) == Success(DoctestLines())
  {
    var st := ExampleStore();
    PriceShirt();
    PriceNotebook();
    PriceCartTwo(st, ["shirt", "white", "1"], ["notebook", "black", "2"]);
  }

  lemma PriceShirt()
    ensures PriceLine(ExampleStore(), ["shirt", "white", "1"]) == Success(CartLine("shirt", "white", 20, 1))
  {
    ExamplePrices();
    ParseSingleDigit('1');
  }

  lemma PriceNotebook()
    ensures PriceLine(ExampleStore(), ["notebook", "black", "2"]) == Success(CartLine("notebook", "black", 15, 2))
  {
    ExamplePrices();
    ParseSingleDigit('2');
  }

  /** A cart of two lines that both price. */
  lemma PriceCartTwo(st: Store, a: seq<string>, b: seq<string>)
    requires PriceLine(st, a).Success? && PriceLine(st, b).Success?
    ensures PriceCart(st, [a, b]) == Success([PriceLine(st, a).value, PriceLine(st, b).value])
  {
    var cart := [a, b];
    assert cart[0] == a && cart[1..] == [b] && cart[1..][0] == b && cart[1..][1..] == [];
    assert PriceCart(st, cart[1..][1..]) == Success([]);
    assert PriceCart(st, cart[1..]) == Success([PriceLine(st, b).value] + []);
    assert [PriceLine(st, b).value] + [] == [PriceLine(st, b).value];
    assert [PriceLine(st, a).value] + [PriceLine(st, b).value] == [PriceLine(st, a).value, PriceLine(st, b).value];
  }

  /** The decision for the docstring's cart, budget and confirmation. */
  lemma DoctestDecision()
    ensures var d := Decide(ExampleStore(), 100, DoctestLines(), "Yes");
            && d.message == "Thanks for your purchase! Your change is $50"
            && GetItemQuantity(d.store, "shirt", "white") == Some(29)
            && GetItemQuantity(d.store, "notebook", "black") == Some(118)
  {
    DoctestTotal();
    ConfirmedReceipt(ExampleStore(), 100, DoctestLines());
    DoctestMessage();
    DoctestPurchases();
  }

  lemma DoctestMessage()
    ensures ThanksPrefix + NatToString(100 - 50) + "" == "Thanks for your purchase! Your change is $50"
  {
    FiftyText();
  }

  lemma DoctestTotal()
    ensures Total(DoctestLines()) == 50
  {
    var lines := DoctestLines();
    assert lines[1..] == [lines[1]] && lines[1..][1..] == [];
  }

  lemma FiftyText()
    ensures NatToString(50) == "50"
  {
    assert NatToString(5) == "5";
  }

  lemma DoctestPurchases()
    ensures GetItemQuantity(ApplyPurchases(ExampleStore(), DoctestLines()), "shirt", "white") == Some(29)
    ensures GetItemQuantity(ApplyPurchases(ExampleStore(), DoctestLines()), "notebook", "black") == Some(118)
  {
    var lines := DoctestLines();
    var shirts := Record("clothing", "shirt", "white", 20, 30);
    var notebooks := Record("stationery", "notebook", "black", 15, 120);
    ExampleStoreIsWellFormed();
    ExampleLookups();
    ApplyTwo(ExampleStore(), lines[0], lines[1]);
    assert [lines[0], lines[1]] == lines;
    CartOfTwo(ExampleStore(), lines[0], lines[1], shirts, notebooks);
    var after := ApplyPurchases(ExampleStore(), lines);
    QuantityOf(after, "shirt", "white", Sold(shirts, 1));
    QuantityOf(after, "notebook", "black", Sold(notebooks, 2));
  }

  /** A cart of two lines for two different keys of the file takes each line's quantity off
      its own key. */
  lemma CartOfTwo(st: Store, a: CartLine, b: CartLine, x: Record, y: Record)
    requires UniqueKeys(st.records)
    requires Lookup(st.records, a.item, a.colour) == Some(x) && Lookup(st.records, b.item, b.colour) == Some(y)
    requires a.item != b.item || a.colour != b.colour
    ensures var after := PurchaseItems(PurchaseItems(st, a.item, a.colour, a.quantity), b.item, b.colour, b.quantity);
            && Lookup(after.records, a.item, a.colour) == Some(Sold(x, a.quantity))
            && Lookup(after.records, b.item, b.colour) == Some(Sold(y, b.quantity))
  {
    var first := PurchaseItems(st, a.item, a.colour, a.quantity);
    PurchaseItemsLookup(st, a.item, a.colour, a.quantity, a.item, a.colour);
    PurchaseItemsLookup(st, a.item, a.colour, a.quantity, b.item, b.colour);
    PurchaseItemsLookup(first, b.item, b.colour, b.quantity, a.item, a.colour);
    PurchaseItemsLookup(first, b.item, b.colour, b.quantity, b.item, b.colour);
  }

  /** get_item_quantity reads the quantity of the record a lookup finds. */
  lemma QuantityOf(st: Store, item: string, colour: string, x: Record)
    requires Lookup(st.records, item, colour) == Some(x)
    ensures GetItemQuantity(st, item, colour) == Some(x.quantity)
  {
  }

  /** Two cart lines are two purchases, the first one first. */
  lemma ApplyTwo(st: Store, a: CartLine, b: CartLine)
    ensures ApplyPurchases(st, [a, b])
         == PurchaseItems(PurchaseItems(st, a.item, a.colour, a.quantity), b.item, b.colour, b.quantity)
  {
    var first := PurchaseItems(st, a.item, a.colour, a.quantity);
    var second := PurchaseItems(first, b.item, b.colour, b.quantity);
    ApplyCons(st, a, [b]);
    ApplyCons(first, b, []);
    assert [a] + [b] == [a, b];
    assert [b] + [] == [b];
    assert ApplyPurchases(second, []) == second;
  }

  /** The first cart line is bought first, then the rest. */
  lemma ApplyCons(st: Store, l: CartLine, rest: seq<CartLine>)
    ensures ApplyPurchases(st, [l] + rest) == ApplyPurchases(PurchaseItems(st, l.item, l.colour, l.quantity), rest)
  {
    var lines := [l] + rest;
    assert lines[0] == l && lines[1..] == rest;
  }

  lemma ExampleLookups()
    ensures Lookup(ExampleStore().records, "shirt", "white") == Some(Record("clothing", "shirt", "white", 20, 30))
    ensures Lookup(ExampleStore().records, "notebook", "black") == Some(Record("stationery", "notebook", "black", 15, 120))
  {
    var s := ExampleStore().records;
    assert IsFirstMatch(s, "shirt", "white", 1);
    FirstMatchUnique(s, "shirt", "white", 1);
    assert IsFirstMatch(s, "notebook", "black", 2);
    FirstMatchUnique(s, "notebook", "black", 2);
  }

  lemma ParseSingleDigit(c: char)
    requires IsDigit(c)
    ensures ParseInt([c]) == Some(c as int - '0' as int)
  {
    var s := [c];
    assert AllDigits(s);
    assert s[..0] == "" && DigitsValue(s[..0]) == 0;
    assert DigitsValue(s) == c as int - '0' as int;
  }

  lemma ExamplePrices()
    ensures GetItemPrice(ExampleStore(), "shirt", "white") == Some(20)
    ensures GetItemPrice(ExampleStore(), "notebook", "black") == Some(15)
  {
    var s := ExampleStore().records;
    assert IsFirstMatch(s, "shirt", "white", 1);
    FirstMatchUnique(s, "shirt", "white", 1);
    assert IsFirstMatch(s, "notebook", "black", 2);
    FirstMatchUnique(s, "notebook", "black", 2);
  }
}
