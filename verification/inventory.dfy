/** The store's operations (store/store.py) with the file I/O taken out: each operation gets the
    store file as it was read, and an edit returns the file as it is rewritten. */
module Inventory {
  import opened Wrappers
  import opened Records
  import opened Persist
  import opened Text

  /** Records whose quantity is below this count are reported as low in stock. */
  const MIN_STOCK: int := 50

  // ---------------------------------------------------------------------------
  // Lookups
  // ---------------------------------------------------------------------------

  /** get_item_price: the price of the first record with this name and colour; None when
      no record has them (Python falls off the end of the loop). */
  function GetItemPrice(st: Store, item: string, colour: string): (r: Option<int>)
    ensures r.None? <==> NoMatch(st.records, item, colour)
    ensures r.Some? ==> exists i :: IsFirstMatch(st.records, item, colour, i) && r.value == st.records[i].price
  {
    match Lookup(st.records, item, colour)
    case None => None
    case Some(rec) => Some(rec.price)
  }

  /** get_item_quantity: the quantity of the first record with this name and colour, or None. */
  function GetItemQuantity(st: Store, item: string, colour: string): (r: Option<int>)
    ensures r.None? <==> NoMatch(st.records, item, colour)
    ensures r.Some? ==> exists i :: IsFirstMatch(st.records, item, colour, i) && r.value == st.records[i].quantity
  {
    match Lookup(st.records, item, colour)
    case None => None
    case Some(rec) => Some(rec.quantity)
  }

  // ---------------------------------------------------------------------------
  // Edits; each one rewrites the whole file through write_to_csv
  // ---------------------------------------------------------------------------

  /** add_item: appends the new record and rewrites the file. No check for an existing key. */
  function AddItem(st: Store, category: string, name: string, colour: string, price: int, quantity: int): (r: Store)
    ensures r.header == st.header
    ensures Sorted(r.records)
    ensures multiset(r.records) == multiset(st.records) + multiset{Record(category, name, colour, price, quantity)}
    ensures forall c :: OfCategory(r.records, c)
              == OfCategory(st.records, c) + (if category == c then [Record(category, name, colour, price, quantity)] else [])
  {
    AppendOfCategory(st.records, Record(category, name, colour, price, quantity));
    WriteToCsv(st, st.records + [Record(category, name, colour, price, quantity)])
  }

  lemma AppendOfCategory(s: seq<Record>, x: Record)
    ensures forall c :: OfCategory(s + [x], c) == OfCategory(s, c) + (if x.category == c then [x] else [])
  {
    forall c ensures OfCategory(s + [x], c) == OfCategory(s, c) + (if x.category == c then [x] else []) {
      OfCategoryAppend(s, x, c);
    }
  }

  /** remove_item: removes the first record with the key, if there is one, and rewrites the file
      either way. */
  function RemoveItem(st: Store, item: string, colour: string): (r: Store)
    ensures r.header == st.header
    ensures Sorted(r.records)
    ensures NoMatch(st.records, item, colour) ==> multiset(r.records) == multiset(st.records)
    ensures forall i :: IsFirstMatch(st.records, item, colour, i) ==>
              multiset(r.records) == multiset(st.records) - multiset{st.records[i]}
    ensures NoMatch(st.records, item, colour) ==> forall c :: OfCategory(r.records, c) == OfCategory(st.records, c)
    ensures forall i :: IsFirstMatch(st.records, item, colour, i) ==>
              forall c :: OfCategory(r.records, c) == OfCategory(st.records[..i] + st.records[i + 1..], c)
  {
    RemoveAtMultiset(st.records, item, colour);
    WriteToCsv(st, RemoveFirst(st.records, item, colour))
  }

  lemma RemoveAtMultiset(s: seq<Record>, item: string, colour: string)
    ensures forall i :: IsFirstMatch(s, item, colour, i) ==>
              multiset(RemoveFirst(s, item, colour)) == multiset(s) - multiset{s[i]}
  {
    forall i | IsFirstMatch(s, item, colour, i)
      ensures multiset(RemoveFirst(s, item, colour)) == multiset(s) - multiset{s[i]}
    {
      assert s == s[..i] + [s[i]] + s[i + 1..];
    }
  }

  /** update_price: sets the price of the first record with the key and rewrites the file. */
  function UpdatePrice(st: Store, item: string, colour: string, newPrice: int): (r: Store)
    ensures r.header == st.header
    ensures Sorted(r.records)
  {
    WriteToCsv(st, SetPriceFirst(st.records, item, colour, newPrice))
  }

  /** update_price swaps the first matching record for its repriced copy, and changes no record
      when none matches. */
  lemma UpdatePriceRecords(st: Store, item: string, colour: string, newPrice: int)
    ensures NoMatch(st.records, item, colour) ==>
              multiset(UpdatePrice(st, item, colour, newPrice).records) == multiset(st.records)
    ensures forall i :: IsFirstMatch(st.records, item, colour, i) ==>
              multiset(UpdatePrice(st, item, colour, newPrice).records)
              == multiset(st.records) - multiset{st.records[i]} + multiset{st.records[i].(price := newPrice)}
    ensures NoMatch(st.records, item, colour) ==>
              forall c :: OfCategory(UpdatePrice(st, item, colour, newPrice).records, c) == OfCategory(st.records, c)
    ensures forall i :: IsFirstMatch(st.records, item, colour, i) ==>
              forall c :: OfCategory(UpdatePrice(st, item, colour, newPrice).records, c)
                          == OfCategory(st.records[i := st.records[i].(price := newPrice)], c)
  {
    var t := SetPriceFirst(st.records, item, colour, newPrice);
    ReplaceFirstMultiset(st.records, t, item, colour);
    forall i | IsFirstMatch(st.records, item, colour, i)
      ensures t == st.records[i := st.records[i].(price := newPrice)]
    {
    }
  }

  /** purchase_items: subtracts the amount bought from the quantity of the first record with the
      key, without any floor, and rewrites the file. */
  function PurchaseItems(st: Store, item: string, colour: string, bought: int): (r: Store)
    ensures r.header == st.header
    ensures Sorted(r.records)
  {
    WriteToCsv(st, SubtractQuantityFirst(st.records, item, colour, bought))
  }

  /** purchase_items swaps the first matching record for a copy with the amount taken off its
      quantity, and changes no record when none matches. */
  lemma PurchaseItemsRecords(st: Store, item: string, colour: string, bought: int)
    ensures NoMatch(st.records, item, colour) ==>
              multiset(PurchaseItems(st, item, colour, bought).records) == multiset(st.records)
    ensures forall i :: IsFirstMatch(st.records, item, colour, i) ==>
              multiset(PurchaseItems(st, item, colour, bought).records)
              == multiset(st.records) - multiset{st.records[i]} + multiset{Sold(st.records[i], bought)}
    ensures NoMatch(st.records, item, colour) ==>
              forall c :: OfCategory(PurchaseItems(st, item, colour, bought).records, c) == OfCategory(st.records, c)
    ensures forall i :: IsFirstMatch(st.records, item, colour, i) ==>
              forall c :: OfCategory(PurchaseItems(st, item, colour, bought).records, c)
                          == OfCategory(st.records[i := Sold(st.records[i], bought)], c)
  {
    var t := SubtractQuantityFirst(st.records, item, colour, bought);
    ReplaceFirstMultiset(st.records, t, item, colour);
    forall i | IsFirstMatch(st.records, item, colour, i)
      ensures t == st.records[i := Sold(st.records[i], bought)]
    {
    }
  }

  /** Rewriting only the first matching record swaps that one record in the multiset. */
  lemma ReplaceFirstMultiset(s: seq<Record>, t: seq<Record>, item: string, colour: string)
    requires |t| == |s|
    requires forall i :: IsFirstMatch(s, item, colour, i) ==> forall j :: 0 <= j < |s| && j != i ==> t[j] == s[j]
    ensures forall i :: IsFirstMatch(s, item, colour, i) ==>
              multiset(t) == multiset(s) - multiset{s[i]} + multiset{t[i]}
  {
    forall i | IsFirstMatch(s, item, colour, i)
      ensures multiset(t) == multiset(s) - multiset{s[i]} + multiset{t[i]}
    {
      ReplaceAtMultiset(s, t, i);
    }
  }

  lemma ReplaceAtMultiset(s: seq<Record>, t: seq<Record>, i: int)
    requires |t| == |s| && 0 <= i < |s|
    requires forall j :: 0 <= j < |s| && j != i ==> t[j] == s[j]
    ensures multiset(t) == multiset(s) - multiset{s[i]} + multiset{t[i]}
  {
    assert t[..i] == s[..i];
    assert t[i + 1..] == s[i + 1..];
    assert s == s[..i] + [s[i]] + s[i + 1..];
    assert t == s[..i] + [t[i]] + s[i + 1..];
  }

  // ---------------------------------------------------------------------------
  // What a lookup sees after an edit, for a store whose keys are unique
  // ---------------------------------------------------------------------------

  /** After adding a record with a new key, the new key finds it and every other key finds what
      it found before. */
  lemma AddItemLookup(st: Store, category: string, name: string, colour: string, price: int, quantity: int,
                      item: string, itemColour: string)
    requires UniqueKeys(st.records) && NoMatch(st.records, name, colour)
    ensures UniqueKeys(AddItem(st, category, name, colour, price, quantity).records)
    ensures Lookup(AddItem(st, category, name, colour, price, quantity).records, item, itemColour)
         == if item == name && itemColour == colour then Some(Record(category, name, colour, price, quantity))
            else Lookup(st.records, item, itemColour)
  {
    var x := Record(category, name, colour, price, quantity);
    var data := st.records + [x];
    UniqueKeysAppend(st.records, x);
    SortUniqueKeys(data);
    SortPreservesLookup(data, item, itemColour);
    LookupAppend(st.records, x, item, itemColour);
  }

  /** The property the add_item precondition exists for: a newly added key reads back its price
      and quantity. */
  lemma AddThenGet(st: Store, category: string, name: string, colour: string, price: int, quantity: int)
    requires UniqueKeys(st.records) && NoMatch(st.records, name, colour)
    ensures GetItemPrice(AddItem(st, category, name, colour, price, quantity), name, colour) == Some(price)
    ensures GetItemQuantity(AddItem(st, category, name, colour, price, quantity), name, colour) == Some(quantity)
  {
    AddItemLookup(st, category, name, colour, price, quantity, name, colour);
  }

  /** After remove_item the removed key is gone and every other key finds what it found before. */
  lemma RemoveItemLookup(st: Store, name: string, colour: string, item: string, itemColour: string)
    requires UniqueKeys(st.records)
    ensures UniqueKeys(RemoveItem(st, name, colour).records)
    ensures Lookup(RemoveItem(st, name, colour).records, item, itemColour)
         == if item == name && itemColour == colour then None else Lookup(st.records, item, itemColour)
  {
    var s := st.records;
    var data := RemoveFirst(s, name, colour);
    match FirstMatch(s, name, colour) {
      case None =>
        assert data == s;
      case Some(i) =>
        assert data == s[..i] + s[i + 1..];
        UniqueKeysRemoveAt(s, i);
        if item == name && itemColour == colour {
          RemovedKeyIsGone(s, i, item, itemColour);
        } else {
          forall y | Matches(y, item, itemColour) ensures y in data <==> y in s {
            RemoveAtMembers(s, i, y);
            if y in s {
              var k :| 0 <= k < |s| && s[k] == y;
              assert k != i;
            }
          }
          LookupByMembers(data, s, item, itemColour);
        }
    }
    SortUniqueKeys(data);
    SortPreservesLookup(data, item, itemColour);
  }

  /** With unique keys, removing the first record with a key leaves no record with it. */
  lemma RemovedKeyIsGone(s: seq<Record>, i: int, item: string, colour: string)
    requires UniqueKeys(s) && IsFirstMatch(s, item, colour, i)
    ensures NoMatch(s[..i] + s[i + 1..], item, colour)
  {
    var t := s[..i] + s[i + 1..];
    forall j | 0 <= j < |t| ensures !Matches(t[j], item, colour) {
      if j >= i {
        assert t[j] == s[j + 1];
        assert !Matches(s[j + 1], s[i].name, s[i].colour);
      }
    }
  }

  /** After update_price the key finds its record with the new price; other keys are unaffected. */
  lemma UpdatePriceLookup(st: Store, name: string, colour: string, newPrice: int, item: string, itemColour: string)
    requires UniqueKeys(st.records)
    ensures UniqueKeys(UpdatePrice(st, name, colour, newPrice).records)
    ensures Lookup(UpdatePrice(st, name, colour, newPrice).records, item, itemColour)
         == if item == name && itemColour == colour then
              (match Lookup(st.records, name, colour)
               case None => None
               case Some(x) => Some(x.(price := newPrice)))
            else Lookup(st.records, item, itemColour)
  {
    var s := st.records;
    var data := SetPriceFirst(s, name, colour, newPrice);
    assert SameKeys(s, data);
    SameKeysUnique(s, data);
    match FirstMatch(s, name, colour) {
      case None =>
        assert data == s;
      case Some(i) =>
        EditAtLookup(s, data, i, item, itemColour);
    }
    SortUniqueKeys(data);
    SortPreservesLookup(data, item, itemColour);
  }

  /** After purchase_items the key finds its record with the reduced quantity; other keys are
      unaffected. */
  lemma PurchaseItemsLookup(st: Store, name: string, colour: string, bought: int, item: string, itemColour: string)
    requires UniqueKeys(st.records)
    ensures UniqueKeys(PurchaseItems(st, name, colour, bought).records)
    ensures Lookup(PurchaseItems(st, name, colour, bought).records, item, itemColour)
         == if item == name && itemColour == colour then
              (match Lookup(st.records, name, colour)
               case None => None
               case Some(x) => Some(Sold(x, bought)))
            else Lookup(st.records, item, itemColour)
  {
    var s := st.records;
    var data := SubtractQuantityFirst(s, name, colour, bought);
    assert SameKeys(s, data);
    SameKeysUnique(s, data);
    match FirstMatch(s, name, colour) {
      case None =>
        assert data == s;
      case Some(i) =>
        EditAtLookup(s, data, i, item, itemColour);
    }
    SortUniqueKeys(data);
    SortPreservesLookup(data, item, itemColour);
  }

  /** A key that is not in an already sorted file leaves the file exactly as it was, although
      remove_item, update_price and purchase_items still rewrite it. */
  lemma MissingKeyRewritesSameFile(st: Store, item: string, colour: string, newPrice: int, bought: int)
    requires Sorted(st.records) && NoMatch(st.records, item, colour)
    ensures RemoveItem(st, item, colour) == st
    ensures UpdatePrice(st, item, colour, newPrice) == st
    ensures PurchaseItems(st, item, colour, bought) == st
  {
    SortOfSortedIsIdentity(st.records);
  }

  // ---------------------------------------------------------------------------
  // Read-only queries: order-preserving filters over the file, no sorting, no dedup
  // ---------------------------------------------------------------------------

  /** The three queries: which records they keep and what they report for each. */
  datatype Query = ColourIs(colour: string) | NameIs(name: string) | BelowMinStock

  predicate Keeps(q: Query, r: Record)
  {
    match q
    case ColourIs(c) => r.colour == c
    case NameIs(n) => r.name == n
    case BelowMinStock => r.quantity < MIN_STOCK
  }

  function Reports(q: Query, r: Record): string
  {
    match q
    case ColourIs(_) => r.name
    case NameIs(_) => r.colour
    case BelowMinStock => r.colour + " " + r.name
  }

  /** The positions of the kept records, in increasing order. */
  ghost function KeptPositions(s: seq<Record>, q: Query): (p: seq<nat>)
    ensures forall k :: 0 <= k < |p| ==> p[k] < |s| && Keeps(q, s[p[k]])
    ensures forall k, l :: 0 <= k < l < |p| ==> p[k] < p[l]
    ensures forall i :: 0 <= i < |s| && Keeps(q, s[i]) ==> i in p
    decreases |s|
  {
    if |s| == 0 then []
    else
      var n := |s| - 1;
      assert forall i :: 0 <= i < n ==> s[..n][i] == s[i];
      KeptPositions(s[..n], q) + (if Keeps(q, s[n]) then [n] else [])
  }

  /** The loop `for item_record in database: if ...: append(...)`: the report of each kept
      record, in file order. */
  function Select(s: seq<Record>, q: Query): (r: seq<string>)
    ensures |r| == |KeptPositions(s, q)|
    ensures forall k :: 0 <= k < |r| ==> r[k] == Reports(q, s[KeptPositions(s, q)[k]])
    decreases |s|
  {
    if |s| == 0 then []
    else
      var prev := Select(s[..|s| - 1], q);
      SelectStep(s, q, prev);
      prev + (if Keeps(q, s[|s| - 1]) then [Reports(q, s[|s| - 1])] else [])
  }

  /** Select's step: the reports for all but the last record, then the last record's report
      if it is kept. */
  lemma SelectStep(s: seq<Record>, q: Query, prev: seq<string>)
    requires |s| > 0
    requires |prev| == |KeptPositions(s[..|s| - 1], q)|
    requires forall k :: 0 <= k < |prev| ==> prev[k] == Reports(q, s[..|s| - 1][KeptPositions(s[..|s| - 1], q)[k]])
    ensures var r := prev + (if Keeps(q, s[|s| - 1]) then [Reports(q, s[|s| - 1])] else []);
            && |r| == |KeptPositions(s, q)|
            && forall k :: 0 <= k < |r| ==> r[k] == Reports(q, s[KeptPositions(s, q)[k]])
  {
    var n := |s| - 1;
    var p := KeptPositions(s[..n], q);
    var all := KeptPositions(s, q);
    var r := prev + (if Keeps(q, s[n]) then [Reports(q, s[n])] else []);
    assert all == p + (if Keeps(q, s[n]) then [n] else []);
    forall k | 0 <= k < |r|
      ensures r[k] == Reports(q, s[all[k]])
    {
      if k < |prev| {
        assert r[k] == prev[k] && all[k] == p[k];
        assert s[..n][p[k]] == s[p[k]];
      } else {
        assert all[k] == n;
      }
    }
  }

  /** get_items_of_colour: the names of the records of that colour, in file order. */
  function GetItemsOfColour(st: Store, colour: string): (r: seq<string>)
    ensures |r| == |KeptPositions(st.records, ColourIs(colour))|
    ensures forall k :: 0 <= k < |r| ==> r[k] == st.records[KeptPositions(st.records, ColourIs(colour))[k]].name
  {
    Select(st.records, ColourIs(colour))
  }

  /** get_colours_of_item: the colours of the records with that name, in file order. */
  function GetColoursOfItem(st: Store, item: string): (r: seq<string>)
    ensures |r| == |KeptPositions(st.records, NameIs(item))|
    ensures forall k :: 0 <= k < |r| ==> r[k] == st.records[KeptPositions(st.records, NameIs(item))[k]].colour
  {
    Select(st.records, NameIs(item))
  }

  /** low_in_stock: "colour name" for each record with fewer than MIN_STOCK in stock, in file
      order; a quantity of exactly MIN_STOCK is not low. */
  function LowInStock(st: Store): (r: seq<string>)
    ensures |r| == |KeptPositions(st.records, BelowMinStock)|
    ensures forall k :: 0 <= k < |r| ==>
              var rec := st.records[KeptPositions(st.records, BelowMinStock)[k]];
              rec.quantity < MIN_STOCK && r[k] == rec.colour + " " + rec.name
  {
    Select(st.records, BelowMinStock)
  }

  // ---------------------------------------------------------------------------
  // The docstring examples
  // ---------------------------------------------------------------------------

  /** A constructed store file for the docstring examples. The grey pants at 60 with 80 in
      stock are the docstrings' values. The shirt and notebook prices make the can_i_buy cart
      cost 50. The categories and the other quantities are made up. */
  function ExampleStore(): Store
  {
    Store(["category", "name", "colour", "price", "quantity"],
          [Record("clothing", "pants", "grey", 60, 80),
           Record("clothing", "shirt", "white", 20, 30),
           Record("stationery", "notebook", "black", 15, 120)])
  }

  /** The fixture has unique keys and is already sorted by category. */
  lemma ExampleStoreIsWellFormed()
    ensures UniqueKeys(ExampleStore().records) && Sorted(ExampleStore().records)
  {
    var s := ExampleStore().records;
    ClothingBeforeStationery();
    forall i, j | 0 <= i < j < |s| ensures InOrder(s[i], s[j]) && !Matches(s[j], s[i].name, s[i].colour) {
      if j == 1 {
        LessIrreflexive("clothing");
        assert s[0].name[0] != s[1].name[0];
      } else {
        assert s[j].name[0] != s[i].name[0];
      }
    }
  }

  lemma ClothingBeforeStationery()
    ensures Less("clothing", "stationery") && !Less("stationery", "clothing")
  {
    var c, t := "clothing", "stationery";
    assert c[0] == 'c' && t[0] == 's';
  }

  /** update_price("pants", "grey", 70) turns a price of 60 into 70. */
  lemma UpdatePriceExample()
    ensures GetItemPrice(ExampleStore(), "pants", "grey") == Some(60)
    ensures GetItemPrice(UpdatePrice(ExampleStore(), "pants", "grey", 70), "pants", "grey") == Some(70)
  {
    ExampleStoreIsWellFormed();
    UpdatePriceLookup(ExampleStore(), "pants", "grey", 70, "pants", "grey");
  }

  /** purchase_items("pants", "grey", 3) turns a quantity of 80 into 77. */
  lemma PurchaseItemsExample()
    ensures GetItemQuantity(ExampleStore(), "pants", "grey") == Some(80)
    ensures GetItemQuantity(PurchaseItems(ExampleStore(), "pants", "grey", 3), "pants", "grey") == Some(77)
  {
    ExampleStoreIsWellFormed();
    PurchaseItemsLookup(ExampleStore(), "pants", "grey", 3, "pants", "grey");
  }

  /** With quantities 77, 30 and 120, only the record with 30 is low in stock. */
  lemma LowInStockExample()
    ensures LowInStock(PurchaseItems(ExampleStore(), "pants", "grey", 3)) == ["white shirt"]
  {
    PurchaseItemsExampleFile();
    LowInStockOfPurchasedExample();
  }

  lemma LowInStockOfPurchasedExample()
    ensures Select(PurchasedExampleRecords(), BelowMinStock) == ["white shirt"]
  {
    var after := PurchasedExampleRecords();
    var p := after[..2];
    assert after[..2] == p;
    assert p[..1] == [after[0]] && p[..1][..0] == [];
    assert Select(p[..1][..0], BelowMinStock) == [];
    assert Select(p[..1], BelowMinStock) == [];
    assert p[1] == Record("clothing", "shirt", "white", 20, 30);
    assert Keeps(BelowMinStock, p[1]) && Reports(BelowMinStock, p[1]) == "white shirt";
    assert |p| == 2 && p[..|p| - 1] == p[..1];
  }

  function PurchasedExampleRecords(): seq<Record>
  {
    [Record("clothing", "pants", "grey", 60, 77),
     Record("clothing", "shirt", "white", 20, 30),
     Record("stationery", "notebook", "black", 15, 120)]
  }

  /** purchase_items("pants", "grey", 3) on the fixture writes it back with 77 grey pants. */
  lemma PurchaseItemsExampleFile()
    ensures PurchaseItems(ExampleStore(), "pants", "grey", 3).records == PurchasedExampleRecords()
  {
    var s := ExampleStore().records;
    var data := SubtractQuantityFirst(s, "pants", "grey", 3);
    assert FirstMatch(s, "pants", "grey") == Some(0);
    assert data == PurchasedExampleRecords();
    ExampleStoreIsWellFormed();
    assert Sorted(data) by {
      forall i, j | 0 <= i < j < |data| ensures InOrder(data[i], data[j]) {
        assert InOrder(s[i], s[j]);
      }
    }
    SortOfSortedIsIdentity(data);
  }
}
