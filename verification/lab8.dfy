/** Lab8/lab8.py: an earlier copy of the store. Its lookups, add_item, remove_item and
    write_to_csv are the same code as the store's, and they are modelled here by the store's
    definitions. Its update_price and purchase_items are unfinished: they print "TODO" and
    neither change nor rewrite the file. */
module Lab8 {
  import opened Wrappers
  import opened Records
  import Persist
  import Inventory

  /** get_item_price: the price of the first record with the key, or None. */
  function GetItemPrice(st: Store, item: string, colour: string): (r: Option<int>)
    ensures r.None? <==> NoMatch(st.records, item, colour)
    ensures r.Some? ==> exists i :: IsFirstMatch(st.records, item, colour, i) && r.value == st.records[i].price
  {
    Inventory.GetItemPrice(st, item, colour)
  }

  /** get_item_quantity: the quantity of the first record with the key, or None. */
  function GetItemQuantity(st: Store, item: string, colour: string): (r: Option<int>)
    ensures r.None? <==> NoMatch(st.records, item, colour)
    ensures r.Some? ==> exists i :: IsFirstMatch(st.records, item, colour, i) && r.value == st.records[i].quantity
  {
    Inventory.GetItemQuantity(st, item, colour)
  }

  /** write_to_csv: the header, then the records stably sorted by category; with unique keys
      every lookup finds what it found before the sort. */
  function WriteToCsv(st: Store, data: seq<Record>): (r: Store)
    ensures r.header == st.header
    ensures multiset(r.records) == multiset(data) && Persist.Sorted(r.records)
    ensures forall c :: Persist.OfCategory(r.records, c) == Persist.OfCategory(data, c)
    ensures UniqueKeys(data) ==>
              forall item, colour :: Lookup(r.records, item, colour) == Lookup(data, item, colour)
  {
    SortKeepsLookups(data);
    Persist.WriteToCsv(st, data)
  }

  lemma SortKeepsLookups(data: seq<Record>)
    ensures UniqueKeys(data) ==>
              forall item, colour :: Lookup(Persist.SortByCategory(data), item, colour) == Lookup(data, item, colour)
  {
    if UniqueKeys(data) {
      forall item, colour ensures Lookup(Persist.SortByCategory(data), item, colour) == Lookup(data, item, colour) {
        Persist.SortPreservesLookup(data, item, colour);
      }
    }
  }

  /** add_item: one more record, last among its category, no check for an existing key, then
      the file is rewritten. */
  function AddItem(st: Store, category: string, name: string, colour: string, price: int, quantity: int): (r: Store)
    ensures r.header == st.header && Persist.Sorted(r.records)
    ensures multiset(r.records) == multiset(st.records) + multiset{Record(category, name, colour, price, quantity)}
    ensures forall c :: Persist.OfCategory(r.records, c)
              == Persist.OfCategory(st.records, c)
                 + (if category == c then [Record(category, name, colour, price, quantity)] else [])
  {
    Inventory.AddItem(st, category, name, colour, price, quantity)
  }

  /** remove_item: the first record with the key goes and the rest keep their order within each
      category; without one the records stay as they are. */
  function RemoveItem(st: Store, item: string, colour: string): (r: Store)
    ensures r.header == st.header && Persist.Sorted(r.records)
    ensures NoMatch(st.records, item, colour) ==> multiset(r.records) == multiset(st.records)
    ensures forall i :: IsFirstMatch(st.records, item, colour, i) ==>
              multiset(r.records) == multiset(st.records) - multiset{st.records[i]}
    ensures NoMatch(st.records, item, colour) ==>
              forall c :: Persist.OfCategory(r.records, c) == Persist.OfCategory(st.records, c)
    ensures forall i :: IsFirstMatch(st.records, item, colour, i) ==>
              forall c :: Persist.OfCategory(r.records, c) == Persist.OfCategory(st.records[..i] + st.records[i + 1..], c)
  {
    Inventory.RemoveItem(st, item, colour)
  }

  /** update_price as Lab8 has it: a stub, so the file is the one that was read. Every price
      lookup answers as before, so wherever the docstring's update would change a price, the
      price asked for is not the one found. */
  function UpdatePrice(st: Store, item: string, colour: string, newPrice: int): (r: Store)
    ensures r.header == st.header && r.records == st.records
    ensures forall key, keyColour :: GetItemPrice(r, key, keyColour) == GetItemPrice(st, key, keyColour)
    ensures GetItemPrice(st, item, colour).Some? && GetItemPrice(st, item, colour) != Some(newPrice) ==>
              GetItemPrice(r, item, colour) != Some(newPrice)
  {
    st
  }

  /** purchase_items as Lab8 has it: a stub, so the file is the one that was read. Every
      quantity lookup answers as before, so a purchase of a non-zero amount is not recorded. */
  function PurchaseItems(st: Store, item: string, colour: string, bought: int): (r: Store)
    ensures r.header == st.header && r.records == st.records
    ensures forall key, keyColour :: GetItemQuantity(r, key, keyColour) == GetItemQuantity(st, key, keyColour)
    ensures GetItemQuantity(st, item, colour).Some? && bought != 0 ==>
              GetItemQuantity(r, item, colour) != Some(GetItemQuantity(st, item, colour).value - bought)
  {
    st
  }

  /** The update_price docstring example does not hold of Lab8: the pants stay at 60 where the
      store's own update_price gives 70. */
  lemma UpdatePriceDocstringUnmet()
    ensures GetItemPrice(UpdatePrice(Inventory.ExampleStore(), "pants", "grey", 70), "pants", "grey") == Some(60)
    ensures UpdatePrice(Inventory.ExampleStore(), "pants", "grey", 70)
         != Inventory.UpdatePrice(Inventory.ExampleStore(), "pants", "grey", 70)
  {
    Inventory.UpdatePriceExample();
  }

  /** The purchase_items docstring example does not hold of Lab8: the pants stay at 80. */
  lemma PurchaseItemsDocstringUnmet()
    ensures GetItemQuantity(PurchaseItems(Inventory.ExampleStore(), "pants", "grey", 3), "pants", "grey") == Some(80)
    ensures PurchaseItems(Inventory.ExampleStore(), "pants", "grey", 3)
         != Inventory.PurchaseItems(Inventory.ExampleStore(), "pants", "grey", 3)
  {
    Inventory.PurchaseItemsExample();
  }

  /** After add_item with a key the file did not have, both lookups find the new values. */
  lemma AddThenGet(st: Store, category: string, name: string, colour: string, price: int, quantity: int)
    requires UniqueKeys(st.records) && NoMatch(st.records, name, colour)
    ensures GetItemPrice(AddItem(st, category, name, colour, price, quantity), name, colour) == Some(price)
    ensures GetItemQuantity(AddItem(st, category, name, colour, price, quantity), name, colour) == Some(quantity)
  {
    Inventory.AddThenGet(st, category, name, colour, price, quantity);
  }
}
