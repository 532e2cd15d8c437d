# Inventory store, in Dafny

A model of a small inventory program and two string exercises.

The store keeps a CSV file with a header row and one record per item: category, name, colour, price and quantity. A record is identified by its name and colour. The program provides:

- lookups of the first record with a given name and colour;
- four edits: add a record, remove one, change a price, and subtract a purchase from a quantity;
- three filter queries;
- a checkout that reads a cart up to a `STOP` line, totals it, compares the total with a budget and, when the buyer confirms, buys every cart line in turn.

Every edit rewrites the whole file, sorted stably by category.

`Lab8/lab8.py` is an earlier copy of the store in which `update_price` and `purchase_items` only print `TODO`. The two exercises count the vowels of a word and write a word's letters with dashes between them.

The model keeps the file as a `Store` value: the header, then the records in file order. An operation that reads the file takes the store as a parameter. An operation that writes it returns the store as written. Prices and quantities are `int`s. Python's crashes in the checkout become `Failure` values of a `Result`. The console is replaced by parameters: the lines typed at the cart prompt and the word typed at the confirmation prompt.

Modules:

- `Wrappers`: `Option` and `Result`.
- `Text`: Python's string `<`, `split(" ")`, `str()` of a non-negative int, and `int()`.
- `Records`: the record and store datatypes, first-match lookup, and the single-record edits.
- `Persist`: the stable sort by category that `write_to_csv` performs.
- `Inventory`: the store's operations.
- `Checkout`: `shopping_list` and `can_i_buy`.
- `Lab8`: the earlier copy.
- `Vowels` and `Dashes`: the two exercises.

## Model

| member | source | states |
|---|---|---|
| `Text.Less` | store/store.py:37 | the `<` that `list.sort` applies to the categories: only a non-empty string has anything sorting before it, and a proper prefix sorts before every longer string that extends it |
| `Text.LessIsLexicographic` | store/store.py:37 | the comparison is exactly Python's string order: either a is a proper prefix of b, or at the first position where they differ a has the smaller code point |
| `Text.LessIrreflexive` | store/store.py:37 | no category sorts strictly before itself under Python's string order |
| `Text.LessTransitive` | store/store.py:37 | Python's string order is transitive |
| `Text.LessTotal` | store/store.py:37 | of two different categories, one sorts strictly before the other |
| `Text.Split` | store/store.py:272 | `split(" ")` gives at least one piece, and no piece contains a space |
| `Text.JoinSplit` | store/store.py:272 | joining the pieces of `split(" ")` with single spaces gives back the line, empty pieces included |
| `Text.SplitJoin` | store/store.py:272 | splitting words that contain no space, joined by single spaces, gives back exactly those words |
| `Text.SplitNoSeparator` | store/store.py:272 | a line without a space splits into itself alone |
| `Text.SplitAtSeparator` | store/store.py:272 | a line splits at its first space into the text before it, then the pieces of the rest |
| `Text.NatToString` | store/store.py:315 | `str()` of a non-negative int is a non-empty run of decimal digits with no leading zero except for 0 itself |
| `Text.NatTextIsNatToString` | store/store.py:315 | a text in `str()`'s form, digits with no leading zero unless it is "0", is exactly what `str()` writes for its value, so that form fixes the text |
| `Text.LeadingDigitPositive` | store/store.py:315 | digits that do not start with 0 have a positive value |
| `Text.ParseInt` | store/store.py:304 | `int()` accepts exactly an optional sign followed by one or more digits, and gives their decimal value, negated after a minus sign |
| `Text.DigitsValueOfNatToString` | store/store.py:315 | the digits `str()` writes for n have the value n |
| `Text.ParseIntNatToString` | store/store.py:315-318 | `int(str(n)) == n`, and `int("-" + str(n)) == -n` |
| `Records.FirstMatch` | store/store.py:57-60 | the scan finds nothing exactly when no record has the key, and otherwise finds the first position that has it |
| `Records.Lookup` | store/store.py:57-63 | the record found is the one at the first position with the key, and there is none exactly when no record has the key |
| `Records.FirstMatchUnique` | store/store.py:57-60 | the first position with the key is the only one the scan can return |
| `Records.LookupUnique` | store/store.py:57-63 | when keys are unique, any record in the file with the key is the one found |
| `Records.LookupAppend` | store/store.py:97 | appending a record changes the lookup only of a key no earlier record has |
| `Records.UniqueKeysAppend` | store/store.py:90-97 | appending a record whose key is new keeps the keys unique |
| `Records.UniqueKeysRemoveAt` | store/store.py:120 | deleting one record keeps the keys unique |
| `Records.EditAtLookup` | store/store.py:151-154 | an edit at the first match of a key that keeps every key in place changes the lookup of that key to the edited record and of every other key not at all |
| `Records.ListRemove` | store/store.py:120 | `list.remove(x)` deletes the first occurrence of x and keeps the rest in order |
| `Records.RemoveFirst` | store/store.py:115-121 | the loop with `remove` and `break` deletes exactly the record at the first match; with no match the records are unchanged |
| `Records.SetPriceFirst` | store/store.py:148-157 | only the first matching record gets the new price; every other record and field is unchanged |
| `Records.Sold` | store/store.py:192 | selling `bought` units keeps the category, name, colour and price, and leaves exactly `bought` fewer in stock, with no floor at zero |
| `Records.SubtractQuantityFirst` | store/store.py:186-195 | only the first matching record loses the amount bought from its quantity, with no floor; every other record and field is unchanged |
| `Persist.Insert` | store/store.py:37 | inserting a record keeps every record: the result's multiset is the input's plus the record |
| `Persist.SortByCategory` | store/store.py:37 | the sort is a permutation of its input |
| `Persist.InsertSorted` | store/store.py:37 | inserting into a list sorted by category keeps it sorted |
| `Persist.SortIsSorted` | store/store.py:37 | the sort's output is ascending by category |
| `Persist.InsertOfCategory` | store/store.py:37 | insertion puts the new record in front of every record of its own category |
| `Persist.OfCategoryAppend` | store/store.py:97 | a record appended to the data comes after every earlier record of its category, and the other categories are unaffected |
| `Persist.SortIsStable` | store/store.py:37 | within each category the sorted records are in their original relative order |
| `Persist.SortedSameCategoriesEqual` | store/store.py:37 | two lists sorted by category with the same records of each category, in the same order, are equal |
| `Persist.StableSortIsUnique` | store/store.py:37 | any sorted list with the same per-category order as the input is exactly the sort's output |
| `Persist.SortOfSortedIsIdentity` | store/store.py:37 | a list already sorted by category is written back unchanged |
| `Persist.SortUniqueKeys` | store/store.py:37 | sorting keeps keys unique |
| `Persist.SortPreservesLookup` | store/store.py:37 | with unique keys, every lookup finds the same record before and after the sort |
| `Persist.WriteToCsv` | store/store.py:36-44 | the file written starts with the header it had, and its records are a permutation of the data, sorted by category, stable within each category |
| `Inventory.GetItemPrice` | store/store.py:56-63 | the price of the first record with the name and colour, or None when no record has both |
| `Inventory.GetItemQuantity` | store/store.py:75-82 | the quantity of the first record with the name and colour, or None when no record has both |
| `Inventory.AddItem` | store/store.py:93-99 | the file keeps its header and its records, plus exactly one new record built from the arguments, and is sorted; within each category the old records keep their file order and the new record comes after them; no check for an existing key |
| `Inventory.RemoveItem` | store/store.py:114-125 | exactly the first record with the key is removed, and within each category the remaining records keep their file order; with no match the records and their order within each category stay the same, though the file is still re-sorted |
| `Inventory.UpdatePrice` | store/store.py:145-159 | the file keeps its header and is written sorted |
| `Inventory.UpdatePriceRecords` | store/store.py:148-157 | update_price replaces the first matching record by the same record with the new price; with no match the records stay the same; either way, within each category the records keep their file order |
| `Inventory.PurchaseItems` | store/store.py:183-197 | the file keeps its header and is written sorted |
| `Inventory.PurchaseItemsRecords` | store/store.py:186-195 | purchase_items replaces the first matching record by the same record with the amount taken off its quantity; with no match the records stay the same; either way, within each category the records keep their file order |
| `Inventory.AddItemLookup` | store/store.py:93-99 | after adding a new key, lookups of that key find the new record and lookups of every other key are unchanged |
| `Inventory.AddThenGet` | store/store.py:93-99 | after adding a new key, get_item_price and get_item_quantity return the added price and quantity |
| `Inventory.RemoveItemLookup` | store/store.py:114-125 | after remove_item on a store with unique keys, the removed key finds nothing and every other key finds what it did before |
| `Inventory.UpdatePriceLookup` | store/store.py:145-159 | after update_price on a store with unique keys, the key finds its record with the new price and every other key finds what it did before |
| `Inventory.PurchaseItemsLookup` | store/store.py:183-197 | after purchase_items on a store with unique keys, the key finds its record with the quantity reduced and every other key finds what it did before |
| `Inventory.MissingKeyRewritesSameFile` | store/store.py:114-125 | on a sorted file, removing, repricing or buying a key that is not there writes the same file back |
| `Inventory.KeptPositions` | store/store.py:208-213 | the positions a query keeps are in range, each satisfies the query, they increase, and no satisfying position is left out |
| `Inventory.Select` | store/store.py:208-213 | a query reports one entry per kept record, in file order |
| `Inventory.GetItemsOfColour` | store/store.py:205-214 | the names of the records with that colour, in file order, with repeats kept |
| `Inventory.GetColoursOfItem` | store/store.py:222-231 | the colours of the records with that name, in file order, with repeats kept |
| `Inventory.LowInStock` | store/store.py:239-250 | "colour name" for each record whose quantity is strictly below MIN_STOCK (50), in file order |
| `Inventory.ExampleStoreIsWellFormed` | store/store.py:137-143 | the fixture has unique keys and is sorted by category; it is a constructed file that matches the docstrings: grey pants at 60 with 80 in stock, plus two invented records |
| `Inventory.UpdatePriceExample` | store/store.py:137-143 | the docstring example: the grey pants cost 60, and 70 after update_price |
| `Inventory.PurchaseItemsExample` | store/store.py:175-181 | the docstring example: 80 grey pants, and 77 after buying 3 |
| `Inventory.LowInStockExample` | store/store.py:239-250 | after buying 3 grey pants from the constructed fixture, only its white shirts are low in stock |
| `Checkout.ShoppingList` | store/store.py:261-273 | no result when no line is STOP (the input ends first); otherwise one entry for each line before the first STOP, each entry that line split on single spaces |
| `Checkout.ShoppingListStopsAtStop` | store/store.py:263-269 | nothing typed after the first STOP changes the cart |
| `Checkout.PriceLine` | store/store.py:302-304 | a cart line is priced exactly when it has at least three words (any beyond the third are ignored), its item and colour are in the file and its third word parses; otherwise it fails in the order Python evaluates the line: fewer than two words (IndexError), then an unknown item (TypeError from `int(None)`, even when the line has only two words), then a missing quantity (IndexError), then a bad quantity (ValueError) |
| `Checkout.PriceCart` | store/store.py:300-304 | either every cart line is priced, in order, or the error is that of the first line that fails |
| `Checkout.ApplyPurchases` | store/store.py:312-313 | buying the cart keeps the header and the number of records |
| `Checkout.PurchasesAccumulate` | store/store.py:312-313 | after the cart is bought, each key's record has lost the sum of every cart line for that key, repeats included, and keeps its other fields; other keys are unchanged |
| `Checkout.StatesNat` | store/store.py:315-318 | a message built from a prefix, `str(n)` and a suffix has its amount written in `str()`'s form, with no sign or leading zero, and reads back as n |
| `Checkout.StatesExactly` | store/store.py:315-318 | conversely, a message that states an amount is exactly prefix + `str(amount)` + suffix, so the amount is never negative and the text is fixed |
| `Checkout.Total` | store/store.py:298-304 | the cost is the sum of unit price times quantity over the cart; with no negative price or quantity it is never negative |
| `Checkout.TotalAppend` | store/store.py:298-304 | the cost of a cart is the cost of its first part plus the cost of the rest |
| `Checkout.AccumulateCost` | store/store.py:298-304 | the loop that starts at 0 and adds price times quantity line by line, in cart order, ends with the cart's total |
| `Checkout.Decide` | store/store.py:306-318 | a budget equal to or above the cost with "Yes" buys the cart and reports the change budget − cost; without "Yes" the file is untouched and the answer is "See you next time!"; below the cost the file is untouched and the shortfall cost − budget, always positive, is reported |
| `Checkout.ConfirmedReceipt` | store/store.py:306-315 | a confirmed purchase within budget buys the cart, and the reply is exactly "Thanks for your purchase! Your change is $" followed by `str(budget - cost)` |
| `Checkout.ShortReceipt` | store/store.py:316-318 | over budget, the file is untouched whatever the confirmation, and the reply is exactly "No, you are $" + `str(cost - budget)` + " short" |
| `Checkout.CanIBuy` | store/store.py:296-319 | with no STOP line, fails because the cart input ended; otherwise fails with the error of the first cart line that does not price, or succeeds with the receipt `Decide` gives for the priced cart; changes the file only when the buyer typed "Yes" |
| `Checkout.CheckoutDoctest` | store/store.py:284-293 | the docstring's example, on the constructed fixture whose shirt and notebook prices are chosen to give the docstring's cost: a cost of 50 on a budget of 100 reports a change of $50, not the $40 the docstring shows, and leaves 29 white shirts and 118 black notebooks |
| `Checkout.CartOfTwo` | store/store.py:312-313 | two cart lines for different keys each take their quantity off their own key |
| `Lab8.GetItemPrice` | Lab8/lab8.py:54-61 | the price of the first record with the name and colour, or None |
| `Lab8.GetItemQuantity` | Lab8/lab8.py:73-80 | the quantity of the first record with the name and colour, or None |
| `Lab8.WriteToCsv` | Lab8/lab8.py:35-42 | the header first, then the records as a permutation sorted stably by category; with unique keys, every lookup is unchanged |
| `Lab8.AddItem` | Lab8/lab8.py:92-98 | one more record, exactly the one given, last among its category, with no check for an existing key, written sorted |
| `Lab8.RemoveItem` | Lab8/lab8.py:112-123 | only the first matching record is removed, and the rest keep their order within each category; with no match the records stay the same |
| `Lab8.UpdatePrice` | Lab8/lab8.py:126-152 | the stub neither changes nor rewrites the file: every price lookup answers as before, so where the key exists with a different price, the new price is not found |
| `Lab8.PurchaseItems` | Lab8/lab8.py:155-189 | the stub neither changes nor rewrites the file: every quantity lookup answers as before, so where the key exists, a non-zero purchase is never taken off its quantity |
| `Lab8.UpdatePriceDocstringUnmet` | Lab8/lab8.py:135-141 | the stub leaves the grey pants at 60, so its docstring example, which the store's version meets, does not hold |
| `Lab8.PurchaseItemsDocstringUnmet` | Lab8/lab8.py:168-174 | the stub leaves 80 grey pants, so its docstring example, which the store's version meets, does not hold |
| `Lab8.AddThenGet` | Lab8/lab8.py:83-98 | after add_item of a new key, get_item_price and get_item_quantity return the added price and quantity |
| `Vowels.CountVowels` | Lab7/lab7-q3.py:4-10 | the loop with the substring test counts the letters whose lower case is a, e, i, o or u |
| `Vowels.CountVowelsInList` | Lab7/lab7-q3.py:20-28 | the loop with the list test counts the same letters |
| `Vowels.VowelCount` | Lab7/lab7-q3.py:4-10 | the count is at most the length of the word, and 0 for the empty word |
| `Vowels.SubstringTest` | Lab7/lab7-q3.py:8 | `letter.lower() in "aeiou"` holds exactly for the vowels, in either case |
| `Vowels.Lower` | Lab7/lab7-q3.py:8 | `str.lower` on one letter: an ASCII capital becomes its small letter (code point + 32), and every other character is kept |
| `Vowels.Occurs` | Lab7/lab7-q3.py:8 | `in` on strings: the empty string occurs in every string, and nothing occurs in a shorter string |
| `Vowels.OccursIffStartsAt` | Lab7/lab7-q3.py:8 | the recursive test holds exactly when the piece starts at some position of the string |
| `Vowels.ListTest` | Lab7/lab7-q3.py:26 | `letter.lower() in ["a", "e", "i", "o", "u"]` holds exactly for the vowels, in either case |
| `Vowels.VersionsAgree` | Lab7/lab7-q3.py:8 | the substring test and the list test accept the same letters |
| `Vowels.VowelCountAppend` | Lab7/lab7-q3.py:6-10 | the count of a concatenation is the sum of the counts |
| `Vowels.VowelCountUpper` | Lab7/lab7-q3.py:8 | upper-casing the word does not change the count |
| `Vowels.VowelCountPositions` | Lab7/lab7-q3.py:6-10 | the count is the number of positions in the word that hold a vowel |
| `Dashes.Dashed` | Lab7/lab7-q5.py:6-7 | the built text is twice as long as the word, each letter followed by a dash |
| `Dashes.DropLast` | Lab7/lab7-q5.py:9 | `[:-1]` drops the last character and leaves "" as it is |
| `Dashes.DashSeparator` | Lab7/lab7-q5.py:2-9 | "" for the empty word; otherwise 2n − 1 characters, the word's letters at the even positions, dashes between them, and the word's own last letter at the end |
| `Dashes.DashSeparatorRoundTrip` | Lab7/lab7-q5.py:2-9 | the even positions of the printed text give back the word, dashes in the word included |
| `Dashes.DashSeparatorCons` | Lab7/lab7-q5.py:2-9 | a one-letter word prints as itself, and a longer one prints its first letter, a dash, then the rest printed the same way |
| `Dashes.DashSeparatorFor` | Lab7/lab7-q5.py:4-9 | the for loop builds each letter followed by a dash and prints that text without its last character |
| `Dashes.DashSeparatorWhile` | Lab7/lab7-q5.py:17-20 | the while loop builds the same text as the for loop |

## Left out

- Reading and writing the CSV file (`read_csv`, the file handling in `write_to_csv`, `FILE_NAME`) is replaced by passing the store as a value. The header is kept as an opaque list of strings.
- Conversion of the file's price and quantity cells with `int()` is left out. Records hold ints, so a malformed cell cannot occur.
- `Text.ParseInt`: handles only an optional sign and ASCII digits. Python's `int()` also accepts surrounding whitespace, underscores between digits and non-ASCII digits; none of these is modelled.
- `input()` and `print()` are replaced by parameters: the cart lines, the confirmation word, and returned messages. The success messages that `add_item`, `remove_item`, `update_price` and `purchase_items` print are left out.
- `get_csv` is left out. It only prints the table, and its layout depends on Python's format padding.
- The module-level script code is left out: store/store.py:355-364, Lab8/lab8.py:200-212, and the `input`/`print` lines of both Lab7 scripts.
- `Vowels.Lower` and `Vowels.Upper`: change case for ASCII letters only. No other letter lower-cases to a plain a, e, i, o or u, so the vowel count itself is unaffected.
- The file is rewritten whole, with no locking. Concurrent runs and partial writes are not properties of this code and are left out.
- `Checkout.CanIBuy` reports the Python exceptions as `CheckoutError` values:
  - a missing STOP (`EOFError`);
  - a cart line with too few words (`IndexError`);
  - an unknown item, where `int(None)` raises `TypeError`;
  - a quantity `int()` rejects (`ValueError`).

  It does not model the exception text.
- `Checkout.CanIBuy`: the confirmation is a parameter, so the model cannot show that the confirmation `input()` (store/store.py:309) raises `EOFError` when the input ends after STOP and the budget covers the cost. The `InputEnded` failure in its contract stands only for a missing STOP line.
- The example store is a constructed fixture. Only the grey pants' price 60 and quantity 80 come from the docstrings (store/store.py:137-143, 175-181). The white shirt at 20 and the black notebook at 15 are chosen so that the `can_i_buy` cart costs 50. The categories and the other quantities are invented.
- `Inventory.UpdatePrice`: its own contract states only the header and the sort. The change to the records is stated by `Inventory.UpdatePriceRecords` and `Inventory.UpdatePriceLookup`, to keep each proof small.
- `Inventory.PurchaseItems`: its own contract states only the header and the sort. The change to the records is stated by `Inventory.PurchaseItemsRecords` and `Inventory.PurchaseItemsLookup`.
- `Checkout.ApplyPurchases`: its own contract states only the header and the record count. What the purchases do is stated by `Checkout.PurchasesAccumulate`.
- The `can_i_buy` docstring shows a change of $40 for a cost of $50 on a budget of $100. The code computes budget − cost, so the model reports $50.
