/** One inventory row and the store file, with the first-match scan that every store
    operation shares and the edits that change the first matching row. */
module Records {
  import opened Wrappers

  /** One row of the store file. Prices and quantities are kept as integers. */
  datatype Record = Record(category: string, name: string, colour: string, price: int, quantity: int)

  /** The store file: the header row, then the records in file order. */
  datatype Store = Store(header: seq<string>, records: seq<Record>)

  /** A record is identified by its item name and colour. */
  predicate Matches(r: Record, item: string, colour: string)
  {
    r.name == item && r.colour == colour
  }

  ghost predicate NoMatch(s: seq<Record>, item: string, colour: string)
  {
    forall j :: 0 <= j < |s| ==> !Matches(s[j], item, colour)
  }

  /** Position i holds the first record with this key. */
  ghost predicate IsFirstMatch(s: seq<Record>, item: string, colour: string, i: int)
  {
    && 0 <= i < |s|
    && Matches(s[i], item, colour)
    && forall j :: 0 <= j < i ==> !Matches(s[j], item, colour)
  }

  /** No two records share a key. The store promises this but nothing enforces it. */
  ghost predicate UniqueKeys(s: seq<Record>)
  {
    forall i, j :: 0 <= i < j < |s| ==> !Matches(s[j], s[i].name, s[i].colour)
  }

  /** The `for item_record in database: if ...: break` scan: the index of the first match. */
  function FirstMatch(s: seq<Record>, item: string, colour: string): (r: Option<nat>)
    ensures r.None? <==> NoMatch(s, item, colour)
    ensures r.Some? ==> IsFirstMatch(s, item, colour, r.value)
    decreases |s|
  {
    if |s| == 0 then None
    else if Matches(s[0], item, colour) then Some(0)
    else match FirstMatch(s[1..], item, colour)
      case None => None
      case Some(i) => Some(i + 1)
  }

  /** The first record with the key, if any. */
  function Lookup(s: seq<Record>, item: string, colour: string): (r: Option<Record>)
    ensures r.None? <==> NoMatch(s, item, colour)
    ensures r.Some? ==> exists i :: IsFirstMatch(s, item, colour, i) && s[i] == r.value
  {
    match FirstMatch(s, item, colour)
    case None => None
    case Some(i) => Some(s[i])
  }

  /** The first match is the only position with its defining property. */
  lemma FirstMatchUnique(s: seq<Record>, item: string, colour: string, i: int)
    requires IsFirstMatch(s, item, colour, i)
    ensures FirstMatch(s, item, colour) == Some(i)
  {
  }

  /** With unique keys the first match is simply the one record carrying the key. */
  lemma LookupUnique(s: seq<Record>, item: string, colour: string, r: Record)
    requires UniqueKeys(s)
    requires r in s && Matches(r, item, colour)
    ensures Lookup(s, item, colour) == Some(r)
  {
    var i :| 0 <= i < |s| && s[i] == r;
    assert !NoMatch(s, item, colour);
    var k := FirstMatch(s, item, colour).value;
    assert Matches(s[k], s[i].name, s[i].colour) && Matches(s[i], s[k].name, s[k].colour);
  }

  lemma UniqueKeysCons(x: Record, t: seq<Record>)
    ensures UniqueKeys([x] + t)
        <==> UniqueKeys(t) && forall y :: y in t ==> !Matches(y, x.name, x.colour)
  {
    var s := [x] + t;
    if UniqueKeys(s) {
      forall y | y in t ensures !Matches(y, x.name, x.colour) {
        var j :| 0 <= j < |t| && t[j] == y;
        assert s[0] == x && s[j + 1] == y;
      }
      forall i, j | 0 <= i < j < |t| ensures !Matches(t[j], t[i].name, t[i].colour) {
        assert s[i + 1] == t[i] && s[j + 1] == t[j];
      }
    }
  }

  /** Under unique keys a lookup depends only on which records are present. */
  lemma LookupByMembers(s: seq<Record>, t: seq<Record>, item: string, colour: string)
    requires UniqueKeys(s) && UniqueKeys(t)
    requires forall y :: Matches(y, item, colour) ==> (y in s <==> y in t)
    ensures Lookup(s, item, colour) == Lookup(t, item, colour)
  {
    match Lookup(s, item, colour)
    case Some(y) =>
      LookupUnique(t, item, colour, y);
    case None =>
      match Lookup(t, item, colour)
      case Some(z) =>
        LookupUnique(s, item, colour, z);
      case None =>
  }

  /** Appending a record only matters to a key no earlier record carries. */
  lemma LookupAppend(s: seq<Record>, x: Record, item: string, colour: string)
    ensures Lookup(s + [x], item, colour)
         == if NoMatch(s, item, colour) && Matches(x, item, colour) then Some(x)
            else Lookup(s, item, colour)
  {
    var t := s + [x];
    match FirstMatch(s, item, colour)
    case Some(i) =>
      assert IsFirstMatch(t, item, colour, i);
      FirstMatchUnique(t, item, colour, i);
    case None =>
      if Matches(x, item, colour) {
        assert IsFirstMatch(t, item, colour, |s|);
        FirstMatchUnique(t, item, colour, |s|);
      } else {
        assert NoMatch(t, item, colour);
      }
  }

  lemma UniqueKeysAppend(s: seq<Record>, x: Record)
    requires UniqueKeys(s) && NoMatch(s, x.name, x.colour)
    ensures UniqueKeys(s + [x])
  {
    var t := s + [x];
    forall i, j | 0 <= i < j < |t| ensures !Matches(t[j], t[i].name, t[i].colour) {
      if j == |s| {
        assert !Matches(s[i], x.name, x.colour);
      }
    }
  }

  lemma UniqueKeysRemoveAt(s: seq<Record>, i: int)
    requires UniqueKeys(s) && 0 <= i < |s|
    ensures UniqueKeys(s[..i] + s[i + 1..])
  {
    var t := s[..i] + s[i + 1..];
    forall a, b | 0 <= a < b < |t| ensures !Matches(t[b], t[a].name, t[a].colour) {
      var a', b' := if a < i then a else a + 1, if b < i then b else b + 1;
      assert t[a] == s[a'] && t[b] == s[b'];
    }
  }

  lemma RemoveAtMembers(s: seq<Record>, i: int, y: Record)
    requires 0 <= i < |s|
    ensures y in s[..i] + s[i + 1..] <==> exists j :: 0 <= j < |s| && j != i && s[j] == y
  {
    var t := s[..i] + s[i + 1..];
    if y in t {
      var k :| 0 <= k < |t| && t[k] == y;
      var j := if k < i then k else k + 1;
      assert s[j] == y;
    }
    if exists j :: 0 <= j < |s| && j != i && s[j] == y {
      var j :| 0 <= j < |s| && j != i && s[j] == y;
      var k := if j < i then j else j - 1;
      assert t[k] == y;
    }
  }

  /** Position by position, t holds records with the same keys as s. */
  ghost predicate SameKeys(s: seq<Record>, t: seq<Record>)
  {
    && |s| == |t|
    && forall j :: 0 <= j < |s| ==> t[j].name == s[j].name && t[j].colour == s[j].colour
  }

  lemma SameKeysFirstMatch(s: seq<Record>, t: seq<Record>, item: string, colour: string)
    requires SameKeys(s, t)
    ensures FirstMatch(t, item, colour) == FirstMatch(s, item, colour)
  {
    match FirstMatch(s, item, colour)
    case Some(i) =>
      assert IsFirstMatch(t, item, colour, i);
      FirstMatchUnique(t, item, colour, i);
    case None =>
      assert NoMatch(t, item, colour);
  }

  lemma SameKeysUnique(s: seq<Record>, t: seq<Record>)
    requires SameKeys(s, t) && UniqueKeys(s)
    ensures UniqueKeys(t)
  {
    forall i, j | 0 <= i < j < |t| ensures !Matches(t[j], t[i].name, t[i].colour) {
      assert !Matches(s[j], s[i].name, s[i].colour);
    }
  }

  /** An edit that rewrites only the record at position i, keeping its key, leaves every
      other key's lookup alone and makes the edited key find the edited record. */
  lemma EditAtLookup(s: seq<Record>, t: seq<Record>, i: int, item: string, colour: string)
    requires SameKeys(s, t) && 0 <= i < |s|
    requires forall j :: 0 <= j < |s| && j != i ==> t[j] == s[j]
    ensures FirstMatch(s, item, colour) == Some(i) ==> Lookup(t, item, colour) == Some(t[i])
    ensures !Matches(s[i], item, colour) ==> Lookup(t, item, colour) == Lookup(s, item, colour)
  {
    SameKeysFirstMatch(s, t, item, colour);
  }

  // ---------------------------------------------------------------------------
  // Edits of the first matching record
  // ---------------------------------------------------------------------------

  /** Python's `list.remove(x)`: drops the first element equal to x. */
  function ListRemove(s: seq<Record>, x: Record): (r: seq<Record>)
    requires x in s
    ensures |r| == |s| - 1
    ensures forall i :: 0 <= i < |s| && s[i] == x && x !in s[..i] ==> r == s[..i] + s[i + 1..]
    decreases |s|
  {
    if s[0] == x then s[1..]
    else
      var rest := ListRemove(s[1..], x);
      ListRemoveStep(s, x, rest);
      [s[0]] + rest
  }

  lemma ListRemoveStep(s: seq<Record>, x: Record, rest: seq<Record>)
    requires |s| > 0 && s[0] != x
    requires forall i :: 0 <= i < |s[1..]| && s[1..][i] == x && x !in s[1..][..i] ==> rest == s[1..][..i] + s[1..][i + 1..]
    ensures forall i :: 0 <= i < |s| && s[i] == x && x !in s[..i] ==> [s[0]] + rest == s[..i] + s[i + 1..]
  {
    forall i | 0 <= i < |s| && s[i] == x && x !in s[..i]
      ensures [s[0]] + rest == s[..i] + s[i + 1..]
    {
      NotInTail(s, x, i);
      assert s[1..][i - 1] == x;
      ConsSplit(s, i);
    }
  }

  lemma NotInTail(s: seq<Record>, x: Record, i: int)
    requires 1 <= i <= |s| && x !in s[..i]
    ensures x !in s[1..][..i - 1]
  {
    var t := s[1..][..i - 1];
    forall k | 0 <= k < |t|
      ensures t[k] != x
    {
      assert t[k] == s[..i][k + 1];
    }
  }

  lemma ConsSplit(s: seq<Record>, i: int)
    requires 1 <= i < |s|
    ensures s[..i] + s[i + 1..] == [s[0]] + (s[1..][..i - 1] + s[1..][i..])
  {
    assert s[..i] == [s[0]] + s[1..][..i - 1];
    assert s[1..][i..] == s[i + 1..];
  }


  /** remove_item's loop: `database.remove(item_record)` on the first match, then stop.
      Because no earlier record matches the key, the element removed is the matching one. */
  function RemoveFirst(s: seq<Record>, item: string, colour: string): (r: seq<Record>)
    ensures NoMatch(s, item, colour) ==> r == s
    ensures forall i :: IsFirstMatch(s, item, colour, i) ==> r == s[..i] + s[i + 1..]
  {
    match FirstMatch(s, item, colour)
    case None => s
    case Some(i) =>
      assert s[i] !in s[..i];
      ListRemove(s, s[i])
  }

  /** update_price's loop: `item_record[3] = new_price` on the first match, then stop. */
  function SetPriceFirst(s: seq<Record>, item: string, colour: string, newPrice: int): (r: seq<Record>)
    ensures |r| == |s|
    ensures NoMatch(s, item, colour) ==> r == s
    ensures forall i :: IsFirstMatch(s, item, colour, i) ==>
              && r[i] == s[i].(price := newPrice)
              && forall j :: 0 <= j < |s| && j != i ==> r[j] == s[j]
  {
    match FirstMatch(s, item, colour)
    case None => s
    case Some(i) => s[i := s[i].(price := newPrice)]
  }

  /** The record after `bought` units are sold from it: the same item at the same price, with
      `bought` fewer in stock and no floor at zero. */
  function Sold(rec: Record, bought: int): (sold: Record)
    ensures sold.category == rec.category && sold.name == rec.name && sold.colour == rec.colour
    ensures sold.price == rec.price
    ensures sold.quantity + bought == rec.quantity
  {
    rec.(quantity := rec.quantity - bought)
  }

  /** purchase_items' loop: `item_record[4] = int(item_record[4]) - items_bought` on the first
      match, then stop. There is no floor: the quantity may become negative. */
  function SubtractQuantityFirst(s: seq<Record>, item: string, colour: string, bought: int): (r: seq<Record>)
    ensures |r| == |s|
    ensures NoMatch(s, item, colour) ==> r == s
    ensures forall i :: IsFirstMatch(s, item, colour, i) ==>
              && r[i] == Sold(s[i], bought)
              && forall j :: 0 <= j < |s| && j != i ==> r[j] == s[j]
  {
    match FirstMatch(s, item, colour)
    case None => s
    case Some(i) => s[i := Sold(s[i], bought)]
  }
}
