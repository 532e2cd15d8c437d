/** Persisting the store (`write_to_csv`): the records are sorted by category with Python's
    stable `list.sort(key=lambda k: k[0])`, and the file is rewritten as the header followed by
    the sorted records. The sort is modelled as a stable insertion sort; StableSortIsUnique shows
    that no other stable sort could give a different order. */
module Persist {
  import opened Text
  import opened Records

  /** `a` may come before `b` in a file sorted by category. */
  predicate InOrder(a: Record, b: Record)
  {
    !Less(b.category, a.category)
  }

  ghost predicate Sorted(s: seq<Record>)
  {
    forall i, j :: 0 <= i < j < |s| ==> InOrder(s[i], s[j])
  }

  /** The records of category c, in their order in s. */
  function OfCategory(s: seq<Record>, c: string): seq<Record>
    decreases |s|
  {
    if |s| == 0 then []
    else (if s[0].category == c then [s[0]] else []) + OfCategory(s[1..], c)
  }

  /** Puts x in front of the first record that does not sort strictly before it. */
  function Insert(x: Record, t: seq<Record>): (r: seq<Record>)
    ensures multiset(r) == multiset(t) + multiset{x}
    decreases |t|
  {
    if |t| == 0 then [x]
    else if Less(t[0].category, x.category) then
      assert t == [t[0]] + t[1..];
      [t[0]] + Insert(x, t[1..])
    else [x] + t
  }

  /** The records of s sorted by category, equal categories keeping their order in s. */
  function SortByCategory(s: seq<Record>): (r: seq<Record>)
    ensures multiset(r) == multiset(s)
    decreases |s|
  {
    if |s| == 0 then []
    else
      assert s == [s[0]] + s[1..];
      Insert(s[0], SortByCategory(s[1..]))
  }

  // ---------------------------------------------------------------------------
  // Ordering facts
  // ---------------------------------------------------------------------------

  lemma InOrderTransitive(a: Record, b: Record, c: Record)
    requires InOrder(a, b) && InOrder(b, c)
    ensures InOrder(a, c)
  {
    if Less(c.category, a.category) {
      LessTotal(a.category, b.category);
      if Less(a.category, b.category) {
        LessTransitive(c.category, a.category, b.category);
      }
    }
  }

  lemma SortedCons(x: Record, t: seq<Record>)
    ensures Sorted([x] + t) <==> Sorted(t) && forall y :: y in t ==> InOrder(x, y)
  {
    var s := [x] + t;
    if Sorted(s) {
      forall y | y in t ensures InOrder(x, y) {
        var j :| 0 <= j < |t| && t[j] == y;
        assert s[0] == x && s[j + 1] == y;
      }
      forall i, j | 0 <= i < j < |t| ensures InOrder(t[i], t[j]) {
        assert s[i + 1] == t[i] && s[j + 1] == t[j];
      }
    }
    if Sorted(t) && forall y :: y in t ==> InOrder(x, y) {
      forall i, j | 0 <= i < j < |s| ensures InOrder(s[i], s[j]) {
        if i == 0 {
          assert s[j] == t[j - 1];
        } else {
          assert s[i] == t[i - 1] && s[j] == t[j - 1];
        }
      }
    }
  }

  lemma {:induction false} InsertSorted(x: Record, t: seq<Record>)
    requires Sorted(t)
    ensures Sorted(Insert(x, t))
    decreases |t|
  {
    if |t| > 0 {
      assert t == [t[0]] + t[1..];
      SortedCons(t[0], t[1..]);
      if Less(t[0].category, x.category) {
        InsertSorted(x, t[1..]);
        var u := Insert(x, t[1..]);
        forall y | y in u ensures InOrder(t[0], y) {
          assert y in multiset(u);
          if y == x {
            if Less(x.category, t[0].category) {
              LessTransitive(x.category, t[0].category, x.category);
              LessIrreflexive(x.category);
            }
          }
        }
        SortedCons(t[0], u);
      } else {
        forall y | y in t ensures InOrder(x, y) {
          HeadInOrder(t, y);
          InOrderTransitive(x, t[0], y);
        }
        SortedCons(x, t);
      }
    }
  }

  /** The output of the sort is sorted by category. */
  lemma {:induction false} SortIsSorted(s: seq<Record>)
    ensures Sorted(SortByCategory(s))
    decreases |s|
  {
    if |s| > 0 {
      SortIsSorted(s[1..]);
      InsertSorted(s[0], SortByCategory(s[1..]));
    }
  }

  // ---------------------------------------------------------------------------
  // Stability
  // ---------------------------------------------------------------------------

  lemma OfCategoryCons(x: Record, t: seq<Record>, c: string)
    ensures OfCategory([x] + t, c) == (if x.category == c then [x] else []) + OfCategory(t, c)
  {
    assert ([x] + t)[1..] == t;
  }

  /** A record appended at the end comes last among the records of its category. */
  lemma {:induction false} OfCategoryAppend(s: seq<Record>, x: Record, c: string)
    ensures OfCategory(s + [x], c) == OfCategory(s, c) + (if x.category == c then [x] else [])
    decreases |s|
  {
    if |s| == 0 {
      OfCategoryCons(x, [], c);
      assert s + [x] == [x] + [];
    } else {
      OfCategoryAppend(s[1..], x, c);
      assert s + [x] == [s[0]] + (s[1..] + [x]);
      assert s == [s[0]] + s[1..];
      OfCategoryCons(s[0], s[1..] + [x], c);
      OfCategoryCons(s[0], s[1..], c);
    }
  }

  /** The step of InsertOfCategory where x goes behind the head h: since h sorts strictly
      before x, at most one of them has category c, so their order among c's records is moot. */
  lemma BehindHeadOfCategory(h: Record, x: Record, tail: seq<Record>, rest: seq<Record>, c: string)
    requires Less(h.category, x.category)
    requires OfCategory(rest, c) == (if x.category == c then [x] else []) + OfCategory(tail, c)
    ensures OfCategory([h] + rest, c) == (if x.category == c then [x] else []) + OfCategory([h] + tail, c)
  {
    OfCategoryCons(h, rest, c);
    OfCategoryCons(h, tail, c);
    if x.category == c {
      LessIrreflexive(x.category);
    }
  }

  lemma {:induction false} InsertOfCategory(x: Record, t: seq<Record>, c: string)
    ensures OfCategory(Insert(x, t), c) == (if x.category == c then [x] else []) + OfCategory(t, c)
    decreases |t|
  {
    if |t| == 0 {
      OfCategoryCons(x, [], c);
    } else {
      assert t == [t[0]] + t[1..];
      OfCategoryCons(t[0], t[1..], c);
      if Less(t[0].category, x.category) {
        InsertOfCategory(x, t[1..], c);
        assert Insert(x, t) == [t[0]] + Insert(x, t[1..]);
        BehindHeadOfCategory(t[0], x, t[1..], Insert(x, t[1..]), c);
      } else {
        OfCategoryCons(x, t, c);
      }
    }
  }

  /** Stability: within each category the sorted records keep their original relative order. */
  lemma {:induction false} SortIsStable(s: seq<Record>, c: string)
    ensures OfCategory(SortByCategory(s), c) == OfCategory(s, c)
    decreases |s|
  {
    if |s| > 0 {
      SortIsStable(s[1..], c);
      InsertOfCategory(s[0], SortByCategory(s[1..]), c);
      OfCategoryCons(s[0], s[1..], c);
      assert s == [s[0]] + s[1..];
    }
  }

  lemma OfCategoryMember(s: seq<Record>, c: string, y: Record)
    requires y in OfCategory(s, c)
    ensures y in s && y.category == c
    decreases |s|
  {
    OfCategoryCons(s[0], s[1..], c);
    assert s == [s[0]] + s[1..];
    if y != s[0] || s[0].category != c {
      OfCategoryMember(s[1..], c, y);
    }
  }

  /** Two sorted sequences with the same records per category, in the same order, are equal. */
  lemma {:induction false} SortedSameCategoriesEqual(r: seq<Record>, t: seq<Record>)
    requires Sorted(r) && Sorted(t)
    requires forall c :: OfCategory(r, c) == OfCategory(t, c)
    ensures r == t
    decreases |r|
  {
    if |r| == 0 || |t| == 0 {
      if |r| > 0 {
        HeadOfCategory(r);
      } else if |t| > 0 {
        HeadOfCategory(t);
      }
    } else {
      SameCategoryHeads(r, t);
      SameHeadsAndTails(r, t);
      SortedCons(r[0], r[1..]);
      SortedCons(t[0], t[1..]);
      assert r == [r[0]] + r[1..] && t == [t[0]] + t[1..];
      SortedSameCategoriesEqual(r[1..], t[1..]);
    }
  }

  /** Once the first records share a category, they are the same record and the rests again
      agree category by category. */
  lemma SameHeadsAndTails(r: seq<Record>, t: seq<Record>)
    requires |r| > 0 && |t| > 0 && r[0].category == t[0].category
    requires forall c :: OfCategory(r, c) == OfCategory(t, c)
    ensures r[0] == t[0]
    ensures forall c :: OfCategory(r[1..], c) == OfCategory(t[1..], c)
  {
    assert r == [r[0]] + r[1..] && t == [t[0]] + t[1..];
    forall c ensures OfCategory(r[1..], c) == OfCategory(t[1..], c) {
      ConsCategories(r[0], r[1..], t[0], t[1..], c);
    }
    ConsCategories(r[0], r[1..], t[0], t[1..], r[0].category);
  }

  lemma ConsCategories(a: Record, rs: seq<Record>, b: Record, ts: seq<Record>, c: string)
    requires a.category == b.category
    requires OfCategory([a] + rs, c) == OfCategory([b] + ts, c)
    ensures OfCategory(rs, c) == OfCategory(ts, c)
    ensures c == a.category ==> a == b
  {
    OfCategoryCons(a, rs, c);
    OfCategoryCons(b, ts, c);
    if c == a.category {
      assert ([a] + OfCategory(rs, c))[1..] == OfCategory(rs, c);
      assert ([b] + OfCategory(ts, c))[1..] == OfCategory(ts, c);
    }
  }

  /** The first record of a sorted sequence may precede every record in it. */
  lemma HeadInOrder(t: seq<Record>, y: Record)
    requires |t| > 0 && Sorted(t) && y in t
    ensures InOrder(t[0], y)
  {
    var j :| 0 <= j < |t| && t[j] == y;
    if j == 0 {
      LessIrreflexive(y.category);
    }
  }

  /** A record of category c appears in the records of category c. */
  lemma HeadOfCategory(r: seq<Record>)
    requires |r| > 0
    ensures r[0] in OfCategory(r, r[0].category)
  {
    assert r == [r[0]] + r[1..];
    OfCategoryCons(r[0], r[1..], r[0].category);
  }

  /** The first records of two such sequences have the same, smallest, category. */
  lemma SameCategoryHeads(r: seq<Record>, t: seq<Record>)
    requires |r| > 0 && |t| > 0 && Sorted(r) && Sorted(t)
    requires forall c :: OfCategory(r, c) == OfCategory(t, c)
    ensures r[0].category == t[0].category
  {
    var a, b := r[0], t[0];
    HeadOfCategory(r);
    HeadOfCategory(t);
    assert a in OfCategory(t, a.category);
    assert b in OfCategory(r, b.category);
    OfCategoryMember(t, a.category, a);
    OfCategoryMember(r, b.category, b);
    HeadInOrder(t, a);
    HeadInOrder(r, b);
    LessTotal(a.category, b.category);
  }

  /** Any stable sort by category of s gives exactly SortByCategory(s). */
  lemma StableSortIsUnique(s: seq<Record>, r: seq<Record>)
    requires Sorted(r)
    requires forall c :: OfCategory(r, c) == OfCategory(s, c)
    ensures r == SortByCategory(s)
  {
    SortIsSorted(s);
    forall c ensures OfCategory(r, c) == OfCategory(SortByCategory(s), c) {
      SortIsStable(s, c);
    }
    SortedSameCategoriesEqual(r, SortByCategory(s));
  }

  /** Sorting an already sorted file changes nothing. */
  lemma {:induction false} SortOfSortedIsIdentity(s: seq<Record>)
    requires Sorted(s)
    ensures SortByCategory(s) == s
    decreases |s|
  {
    if |s| > 0 {
      assert s == [s[0]] + s[1..];
      SortedCons(s[0], s[1..]);
      SortOfSortedIsIdentity(s[1..]);
      if |s| > 1 {
        assert s[1] in s[1..];
      }
    }
  }

  // ---------------------------------------------------------------------------
  // Keys survive the sort
  // ---------------------------------------------------------------------------

  lemma {:induction false} InsertUniqueKeys(x: Record, t: seq<Record>)
    requires UniqueKeys(t)
    requires forall y :: y in t ==> !Matches(y, x.name, x.colour)
    ensures UniqueKeys(Insert(x, t))
    decreases |t|
  {
    if |t| == 0 {
      UniqueKeysCons(x, []);
    } else if Less(t[0].category, x.category) {
      assert t == [t[0]] + t[1..];
      UniqueKeysCons(t[0], t[1..]);
      InsertUniqueKeys(x, t[1..]);
      var u := Insert(x, t[1..]);
      forall y | y in u ensures !Matches(y, t[0].name, t[0].colour) {
        assert y in multiset(u);
        if y == x {
          assert t[0] in t;
        } else {
          assert y in t[1..];
        }
      }
      UniqueKeysCons(t[0], u);
    } else {
      UniqueKeysCons(x, t);
    }
  }

  lemma {:induction false} SortUniqueKeys(s: seq<Record>)
    requires UniqueKeys(s)
    ensures UniqueKeys(SortByCategory(s))
    decreases |s|
  {
    if |s| > 0 {
      assert s == [s[0]] + s[1..];
      UniqueKeysCons(s[0], s[1..]);
      SortUniqueKeys(s[1..]);
      forall y | y in SortByCategory(s[1..]) ensures !Matches(y, s[0].name, s[0].colour) {
        assert y in multiset(SortByCategory(s[1..]));
      }
      InsertUniqueKeys(s[0], SortByCategory(s[1..]));
    }
  }

  /** With unique keys, a lookup finds the same record before and after the sort. */
  lemma SortPreservesLookup(s: seq<Record>, item: string, colour: string)
    requires UniqueKeys(s)
    ensures Lookup(SortByCategory(s), item, colour) == Lookup(s, item, colour)
  {
    var t := SortByCategory(s);
    SortUniqueKeys(s);
    match Lookup(s, item, colour)
    case None =>
      forall j | 0 <= j < |t| ensures !Matches(t[j], item, colour) {
        assert t[j] in multiset(s);
      }
    case Some(r) =>
      assert r in multiset(t);
      LookupUnique(t, item, colour, r);
  }

  // ---------------------------------------------------------------------------
  // write_to_csv
  // ---------------------------------------------------------------------------

  /** The file written for `data`: the store's header row first, then the records of `data`
      sorted stably by category. */
  function WriteToCsv(st: Store, data: seq<Record>): (r: Store)
    ensures r.header == st.header
    ensures multiset(r.records) == multiset(data)
    ensures Sorted(r.records)
    ensures forall c :: OfCategory(r.records, c) == OfCategory(data, c)
  {
    SortIsSorted(data);
    SortIsStableEverywhere(data);
    Store(st.header, SortByCategory(data))
  }

  lemma SortIsStableEverywhere(s: seq<Record>)
    ensures forall c :: OfCategory(SortByCategory(s), c) == OfCategory(s, c)
  {
    forall c ensures OfCategory(SortByCategory(s), c) == OfCategory(s, c) {
      SortIsStable(s, c);
    }
  }
}
