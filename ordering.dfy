/** `sorted(schema.items())`: the (table name, query) items of a schema in
    Python's order on tuples of str, which compares the names first and the
    queries only between equal names. */
module Ordering {

  /** Python's `<` on str: code points compared left to right, and a proper
      prefix before the longer text. */
  predicate Below(a: string, b: string)
    decreases |a|
  {
    |b| > 0 && (|a| == 0 || a[0] < b[0] || (a[0] == b[0] && Below(a[1..], b[1..])))
  }

  lemma {:induction false} BelowIrreflexive(a: string)
    ensures !Below(a, a)
    decreases |a|
  {
    if |a| > 0 {
      BelowIrreflexive(a[1..]);
    }
  }

  lemma {:induction false} BelowTransitive(a: string, b: string, c: string)
    requires Below(a, b) && Below(b, c)
    ensures Below(a, c)
    decreases |a|
  {
    if |a| > 0 && a[0] == b[0] && b[0] == c[0] {
      BelowTransitive(a[1..], b[1..], c[1..]);
    }
  }

  lemma {:induction false} BelowTotal(a: string, b: string)
    ensures a == b || Below(a, b) || Below(b, a)
    decreases |a|
  {
    if |a| > 0 && |b| > 0 && a[0] == b[0] {
      BelowTotal(a[1..], b[1..]);
      if a[1..] == b[1..] {
        assert a == [a[0]] + a[1..] && b == [b[0]] + b[1..];
      }
    }
  }

  /** One item of a schema: a table name and its CREATE statement. */
  type Item = (string, string)

  /** Python's `<` on a pair of str. */
  predicate ItemBelow(x: Item, y: Item) {
    Below(x.0, y.0) || (x.0 == y.0 && Below(x.1, y.1))
  }

  /** Python's `<=` on a pair of str. */
  predicate ItemAtMost(x: Item, y: Item) {
    !ItemBelow(y, x)
  }

  lemma ItemBelowTotal(x: Item, y: Item)
    ensures x == y || ItemBelow(x, y) || ItemBelow(y, x)
  {
    BelowTotal(x.0, y.0);
    BelowTotal(x.1, y.1);
  }

  lemma ItemBelowTransitive(x: Item, y: Item, z: Item)
    requires ItemBelow(x, y) && ItemBelow(y, z)
    ensures ItemBelow(x, z)
  {
    if Below(x.0, y.0) && Below(y.0, z.0) {
      BelowTransitive(x.0, y.0, z.0);
    } else if Below(x.1, y.1) && Below(y.1, z.1) {
      BelowTransitive(x.1, y.1, z.1);
    }
  }

  lemma ItemBelowIrreflexive(x: Item)
    ensures !ItemBelow(x, x)
  {
    BelowIrreflexive(x.0);
    BelowIrreflexive(x.1);
  }

  lemma ItemAtMostTransitive(x: Item, y: Item, z: Item)
    requires ItemAtMost(x, y) && ItemAtMost(y, z)
    ensures ItemAtMost(x, z)
  {
    ItemBelowTotal(x, y);
    ItemBelowTotal(y, z);
    if ItemBelow(z, x) {
      if x == y {
      } else if y == z {
      } else {
        ItemBelowTransitive(x, y, z);
        ItemBelowTransitive(z, x, z);
        ItemBelowIrreflexive(z);
      }
    }
  }

  lemma ItemAtMostAntisymmetric(x: Item, y: Item)
    requires ItemAtMost(x, y) && ItemAtMost(y, x)
    ensures x == y
  {
    ItemBelowTotal(x, y);
  }

  /** Every item is at most every later one. */
  predicate IsSorted(s: seq<Item>) {
    forall i, j :: 0 <= i < j < |s| ==> ItemAtMost(s[i], s[j])
  }

  /** Puts one item in front of the first item that is not below it. */
  function Insert(x: Item, s: seq<Item>): seq<Item> {
    if s == [] then [x]
    else if ItemBelow(s[0], x) then [s[0]] + Insert(x, s[1..])
    else [x] + s
  }

  /** The items in ascending order (Python's `sorted`). */
  function SortItems(items: seq<Item>): seq<Item> {
    if items == [] then [] else Insert(items[0], SortItems(items[1..]))
  }

  lemma {:induction false} InsertPermutes(x: Item, s: seq<Item>)
    ensures multiset(Insert(x, s)) == multiset(s) + multiset{x}
  {
    if s != [] && ItemBelow(s[0], x) {
      InsertPermutes(x, s[1..]);
      assert s == [s[0]] + s[1..];
    }
  }

  lemma {:induction false} InsertSorted(x: Item, s: seq<Item>)
    requires IsSorted(s)
    ensures IsSorted(Insert(x, s))
  {
    if s == [] {
    } else if ItemBelow(s[0], x) {
      var rest := Insert(x, s[1..]);
      InsertSorted(x, s[1..]);
      InsertPermutes(x, s[1..]);
      forall j | 0 <= j < |rest|
        ensures ItemAtMost(s[0], rest[j])
      {
        assert rest[j] in multiset(rest);
        if rest[j] == x {
          ItemBelowTotal(s[0], x);
          ItemBelowIrreflexive(x);
          if ItemBelow(x, s[0]) {
            ItemBelowTransitive(x, s[0], x);
          }
        } else {
          assert rest[j] in multiset(s[1..]);
          var k :| 0 <= k < |s[1..]| && s[1..][k] == rest[j];
          assert s[k + 1] == rest[j];
        }
      }
      assert Insert(x, s) == [s[0]] + rest;
    } else {
      forall j | 0 <= j < |s|
        ensures ItemAtMost(x, s[j])
      {
        if j > 0 {
          ItemAtMostTransitive(x, s[0], s[j]);
        }
      }
      assert Insert(x, s) == [x] + s;
    }
  }

  /** The sorted items are the same items, in ascending order. */
  lemma {:induction false} SortItemsCorrect(items: seq<Item>)
    ensures multiset(SortItems(items)) == multiset(items)
    ensures IsSorted(SortItems(items))
  {
    if items != [] {
      SortItemsCorrect(items[1..]);
      InsertPermutes(items[0], SortItems(items[1..]));
      InsertSorted(items[0], SortItems(items[1..]));
      assert items == [items[0]] + items[1..];
    }
  }

  lemma MultisetTail(s: seq<Item>)
    requires s != []
    ensures multiset(s[1..]) == multiset(s) - multiset{s[0]}
  {
    assert s == [s[0]] + s[1..];
  }

  /** The first item of a sorted sequence is at most any item in it. */
  lemma SortedFirstIsLeast(s: seq<Item>, x: Item)
    requires IsSorted(s) && x in multiset(s)
    ensures ItemAtMost(s[0], x)
  {
    var k :| 0 <= k < |s| && s[k] == x;
    if k == 0 {
      ItemBelowIrreflexive(x);
    }
  }

  /** Two sorted arrangements of the same items are the same sequence. */
  lemma {:induction false} SortedUnique(s: seq<Item>, t: seq<Item>)
    requires IsSorted(s) && IsSorted(t)
    requires multiset(s) == multiset(t)
    ensures s == t
    decreases |s|
  {
    assert |t| == |multiset(t)| == |multiset(s)| == |s|;
    if s != [] {
      assert s[0] in multiset(s) && t[0] in multiset(t);
      SortedFirstIsLeast(t, s[0]);
      SortedFirstIsLeast(s, t[0]);
      ItemAtMostAntisymmetric(s[0], t[0]);
      MultisetTail(s);
      MultisetTail(t);
      SortedUnique(s[1..], t[1..]);
      assert s == [s[0]] + s[1..] && t == [t[0]] + t[1..];
    }
  }

  /** No two items share a table name, as in a dictionary keyed by name. */
  predicate KeysDistinct(s: seq<Item>) {
    forall i, j :: 0 <= i < j < |s| ==> s[i].0 != s[j].0
  }

  /** Rearranging items keeps their names distinct. */
  lemma KeysDistinctPermutation(s: seq<Item>, t: seq<Item>)
    requires multiset(s) == multiset(t) && KeysDistinct(s)
    ensures KeysDistinct(t)
  {
    forall i, j | 0 <= i < j < |t|
      ensures t[i].0 != t[j].0
    {
      if t[i] == t[j] {
        RepeatCounted(t, i, j);
        CountedTwice(s, t[i]);
      } else {
        assert t[i] in multiset(s) && t[j] in multiset(s);
        var a :| 0 <= a < |s| && s[a] == t[i];
        var b :| 0 <= b < |s| && s[b] == t[j];
      }
    }
  }

  lemma RepeatCounted(s: seq<Item>, i: int, j: int)
    requires 0 <= i < j < |s| && s[i] == s[j]
    ensures multiset(s)[s[i]] >= 2
  {
    assert s == s[..j] + s[j..];
    assert s[i] in s[..j] && s[j] in s[j..];
  }

  lemma {:induction false} CountedTwice(s: seq<Item>, x: Item)
    requires multiset(s)[x] >= 2
    ensures exists a, b :: 0 <= a < b < |s| && s[a] == x && s[b] == x
  {
    MultisetTail(s);
    if s[0] == x {
      assert x in multiset(s[1..]);
      var b :| 0 <= b < |s[1..]| && s[1..][b] == x;
      assert s[b + 1] == x;
    } else {
      CountedTwice(s[1..], x);
      var a, b :| 0 <= a < b < |s[1..]| && s[1..][a] == x && s[1..][b] == x;
      assert s[a + 1] == x && s[b + 1] == x;
    }
  }

  /** The order in which a dictionary holds its items does not change what
      `sorted` returns. */
  lemma SortItemsIgnoresOrder(items: seq<Item>, reordered: seq<Item>)
    requires multiset(items) == multiset(reordered)
    ensures SortItems(items) == SortItems(reordered)
  {
    SortItemsCorrect(items);
    SortItemsCorrect(reordered);
    SortedUnique(SortItems(items), SortItems(reordered));
  }
}
