/**
 * The name filter: keeps the items whose lower-cased name contains the
 * lower-cased filter text.
 */
module Filtering {
  import opened Text
  import opened Groups

  /** `i.name.toLowerCase().indexOf(text.toLowerCase()) > -1`. */
  function Matches(item: GroupItem, text: string): (b: bool)
    ensures b <==> Occurs(ToLower(item.name), ToLower(text))
  {
    IndexOf(ToLower(item.name), ToLower(text)) > -1
  }

  /** `items.filter(i => Matches(i, text))`. */
  function FilterByName(items: seq<GroupItem>, text: string): (r: seq<GroupItem>)
    ensures |r| <= |items|
    ensures forall x :: x in r <==> x in items && Matches(x, text)
    ensures forall x :: multiset(r)[x] == if Matches(x, text) then multiset(items)[x] else 0
  {
    if items == [] then []
    else
      assert items == [items[0]] + items[1..];
      (if Matches(items[0], text) then [items[0]] else []) + FilterByName(items[1..], text)
  }

  /** `a` is `b` with some elements left out, the rest in the same order. */
  predicate IsSubsequence<T(==)>(a: seq<T>, b: seq<T>)
    decreases |b|
  {
    if a == [] then true
    else if b == [] then false
    else if a[0] == b[0] then IsSubsequence(a[1..], b[1..])
    else IsSubsequence(a, b[1..])
  }

  /** The filter keeps the order of the items it keeps. */
  lemma {:induction false} FilterIsSubsequence(items: seq<GroupItem>, text: string)
    ensures IsSubsequence(FilterByName(items, text), items)
  {
    if items != [] {
      var h, t := items[0], items[1..];
      FilterIsSubsequence(t, text);
      var r := FilterByName(items, text);
      if Matches(h, text) {
        assert r == [h] + FilterByName(t, text);
        assert r[1..] == FilterByName(t, text);
      } else {
        assert r == FilterByName(t, text);
        if r != [] {
          assert r[0] in r;
          assert r[0] != h;
        }
      }
    }
  }

  /**
   * Typing more text can only narrow the list: filtering by a text whose
   * lower-cased form contains that of an earlier text removes nothing more.
   */
  lemma {:induction false} NarrowingKeepsFiltered(items: seq<GroupItem>, t1: string, t2: string)
    requires Occurs(ToLower(t1), ToLower(t2))
    ensures FilterByName(FilterByName(items, t1), t2) == FilterByName(items, t1)
  {
    if items != [] {
      var h, t := items[0], items[1..];
      NarrowingKeepsFiltered(t, t1, t2);
      var f := FilterByName(t, t1);
      if Matches(h, t1) {
        OccursTransitive(ToLower(h.name), ToLower(t1), ToLower(t2));
        assert Matches(h, t2);
        assert FilterByName(items, t1) == [h] + f;
        assert ([h] + f)[1..] == f;
        assert FilterByName([h] + f, t2) == [h] + FilterByName(f, t2);
      } else {
        assert FilterByName(items, t1) == f;
      }
    }
  }

  /** Filtering twice with the same text is the same as filtering once. */
  lemma FilterIdempotent(items: seq<GroupItem>, text: string)
    ensures FilterByName(FilterByName(items, text), text) == FilterByName(items, text)
  {
    OccursReflexive(ToLower(text));
    NarrowingKeepsFiltered(items, text, text);
  }

  /**
   * The filter is progressive: after a second text, an item is shown only if it
   * matches both texts, so widening the text does not bring items back.
   */
  lemma ProgressiveFilter(items: seq<GroupItem>, t1: string, t2: string)
    ensures forall x :: x in FilterByName(FilterByName(items, t1), t2) <==>
      x in items && Matches(x, t1) && Matches(x, t2)
  {
  }
}
