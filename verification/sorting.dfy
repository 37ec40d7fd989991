/**
 * Sorting a copy of the displayed items by one column's field, with the
 * comparator of the source: it answers 1 ("a goes after b") or -1, never 0.
 */
module Sorting {
  import opened Optional
  import opened Text
  import opened Groups

  /** The field names a column may carry; any other key reads as `undefined`. */
  const FieldNames: set<string> := {"name", "description", "groupTypes"}

  /** `item[key]`. */
  function FieldValue(item: GroupItem, key: string): (v: Option<string>)
    ensures v.Some? <==> key in FieldNames
    ensures key == "name" ==> v == Some(item.name)
    ensures key == "description" ==> v == Some(item.description)
    ensures key == "groupTypes" ==> v == Some(item.groupTypes)
  {
    if key == "name" then Some(item.name)
    else if key == "description" then Some(item.description)
    else if key == "groupTypes" then Some(item.groupTypes)
    else None
  }

  /** `x < y` where either side may be `undefined`: any comparison with `undefined` is false. */
  predicate JsLess(x: Option<string>, y: Option<string>)
    ensures x.None? || y.None? ==> !JsLess(x, y)
    ensures JsLess(x, y) ==> x != y && !Less(y.value, x.value)
  {
    DefinedLessIsStrict(x, y);
    x.Some? && y.Some? && Less(x.value, y.value)
  }

  /** Two defined values ordered by `<` differ and are not ordered the other way. */
  lemma DefinedLessIsStrict(x: Option<string>, y: Option<string>)
    ensures x.Some? && y.Some? && Less(x.value, y.value) ==> !Less(y.value, x.value) && x != y
  {
    if x.Some? && y.Some? && Less(x.value, y.value) {
      LessAsymmetric(x.value, y.value);
      LessIrreflexive(x.value);
    }
  }

  /**
   * The comparator: in ascending order `a` goes after `b` when `a[key] > b[key]`,
   * in descending order when `a[key] < b[key]`; every other pair answers -1.
   */
  function Compare(a: GroupItem, b: GroupItem, key: string, desc: bool): (r: int)
    ensures r == 1 || r == -1
  {
    var after := if desc then JsLess(FieldValue(a, key), FieldValue(b, key))
                 else JsLess(FieldValue(b, key), FieldValue(a, key));
    if after then 1 else -1
  }

  /** Items with equal keys both claim to come first: the comparator is not consistent on ties. */
  lemma CompareTies(a: GroupItem, b: GroupItem, key: string, desc: bool)
    requires FieldValue(a, key) == FieldValue(b, key)
    ensures Compare(a, b, key, desc) == -1 && Compare(b, a, key, desc) == -1
  {
    if key in FieldNames {
      LessIrreflexive(FieldValue(a, key).value);
    }
  }

  lemma CompareAsymmetric(a: GroupItem, b: GroupItem, key: string, desc: bool)
    requires Compare(a, b, key, desc) == 1
    ensures Compare(b, a, key, desc) == -1
  {
    var va, vb := FieldValue(a, key).value, FieldValue(b, key).value;
    if desc {
      LessAsymmetric(va, vb);
    } else {
      LessAsymmetric(vb, va);
    }
  }

  lemma CompareTransitive(a: GroupItem, b: GroupItem, c: GroupItem, key: string, desc: bool)
    requires Compare(a, b, key, desc) == -1 && Compare(b, c, key, desc) == -1
    ensures Compare(a, c, key, desc) == -1
  {
    if key in FieldNames {
      var va, vb, vc := FieldValue(a, key).value, FieldValue(b, key).value, FieldValue(c, key).value;
      if desc {
        NotLessTransitive(vc, vb, va);
      } else {
        NotLessTransitive(va, vb, vc);
      }
    }
  }

  /** No pair of the sequence is out of order for the comparator. */
  ghost predicate InOrder(s: seq<GroupItem>, key: string, desc: bool)
  {
    forall i, j :: 0 <= i < j < |s| ==> Compare(s[i], s[j], key, desc) == -1
  }

  lemma HeadBeforeAll(y: GroupItem, t: seq<GroupItem>, key: string, desc: bool)
    requires InOrder(t, key, desc)
    requires forall z :: z in t ==> Compare(y, z, key, desc) == -1
    ensures InOrder([y] + t, key, desc)
  {
    var s := [y] + t;
    forall i, j | 0 <= i < j < |s|
      ensures Compare(s[i], s[j], key, desc) == -1
    {
      if i > 0 {
        assert s[i] == t[i - 1] && s[j] == t[j - 1];
      } else {
        assert s[j] in t;
      }
    }
  }

  lemma InsertFront(x: GroupItem, s: seq<GroupItem>, key: string, desc: bool)
    requires InOrder(s, key, desc)
    requires s == [] || Compare(x, s[0], key, desc) == -1
    ensures InOrder([x] + s, key, desc)
  {
    forall z | z in s
      ensures Compare(x, z, key, desc) == -1
    {
      var j :| 0 <= j < |s| && s[j] == z;
      if j > 0 {
        CompareTransitive(x, s[0], z, key, desc);
      }
    }
    HeadBeforeAll(x, s, key, desc);
  }

  lemma InsertBehind(x: GroupItem, s: seq<GroupItem>, rest: seq<GroupItem>, key: string, desc: bool)
    requires InOrder(s, key, desc) && s != [] && Compare(x, s[0], key, desc) == 1
    requires InOrder(rest, key, desc)
    requires multiset(rest) == multiset(s[1..]) + multiset{x}
    ensures InOrder([s[0]] + rest, key, desc)
  {
    forall z | z in rest
      ensures Compare(s[0], z, key, desc) == -1
    {
      assert z in multiset(rest);
      if z == x {
        CompareAsymmetric(x, s[0], key, desc);
      } else {
        assert z in multiset(s[1..]);
        var j :| 0 <= j < |s[1..]| && s[1..][j] == z;
        assert s[j + 1] == z;
      }
    }
    HeadBeforeAll(s[0], rest, key, desc);
  }

  /** Inserts `x` before the first element it does not go after. */
  function Insert(x: GroupItem, s: seq<GroupItem>, key: string, desc: bool): (r: seq<GroupItem>)
    requires InOrder(s, key, desc)
    ensures multiset(r) == multiset(s) + multiset{x}
    ensures InOrder(r, key, desc)
  {
    if s == [] || Compare(x, s[0], key, desc) == -1 then
      InsertFront(x, s, key, desc);
      [x] + s
    else
      var rest := Insert(x, s[1..], key, desc);
      assert s == [s[0]] + s[1..];
      InsertBehind(x, s, rest, key, desc);
      [s[0]] + rest
  }

  /**
   * `items.slice(0).sort(comparator)`: a sorted copy. The order of the sort
   * algorithm itself is unspecified; this is an insertion sort driven by the
   * same comparator.
   */
  function CopyAndSort(items: seq<GroupItem>, key: string, desc: bool): (r: seq<GroupItem>)
    ensures multiset(r) == multiset(items)
    ensures InOrder(r, key, desc)
  {
    if items == [] then []
    else
      assert items == [items[0]] + items[1..];
      Insert(items[0], CopyAndSort(items[1..], key, desc), key, desc)
  }

  /** Ascending: the field values never decrease along the result. */
  lemma SortAscending(items: seq<GroupItem>, key: string)
    requires key in FieldNames
    ensures var r := CopyAndSort(items, key, false);
      |r| == |items| &&
      forall i, j :: 0 <= i < j < |r| ==> LessEq(FieldValue(r[i], key).value, FieldValue(r[j], key).value)
  {
    var r := CopyAndSort(items, key, false);
    assert |r| == |multiset(r)| == |multiset(items)| == |items|;
    forall i, j | 0 <= i < j < |r|
      ensures LessEq(FieldValue(r[i], key).value, FieldValue(r[j], key).value)
    {
      assert Compare(r[i], r[j], key, false) == -1;
      LessTotal(FieldValue(r[i], key).value, FieldValue(r[j], key).value);
    }
  }

  /** Descending: the field values never increase along the result. */
  lemma SortDescending(items: seq<GroupItem>, key: string)
    requires key in FieldNames
    ensures var r := CopyAndSort(items, key, true);
      |r| == |items| &&
      forall i, j :: 0 <= i < j < |r| ==> LessEq(FieldValue(r[j], key).value, FieldValue(r[i], key).value)
  {
    var r := CopyAndSort(items, key, true);
    assert |r| == |multiset(r)| == |multiset(items)| == |items|;
    forall i, j | 0 <= i < j < |r|
      ensures LessEq(FieldValue(r[j], key).value, FieldValue(r[i], key).value)
    {
      assert Compare(r[i], r[j], key, true) == -1;
      LessTotal(FieldValue(r[i], key).value, FieldValue(r[j], key).value);
    }
  }
}
