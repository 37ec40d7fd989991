/**
 * Column descriptors of the results table and what a header click does to
 * their sort flags.
 */
module Columns {

  /** A column descriptor; its sort flags are updated in place. */
  class Column {
    const key: string
    const name: string
    const fieldName: string
    var isSorted: bool
    var isSortedDescending: bool

    constructor (key: string, name: string, fieldName: string, isSorted: bool, isSortedDescending: bool)
      ensures this.key == key && this.name == name && this.fieldName == fieldName
      ensures this.isSorted == isSorted && this.isSortedDescending == isSortedDescending
    {
      this.key := key;
      this.name := name;
      this.fieldName := fieldName;
      this.isSorted := isSorted;
      this.isSortedDescending := isSortedDescending;
    }
  }

  /** The sort flags of one column, as a value. */
  datatype SortFlags = SortFlags(isSorted: bool, isSortedDescending: bool)

  /** The sort flags of a list of columns, in order. */
  function FlagsOf(cs: seq<Column>): seq<SortFlags>
    reads cs
  {
    seq(|cs|, i reads cs requires 0 <= i < |cs| => SortFlags(cs[i].isSorted, cs[i].isSortedDescending))
  }

  /** `columns.filter(c => c.key === key)[0]`: the first column with that key, or -1 for none. */
  function FirstIndexOfKey(cs: seq<Column>, key: string): (k: int)
    ensures -1 <= k < |cs|
    ensures k >= 0 ==> cs[k].key == key && forall j :: 0 <= j < k ==> cs[j].key != key
    ensures k == -1 ==> forall j :: 0 <= j < |cs| ==> cs[j].key != key
  {
    if cs == [] then -1
    else if cs[0].key == key then 0
    else
      var k := FirstIndexOfKey(cs[1..], key);
      if k == -1 then -1 else k + 1
  }

  /**
   * The flags after a click on column `k`: it becomes the sorted column with its
   * direction flipped; every other column is reset to unsorted and descending.
   * A `k` outside the list (no column matched) resets them all.
   */
  function AfterClick(flags: seq<SortFlags>, k: int): (r: seq<SortFlags>)
    ensures |r| == |flags|
  {
    seq(|flags|, i requires 0 <= i < |flags| =>
      if i == k then SortFlags(true, !flags[i].isSortedDescending) else SortFlags(false, true))
  }

  /** The positions of the columns marked sorted. */
  function SortedColumns(flags: seq<SortFlags>): set<int>
  {
    set i | 0 <= i < |flags| && flags[i].isSorted
  }

  /** After a click exactly one column, the clicked one, is marked sorted. */
  lemma ClickSortsOnlyClicked(flags: seq<SortFlags>, k: int)
    requires 0 <= k < |flags|
    ensures SortedColumns(AfterClick(flags, k)) == {k}
  {
    var r := AfterClick(flags, k);
    assert r[k].isSorted;
  }

  /** The clicked column's direction is flipped; every other column is unsorted and descending. */
  lemma ClickFlags(flags: seq<SortFlags>, k: int)
    requires 0 <= k < |flags|
    ensures AfterClick(flags, k)[k] == SortFlags(true, !flags[k].isSortedDescending)
    ensures forall i :: 0 <= i < |flags| && i != k ==> AfterClick(flags, k)[i] == SortFlags(false, true)
  {
  }

  /** A click that matches no column leaves every column unsorted and descending. */
  lemma UnmatchedClickSortsNone(flags: seq<SortFlags>, k: int)
    requires !(0 <= k < |flags|)
    ensures SortedColumns(AfterClick(flags, k)) == {}
    ensures forall i :: 0 <= i < |flags| ==> AfterClick(flags, k)[i] == SortFlags(false, true)
  {
    var r := AfterClick(flags, k);
    forall i | 0 <= i < |r|
      ensures !r[i].isSorted
    {
    }
  }

  /**
   * Clicking the same header twice restores its original direction, while every
   * other column stays unsorted.
   */
  lemma ClickTwice(flags: seq<SortFlags>, k: int)
    requires 0 <= k < |flags|
    ensures AfterClick(AfterClick(flags, k), k)[k] == SortFlags(true, flags[k].isSortedDescending)
    ensures forall i :: 0 <= i < |flags| && i != k ==> AfterClick(AfterClick(flags, k), k)[i] == SortFlags(false, true)
    ensures SortedColumns(AfterClick(AfterClick(flags, k), k)) == {k}
  {
    ClickSortsOnlyClicked(AfterClick(flags, k), k);
  }

  /**
   * Once a click has happened, a click on another column sorts it ascending,
   * because the first click left it marked descending.
   */
  lemma ClickOtherSortsAscending(flags: seq<SortFlags>, k: int, m: int)
    requires 0 <= k < |flags| && 0 <= m < |flags| && m != k
    ensures AfterClick(AfterClick(flags, k), m)[m] == SortFlags(true, false)
  {
  }

  /** The flags the widget starts with: Name and Description both sorted ascending. */
  const InitialFlags: seq<SortFlags> := [SortFlags(true, false), SortFlags(true, false), SortFlags(false, false)]

  /** At start two columns are marked sorted, so "one sorted column" only holds after a click. */
  lemma InitialFlagsTwoSorted()
    ensures SortedColumns(InitialFlags) == {0, 1}
  {
    assert InitialFlags[0].isSorted && InitialFlags[1].isSorted && !InitialFlags[2].isSorted;
  }

  /** The very first click on Name sorts it descending, since it starts marked ascending. */
  lemma FirstClickOnNameDescending()
    ensures AfterClick(InitialFlags, 0)[0] == SortFlags(true, true)
    ensures SortedColumns(AfterClick(InitialFlags, 0)) == {0}
  {
    ClickSortsOnlyClicked(InitialFlags, 0);
  }
}
