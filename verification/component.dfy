/**
 * The "My Membership" widget: a toggle that starts the membership query, and a
 * sortable, filterable table of the groups it returns.
 */
module Component {
  import opened Groups
  import opened Sorting
  import opened Filtering
  import opened Columns

  class CheckMyMemberShip {
    /** The last fetched full list (the component field `groupItems`). */
    var fullItems: seq<GroupItem>
    /** The items on display (the state's `groupItems`). */
    var shown: seq<GroupItem>
    var columns: seq<Column>
    var memberStatus: string
    var loading: bool

    /** The column descriptors are distinct objects. */
    ghost predicate Valid()
      reads this
    {
      forall i, j :: 0 <= i < j < |columns| ==> columns[i] != columns[j]
    }

    constructor ()
      ensures Valid()
      ensures fullItems == [] && shown == [] && memberStatus == "" && !loading
      ensures |columns| == 3
      ensures forall i :: 0 <= i < |columns| ==> fresh(columns[i])
      ensures columns[0].key == "column1" && columns[0].name == "Name" && columns[0].fieldName == "name"
      ensures columns[1].key == "column2" && columns[1].name == "Description" && columns[1].fieldName == "description"
      ensures columns[2].key == "column3" && columns[2].name == "Group Type" && columns[2].fieldName == "groupTypes"
      ensures FlagsOf(columns) == InitialFlags
    {
      var nameColumn := new Column("column1", "Name", "name", true, false);
      var descriptionColumn := new Column("column2", "Description", "description", true, false);
      var typeColumn := new Column("column3", "Group Type", "groupTypes", false, false);
      fullItems := [];
      shown := [];
      columns := [nameColumn, descriptionColumn, typeColumn];
      memberStatus := "";
      loading := false;
    }

    /**
     * A click on a column header: updates the sort flags of the columns in place
     * and shows the displayed items sorted by the clicked column's field in its
     * new direction. When no column has the clicked key, the flags are all reset
     * and the handler fails before it updates the displayed items.
     */
    method OnColumnClick(column: Column)
      requires Valid()
      modifies this, columns
      ensures Valid()
      ensures columns == old(columns) && fullItems == old(fullItems)
      ensures memberStatus == old(memberStatus) && loading == old(loading)
      ensures var k := FirstIndexOfKey(columns, column.key);
        && FlagsOf(columns) == AfterClick(old(FlagsOf(columns)), k)
        && shown == if k >= 0 then CopyAndSort(old(shown), columns[k].fieldName, columns[k].isSortedDescending)
                    else old(shown)
    {
      var cols := columns;
      var k := FirstIndexOfKey(cols, column.key);
      var i := 0;
      while i < |cols|
        modifies cols
        invariant 0 <= i <= |cols|
        invariant forall j :: 0 <= j < i ==>
          cols[j].isSorted == (j == k) &&
          cols[j].isSortedDescending == (if j == k then !old(cols[j].isSortedDescending) else true)
        invariant forall j :: i <= j < |cols| ==>
          cols[j].isSorted == old(cols[j].isSorted) && cols[j].isSortedDescending == old(cols[j].isSortedDescending)
      {
        var c := cols[i];
        if k >= 0 && c == cols[k] {
          c.isSortedDescending := !c.isSortedDescending;
          c.isSorted := true;
        } else {
          c.isSorted := false;
          c.isSortedDescending := true;
        }
        i := i + 1;
      }
      if k >= 0 {
        shown := CopyAndSort(shown, cols[k].fieldName, cols[k].isSortedDescending);
      }
    }

    /**
     * Typing in the filter box: a non-empty text narrows the displayed items to
     * those whose name contains it; the empty text shows the last fetched list.
     */
    method OnFilter(text: string)
      requires Valid()
      modifies this
      ensures Valid()
      ensures shown == if text != "" then FilterByName(old(shown), text) else fullItems
      ensures fullItems == old(fullItems) && columns == old(columns)
      ensures memberStatus == old(memberStatus) && loading == old(loading)
    {
      shown := if text != "" then FilterByName(shown, text) else fullItems;
    }

    /** Starting the fetch: the spinner is shown until the query completes. */
    method GetMyGroups()
      requires Valid()
      modifies this
      ensures Valid()
      ensures loading
      ensures shown == old(shown) && fullItems == old(fullItems) && columns == old(columns)
      ensures memberStatus == old(memberStatus)
    {
      loading := true;
    }

    /**
     * Completion of the fetch with the outcome of the membership query: the
     * display records and status replace the old ones, become the full list,
     * and the spinner is hidden.
     */
    method OnGroupsFetched(result: FetchResult)
      requires Valid()
      modifies this
      ensures Valid()
      ensures IsFetchOutcome(result, shown, memberStatus)
      ensures fullItems == shown && !loading && columns == old(columns)
    {
      var items, status := BuildGroupItems(result);
      fullItems := items;
      shown := items;
      memberStatus := status;
      loading := false;
    }

    /** The toggle: on starts the fetch; off clears the displayed items and nothing else. */
    method ToggleOnChanged(checked: bool)
      requires Valid()
      modifies this
      ensures Valid()
      ensures checked ==> loading && shown == old(shown)
      ensures !checked ==> shown == [] && loading == old(loading)
      ensures fullItems == old(fullItems) && columns == old(columns) && memberStatus == old(memberStatus)
    {
      if checked {
        GetMyGroups();
      } else {
        shown := [];
      }
    }
  }
}
