/**
 * The records the widget works on, and the transform that turns the result of
 * the membership query into display records and a status message.
 */
module Groups {
  import opened Optional

  /** A group as the membership query returns it. `groupTypes` may be absent. */
  datatype RawGroup = RawGroup(
    displayName: string,
    description: string,
    groupTypes: Option<seq<string>>,
    securityEnabled: bool)

  /** A row of the results table. */
  datatype GroupItem = GroupItem(name: string, description: string, groupTypes: string)

  /** The outcome of the membership query: it throws, or it yields groups. */
  datatype FetchResult = Failed | Fetched(groups: seq<RawGroup>)

  const Office365Label: string := "Office 365 Group"
  const SecurityLabel: string := "Security Group"
  const DistributionLabel: string := "Distribution Group"
  const NoGroupsStatus: string := "The selected user does not belong to any group"

  /** The type shown for a group: it has group types, else it is security-enabled, else neither. */
  predicate HasGroupTypes(g: RawGroup)
  {
    g.groupTypes.Some? && |g.groupTypes.value| > 0
  }

  function GroupTypeOf(g: RawGroup): (kind: string)
    ensures kind == Office365Label <==> HasGroupTypes(g)
    ensures kind == SecurityLabel <==> !HasGroupTypes(g) && g.securityEnabled
    ensures kind == DistributionLabel <==> !HasGroupTypes(g) && !g.securityEnabled
  {
    if HasGroupTypes(g) then Office365Label
    else if g.securityEnabled then SecurityLabel
    else DistributionLabel
  }

  /** The display record pushed for one group. */
  function ToGroupItem(g: RawGroup): (item: GroupItem)
    ensures item.name == g.displayName && item.description == g.description
    ensures item.groupTypes == Office365Label <==> HasGroupTypes(g)
    ensures item.groupTypes == SecurityLabel <==> !HasGroupTypes(g) && g.securityEnabled
    ensures item.groupTypes == DistributionLabel <==> !HasGroupTypes(g) && !g.securityEnabled
  {
    GroupItem(g.displayName, g.description, GroupTypeOf(g))
  }

  /**
   * What the fetch step leaves behind for a given query outcome: a failure gives
   * no items and no status; no groups gives no items and the "no groups" status;
   * otherwise one display record per group, in order, and no status.
   */
  ghost predicate IsFetchOutcome(result: FetchResult, items: seq<GroupItem>, status: string)
  {
    match result
    case Failed => items == [] && status == ""
    case Fetched(groups) =>
      if |groups| == 0 then
        items == [] && status == NoGroupsStatus
      else
        && status == ""
        && |items| == |groups|
        && forall i :: 0 <= i < |groups| ==> items[i] == ToGroupItem(groups[i])
  }

  /** The try/catch block of the fetch step: builds the display records one push at a time. */
  method BuildGroupItems(result: FetchResult) returns (items: seq<GroupItem>, status: string)
    ensures IsFetchOutcome(result, items, status)
  {
    items := [];
    status := "";
    if result.Fetched? {
      var groups := result.groups;
      if |groups| == 0 {
        status := NoGroupsStatus;
      } else {
        var i := 0;
        while i < |groups|
          invariant 0 <= i <= |groups|
          invariant |items| == i
          invariant forall j :: 0 <= j < i ==> items[j] == ToGroupItem(groups[j])
        {
          items := items + [ToGroupItem(groups[i])];
          i := i + 1;
        }
      }
    }
  }

  /**
   * Each fetched display record carries its own group's name and description,
   * and the type label the three-way rule picks for that group; so every label
   * is one of the three.
   */
  lemma FetchedLabels(result: FetchResult, items: seq<GroupItem>, status: string)
    requires IsFetchOutcome(result, items, status)
    ensures result.Fetched? ==> forall i :: 0 <= i < |items| ==>
      && items[i].name == result.groups[i].displayName
      && items[i].description == result.groups[i].description
      && (items[i].groupTypes == Office365Label <==> HasGroupTypes(result.groups[i]))
      && (items[i].groupTypes == SecurityLabel <==> !HasGroupTypes(result.groups[i]) && result.groups[i].securityEnabled)
      && (items[i].groupTypes == DistributionLabel <==> !HasGroupTypes(result.groups[i]) && !result.groups[i].securityEnabled)
    ensures forall it :: it in items ==>
      it.groupTypes == Office365Label || it.groupTypes == SecurityLabel || it.groupTypes == DistributionLabel
  {
    forall it | it in items
      ensures it.groupTypes == Office365Label || it.groupTypes == SecurityLabel || it.groupTypes == DistributionLabel
    {
      var i :| 0 <= i < |items| && items[i] == it;
      assert it == ToGroupItem(result.groups[i]);
    }
  }

  /**
   * The status message is set exactly for a query that yields no groups; a
   * failure leaves no items and no status, like nothing at all.
   */
  lemma FetchedStatus(result: FetchResult, items: seq<GroupItem>, status: string)
    requires IsFetchOutcome(result, items, status)
    ensures status == NoGroupsStatus <==> result.Fetched? && |result.groups| == 0
    ensures status == "" <==> !(result.Fetched? && |result.groups| == 0)
    ensures items == [] <==> result.Failed? || |result.groups| == 0
  {
  }
}
