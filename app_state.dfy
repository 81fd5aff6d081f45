/** The check-in store: group settings, one record per group, and the
    counter of checked groups, updated in place by each operation. */
module App {
  import opened Naming
  import opened Checks
  import opened Ranking

  class AppState {
    var groupType: GroupType
    var groupCount: nat
    var checks: map<nat, Record>
    var checkOrder: nat

    /** The store's invariant: one record per id 1..groupCount, and the
        checked groups hold the orders 1..checkOrder, each once. */
    ghost predicate Valid()
      reads this
    {
      checks.Keys == IdRange(1, groupCount) && OrdersValid(checks, checkOrder)
    }

    /** A fresh store: numbered groups, twelve of them, none checked. */
    constructor ()
      ensures Valid()
      ensures groupType == Number && groupCount == 12
      ensures checks == Defaults(1, 12) && checkOrder == 0
    {
      groupType := Number;
      groupCount := 12;
      checks := map[];
      checkOrder := 0;
      new;
      InitializeChecks();
    }

    /** Resets every group 1..groupCount to an unchecked record with an empty note. */
    method InitializeChecks()
      modifies this
      ensures Valid()
      ensures checks == Defaults(1, groupCount) && checkOrder == 0
      ensures groupType == old(groupType) && groupCount == old(groupCount)
    {
      checks := map[];
      var i := 1;
      while i <= groupCount
        modifies this`checks
        invariant 1 <= i <= groupCount + 1
        invariant checks == Defaults(1, i - 1)
      {
        checks := checks[i := Default];
        i := i + 1;
      }
      checkOrder := 0;
    }

    /** The display name of group `index` under the current naming scheme. */
    method GetGroupName(index: int) returns (name: string)
      ensures name == GroupName(groupType, index)
    {
      if groupType == Number {
        name := Decimal(index) + Suffix;
      } else {
        var letters := "";
        var num := index - 1;
        while num >= 0
          invariant AlphaName(num + 1) + letters == AlphaName(index)
        {
          letters := [Letter(num % 26)] + letters;
          num := num / 26 - 1;
        }
        name := letters + Suffix;
      }
    }

    /** Checks an unchecked group as the newest, or unchecks a checked one
        and closes the gap in the orders after it. */
    method ToggleCheck(id: nat)
      requires Valid() && id in checks
      modifies this
      ensures Valid()
      ensures groupType == old(groupType) && groupCount == old(groupCount)
      ensures old(checks[id].checked) ==>
        checks == AfterUncheck(old(checks), id) && checkOrder == old(checkOrder) - 1
      ensures !old(checks[id].checked) ==>
        checks == AfterCheck(old(checks), id, old(checkOrder)) && checkOrder == old(checkOrder) + 1
    {
      var check := checks[id];
      if check.checked {
        var oldOrder := check.order.value;
        UncheckIsClearThenShift(checks, id);
        checks := checks[id := check.(checked := false, order := None)];
        CloseOrderGap(oldOrder);
        UncheckKeepsInvariant(old(checks), old(checkOrder), id);
        checkOrder := checkOrder - 1;
      } else {
        CheckKeepsInvariant(checks, checkOrder, id);
        checkOrder := checkOrder + 1;
        checks := checks[id := check.(checked := true, order := Some(checkOrder))];
      }
    }

    /** The loop of the unchecking branch of ToggleCheck: every order above
        `removed` moves down by one. */
    method CloseOrderGap(removed: nat)
      modifies this`checks
      ensures checks == ShiftedDown(old(checks), removed)
    {
      ghost var before := checks;
      var pending := checks.Keys;
      while pending != {}
        invariant pending <= before.Keys && checks.Keys == before.Keys
        invariant forall i :: i in before ==>
          checks[i] == if i in pending then before[i] else ShiftDown(before[i], removed)
        decreases pending
      {
        var i :| i in pending;
        var r := checks[i];
        if r.order.Some? && r.order.value > removed {
          checks := checks[i := r.(order := Some(r.order.value - 1))];
        }
        pending := pending - {i};
      }
    }

    /** Unchecks every group; notes and the set of groups stay. */
    method ClearAll()
      requires Valid()
      modifies this
      ensures Valid()
      ensures checks == Cleared(old(checks)) && checkOrder == 0
      ensures groupType == old(groupType) && groupCount == old(groupCount)
    {
      ghost var before := checks;
      var pending := checks.Keys;
      while pending != {}
        modifies this`checks
        invariant pending <= before.Keys && checks.Keys == before.Keys
        invariant forall i :: i in before ==>
          checks[i] == if i in pending then before[i] else Clear(before[i])
        decreases pending
      {
        var i :| i in pending;
        checks := checks[i := checks[i].(checked := false, order := None)];
        pending := pending - {i};
      }
      checkOrder := 0;
      assert checks == Cleared(before);
    }

    /** Replaces group `id`'s note; does nothing when there is no such group. */
    method UpdateNote(id: nat, note: string)
      requires Valid()
      modifies this
      ensures Valid()
      ensures checks == WithNote(old(checks), id, note)
      ensures checkOrder == old(checkOrder)
      ensures groupType == old(groupType) && groupCount == old(groupCount)
    {
      NoteKeepsInvariant(checks, checkOrder, id, note);
      if id in checks {
        checks := checks[id := checks[id].(note := note)];
      }
    }

    /** Applies a new naming scheme and group count: new groups start
        unchecked, removed groups are dropped and the remaining checked
        groups are renumbered. */
    method UpdateSettings(t: GroupType, n: nat)
      requires Valid() && 1 <= n <= 30
      modifies this
      ensures Valid()
      ensures groupType == t && groupCount == n
      ensures n > old(groupCount) ==>
        checks == Grown(old(checks), old(groupCount), n) && checkOrder == old(checkOrder)
      ensures n == old(groupCount) ==> checks == old(checks) && checkOrder == old(checkOrder)
      ensures n < old(groupCount) ==>
        Renumbered(Truncated(old(checks), n, old(groupCount)), checks, checkOrder)
    {
      var oldCount := groupCount;
      groupType := t;
      groupCount := n;
      if n > oldCount {
        GrowKeepsInvariant(checks, checkOrder, oldCount, n);
        AddGroups(oldCount, n);
      } else if n < oldCount {
        RemoveGroups(n, oldCount);
        RecalculateOrder();
      }
    }

    /** The loop of UpdateSettings that adds default records for ids oldCount+1..n. */
    method AddGroups(oldCount: nat, n: nat)
      requires oldCount < n
      modifies this`checks
      ensures checks == Grown(old(checks), oldCount, n)
    {
      var i := oldCount + 1;
      while i <= n
        invariant oldCount + 1 <= i <= n + 1
        invariant checks == Grown(old(checks), oldCount, i - 1)
      {
        checks := checks[i := Default];
        i := i + 1;
      }
    }

    /** The loop of UpdateSettings that deletes the records of ids n+1..oldCount. */
    method RemoveGroups(n: nat, oldCount: nat)
      requires n < oldCount
      modifies this`checks
      ensures checks == Truncated(old(checks), n, oldCount)
    {
      var i := n + 1;
      while i <= oldCount
        invariant n + 1 <= i <= oldCount + 1
        invariant checks == Truncated(old(checks), n, i - 1)
      {
        checks := checks - {i};
        i := i + 1;
      }
    }

    /** Gives the checked groups the orders 1..k in their existing order
        and sets the counter to k. */
    method RecalculateOrder()
      requires OrderMatchesFlag(checks)
      modifies this
      ensures Renumbered(old(checks), checks, checkOrder)
      ensures groupType == old(groupType) && groupCount == old(groupCount)
    {
      ghost var before := checks;
      var items := CollectChecked();
      var sorted := SortByOrder(items);
      CollectedReordered(before, items, sorted);
      AssignRanks(sorted);
      RanksRenumber(before, sorted, checks);
      checkOrder := |sorted|;
    }

    /** The first loop of RecalculateOrder: the checked groups with their orders. */
    method CollectChecked() returns (items: seq<Item>)
      requires OrderMatchesFlag(checks)
      ensures Collected(checks, items) && DistinctIds(items)
    {
      items := [];
      var pending := checks.Keys;
      while pending != {}
        invariant pending <= checks.Keys
        invariant forall x :: x in items ==>
          x.id in checks && x.id !in pending && checks[x.id].checked && checks[x.id].order == Some(x.order)
        invariant forall id :: id in checks && id !in pending && checks[id].checked ==> id in IdsOf(items)
        invariant DistinctIds(items)
        decreases pending
      {
        var id :| id in pending;
        var r := checks[id];
        if r.checked && r.order.Some? && r.order.value != 0 {
          items := items + [Item(id, r.order.value)];
        }
        pending := pending - {id};
      }
    }

    /** The last loop of RecalculateOrder: the group at position j of `sorted`
        gets order j + 1. */
    method AssignRanks(sorted: seq<Item>)
      requires DistinctIds(sorted) && forall x :: x in sorted ==> x.id in checks
      modifies this`checks
      ensures RanksAssigned(old(checks), sorted, checks)
    {
      var index := 0;
      while index < |sorted|
        invariant 0 <= index <= |sorted|
        invariant RanksAssigned(old(checks), sorted[..index], checks)
      {
        var id := sorted[index].id;
        assert sorted[index] in sorted;
        assert IdsOf(sorted[..index + 1]) == IdsOf(sorted[..index]) + {id};
        checks := checks[id := checks[id].(order := Some(index + 1))];
        index := index + 1;
      }
      assert sorted[..index] == sorted;
    }
  }
}
