/** Concrete sessions against the store, each proved to end in the state
    its contract gives. */
module Scenarios {
  import opened Checks
  import App

  /** With groups 5 and 2 checked, clearing and then checking group 3 and
      then group 1: group 3 is first, group 1 second, and two groups are
      checked. */
  method ClearThenCheckThreeAndOne() returns (first: Option<nat>, second: Option<nat>, count: nat)
    ensures first.Some? && first.value == 1
    ensures second.Some? && second.value == 2
    ensures count == 2
  {
    var s := new App.AppState();
    s.ToggleCheck(5);
    s.ToggleCheck(2);
    s.ClearAll();
    first, second, count := CheckThreeThenOne(s);
  }

  /** On a store with nothing checked, checking group 3 and then group 1
      numbers them 1 and 2. */
  method CheckThreeThenOne(s: App.AppState) returns (first: Option<nat>, second: Option<nat>, count: nat)
    requires s.Valid() && s.checkOrder == 0 && 1 in s.checks && 3 in s.checks
    modifies s
    ensures first.Some? && first.value == 1
    ensures second.Some? && second.value == 2
    ensures count == 2
  {
    assert !s.checks[3].checked && !s.checks[1].checked;
    s.ToggleCheck(3);
    assert !s.checks[1].checked;
    s.ToggleCheck(1);
    first, second, count := s.checks[3].order, s.checks[1].order, s.checkOrder;
  }

  /** Ten fresh groups in which 2, 4, 7 and 9 are checked in that order. */
  function FourChecked(): (m: map<nat, Record>)
    ensures m.Keys == IdRange(1, 10)
    ensures m[2].order == Some(1) && m[1] == m[3] == Default
  {
    var m1 := AfterCheck(Defaults(1, 10), 2, 0);
    var m2 := AfterCheck(m1, 4, 1);
    var m3 := AfterCheck(m2, 7, 2);
    AfterCheck(m3, 9, 3)
  }

  /** Shrinking those ten groups to three: whatever renumbering the store
      settles on, group 2 is the only checked survivor and holds order 1. */
  lemma ShrinkKeepsSurvivorFirst(after: map<nat, Record>, k: nat)
    requires Renumbered(Truncated(FourChecked(), 3, 10), after, k)
    ensures after.Keys == IdRange(1, 3)
    ensures after[2].order.Some? && after[2].order.value == 1 && k == 1
    ensures !after[1].checked && !after[3].checked
  {
    var m := FourChecked();
    var before := Truncated(m, 3, 10);
    assert before.Keys == IdRange(1, 3);
    assert before[1] == m[1] && before[2] == m[2] && before[3] == m[3];
    forall x | x in after
      ensures after[x].checked <==> x == 2
    {
      assert x == 1 || x == 2 || x == 3;
    }
    assert CheckedIds(after) == {2};
    CheckedCount(after, k);
  }
}
