/** Per-group check records, the ordering invariant they keep, and the
    record-map transitions the store's operations perform, as values. */
module Checks {

  datatype Option<T> = None | Some(value: T)

  /** One group's record: checked flag, 1-based check order (`null` in the
      original when absent) and free-text note. */
  datatype Record = Record(checked: bool, order: Option<nat>, note: string)

  /** The record every group starts with. */
  const Default: Record := Record(false, None, "")

  /** Group ids lo..hi. */
  function IdRange(lo: nat, hi: nat): (s: set<nat>)
    ensures forall i :: i in s <==> lo <= i <= hi
    decreases hi
  {
    if hi < lo then {} else if hi == lo then {lo} else IdRange(lo, hi - 1) + {hi}
  }

  /** Default records for ids lo..hi. */
  function Defaults(lo: nat, hi: nat): (m: map<nat, Record>)
    ensures m.Keys == IdRange(lo, hi)
    ensures forall i :: i in m ==> m[i] == Default
  {
    map i | i in IdRange(lo, hi) :: Default
  }

  /** The ids of the checked groups. */
  function CheckedIds(m: map<nat, Record>): set<nat>
  {
    set id | id in m && m[id].checked
  }

  /** Some group holds order `o`. */
  ghost predicate HasOrder(m: map<nat, Record>, o: nat)
  {
    exists id :: id in m && m[id].order == Some(o)
  }

  /** A record has an order exactly when it is checked, and orders are positive. */
  ghost predicate OrderMatchesFlag(m: map<nat, Record>)
  {
    forall id :: id in m ==> (m[id].checked <==> m[id].order.Some?) && (m[id].order.Some? ==> m[id].order.value >= 1)
  }

  /** No two groups share an order. */
  ghost predicate DistinctOrders(m: map<nat, Record>)
  {
    forall a, b :: a in m && b in m && m[a].order.Some? && m[a].order == m[b].order ==> a == b
  }

  /** The store's invariant: the orders of the checked groups are exactly
      1..k, each used once, and unchecked groups have no order. */
  ghost predicate OrdersValid(m: map<nat, Record>, k: nat)
  {
    && OrderMatchesFlag(m)
    && DistinctOrders(m)
    && (forall id :: id in m && m[id].order.Some? ==> m[id].order.value <= k)
    && (forall o :: 1 <= o <= k ==> HasOrder(m, o))
  }

  /** Ids whose order is at most j. */
  function OrderedUpTo(m: map<nat, Record>, j: nat): set<nat>
  {
    set id | id in m && m[id].order.Some? && m[id].order.value <= j
  }

  /** Under the invariant, exactly j groups hold an order of at most j. */
  lemma {:induction false} OrderedUpToCount(m: map<nat, Record>, k: nat, j: nat)
    requires OrdersValid(m, k) && j <= k
    ensures |OrderedUpTo(m, j)| == j
  {
    if j == 0 {
      assert OrderedUpTo(m, 0) == {};
    } else {
      OrderedUpToCount(m, k, j - 1);
      assert HasOrder(m, j);
      var id :| id in m && m[id].order == Some(j);
      assert OrderedUpTo(m, j) == OrderedUpTo(m, j - 1) + {id};
    }
  }

  /** Under the invariant, the counter equals the number of checked groups. */
  lemma CheckedCount(m: map<nat, Record>, k: nat)
    requires OrdersValid(m, k)
    ensures |CheckedIds(m)| == k
  {
    OrderedUpToCount(m, k, k);
    assert CheckedIds(m) == OrderedUpTo(m, k);
  }

  /** Under the invariant, when any group is checked exactly one holds order 1. */
  lemma FirstCheckedMarker(m: map<nat, Record>, k: nat)
    requires OrdersValid(m, k) && CheckedIds(m) != {}
    ensures exists id :: id in m && m[id].order == Some(1)
    ensures forall a, b :: a in m && b in m && m[a].order == Some(1) && m[b].order == Some(1) ==> a == b
  {
    var c :| c in CheckedIds(m);
    assert HasOrder(m, 1);
  }

  // ---- checking and unchecking one group ----

  /** Checking group `id` when `k` groups were checked. */
  function AfterCheck(m: map<nat, Record>, id: nat, k: nat): (r: map<nat, Record>)
    requires id in m
    ensures r.Keys == m.Keys
    ensures r[id].checked && r[id].order == Some(k + 1) && r[id].note == m[id].note
    ensures forall j :: j in m && j != id ==> r[j] == m[j]
  {
    m[id := m[id].(checked := true, order := Some(k + 1))]
  }

  function Clear(r: Record): Record
  {
    r.(checked := false, order := None)
  }

  /** Closes the gap left by order `removed`: an order above it moves down by one. */
  function ShiftDown(r: Record, removed: nat): Record
  {
    if r.order.Some? && r.order.value > removed then r.(order := Some(r.order.value - 1)) else r
  }

  /** Unchecking group `id`: it loses its order, later orders close the gap. */
  function AfterUncheck(m: map<nat, Record>, id: nat): (r: map<nat, Record>)
    requires id in m && m[id].order.Some?
    ensures r.Keys == m.Keys
    ensures !r[id].checked && r[id].order.None? && r[id].note == m[id].note
    ensures forall j :: j in m && j != id ==> r[j].checked == m[j].checked && r[j].note == m[j].note
    ensures forall j :: j in m && j != id && m[j].order.Some? && m[j].order.value > m[id].order.value ==>
      r[j].order.Some? && r[j].order.value == m[j].order.value - 1
    ensures forall j :: j in m && j != id && !(m[j].order.Some? && m[j].order.value > m[id].order.value) ==>
      r[j] == m[j]
  {
    map i | i in m :: if i == id then Clear(m[i]) else ShiftDown(m[i], m[id].order.value)
  }

  /** Every order above `removed` moved down by one. */
  function ShiftedDown(m: map<nat, Record>, removed: nat): map<nat, Record>
  {
    map i | i in m :: ShiftDown(m[i], removed)
  }

  /** Unchecking is clearing the group's record, then closing the gap. */
  lemma UncheckIsClearThenShift(m: map<nat, Record>, id: nat)
    requires id in m && m[id].order.Some?
    ensures ShiftedDown(m[id := Clear(m[id])], m[id].order.value) == AfterUncheck(m, id)
  {
  }

  /** Checking an unchecked group keeps the invariant with one more checked
      group, and the new group's order is strictly the highest. */
  lemma CheckKeepsInvariant(m: map<nat, Record>, k: nat, id: nat)
    requires OrdersValid(m, k) && id in m && !m[id].checked
    ensures OrdersValid(AfterCheck(m, id, k), k + 1)
    ensures var r := AfterCheck(m, id, k);
      forall j :: j in r && j != id && r[j].checked ==> r[j].order.value < r[id].order.value
  {
    var r := AfterCheck(m, id, k);
    forall o | 1 <= o <= k + 1
      ensures HasOrder(r, o)
    {
      if o == k + 1 {
        assert r[id].order == Some(o);
      } else {
        assert HasOrder(m, o);
        var w :| w in m && m[w].order == Some(o);
        assert r[w].order == Some(o);
      }
    }
  }

  /** Unchecking a checked group keeps the invariant with one fewer checked group. */
  lemma UncheckKeepsInvariant(m: map<nat, Record>, k: nat, id: nat)
    requires OrdersValid(m, k) && id in m && m[id].checked
    ensures k >= 1 && OrdersValid(AfterUncheck(m, id), k - 1)
  {
    var o := m[id].order.value;
    var r := AfterUncheck(m, id);
    forall p | 1 <= p <= k - 1
      ensures HasOrder(r, p)
    {
      var q := if p < o then p else p + 1;
      assert HasOrder(m, q);
      var w :| w in m && m[w].order == Some(q);
      assert w != id;
      assert r[w].order == Some(p);
    }
    forall a, b | a in r && b in r && r[a].order.Some? && r[a].order == r[b].order
      ensures a == b
    {
      assert a != id && b != id;
      assert m[a].order.value != o && m[b].order.value != o;
    }
  }

  /** Unchecking preserves the relative check order of the remaining groups. */
  lemma UncheckKeepsRelativeOrder(m: map<nat, Record>, k: nat, id: nat, a: nat, b: nat)
    requires OrdersValid(m, k) && id in m && m[id].checked
    requires a in m && b in m && a != id && b != id && m[a].checked && m[b].checked
    ensures var r := AfterUncheck(m, id);
      r[a].checked && r[b].checked &&
      (m[a].order.value < m[b].order.value <==> r[a].order.value < r[b].order.value)
  {
    assert m[a].order.value != m[id].order.value;
    assert m[b].order.value != m[id].order.value;
  }

  // ---- clearing, notes, growing and truncating ----

  /** Every group unchecked, notes kept. */
  function Cleared(m: map<nat, Record>): (r: map<nat, Record>)
    ensures OrdersValid(r, 0)
  {
    map i | i in m :: Clear(m[i])
  }

  /** Group `id`'s note replaced, when `id` is a group. */
  function WithNote(m: map<nat, Record>, id: nat, note: string): (r: map<nat, Record>)
    ensures r.Keys == m.Keys
    ensures id in m ==> r[id].note == note && r[id].checked == m[id].checked && r[id].order == m[id].order
    ensures forall j :: j in m && j != id ==> r[j] == m[j]
  {
    if id in m then m[id := m[id].(note := note)] else m
  }

  lemma NoteKeepsInvariant(m: map<nat, Record>, k: nat, id: nat, note: string)
    requires OrdersValid(m, k)
    ensures OrdersValid(WithNote(m, id, note), k)
  {
    var r := WithNote(m, id, note);
    forall o | 1 <= o <= k
      ensures HasOrder(r, o)
    {
      assert HasOrder(m, o);
      var w :| w in m && m[w].order == Some(o);
      assert r[w].order == Some(o);
    }
  }

  /** Ids oldCount+1..n added with default records. */
  function Grown(m: map<nat, Record>, oldCount: nat, n: nat): (r: map<nat, Record>)
    ensures r.Keys == m.Keys + IdRange(oldCount + 1, n)
    ensures forall i :: i in r ==> r[i] == if oldCount < i <= n then Default else m[i]
  {
    m + Defaults(oldCount + 1, n)
  }

  lemma GrowKeepsInvariant(m: map<nat, Record>, k: nat, oldCount: nat, n: nat)
    requires OrdersValid(m, k) && m.Keys == IdRange(1, oldCount) && oldCount < n
    ensures var r := Grown(m, oldCount, n);
      r.Keys == IdRange(1, n) && OrdersValid(r, k) &&
      (forall i :: 1 <= i <= oldCount ==> r[i] == m[i]) &&
      (forall i :: oldCount < i <= n ==> r[i] == Default)
  {
    var r := Grown(m, oldCount, n);
    forall o | 1 <= o <= k
      ensures HasOrder(r, o)
    {
      assert HasOrder(m, o);
      var w :| w in m && m[w].order == Some(o);
      assert w in r && r[w].order == Some(o);
    }
  }

  /** Ids newCount+1..oldCount removed. */
  function Truncated(m: map<nat, Record>, newCount: nat, oldCount: nat): (r: map<nat, Record>)
    ensures forall i :: i in r <==> i in m && !(newCount < i <= oldCount)
    ensures forall i :: i in r ==> r[i] == m[i]
  {
    m - IdRange(newCount + 1, oldCount)
  }

  // ---- renumbering after a shrink ----

  /** `after` renumbers `before`: same groups, flags and notes; the orders
      of the checked groups are 1..k; and a group checked before another
      keeps a smaller order than it. */
  ghost predicate Renumbered(before: map<nat, Record>, after: map<nat, Record>, k: nat)
  {
    && after.Keys == before.Keys
    && (forall id :: id in before ==> after[id].checked == before[id].checked && after[id].note == before[id].note)
    && OrdersValid(after, k)
    && (forall a, b ::
          a in before && b in before && before[a].order.Some? && before[b].order.Some? &&
          before[a].order.value < before[b].order.value &&
          after[a].order.Some? && after[b].order.Some?
          ==> after[a].order.value < after[b].order.value)
  }

  /** Renumbering is unique: when the old orders are distinct, only one
      result fits, and its counter is the number of checked groups. */
  lemma RenumberedUnique(before: map<nat, Record>, r1: map<nat, Record>, k1: nat, r2: map<nat, Record>, k2: nat)
    requires OrderMatchesFlag(before) && DistinctOrders(before)
    requires Renumbered(before, r1, k1) && Renumbered(before, r2, k2)
    ensures r1 == r2 && k1 == k2 == |CheckedIds(before)|
  {
    CheckedCount(r1, k1);
    CheckedCount(r2, k2);
    assert CheckedIds(r1) == CheckedIds(before) == CheckedIds(r2);
    forall x | x in before
      ensures r1[x] == r2[x]
    {
      if before[x].checked {
        SameRank(before, r1, k1, r2, k2, x);
      }
    }
  }

  /** Both renumberings give a checked group the same order: its rank. */
  lemma SameRank(before: map<nat, Record>, r1: map<nat, Record>, k1: nat, r2: map<nat, Record>, k2: nat, x: nat)
    requires OrderMatchesFlag(before) && DistinctOrders(before)
    requires Renumbered(before, r1, k1) && Renumbered(before, r2, k2)
    requires x in before && before[x].checked
    ensures r1[x].order == r2[x].order
  {
    var v1, v2 := r1[x].order.value, r2[x].order.value;
    var below := set y | y in before && before[y].order.Some? && before[y].order.value <= before[x].order.value;
    RankSet(before, r1, k1, x);
    RankSet(before, r2, k2, x);
    assert OrderedUpTo(r1, v1) == below == OrderedUpTo(r2, v2);
    OrderedUpToCount(r1, k1, v1);
    OrderedUpToCount(r2, k2, v2);
  }

  /** The groups a renumbering puts at or below x are those checked no later than x. */
  lemma RankSet(before: map<nat, Record>, r: map<nat, Record>, k: nat, x: nat)
    requires OrderMatchesFlag(before) && DistinctOrders(before)
    requires Renumbered(before, r, k)
    requires x in before && before[x].checked
    ensures OrderedUpTo(r, r[x].order.value) ==
      set y | y in before && before[y].order.Some? && before[y].order.value <= before[x].order.value
  {
    var below := set y | y in before && before[y].order.Some? && before[y].order.value <= before[x].order.value;
    forall y | y in before
      ensures y in OrderedUpTo(r, r[x].order.value) <==> y in below
    {
      if before[y].checked && y != x {
        assert before[y].order.value != before[x].order.value;
      }
    }
  }
}
