/** The pieces of the order recalculation that runs after a shrink: the
    list of checked groups with their orders, sorted by order, whose
    positions become the new orders. */
module Ranking {
  import opened Checks

  /** A checked group and its current order. */
  datatype Item = Item(id: nat, order: nat)

  ghost predicate SortedByOrder(s: seq<Item>)
  {
    forall i, j :: 0 <= i < j < |s| ==> s[i].order <= s[j].order
  }

  ghost predicate DistinctIds(s: seq<Item>)
  {
    forall i, j :: 0 <= i < j < |s| ==> s[i].id != s[j].id
  }

  function IdsOf(s: seq<Item>): set<nat>
  {
    set x | x in s :: x.id
  }

  /** Places `x` into the sorted list `s`. */
  function Insert(x: Item, s: seq<Item>): (r: seq<Item>)
    requires SortedByOrder(s)
    ensures SortedByOrder(r) && multiset(r) == multiset(s) + multiset{x}
  {
    if s == [] then [x]
    else if x.order <= s[0].order then [x] + s
    else
      var rest := Insert(x, s[1..]);
      assert s == [s[0]] + s[1..];
      PrependSorted(s[0], x, s[1..], rest);
      [s[0]] + rest
  }

  /** A group no later than `x` and than everything in `t` can go in front
      of a sorted permutation of `t` + [x]. */
  lemma PrependSorted(first: Item, x: Item, t: seq<Item>, rest: seq<Item>)
    requires SortedByOrder(rest) && multiset(rest) == multiset(t) + multiset{x}
    requires first.order <= x.order && forall y :: y in t ==> first.order <= y.order
    ensures SortedByOrder([first] + rest)
  {
    forall y | y in rest
      ensures first.order <= y.order
    {
      assert y in multiset(rest);
    }
    var r := [first] + rest;
    forall i, j | 0 <= i < j < |r|
      ensures r[i].order <= r[j].order
    {
      if i > 0 {
        assert r[i] == rest[i - 1] && r[j] == rest[j - 1];
      } else {
        assert r[j] == rest[j - 1] && rest[j - 1] in rest;
      }
    }
  }

  /** Sorting by ascending order, as the comparator `a.order - b.order`
      asks of the library sort: the result is sorted and a permutation. */
  function SortByOrder(s: seq<Item>): (r: seq<Item>)
    ensures SortedByOrder(r) && multiset(r) == multiset(s)
    ensures DistinctIds(s) ==> DistinctIds(r)
  {
    if s == [] then []
    else
      var init := s[..|s| - 1];
      assert s == init + [s[|s| - 1]];
      var sorted := SortByOrder(init);
      SameIds(init, sorted);
      assert DistinctIds(s) ==> DistinctIds(init) && s[|s| - 1].id !in IdsOf(init);
      InsertKeepsIdsDistinct(s[|s| - 1], sorted);
      Insert(s[|s| - 1], sorted)
  }

  /** Two permutations of each other list the same groups. */
  lemma SameIds(s: seq<Item>, t: seq<Item>)
    requires multiset(s) == multiset(t)
    ensures IdsOf(s) == IdsOf(t)
  {
    forall id | id in IdsOf(s)
      ensures id in IdsOf(t)
    {
      var x :| x in s && x.id == id;
      assert x in multiset(t);
    }
    forall id | id in IdsOf(t)
      ensures id in IdsOf(s)
    {
      var x :| x in t && x.id == id;
      assert x in multiset(s);
    }
  }

  /** Inserting a group not yet listed keeps the listed groups distinct. */
  lemma {:induction false} InsertKeepsIdsDistinct(x: Item, s: seq<Item>)
    requires SortedByOrder(s)
    ensures DistinctIds(s) && x.id !in IdsOf(s) ==> DistinctIds(Insert(x, s))
  {
    if DistinctIds(s) && x.id !in IdsOf(s) && s != [] {
      var r := Insert(x, s);
      if x.order <= s[0].order {
        forall j | 1 <= j < |r|
          ensures r[j].id != x.id
        {
          assert r[j] == s[j - 1] && s[j - 1] in s;
        }
      } else {
        var rest := s[1..];
        assert s == [s[0]] + rest;
        assert IdsOf(rest) <= IdsOf(s);
        InsertKeepsIdsDistinct(x, rest);
        var inserted := Insert(x, rest);
        forall j | 0 <= j < |inserted|
          ensures inserted[j].id != s[0].id
        {
          assert inserted[j] in multiset(inserted);
        }
        assert r == [s[0]] + inserted;
      }
    }
  }

  /** `s` lists exactly the checked groups of `m`, each with its order. */
  ghost predicate Collected(m: map<nat, Record>, s: seq<Item>)
  {
    && (forall x :: x in s ==> x.id in m && m[x.id].checked && m[x.id].order == Some(x.order))
    && (forall id :: id in m && m[id].checked ==> id in IdsOf(s))
  }

  /** A reordering of a collected list is still collected. */
  lemma CollectedReordered(m: map<nat, Record>, s: seq<Item>, t: seq<Item>)
    requires Collected(m, s) && multiset(t) == multiset(s)
    ensures Collected(m, t)
  {
    SameIds(s, t);
    forall x | x in t
      ensures x.id in m && m[x.id].checked && m[x.id].order == Some(x.order)
    {
      assert x in multiset(s);
    }
  }

  /** `r` is `m` with the group at position j of `s` given order j + 1. */
  ghost predicate RanksAssigned(m: map<nat, Record>, s: seq<Item>, r: map<nat, Record>)
  {
    && r.Keys == m.Keys
    && (forall j :: 0 <= j < |s| ==> s[j].id in m && r[s[j].id] == m[s[j].id].(order := Some(j + 1)))
    && (forall id :: id in m && id !in IdsOf(s) ==> r[id] == m[id])
  }

  /** The position at which a listed group stands. */
  lemma PositionOf(s: seq<Item>, id: nat) returns (j: nat)
    requires id in IdsOf(s)
    ensures j < |s| && s[j].id == id
  {
    var x :| x in s && x.id == id;
    j :| j < |s| && s[j] == x;
  }

  /** After ranks are assigned, a group has an order exactly when it is
      listed, and that order is its position plus one. */
  lemma RankOfListed(m: map<nat, Record>, s: seq<Item>, r: map<nat, Record>, id: nat) returns (j: nat)
    requires OrderMatchesFlag(m) && DistinctIds(s) && Collected(m, s) && RanksAssigned(m, s, r)
    requires id in m && r[id].order.Some?
    ensures j < |s| && s[j].id == id && r[id].order == Some(j + 1)
  {
    j := PositionOf(s, id);
  }

  /** Giving the checked groups, sorted by order, their positions as orders
      renumbers them. */
  lemma RanksRenumber(m: map<nat, Record>, s: seq<Item>, r: map<nat, Record>)
    requires OrderMatchesFlag(m) && SortedByOrder(s) && DistinctIds(s)
    requires Collected(m, s) && RanksAssigned(m, s, r)
    ensures Renumbered(m, r, |s|)
  {
    RanksValid(m, s, r);
    forall a, b |
      a in m && b in m && m[a].order.Some? && m[b].order.Some? &&
      m[a].order.value < m[b].order.value &&
      r[a].order.Some? && r[b].order.Some?
      ensures r[a].order.value < r[b].order.value
    {
      var i := RankOfListed(m, s, r, a);
      var j := RankOfListed(m, s, r, b);
      assert s[i] in s && s[j] in s;
    }
  }

  /** The assigned ranks keep flags and notes and are exactly 1..|s|. */
  lemma RanksValid(m: map<nat, Record>, s: seq<Item>, r: map<nat, Record>)
    requires OrderMatchesFlag(m) && DistinctIds(s)
    requires Collected(m, s) && RanksAssigned(m, s, r)
    ensures forall id :: id in m ==> r[id].checked == m[id].checked && r[id].note == m[id].note
    ensures OrdersValid(r, |s|)
  {
    forall id | id in m
      ensures r[id].checked == m[id].checked && r[id].note == m[id].note
      ensures (r[id].checked <==> r[id].order.Some?) && (r[id].order.Some? ==> 1 <= r[id].order.value <= |s|)
    {
      if id in IdsOf(s) {
        var j := PositionOf(s, id);
        assert s[j] in s;
      }
    }
    forall a, b | a in r && b in r && r[a].order.Some? && r[a].order == r[b].order
      ensures a == b
    {
      var i := RankOfListed(m, s, r, a);
      var j := RankOfListed(m, s, r, b);
    }
    forall o | 1 <= o <= |s|
      ensures HasOrder(r, o)
    {
      assert r[s[o - 1].id].order == Some(o);
    }
  }
}
