/** Sums over finite maps, and how often a value occurs in a list. */
module Sums {

  /** The sum of a map's values. */
  ghost function Sum<K>(m: map<K, int>): int
    decreases |m|
  {
    if m == map[] then 0
    else
      var k :| k in m;
      m[k] + Sum(m - {k})
  }

  /** The sum does not depend on which key is taken first. */
  lemma {:induction false} SumRemove<K>(m: map<K, int>, k: K)
    requires k in m
    ensures Sum(m) == m[k] + Sum(m - {k})
    decreases |m|
  {
    var first :| first in m && Sum(m) == m[first] + Sum(m - {first});
    if first != k {
      SumRemove(m - {first}, k);
      SumRemove(m - {k}, first);
      assert (m - {first}) - {k} == (m - {k}) - {first};
    }
  }

  lemma SumUpdate<K>(m: map<K, int>, k: K, v: int)
    ensures Sum(m[k := v]) == Sum(m) + v - (if k in m then m[k] else 0)
  {
    SumRemove(m[k := v], k);
    if k in m {
      SumRemove(m, k);
      assert m[k := v] - {k} == m - {k};
    } else {
      assert m[k := v] - {k} == m;
    }
  }

  /** Writing v at k, where zero values are left out of the map. */
  lemma SumAfter<K>(m: map<K, int>, k: K, v: int)
    requires k in m ==> m[k] != 0
    ensures var m' := if v == 0 then m - {k} else m[k := v];
      var was := if k in m then m[k] else 0;
      && Sum(m') == Sum(m) + v - was
      && |m'| == |m| + (if v != 0 && was == 0 then 1 else 0) - (if v == 0 && was != 0 then 1 else 0)
  {
    assert |m.Keys| == |m|;
    if v == 0 {
      var m' := m - {k};
      assert m'.Keys == m.Keys - {k} && |m'.Keys| == |m'|;
      if k in m {
        SumRemove(m, k);
      } else {
        assert m' == m;
      }
    } else {
      var m' := m[k := v];
      assert m'.Keys == m.Keys + {k} && |m'.Keys| == |m'|;
      SumUpdate(m, k, v);
    }
  }

  /** How often t occurs in the list. */
  ghost function Occurs(list: seq<nat>, t: nat): nat {
    multiset(list)[t]
  }

  /** `list.filter(n => !remove.includes(n))` */
  function FilterOut(list: seq<nat>, remove: seq<nat>): seq<nat> {
    if list == [] then []
    else FilterOut(list[..|list| - 1], remove) + if list[|list| - 1] in remove then [] else [list[|list| - 1]]
  }

  lemma OccursAppend(list: seq<nat>, more: seq<nat>, t: nat)
    ensures Occurs(list + more, t) == Occurs(list, t) + Occurs(more, t)
  {
  }

  lemma OccursSingle(x: nat, t: nat)
    ensures Occurs([x], t) == if t == x then 1 else 0
  {
  }

  lemma {:induction false} OccursFilterOut(list: seq<nat>, remove: seq<nat>, t: nat)
    ensures Occurs(FilterOut(list, remove), t) == if t in remove then 0 else Occurs(list, t)
    decreases |list|
  {
    if list != [] {
      var front, last := list[..|list| - 1], list[|list| - 1];
      OccursFilterOut(front, remove, t);
      assert list == front + [last];
      OccursAppend(front, [last], t);
      OccursSingle(last, t);
      if last !in remove {
        OccursAppend(FilterOut(front, remove), [last], t);
      }
    }
  }

  lemma {:induction false} FilterOneLength(list: seq<nat>, x: nat)
    ensures |FilterOut(list, [x])| == |list| - Occurs(list, x)
    decreases |list|
  {
    if list != [] {
      var front, last := list[..|list| - 1], list[|list| - 1];
      FilterOneLength(front, x);
      assert list == front + [last];
      OccursAppend(front, [last], x);
      OccursSingle(last, x);
    }
  }

  lemma OccursIn(list: seq<nat>, t: nat)
    ensures Occurs(list, t) > 0 <==> t in list
  {
  }

  /** What is left of a list is in the list's order. */
  lemma {:induction false} FilterKeepsOrder(list: seq<nat>, remove: seq<nat>, i: nat, j: nat)
    requires i < j < |FilterOut(list, remove)|
    ensures exists m, n :: 0 <= m < n < |list| && list[m] == FilterOut(list, remove)[i] && list[n] == FilterOut(list, remove)[j]
    ensures FilterOut(list, remove)[i] !in remove && FilterOut(list, remove)[j] !in remove
    decreases |list|
  {
    var front, last := list[..|list| - 1], list[|list| - 1];
    var left := FilterOut(front, remove);
    if j < |left| {
      FilterKeepsOrder(front, remove, i, j);
      var m, n :| 0 <= m < n < |front| && front[m] == left[i] && front[n] == left[j];
      assert list[m] == left[i] && list[n] == left[j];
    } else {
      FilterMembers(front, remove, i);
      var m :| 0 <= m < |front| && front[m] == left[i];
      assert list[m] == left[i] && list[|front|] == last;
    }
  }

  lemma {:induction false} FilterMembers(list: seq<nat>, remove: seq<nat>, i: nat)
    requires i < |FilterOut(list, remove)|
    ensures exists m :: 0 <= m < |list| && list[m] == FilterOut(list, remove)[i]
    ensures FilterOut(list, remove)[i] !in remove
    decreases |list|
  {
    var front := list[..|list| - 1];
    if i < |FilterOut(front, remove)| {
      FilterMembers(front, remove, i);
      var m :| 0 <= m < |front| && front[m] == FilterOut(front, remove)[i];
      assert list[m] == FilterOut(front, remove)[i];
    } else {
      assert list[|list| - 1] == FilterOut(list, remove)[i];
    }
  }
}
