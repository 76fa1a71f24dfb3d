/**
 * The relational meaning of `GROUP BY key` with `COUNT(*)` and `SUM(value)`: one group per
 * distinct key, in the order the keys first appear.
 */
module Grouping {
  import opened Seqs

  datatype Group<K> = Group(key: K, count: nat, sum: int)

  predicate DistinctGroupKeys<K(==)>(gs: seq<Group<K>>) {
    forall i, j :: 0 <= i < j < |gs| ==> gs[i].key != gs[j].key
  }

  /** How many items carry key `k`. */
  function Occurrences<K(==)>(items: seq<(K, int)>, k: K): nat {
    if items == [] then 0
    else Occurrences(items[..|items| - 1], k) + (if items[|items| - 1].0 == k then 1 else 0)
  }

  /** The values of the items that carry key `k`, summed. */
  function SumFor<K(==)>(items: seq<(K, int)>, k: K): int {
    if items == [] then 0
    else SumFor(items[..|items| - 1], k) + (if items[|items| - 1].0 == k then items[|items| - 1].1 else 0)
  }

  /** Adds one item to its group, opening a new group at the end for a new key. */
  function AddItem<K(==)>(gs: seq<Group<K>>, k: K, v: int): (r: seq<Group<K>>)
    ensures |r| == |gs| || |r| == |gs| + 1
  {
    if gs == [] then [Group(k, 1, v)]
    else if gs[0].key == k then [Group(k, gs[0].count + 1, gs[0].sum + v)] + gs[1..]
    else [gs[0]] + AddItem(gs[1..], k, v)
  }

  /** The groups of `items`. */
  function GroupBy<K(==)>(items: seq<(K, int)>): seq<Group<K>> {
    if items == [] then []
    else AddItem(GroupBy(items[..|items| - 1]), items[|items| - 1].0, items[|items| - 1].1)
  }

  function Counts<K>(gs: seq<Group<K>>): (r: seq<int>)
    ensures |r| == |gs|
    ensures forall i :: 0 <= i < |gs| ==> r[i] == gs[i].count
  {
    if gs == [] then [] else [gs[0].count] + Counts(gs[1..])
  }

  lemma CountsPrefix<K>(gs: seq<Group<K>>, n: nat)
    requires n <= |gs|
    ensures Counts(gs)[..n] == Counts(gs[..n])
  {
  }

  function Sums<K>(gs: seq<Group<K>>): (r: seq<int>)
    ensures |r| == |gs|
    ensures forall i :: 0 <= i < |gs| ==> r[i] == gs[i].sum
  {
    if gs == [] then [] else [gs[0].sum] + Sums(gs[1..])
  }

  lemma {:induction false} SumConsCount<K>(g: Group<K>, gs: seq<Group<K>>)
    ensures Sum(Counts([g] + gs)) == g.count + Sum(Counts(gs))
    ensures Sum(Sums([g] + gs)) == g.sum + Sum(Sums(gs))
  {
    assert Counts([g] + gs) == [g.count] + Counts(gs) by {
      assert ([g] + gs)[1..] == gs;
    }
    assert Sums([g] + gs) == [g.sum] + Sums(gs) by {
      assert ([g] + gs)[1..] == gs;
    }
    SumAppend([g.count], Counts(gs));
    SumAppend([g.sum], Sums(gs));
    assert Sum([g.count]) == g.count by { assert [g.count][..0] == []; }
    assert Sum([g.sum]) == g.sum by { assert [g.sum][..0] == []; }
  }

  /** Adding an item adds one to the total count and its value to the total sum. */
  lemma {:induction false} AddItemTotals<K>(gs: seq<Group<K>>, k: K, v: int)
    ensures Sum(Counts(AddItem(gs, k, v))) == Sum(Counts(gs)) + 1
    ensures Sum(Sums(AddItem(gs, k, v))) == Sum(Sums(gs)) + v
  {
    if gs == [] {
      SumConsCount(Group(k, 1, v), []);
    } else if gs[0].key == k {
      SumConsCount(Group(k, gs[0].count + 1, gs[0].sum + v), gs[1..]);
      SumConsCount(gs[0], gs[1..]);
      assert gs == [gs[0]] + gs[1..];
    } else {
      AddItemTotals(gs[1..], k, v);
      SumConsCount(gs[0], AddItem(gs[1..], k, v));
      SumConsCount(gs[0], gs[1..]);
      assert gs == [gs[0]] + gs[1..];
    }
  }

  /** The count of the first group with key `k`, or 0 when there is none. */
  function CountOf<K(==)>(gs: seq<Group<K>>, k: K): nat {
    if gs == [] then 0 else if gs[0].key == k then gs[0].count else CountOf(gs[1..], k)
  }

  /** The sum of the first group with key `k`, or 0 when there is none. */
  function SumOf<K(==)>(gs: seq<Group<K>>, k: K): int {
    if gs == [] then 0 else if gs[0].key == k then gs[0].sum else SumOf(gs[1..], k)
  }

  predicate HasKey<K(==)>(gs: seq<Group<K>>, k: K) {
    exists i :: 0 <= i < |gs| && gs[i].key == k
  }

  /** Adding an item changes only the group of its key. */
  lemma {:induction false} AddItemOf<K>(gs: seq<Group<K>>, k: K, v: int, k': K)
    ensures CountOf(AddItem(gs, k, v), k') == CountOf(gs, k') + (if k' == k then 1 else 0)
    ensures SumOf(AddItem(gs, k, v), k') == SumOf(gs, k') + (if k' == k then v else 0)
    ensures HasKey(AddItem(gs, k, v), k') <==> HasKey(gs, k') || k' == k
  {
    var r := AddItem(gs, k, v);
    if gs == [] {
      assert r[0].key == k;
    } else if gs[0].key == k {
      assert r[0].key == k;
      assert r[1..] == gs[1..];
      if HasKey(gs, k') {
        var i :| 0 <= i < |gs| && gs[i].key == k';
        assert r[i].key == k';
      }
      if HasKey(r, k') {
        var i :| 0 <= i < |r| && r[i].key == k';
        assert gs[i].key == k';
      }
    } else {
      AddItemOf(gs[1..], k, v, k');
      var t := AddItem(gs[1..], k, v);
      assert r == [gs[0]] + t;
      if HasKey(gs, k') {
        var i :| 0 <= i < |gs| && gs[i].key == k';
        if i > 0 { assert gs[1..][i - 1].key == k'; var j :| 0 <= j < |t| && t[j].key == k'; assert r[j + 1].key == k'; }
        else { assert r[0].key == k'; }
      }
      if HasKey(r, k') {
        var i :| 0 <= i < |r| && r[i].key == k';
        if i > 0 {
          assert t[i - 1].key == k';
          if HasKey(gs[1..], k') { var j :| 0 <= j < |gs[1..]| && gs[1..][j].key == k'; assert gs[j + 1].key == k'; }
        }
      }
    }
  }

  /** Adding an item keeps the group keys distinct. */
  lemma {:induction false} AddItemDistinct<K>(gs: seq<Group<K>>, k: K, v: int)
    requires DistinctGroupKeys(gs)
    ensures DistinctGroupKeys(AddItem(gs, k, v))
  {
    if gs != [] && gs[0].key != k {
      AddItemDistinct(gs[1..], k, v);
      var r := AddItem(gs, k, v);
      var t := AddItem(gs[1..], k, v);
      assert r == [gs[0]] + t;
      assert !HasKey(gs[1..], gs[0].key) by {
        forall j | 0 <= j < |gs[1..]| ensures gs[1..][j].key != gs[0].key {
          assert gs[1..][j] == gs[j + 1];
        }
      }
      AddItemOf(gs[1..], k, v, gs[0].key);
      forall i | 0 < i < |r| ensures r[i].key != gs[0].key {
        assert r[i] == t[i - 1];
      }
    }
  }

  /**
   * Every group holds exactly the items of its key (its count and its sum), and exactly the
   * keys that occur have a group.
   */
  lemma {:induction false} GroupByOf<K>(items: seq<(K, int)>, k: K)
    ensures CountOf(GroupBy(items), k) == Occurrences(items, k)
    ensures SumOf(GroupBy(items), k) == SumFor(items, k)
    ensures HasKey(GroupBy(items), k) <==> Occurrences(items, k) > 0
  {
    if items != [] {
      var init := items[..|items| - 1];
      var last := items[|items| - 1];
      GroupByOf(init, k);
      AddItemOf(GroupBy(init), last.0, last.1, k);
    }
  }

  lemma {:induction false} GroupByDistinct<K>(items: seq<(K, int)>)
    ensures DistinctGroupKeys(GroupBy(items))
  {
    if items != [] {
      GroupByDistinct(items[..|items| - 1]);
      AddItemDistinct(GroupBy(items[..|items| - 1]), items[|items| - 1].0, items[|items| - 1].1);
    }
  }

  /** The group counts add up to the number of items, the group sums to the sum of all values. */
  lemma {:induction false} GroupByTotals<K>(items: seq<(K, int)>)
    ensures Sum(Counts(GroupBy(items))) == |items|
    ensures Sum(Sums(GroupBy(items))) == SumOfValues(items)
  {
    if items != [] {
      var init := items[..|items| - 1];
      GroupByTotals(init);
      AddItemTotals(GroupBy(init), items[|items| - 1].0, items[|items| - 1].1);
    }
  }

  function SumOfValues<K>(items: seq<(K, int)>): int {
    if items == [] then 0 else SumOfValues(items[..|items| - 1]) + items[|items| - 1].1
  }

  /** Every group is non-empty. */
  lemma {:induction false} GroupByPositive<K>(items: seq<(K, int)>)
    ensures forall i :: 0 <= i < |GroupBy(items)| ==> GroupBy(items)[i].count >= 1
  {
    if items != [] {
      GroupByPositive(items[..|items| - 1]);
      AddItemPositive(GroupBy(items[..|items| - 1]), items[|items| - 1].0, items[|items| - 1].1);
    }
  }

  lemma {:induction false} AddItemPositive<K>(gs: seq<Group<K>>, k: K, v: int)
    requires forall i :: 0 <= i < |gs| ==> gs[i].count >= 1
    ensures forall i :: 0 <= i < |AddItem(gs, k, v)| ==> AddItem(gs, k, v)[i].count >= 1
  {
    if gs != [] && gs[0].key != k {
      AddItemPositive(gs[1..], k, v);
      assert AddItem(gs, k, v) == [gs[0]] + AddItem(gs[1..], k, v);
    }
  }

  /** With distinct keys, the group at index `i` is the one `CountOf` and `SumOf` find. */
  lemma {:induction false} GroupAt<K>(gs: seq<Group<K>>, i: nat)
    requires DistinctGroupKeys(gs) && i < |gs|
    ensures CountOf(gs, gs[i].key) == gs[i].count
    ensures SumOf(gs, gs[i].key) == gs[i].sum
  {
    if i > 0 {
      assert gs[1..][i - 1] == gs[i];
      GroupAt(gs[1..], i - 1);
    }
  }

  /** `Occurrences` counts the items a filter on the key keeps. */
  lemma {:induction false} OccurrencesCount<K>(items: seq<(K, int)>, k: K)
    ensures Occurrences(items, k) == |Filter(items, (it: (K, int)) => it.0 == k)|
  {
    if items != [] {
      var init := items[..|items| - 1];
      OccurrencesCount(init, k);
      assert items == init + [items[|items| - 1]];
      FilterAppend(init, [items[|items| - 1]], (it: (K, int)) => it.0 == k);
      assert [items[|items| - 1]][1..] == [];
    }
  }

  /** Every group's key is the key of some item. */
  lemma {:induction false} GroupKeyOccurs<K>(items: seq<(K, int)>, i: nat)
    requires i < |GroupBy(items)|
    ensures exists j :: 0 <= j < |items| && items[j].0 == GroupBy(items)[i].key
  {
    var k := GroupBy(items)[i].key;
    GroupByOf(items, k);
    OccurrencesAt(items, k);
  }

  lemma {:induction false} OccurrencesAt<K>(items: seq<(K, int)>, k: K)
    requires Occurrences(items, k) > 0
    ensures exists j :: 0 <= j < |items| && items[j].0 == k
  {
    var init := items[..|items| - 1];
    if items[|items| - 1].0 != k {
      OccurrencesAt(init, k);
      var j :| 0 <= j < |init| && init[j].0 == k;
      assert items[j] == init[j];
    }
  }

  /** The total count of the groups whose key satisfies `p`. */
  function CountWhere<K>(gs: seq<Group<K>>, p: K -> bool): nat {
    if gs == [] then 0 else (if p(gs[0].key) then gs[0].count else 0) + CountWhere(gs[1..], p)
  }

  function KeyWhere<K>(p: K -> bool): ((K, int)) -> bool {
    (it: (K, int)) => p(it.0)
  }

  lemma {:induction false} AddItemCountWhere<K>(gs: seq<Group<K>>, k: K, v: int, p: K -> bool)
    ensures CountWhere(AddItem(gs, k, v), p) == CountWhere(gs, p) + (if p(k) then 1 else 0)
  {
    if gs == [] {
      assert [Group(k, 1, v)][1..] == [];
    } else if gs[0].key == k {
      assert ([Group(k, gs[0].count + 1, gs[0].sum + v)] + gs[1..])[1..] == gs[1..];
    } else {
      AddItemCountWhere(gs[1..], k, v, p);
      assert ([gs[0]] + AddItem(gs[1..], k, v))[1..] == AddItem(gs[1..], k, v);
    }
  }

  /** The groups whose key satisfies `p` hold exactly the items whose key satisfies it. */
  lemma {:induction false} GroupByCountWhere<K>(items: seq<(K, int)>, p: K -> bool)
    ensures CountWhere(GroupBy(items), p) == |Filter(items, KeyWhere(p))|
  {
    if items != [] {
      var init := items[..|items| - 1];
      var last := items[|items| - 1];
      GroupByCountWhere(init, p);
      AddItemCountWhere(GroupBy(init), last.0, last.1, p);
      assert items == init + [last];
      FilterAppend(init, [last], KeyWhere(p));
      assert [last][1..] == [];
    }
  }
}
