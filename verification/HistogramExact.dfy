/** What the statistics of containers/core/containers_io.c are for: while there are no more different quotients than
    bins, the table is the histogram of all values added. */
module HistogramExact {
  import opened Common
  import opened Histogram

  /** The total for 2^shift of the count, rounded down; d is the count in these units, or one. */
  lemma NumpcLaw(c: nat, n: nat, shift: nat, d: nat)
    requires if c < Pow2(shift) then d == 1 else d * Pow2(shift) <= c < (d + 1) * Pow2(shift)
    ensures d * Numpc(c, n, shift) <= n < d * (Numpc(c, n, shift) + 1)
  {
    hide Pow2;
    if c >= Pow2(shift) {
      DivModUnique(d, c - d * Pow2(shift), Pow2(shift));
    }
    assert Numpc(c, n, shift) == n / d;
    assert n == d * (n / d) + n % d;
    assert d * (n / d + 1) == d * (n / d) + d;
  }

  /** The quotients of the values that count. */
  function Keys(shift: nat, values: seq<Value>): set<nat>
  {
    if values == [] then {}
    else
      var v := values[|values| - 1];
      Keys(shift, values[..|values| - 1]) + if v.count == 0 then {} else {Numpc(v.count, v.num, shift)}
  }

  /** Count and total of the values with the quotient. */
  function SumsOf(shift: nat, values: seq<Value>, key: nat): (nat, nat)
  {
    if values == [] then (0, 0)
    else
      var (c, n) := SumsOf(shift, values[..|values| - 1], key);
      var v := values[|values| - 1];
      if v.count == 0 || Numpc(v.count, v.num, shift) != key then (c, n) else (c + v.count, n + v.num)
  }

  lemma {:induction false} NoSum(shift: nat, values: seq<Value>, key: nat)
    requires key !in Keys(shift, values)
    ensures SumsOf(shift, values, key) == (0, 0)
  {
    hide Numpc;
    if values != [] {
      NoSum(shift, values[..|values| - 1], key);
    }
  }

  /** The records hold these sums, by decreasing quotient, and there is one for each quotient. */
  ghost predicate Holds(used: seq<Rec>, shift: nat, values: seq<Value>)
  {
    && StrictlyDecreasing(used) && KeysOf(used) == Keys(shift, values)
    && forall k {:trigger used[k]} :: 0 <= k < |used|
         ==> (used[k].count, used[k].num) == SumsOf(shift, values, used[k].numpc)
  }

  function KeysOf(used: seq<Rec>): set<nat>
  {
    set k | 0 <= k < |used| :: used[k].numpc
  }

  lemma {:induction false} DifferentKeys(used: seq<Rec>)
    requires StrictlyDecreasing(used)
    ensures |KeysOf(used)| == |used|
  {
    if used == [] {
      assert KeysOf(used) == {};
    } else {
      var init, r := used[..|used| - 1], used[|used| - 1];
      DifferentKeys(init);
      assert KeysOf(used) == KeysOf(init) + {r.numpc} by {
        assert forall k :: 0 <= k < |init| ==> used[k] == init[k];
      }
      assert r.numpc !in KeysOf(init);
    }
  }

  /** A value with a known quotient. */
  lemma JoinHolds(used: seq<Rec>, shift: nat, values: seq<Value>, v: Value, i: nat)
    requires Holds(used, shift, values) && v.count > 0 && i < |used|
    requires used[i].numpc == Numpc(v.count, v.num, shift)
    ensures Holds(Joined(used, i, v.count, v.num), shift, values + [v])
  {
    hide Numpc;
    var after := Joined(used, i, v.count, v.num);
    assert (values + [v])[..|values|] == values;
    assert forall k :: 0 <= k < |used| ==> after[k].numpc == used[k].numpc;
    assert used[i].numpc in KeysOf(used);
    assert KeysOf(after) == KeysOf(used);
  }

  /** A value with a new one. */
  lemma InsertHolds(used: seq<Rec>, shift: nat, values: seq<Value>, v: Value, i: nat)
    requires Holds(used, shift, values) && v.count > 0 && i <= |used|
    requires forall k :: 0 <= k < i ==> used[k].numpc > Numpc(v.count, v.num, shift)
    requires i < |used| ==> used[i].numpc < Numpc(v.count, v.num, shift)
    ensures Keys(shift, values + [v]) > Keys(shift, values)
    ensures Holds(Insert(used, i, Rec(v.count, v.num, Numpc(v.count, v.num, shift))), shift, values + [v])
  {
    hide Numpc;
    var key := Numpc(v.count, v.num, shift);
    var r := Rec(v.count, v.num, key);
    var after := Insert(used, i, r);
    assert (values + [v])[..|values|] == values;
    assert key !in KeysOf(used);
    NoSum(shift, values, key);
    InsertKeys(used, i, r);
    forall k | 0 <= k < |after|
      ensures (after[k].count, after[k].num) == SumsOf(shift, values + [v], after[k].numpc)
    {
      assert k != i ==> after[k] == used[if k < i then k else k - 1];
    }
  }

  lemma InsertKeys(used: seq<Rec>, i: nat, r: Rec)
    requires i <= |used|
    ensures KeysOf(Insert(used, i, r)) == KeysOf(used) + {r.numpc}
  {
    var after := Insert(used, i, r);
    assert after[i] == r;
    forall k | 0 <= k < |used| ensures used[k].numpc in KeysOf(after) {
      assert after[if k < i then k else k + 1] == used[k];
    }
  }

  lemma AddHolds(used: seq<Rec>, shift: nat, values: seq<Value>, v: Value)
    requires |used| <= BINS && Holds(used, shift, values) && |Keys(shift, values + [v])| <= BINS
    ensures Holds(Added(used, shift, v.count, v.num), shift, values + [v])
  {
    hide Numpc, Place, Insert, MergeClosest, Joined, StrictlyDecreasing;
    assert (values + [v])[..|values|] == values;
    if v.count > 0 {
      var key := Numpc(v.count, v.num, shift);
      var i := Place(used, key);
      if i < |used| && used[i].numpc == key {
        JoinHolds(used, shift, values, v, i);
      } else {
        InsertHolds(used, shift, values, v, i);
        DifferentKeys(Insert(used, i, Rec(v.count, v.num, key)));
      }
    }
  }

  lemma {:induction false} RunHolds(shift: nat, values: seq<Value>)
    requires |Keys(shift, values)| <= BINS
    ensures Holds(Run(shift, values), shift, values)
  {
    if values == [] {
      assert Holds([], shift, []);
    } else {
      hide Added, Holds, Numpc;
      var init, v := values[..|values| - 1], values[|values| - 1];
      assert values == init + [v];
      KeysGrow(shift, init, v);
      RunHolds(shift, init);
      AddHolds(Run(shift, init), shift, init, v);
    }
  }

  lemma KeysGrow(shift: nat, values: seq<Value>, v: Value)
    ensures |Keys(shift, values)| <= |Keys(shift, values + [v])|
  {
    assert (values + [v])[..|values|] == values;
    SubsetSize(Keys(shift, values), Keys(shift, values + [v]));
  }

  lemma SubsetSize(a: set<nat>, b: set<nat>)
    requires a <= b
    ensures |a| <= |b|
  {
    assert a + (b - a) == b;
  }

  /** One record for each quotient, with the sums of the values that have it, by decreasing quotient. */
  ghost predicate IsHistogram(t: seq<Rec>, shift: nat, values: seq<Value>)
    requires |t| == BINS + 1
  {
    && Sorted(t)
    && (forall k {:trigger t[k]} :: 0 <= k <= BINS && t[k].count != 0
          ==> && t[k].numpc in Keys(shift, values)
              && (t[k].count, t[k].num) == SumsOf(shift, values, t[k].numpc))
    && (forall key :: key in Keys(shift, values)
          ==> exists k :: 0 <= k <= BINS && t[k].count != 0 && t[k].numpc == key)
  }

  /** With any shift, while there are at most BINS different quotients and all that is added fits 32 bits. */
  lemma ExactHistogram(shift: nat, values: seq<Value>)
    requires Small(values) && |Keys(shift, values)| <= BINS
    ensures IsHistogram(Table(shift, values), shift, values)
  {
    hide *;
    TableIs(shift, values);
    RunHolds(shift, values);
    PaddedHolds(Run(shift, values), shift, values);
  }

  lemma PaddedHolds(used: seq<Rec>, shift: nat, values: seq<Value>)
    requires |used| <= BINS && AllUsed(used) && Holds(used, shift, values)
    ensures IsHistogram(Padded(used), shift, values)
  {
    hide Keys, SumsOf;
    var t := Padded(used);
    PaddedAt(used);
    forall key | key in Keys(shift, values)
      ensures exists k :: 0 <= k <= BINS && t[k].count != 0 && t[k].numpc == key
    {
      var k :| 0 <= k < |used| && used[k].numpc == key;
      assert t[k] == used[k];
    }
  }
}
