/** The fixed-bin statistics of containers/core/containers_io.c: at most BINS records of a count and a total, kept by
    decreasing total per count; the two closest records are merged when a new one does not fit. */
module Histogram {
  import opened Common

  /** VC_CONTAINER_STATS_BINS */
  const BINS := 10

  datatype Rec = Rec(count: nat, num: nat, numpc: nat)

  const ZERO := Rec(0, 0, 0)

  /** All numbers have 32 bits. */
  const WORD := 0x1_0000_0000

  /** NUMPC(c, n, s) */
  function Numpc(c: nat, n: nat, shift: nat): nat
  {
    if c < Pow2(shift) then n else ScaledQuotient(c, n, shift)
  }

  function ScaledQuotient(c: nat, n: nat, shift: nat): nat
    requires c >= Pow2(shift)
  {
    QuotientPositive(c, Pow2(shift));
    n / (c / Pow2(shift))
  }

  lemma QuotientPositive(c: nat, p: nat)
    requires 0 < p <= c
    ensures c / p >= 1
  {
    var q := c / p;
    assert c == p * q + c % p;
    MulOrder(p, q, 0);
  }

  // ---------- the closest pair ----------

  /** Difference of unsigned 32-bit numbers. */
  function Diff(a: Rec, b: Rec): int
  {
    if a.numpc >= b.numpc then a.numpc - b.numpc else a.numpc - b.numpc + WORD
  }

  lemma DiffWraps(a: Rec, b: Rec)
    requires a.numpc < WORD && b.numpc < WORD
    ensures 0 <= Diff(a, b) < WORD && (b.numpc + Diff(a, b)) % WORD == a.numpc
  {
  }

  function Gap(s: seq<Rec>, k: nat): int
    requires k + 1 < |s|
  {
    Diff(s[k], s[k + 1])
  }

  /** The first of the closest neighbours among the first n pairs. */
  function Closest(s: seq<Rec>, n: nat): (j: nat)
    requires 1 <= n < |s|
    ensures j < n
    ensures forall k {:trigger Gap(s, k)} :: 0 <= k < n ==> Gap(s, j) <= Gap(s, k)
  {
    if n == 1 then 0
    else
      var j := Closest(s, n - 1);
      if Gap(s, n - 1) < Gap(s, j) then n - 1 else j
  }

  /** s with m in place of records j and j + 1. */
  function MergeAt(s: seq<Rec>, j: nat, m: Rec): seq<Rec>
    requires j + 2 <= |s|
  {
    s[..j] + [m] + s[j + 2..]
  }

  lemma MergeAtIndex(s: seq<Rec>, j: nat, m: Rec)
    requires j + 2 <= |s|
    ensures |MergeAt(s, j, m)| == |s| - 1
    ensures forall k {:trigger MergeAt(s, j, m)[k]} :: 0 <= k < |s| - 1 ==>
              MergeAt(s, j, m)[k] == if k < j then s[k] else if k == j then m else s[k + 1]
  {
  }

  // ---------- the table ----------

  ghost predicate Words(t: seq<Rec>)
  {
    forall k {:trigger t[k]} :: 0 <= k < |t| ==> t[k].count < WORD && t[k].num < WORD && t[k].numpc < WORD
  }

  /** All records, of which the last one is free between additions. */
  ghost predicate IsTable(t: seq<Rec>)
  {
    |t| == BINS + 1 && Words(t) && t[BINS].count == 0
  }

  /** Where a value belongs: at the first record that is free or not larger, at the last one at the latest. */
  function Spot(t: seq<Rec>, numpc: nat): (i: nat)
    requires t != []
    ensures i < |t|
    ensures forall k :: 0 <= k < i ==> t[k].count != 0 && t[k].numpc > numpc
    ensures i < |t| - 1 ==> t[i].count == 0 || t[i].numpc <= numpc
  {
    if |t| == 1 || t[0].count == 0 || t[0].numpc <= numpc then 0 else 1 + Spot(t[1..], numpc)
  }

  function WordMerged(a: Rec, b: Rec, shift: nat): Rec
  {
    var (c, n) := ((a.count + b.count) % WORD, (a.num + b.num) % WORD);
    Rec(c, n, Numpc(c, n, shift))
  }

  /** The table with its closest records made one. */
  function MergeTable(t: seq<Rec>, shift: nat): (r: seq<Rec>)
    requires |t| == BINS + 1
    ensures |r| == BINS + 1
  {
    var j := Closest(t, BINS);
    MergeAt(t, j, WordMerged(t[j], t[j + 1], shift)) + [ZERO]
  }

  /** The records from i on moved up by one, and the last one lost. */
  function Shifted(t: seq<Rec>, i: nat, r: Rec): (s: seq<Rec>)
    requires i < |t|
    ensures |s| == |t|
  {
    t[..i] + [r] + t[i..|t| - 1]
  }

  /** The table after one more value. */
  function Stored(t: seq<Rec>, shift: nat, count: nat, num: nat): (r: seq<Rec>)
    requires |t| == BINS + 1
    ensures |r| == BINS + 1
  {
    if count == 0 then t
    else
      var numpc := Numpc(count, num, shift);
      var i := Spot(t, numpc);
      if t[i].count != 0 && t[i].numpc == numpc then
        t[i := Rec((t[i].count + count) % WORD, (t[i].num + num) % WORD, numpc)]
      else
        var s := Shifted(t, i, Rec(count, num, numpc));
        if s[BINS].count != 0 then MergeTable(s, shift) else s
  }

  lemma NumpcBound(c: nat, n: nat, shift: nat)
    ensures Numpc(c, n, shift) <= n
  {
    if c >= Pow2(shift) {
      QuotientPositive(c, Pow2(shift));
      var q := c / Pow2(shift);
      assert n == q * (n / q) + n % q;
      MulOrder(n / q, 1, q);
    }
  }

  lemma ShiftedWords(t: seq<Rec>, i: nat, r: Rec)
    requires i < |t| && Words(t) && Words([r])
    ensures Words(Shifted(t, i, r))
  {
    assert [r][0] == r;
    var s := Shifted(t, i, r);
    assert forall k {:trigger s[k]} :: 0 <= k < |s| ==> s[k] == if k < i then t[k] else if k == i then r else t[k - 1];
  }

  lemma MergeIsTable(s: seq<Rec>, shift: nat)
    requires |s| == BINS + 1 && Words(s)
    ensures IsTable(MergeTable(s, shift)) && MergeTable(s, shift)[BINS] == ZERO
  {
    hide Numpc, Closest, MergeAt;
    var j := Closest(s, BINS);
    var m := WordMerged(s[j], s[j + 1], shift);
    NumpcBound(m.count, m.num, shift);
    MergeAtIndex(s, j, m);
  }

  /** An addition leaves a table of 32-bit numbers with a free last record. */
  lemma StoredIsTable(t: seq<Rec>, shift: nat, count: nat, num: nat)
    requires IsTable(t) && count < WORD && num < WORD
    ensures IsTable(Stored(t, shift, count, num))
  {
    hide Numpc, Spot, MergeTable, Shifted;
    if count > 0 {
      var numpc := Numpc(count, num, shift);
      NumpcBound(count, num, shift);
      var i := Spot(t, numpc);
      ShiftedWords(t, i, Rec(count, num, numpc));
      MergeIsTable(Shifted(t, i, Rec(count, num, numpc)), shift);
    }
  }

  class Stats {
    const shift: nat
    const record: array<Rec>

    ghost predicate Valid()
      reads record
    {
      IsTable(record[..])
    }

    /** stats_initialise */
    constructor (shift: nat)
      ensures Valid() && fresh(record) && this.shift == shift && record[..] == Empty()
    {
      this.shift := shift;
      record := new Rec[BINS + 1](_ => ZERO);
    }

    /** stats_add_value */
    method AddValue(count: nat, num: nat)
      requires Valid() && count < WORD && num < WORD
      modifies record
      ensures Valid() && record[..] == Stored(old(record[..]), shift, count, num)
    {
      hide Numpc, Spot, MergeTable;
      StoredIsTable(record[..], shift, count, num);
      if count == 0 {
        return;
      }
      var numpc := Numpc(count, num, shift);
      var i := FindSpot(numpc);
      if record[i].count != 0 && record[i].numpc == numpc {
        record[i] := Rec((record[i].count + count) % WORD, (record[i].num + num) % WORD, numpc);
      } else {
        ShiftUp(i, Rec(count, num, numpc));
        if record[BINS].count != 0 {
          MergeTwo();
        }
      }
    }

    /** The search for the place of a value. */
    method FindSpot(numpc: nat) returns (i: nat)
      requires Valid()
      ensures i <= BINS && i == Spot(record[..], numpc)
    {
      hide Spot;
      i := 0;
      while i < BINS && record[i].count != 0 && record[i].numpc > numpc
        invariant i <= BINS && i <= Spot(record[..], numpc)
      {
        SpotBeyond(record[..], numpc, i);
        i := i + 1;
      }
      SpotHere(record[..], numpc, i);
    }

    /** Make room at i and write the new record there. */
    method ShiftUp(i: nat, r: Rec)
      requires record.Length == BINS + 1 && i <= BINS
      modifies record
      ensures record[..] == Shifted(old(record[..]), i, r)
    {
      ghost var before := record[..];
      var j := BINS;
      while j > i
        invariant i <= j <= BINS
        invariant forall k :: 0 <= k <= j ==> record[k] == before[k]
        invariant forall k :: j < k <= BINS ==> record[k] == before[k - 1]
      {
        record[j] := record[j - 1];
        j := j - 1;
      }
      record[i] := r;
    }

    /** Join the two closest records. */
    method MergeTwo()
      requires record.Length == BINS + 1
      modifies record
      ensures record[..] == MergeTable(old(record[..]), shift)
    {
      var j := FindClosest();
      RemovePair(j, record[..]);
    }

    method FindClosest() returns (j: int)
      requires record.Length == BINS + 1
      ensures j == Closest(record[..], BINS)
    {
      hide Diff;
      ghost var t := record[..];
      var minDiff := 0;
      j := -1;
      for i := 0 to BINS
        invariant i == 0 <==> j == -1
        invariant i > 0 ==> j == Closest(t, i) && minDiff == Gap(t, j)
      {
        var diff := Diff(record[i], record[i + 1]);
        assert record[i] == t[i] && record[i + 1] == t[i + 1];
        assert diff == Gap(t, i);
        if j == -1 || diff < minDiff {
          j := i;
          minDiff := diff;
        }
      }
    }

    /** Merge record j with the next one and move the later records down. */
    method RemovePair(at: nat, ghost s: seq<Rec>)
      requires record.Length == BINS + 1 && record[..] == s && at == Closest(s, BINS)
      modifies record
      ensures record[..] == MergeTable(s, shift)
    {
      hide Closest, Numpc, MergeTable;
      var a, b := record[at], record[at + 1];
      assert a == s[at] && b == s[at + 1];
      var count, num := (a.count + b.count) % WORD, (a.num + b.num) % WORD;
      record[at] := Rec(count, num, Numpc(count, num, shift));
      var j := at + 1;
      while j < BINS
        invariant at < j <= BINS
        invariant forall k :: 0 <= k < at ==> record[k] == s[k]
        invariant record[at] == WordMerged(s[at], s[at + 1], shift)
        invariant forall k :: at < k < j ==> record[k] == s[k + 1]
        invariant forall k :: j <= k <= BINS ==> record[k] == s[k]
      {
        record[j] := record[j + 1];
        j := j + 1;
      }
      record[BINS] := ZERO;
      MergedTable(record[..], s, at, shift);
    }
  }

  lemma MergedTable(t: seq<Rec>, s: seq<Rec>, at: nat, shift: nat)
    requires |t| == |s| == BINS + 1 && at == Closest(s, BINS)
    requires forall k {:trigger t[k]} :: 0 <= k < at ==> t[k] == s[k]
    requires t[at] == WordMerged(s[at], s[at + 1], shift)
    requires forall k {:trigger t[k]} :: at < k < BINS ==> t[k] == s[k + 1]
    requires t[BINS] == ZERO
    ensures t == MergeTable(s, shift)
  {
    hide Closest, Numpc, MergeAt;
    MergeAtIndex(s, at, WordMerged(s[at], s[at + 1], shift));
  }

  lemma SpotBeyond(t: seq<Rec>, numpc: nat, i: nat)
    requires i < |t| - 1 && Spot(t, numpc) >= i && t[i].count != 0 && t[i].numpc > numpc
    ensures Spot(t, numpc) >= i + 1
  {
  }

  lemma SpotHere(t: seq<Rec>, numpc: nat, i: nat)
    requires i < |t| && i <= Spot(t, numpc)
    requires i < |t| - 1 ==> t[i].count == 0 || t[i].numpc <= numpc
    ensures Spot(t, numpc) == i
  {
  }

  function Empty(): (t: seq<Rec>)
    ensures |t| == BINS + 1
  {
    seq(BINS + 1, _ => ZERO)
  }

  // ---------- the records in use ----------

  /** Where a value belongs: before the first record that is not larger. */
  function Place(used: seq<Rec>, numpc: nat): (i: nat)
    ensures i <= |used|
    ensures forall k :: 0 <= k < i ==> used[k].numpc > numpc
    ensures i < |used| ==> used[i].numpc <= numpc
  {
    if used == [] || used[0].numpc <= numpc then 0 else 1 + Place(used[1..], numpc)
  }

  function Merged(a: Rec, b: Rec, shift: nat): Rec
  {
    Rec(a.count + b.count, a.num + b.num, Numpc(a.count + b.count, a.num + b.num, shift))
  }

  function MergeClosest(s: seq<Rec>, shift: nat): (r: seq<Rec>)
    requires |s| >= 2
    ensures |r| == |s| - 1
  {
    var j := Closest(s, |s| - 1);
    MergeAt(s, j, Merged(s[j], s[j + 1], shift))
  }

  function Insert(used: seq<Rec>, i: nat, r: Rec): seq<Rec>
    requires i <= |used|
  {
    used[..i] + [r] + used[i..]
  }

  /** used with the value added to record i. */
  function Joined(used: seq<Rec>, i: nat, count: nat, num: nat): (r: seq<Rec>)
    requires i < |used|
    ensures |r| == |used|
  {
    used[i := Rec(used[i].count + count, used[i].num + num, used[i].numpc)]
  }

  /** The records in use after one more value. */
  function Added(used: seq<Rec>, shift: nat, count: nat, num: nat): (r: seq<Rec>)
    requires |used| <= BINS
    ensures |r| <= BINS
  {
    if count == 0 then used
    else
      var numpc := Numpc(count, num, shift);
      var i := Place(used, numpc);
      if i < |used| && used[i].numpc == numpc
      then Joined(used, i, count, num)
      else
        var s := Insert(used, i, Rec(count, num, numpc));
        if |s| > BINS then MergeClosest(s, shift) else s
  }

  /** The table: the records in use, then unused ones, of which there is always at least one. */
  function Padded(used: seq<Rec>): (t: seq<Rec>)
    requires |used| <= BINS + 1
    ensures |t| == BINS + 1
  {
    used + seq(BINS + 1 - |used|, _ => ZERO)
  }

  ghost predicate AllUsed(used: seq<Rec>)
  {
    forall k :: 0 <= k < |used| ==> used[k].count > 0
  }

  /** Neither the record that the value joins nor the pair that it causes to be merged leaves the 32 bits. */
  ghost predicate NoWrap(used: seq<Rec>, shift: nat, count: nat, num: nat)
    requires |used| <= BINS
  {
    count > 0 ==>
      var numpc := Numpc(count, num, shift);
      var i := Place(used, numpc);
      if i < |used| && used[i].numpc == numpc
      then used[i].count + count < WORD && used[i].num + num < WORD
      else
        |used| == BINS ==>
          var s := Insert(used, i, Rec(count, num, numpc));
          var j := Closest(s, BINS);
          s[j].count + s[j + 1].count < WORD && s[j].num + s[j + 1].num < WORD
  }

  lemma SpotIsPlace(used: seq<Rec>, numpc: nat)
    requires |used| <= BINS && AllUsed(used)
    ensures Spot(Padded(used), numpc) == Place(used, numpc)
  {
    hide Spot, Place;
    var t, i := Padded(used), Place(used, numpc);
    PaddedAt(used);
    assert i < BINS ==> t[i].count == 0 || t[i].numpc <= numpc;
    SpotUnique(t, numpc, i);
  }

  lemma SpotUnique(t: seq<Rec>, numpc: nat, i: nat)
    requires i < |t| && forall k :: 0 <= k < i ==> t[k].count != 0 && t[k].numpc > numpc
    requires i < |t| - 1 ==> t[i].count == 0 || t[i].numpc <= numpc
    ensures Spot(t, numpc) == i
  {
    hide Spot;
  }

  lemma ShiftedIsInsert(used: seq<Rec>, i: nat, r: Rec)
    requires i <= |used| <= BINS
    ensures Shifted(Padded(used), i, r) == Padded(Insert(used, i, r))
  {
  }

  lemma PaddedUpdate(used: seq<Rec>, i: nat, r: Rec)
    requires i < |used| <= BINS
    ensures Padded(used[i := r]) == Padded(used)[i := r]
  {
  }

  lemma InsertAllUsed(used: seq<Rec>, i: nat, r: Rec)
    requires i <= |used| && AllUsed(used) && r.count > 0
    ensures AllUsed(Insert(used, i, r)) && |Insert(used, i, r)| == |used| + 1
  {
  }

  lemma MergedWithin(a: Rec, b: Rec, shift: nat)
    requires a.count + b.count < WORD && a.num + b.num < WORD
    ensures WordMerged(a, b, shift) == Merged(a, b, shift)
  {
    hide Numpc;
  }

  lemma MergeIs(s: seq<Rec>, shift: nat)
    requires |s| == BINS + 1 && AllUsed(s)
    requires var j := Closest(s, BINS); s[j].count + s[j + 1].count < WORD && s[j].num + s[j + 1].num < WORD
    ensures MergeTable(s, shift) == Padded(MergeClosest(s, shift)) && AllUsed(MergeClosest(s, shift))
  {
    hide Numpc, Closest, MergeAt, WordMerged;
    var j := Closest(s, BINS);
    MergedWithin(s[j], s[j + 1], shift);
    MergeAtIndex(s, j, Merged(s[j], s[j + 1], shift));
  }

  /** Without a wrap, the table is the records in use and then unused ones, of which there is always at least one. */
  lemma StoredIs(used: seq<Rec>, shift: nat, count: nat, num: nat)
    requires |used| <= BINS && AllUsed(used) && NoWrap(used, shift, count, num)
    ensures Stored(Padded(used), shift, count, num) == Padded(Added(used, shift, count, num))
    ensures AllUsed(Added(used, shift, count, num))
  {
    hide Numpc, Spot, Place, Insert, Padded, MergeTable, MergeClosest, Shifted, Closest;
    if count > 0 {
      var numpc := Numpc(count, num, shift);
      var i := Place(used, numpc);
      var r := Rec(count, num, numpc);
      SpotIsPlace(used, numpc);
      PaddedAt(used);
      assert Padded(used)[i] == if i < |used| then used[i] else ZERO;
      if i < |used| && used[i].numpc == numpc {
        PaddedUpdate(used, i, Rec(used[i].count + count, used[i].num + num, numpc));
      } else {
        var s := Insert(used, i, r);
        ShiftedIsInsert(used, i, r);
        InsertAllUsed(used, i, r);
        PaddedAt(s);
        assert Padded(s)[BINS] == if |s| > BINS then s[BINS] else ZERO;
        if |s| > BINS {
          PaddedFull(s);
          MergeIs(s, shift);
        }
      }
    }
  }

  lemma PaddedAt(used: seq<Rec>)
    requires |used| <= BINS + 1
    ensures forall k {:trigger Padded(used)[k]} :: 0 <= k <= BINS ==>
              Padded(used)[k] == if k < |used| then used[k] else ZERO
  {
  }

  lemma PaddedFull(used: seq<Rec>)
    requires |used| == BINS + 1
    ensures Padded(used) == used
  {
  }

  // ---------- any run of values ----------

  datatype Value = Value(count: nat, num: nat)

  /** The table after a run. */
  function Table(shift: nat, values: seq<Value>): (t: seq<Rec>)
    ensures |t| == BINS + 1
  {
    if values == [] then Empty()
    else
      var v := values[|values| - 1];
      Stored(Table(shift, values[..|values| - 1]), shift, v.count, v.num)
  }

  /** The records in use after a run of numbers without bounds. */
  function Run(shift: nat, values: seq<Value>): (used: seq<Rec>)
    ensures |used| <= BINS
  {
    if values == [] then []
    else
      var v := values[|values| - 1];
      Added(Run(shift, values[..|values| - 1]), shift, v.count, v.num)
  }

  function Counts(used: seq<Rec>): nat
  {
    if used == [] then 0 else Counts(used[..|used| - 1]) + used[|used| - 1].count
  }

  function Nums(used: seq<Rec>): nat
  {
    if used == [] then 0 else Nums(used[..|used| - 1]) + used[|used| - 1].num
  }

  /** Sums of what was added; values with count 0 are ignored. */
  function Sums(values: seq<Value>): (nat, nat)
  {
    if values == [] then (0, 0)
    else
      var (c, n) := Sums(values[..|values| - 1]);
      var v := values[|values| - 1];
      if v.count == 0 then (c, n) else (c + v.count, n + v.num)
  }

  lemma {:induction false} TotalsConcat(a: seq<Rec>, b: seq<Rec>)
    ensures Counts(a + b) == Counts(a) + Counts(b) && Nums(a + b) == Nums(a) + Nums(b)
  {
    if b == [] {
      assert a + b == a;
    } else {
      assert (a + b)[..|a + b| - 1] == a + b[..|b| - 1];
      TotalsConcat(a, b[..|b| - 1]);
    }
  }

  lemma TotalsOne(r: Rec)
    ensures Counts([r]) == r.count && Nums([r]) == r.num
  {
    assert [r][..0] == [];
  }

  /** Replacing the stretch mid of used by other. */
  lemma TotalsReplace(front: seq<Rec>, mid: seq<Rec>, back: seq<Rec>)
    ensures Counts(front + mid + back) == Counts(front) + Counts(mid) + Counts(back)
    ensures Nums(front + mid + back) == Nums(front) + Nums(mid) + Nums(back)
  {
    TotalsConcat(front + mid, back);
    TotalsConcat(front, mid);
  }

  lemma InsertTotals(used: seq<Rec>, i: nat, r: Rec)
    requires i <= |used|
    ensures Counts(Insert(used, i, r)) == Counts(used) + r.count
    ensures Nums(Insert(used, i, r)) == Nums(used) + r.num
  {
    TotalsReplace(used[..i], [r], used[i..]);
    TotalsConcat(used[..i], used[i..]);
    assert used[..i] + used[i..] == used;
    TotalsOne(r);
  }

  lemma UpdateTotals(used: seq<Rec>, i: nat, r: Rec)
    requires i < |used|
    ensures Counts(used[i := r]) + used[i].count == Counts(used) + r.count
    ensures Nums(used[i := r]) + used[i].num == Nums(used) + r.num
  {
    TotalsReplace(used[..i], [r], used[i + 1..]);
    TotalsReplace(used[..i], [used[i]], used[i + 1..]);
    assert used[..i] + [r] + used[i + 1..] == used[i := r];
    assert used[..i] + [used[i]] + used[i + 1..] == used;
    TotalsOne(r);
    TotalsOne(used[i]);
  }

  lemma JoinedTotals(used: seq<Rec>, i: nat, count: nat, num: nat)
    requires i < |used|
    ensures Counts(Joined(used, i, count, num)) == Counts(used) + count
    ensures Nums(Joined(used, i, count, num)) == Nums(used) + num
  {
    UpdateTotals(used, i, Rec(used[i].count + count, used[i].num + num, used[i].numpc));
  }

  lemma MergeTotals(s: seq<Rec>, shift: nat)
    requires |s| >= 2
    ensures Counts(MergeClosest(s, shift)) == Counts(s) && Nums(MergeClosest(s, shift)) == Nums(s)
  {
    hide Closest, Numpc;
    var j := Closest(s, |s| - 1);
    MergeAtTotals(s, j, Merged(s[j], s[j + 1], shift));
  }

  lemma MergeAtTotals(s: seq<Rec>, j: nat, m: Rec)
    requires j + 2 <= |s|
    ensures Counts(MergeAt(s, j, m)) + s[j].count + s[j + 1].count == Counts(s) + m.count
    ensures Nums(MergeAt(s, j, m)) + s[j].num + s[j + 1].num == Nums(s) + m.num
  {
    hide Counts, Nums;
    TotalsReplace(s[..j], [m], s[j + 2..]);
    TotalsReplace(s[..j], [s[j]] + [s[j + 1]], s[j + 2..]);
    TotalsConcat([s[j]], [s[j + 1]]);
    assert s[..j] + ([s[j]] + [s[j + 1]]) + s[j + 2..] == s;
    TotalsOne(m);
    TotalsOne(s[j]);
    TotalsOne(s[j + 1]);
  }

  /** Adding a value, with whatever merge it causes, changes the totals by exactly that value. */
  lemma AddedTotals(used: seq<Rec>, shift: nat, count: nat, num: nat)
    requires |used| <= BINS && count > 0
    ensures Counts(Added(used, shift, count, num)) == Counts(used) + count
    ensures Nums(Added(used, shift, count, num)) == Nums(used) + num
  {
    hide Numpc, MergeClosest, Place, Counts, Nums, Insert, Joined;
    var numpc := Numpc(count, num, shift);
    var i := Place(used, numpc);
    var r := Rec(count, num, numpc);
    var res := Added(used, shift, count, num);
    InsertLength(used, i, r);
    if i < |used| && used[i].numpc == numpc {
      assert res == Joined(used, i, count, num);
      JoinedTotals(used, i, count, num);
    } else {
      InsertTotals(used, i, r);
      if |used| == BINS {
        assert res == MergeClosest(Insert(used, i, r), shift);
        MergeTotals(Insert(used, i, r), shift);
      } else {
        assert res == Insert(used, i, r);
      }
    }
  }

  lemma InsertLength(used: seq<Rec>, i: nat, r: Rec)
    requires i <= |used|
    ensures |Insert(used, i, r)| == |used| + 1
  {
  }

  /** Over any run, for every shift, the totals are conserved. */
  lemma {:induction false} RunConservesTotals(shift: nat, values: seq<Value>)
    ensures (Counts(Run(shift, values)), Nums(Run(shift, values))) == Sums(values)
  {
    hide Added;
    if values != [] {
      var init, v := values[..|values| - 1], values[|values| - 1];
      RunConservesTotals(shift, init);
      var used := Run(shift, init);
      assert Run(shift, values) == Added(used, shift, v.count, v.num);
      OneMore(used, shift, v);
    }
  }

  lemma OneMore(used: seq<Rec>, shift: nat, v: Value)
    requires |used| <= BINS
    ensures
      var r := Added(used, shift, v.count, v.num);
      if v.count == 0 then r == used else Counts(r) == Counts(used) + v.count && Nums(r) == Nums(used) + v.num
  {
    hide Counts, Nums, Place, Insert, MergeClosest, Numpc;
    if v.count > 0 {
      AddedTotals(used, shift, v.count, v.num);
    }
  }

  // ---------- order of the records ----------

  ghost predicate StrictlyDecreasing(used: seq<Rec>)
  {
    forall i, j :: 0 <= i < j < |used| ==> used[i].numpc > used[j].numpc
  }

  /** Without a shift, every record's numpc is the quotient of its total and count. */
  ghost predicate Exact(used: seq<Rec>)
  {
    forall k {:trigger used[k]} :: 0 <= k < |used| ==>
      used[k].count > 0 && used[k].numpc == Numpc(used[k].count, used[k].num, 0)
  }

  lemma QuotientBounds(c: nat, n: nat)
    requires c > 0
    ensures Numpc(c, n, 0) * c <= n < (Numpc(c, n, 0) + 1) * c
  {
    var q := n / c;
    assert n == q * c + n % c;
    assert (q + 1) * c == q * c + c;
  }

  /** The quotient of a merged pair lies between the two. */
  lemma MediantBetween(a: Rec, b: Rec)
    requires Exact([a, b]) && a.numpc >= b.numpc
    ensures b.numpc <= Numpc(a.count + b.count, a.num + b.num, 0) <= a.numpc
  {
    var m := Numpc(a.count + b.count, a.num + b.num, 0);
    assert Exact([a, b]) && [a, b][0] == a && [a, b][1] == b;
    QuotientBounds(a.count, a.num);
    QuotientBounds(b.count, b.num);
    QuotientBounds(a.count + b.count, a.num + b.num);
    MediantBounds(a.count, a.num, a.numpc, b.count, b.num, b.numpc, m);
  }

  lemma MediantBounds(c1: nat, n1: nat, q1: nat, c2: nat, n2: nat, q2: nat, m: nat)
    requires c1 > 0 && c2 > 0 && q1 >= q2
    requires q1 * c1 <= n1 < (q1 + 1) * c1 && q2 * c2 <= n2 < (q2 + 1) * c2
    requires m * (c1 + c2) <= n1 + n2 < (m + 1) * (c1 + c2)
    ensures q2 <= m <= q1
  {
    MulOrder(c1, q2, q1);
    MulOrder(c2, q2 + 1, q1 + 1);
    assert (m + 1) * (c1 + c2) > q2 * (c1 + c2);
    assert m * (c1 + c2) < (q1 + 1) * (c1 + c2);
    MulOrder(c1 + c2, m + 1, q2);
    MulOrder(c1 + c2, q1 + 1, m);
  }

  /** Without a shift, adding keeps the records exact and in strictly decreasing order. */
  lemma AddedSorted(used: seq<Rec>, count: nat, num: nat)
    requires |used| <= BINS && StrictlyDecreasing(used) && Exact(used)
    ensures StrictlyDecreasing(Added(used, 0, count, num)) && Exact(Added(used, 0, count, num))
  {
    hide Numpc, Place, Insert, MergeClosest, StrictlyDecreasing;
    if count > 0 {
      var numpc := Numpc(count, num, 0);
      var i := Place(used, numpc);
      var r := Rec(count, num, numpc);
      assert Exact([r]);
      if i < |used| && used[i].numpc == numpc {
        UpdateSorted(used, i, r);
      } else {
        InsertSorted(used, i, r);
        var s := Insert(used, i, r);
        if |s| > BINS {
          MergeSorted(s);
        }
      }
    }
  }

  lemma UpdateSorted(used: seq<Rec>, i: nat, r: Rec)
    requires StrictlyDecreasing(used) && Exact(used) && Exact([r]) && i < |used| && used[i].numpc == r.numpc
    ensures StrictlyDecreasing(Joined(used, i, r.count, r.num)) && Exact(Joined(used, i, r.count, r.num))
  {
    hide Numpc;
    assert [r][0] == r;
    EqualQuotients(used[i], r);
  }

  lemma InsertSorted(used: seq<Rec>, i: nat, r: Rec)
    requires StrictlyDecreasing(used) && Exact(used) && Exact([r]) && i <= |used|
    requires forall k :: 0 <= k < i ==> used[k].numpc > r.numpc
    requires i < |used| ==> used[i].numpc < r.numpc
    ensures StrictlyDecreasing(Insert(used, i, r)) && Exact(Insert(used, i, r))
  {
    hide Numpc;
    assert [r][0] == r;
  }

  lemma MergeSorted(s: seq<Rec>)
    requires |s| >= 2 && StrictlyDecreasing(s) && Exact(s)
    ensures StrictlyDecreasing(MergeClosest(s, 0)) && Exact(MergeClosest(s, 0))
  {
    hide Numpc, Closest, MergeAt;
    var j := Closest(s, |s| - 1);
    MediantBetween(s[j], s[j + 1]);
    MergeAtIndex(s, j, Merged(s[j], s[j + 1], 0));
  }

  lemma EqualQuotients(a: Rec, b: Rec)
    requires Exact([a, b]) && a.numpc == b.numpc
    ensures Numpc(a.count + b.count, a.num + b.num, 0) == a.numpc
  {
    MediantBetween(a, b);
  }

  lemma {:induction false} RunSorted(values: seq<Value>)
    ensures StrictlyDecreasing(Run(0, values)) && Exact(Run(0, values))
  {
    if values != [] {
      var v := values[|values| - 1];
      RunSorted(values[..|values| - 1]);
      AddedSorted(Run(0, values[..|values| - 1]), v.count, v.num);
    }
  }

  // ---------- 32 bits ----------

  /** What the caller adds fits 32 bits altogether. */
  predicate Small(values: seq<Value>)
  {
    Sums(values).0 < WORD && Sums(values).1 < WORD
  }

  lemma OneOfTotal(used: seq<Rec>, i: nat)
    requires i < |used|
    ensures used[i].count <= Counts(used) && used[i].num <= Nums(used)
  {
    TotalsReplace(used[..i], [used[i]], used[i + 1..]);
    assert used[..i] + [used[i]] + used[i + 1..] == used;
    TotalsOne(used[i]);
  }

  lemma PairOfTotal(s: seq<Rec>, j: nat)
    requires j + 2 <= |s|
    ensures s[j].count + s[j + 1].count <= Counts(s) && s[j].num + s[j + 1].num <= Nums(s)
  {
    hide Counts, Nums;
    TotalsReplace(s[..j], [s[j]] + [s[j + 1]], s[j + 2..]);
    TotalsConcat([s[j]], [s[j + 1]]);
    assert s[..j] + ([s[j]] + [s[j + 1]]) + s[j + 2..] == s;
    TotalsOne(s[j]);
    TotalsOne(s[j + 1]);
  }

  lemma TotalsNoWrap(used: seq<Rec>, shift: nat, count: nat, num: nat)
    requires |used| <= BINS && Counts(used) + count < WORD && Nums(used) + num < WORD
    ensures NoWrap(used, shift, count, num)
  {
    hide Numpc, Place, Insert, Closest, Counts, Nums;
    var numpc := Numpc(count, num, shift);
    var i := Place(used, numpc);
    if i < |used| {
      OneOfTotal(used, i);
    }
    if |used| == BINS {
      var s := Insert(used, i, Rec(count, num, numpc));
      InsertLength(used, i, Rec(count, num, numpc));
      InsertTotals(used, i, Rec(count, num, numpc));
      PairOfTotal(s, Closest(s, BINS));
    }
  }

  /** As long as all that is added fits 32 bits, nothing ever wraps. */
  lemma {:induction false} TableIs(shift: nat, values: seq<Value>)
    requires Small(values)
    ensures Table(shift, values) == Padded(Run(shift, values)) && AllUsed(Run(shift, values))
  {
    if values == [] {
      assert Padded([]) == Empty();
    } else {
      var init, v := values[..|values| - 1], values[|values| - 1];
      var used := Run(shift, init);
      TableIs(shift, init);
      RunConservesTotals(shift, init);
      hide Stored, Added, NoWrap, Padded;
      if v.count > 0 {
        TotalsNoWrap(used, shift, v.count, v.num);
        StoredIs(used, shift, v.count, v.num);
      } else {
        NothingStored(used, shift, v.num);
      }
    }
  }

  lemma NothingStored(used: seq<Rec>, shift: nat, num: nat)
    requires |used| <= BINS
    ensures Stored(Padded(used), shift, 0, num) == Padded(used) && Added(used, shift, 0, num) == used
  {
  }

  lemma {:induction false} ZeroTotals(n: nat)
    ensures Counts(seq(n, _ => ZERO)) == 0 && Nums(seq(n, _ => ZERO)) == 0
  {
    if n > 0 {
      assert seq(n, _ => ZERO)[..n - 1] == seq(n - 1, _ => ZERO);
      ZeroTotals(n - 1);
    }
  }

  lemma PaddedIs(used: seq<Rec>, n: nat)
    requires |used| + n == BINS + 1
    ensures Padded(used) == used + seq(n, _ => ZERO)
  {
  }

  lemma PaddedTotals(used: seq<Rec>)
    requires |used| <= BINS + 1
    ensures Counts(Padded(used)) == Counts(used) && Nums(Padded(used)) == Nums(used)
  {
    var n := BINS + 1 - |used|;
    hide Counts, Nums, Padded;
    PaddedIs(used, n);
    TotalsConcat(used, seq(n, _ => ZERO));
    ZeroTotals(n);
  }

  /** The totals are conserved as long as they fit 32 bits. */
  lemma TableConservesTotals(shift: nat, values: seq<Value>)
    requires Small(values)
    ensures (Counts(Table(shift, values)), Nums(Table(shift, values))) == Sums(values)
  {
    hide *;
    TableIs(shift, values);
    PaddedTotals(Run(shift, values));
    RunConservesTotals(shift, values);
  }

  /** The records in use come first, by decreasing total per count. */
  ghost predicate Sorted(t: seq<Rec>)
  {
    forall i, j :: 0 <= i < j < |t| && t[j].count != 0 ==> t[i].count != 0 && t[i].numpc > t[j].numpc
  }

  /** Without a shift, the table is sorted as long as all that was added fits 32 bits. */
  lemma TableSorted(values: seq<Value>)
    requires Small(values)
    ensures Sorted(Table(0, values))
  {
    hide Run, Table, Added, Stored, Padded;
    TableIs(0, values);
    RunSorted(values);
    PaddedAt(Run(0, values));
  }

  // ---------- with a shift, the order is not kept ----------

  /** Values that come by decreasing total per count, so that each is a record of its own. */
  ghost predicate Falling(shift: nat, values: seq<Value>)
  {
    && (forall k {:trigger values[k]} :: 0 <= k < |values| ==> values[k].count > 0)
    && forall i, j :: 0 <= i < j < |values| ==> Quotient(shift, values[i]) > Quotient(shift, values[j])
  }

  function Quotient(shift: nat, v: Value): nat
  {
    Numpc(v.count, v.num, shift)
  }

  function Recs(shift: nat, values: seq<Value>): (r: seq<Rec>)
    ensures |r| == |values|
  {
    seq(|values|, i requires 0 <= i < |values| => Rec(values[i].count, values[i].num, Quotient(shift, values[i])))
  }

  /** A value smaller than all records goes last. */
  lemma PlaceLast(used: seq<Rec>, numpc: nat)
    requires forall k :: 0 <= k < |used| ==> used[k].numpc > numpc
    ensures Place(used, numpc) == |used|
  {
  }

  lemma StoredLast(used: seq<Rec>, shift: nat, v: Value)
    requires |used| <= BINS && AllUsed(used) && v.count > 0
    requires forall k :: 0 <= k < |used| ==> used[k].numpc > Quotient(shift, v)
    ensures var s := used + [Rec(v.count, v.num, Quotient(shift, v))];
            Stored(Padded(used), shift, v.count, v.num) == if |s| <= BINS then Padded(s) else MergeTable(s, shift)
  {
    var r := Rec(v.count, v.num, Quotient(shift, v));
    assert Insert(used, |used|, r) == used + [r];
    hide Spot, Numpc, Place, MergeTable, Padded, Shifted, Insert;
    SpotIsPlace(used, r.numpc);
    PlaceLast(used, r.numpc);
    ShiftedIsInsert(used, |used|, r);
    PaddedAt(used);
    PaddedAt(used + [r]);
    assert Padded(used)[|used|] == ZERO;
    assert Padded(used + [r])[BINS] == if |used| == BINS then r else ZERO;
    if |used| == BINS {
      PaddedFull(used + [r]);
    }
  }

  lemma TableOne(shift: nat, values: seq<Value>, v: Value)
    ensures Table(shift, values + [v]) == Stored(Table(shift, values), shift, v.count, v.num)
  {
    assert (values + [v])[..|values|] == values;
  }

  lemma NothingFalls(shift: nat)
    ensures Table(shift, []) == Padded(Recs(shift, [])) && |Recs(shift, [])| == 0 <= BINS
  {
    assert Padded([]) == Empty();
  }

  /** Up to ten falling values are the records in use; with the eleventh the closest two are merged. */
  lemma {:induction false} TableFalling(shift: nat, values: seq<Value>)
    requires |values| <= BINS + 1 && Falling(shift, values)
    ensures Table(shift, values)
            == if |values| <= BINS then Padded(Recs(shift, values)) else MergeTable(Recs(shift, values), shift)
  {
    hide *;
    if values == [] {
      NothingFalls(shift);
    } else {
      var init, v := values[..|values| - 1], values[|values| - 1];
      TableOne(shift, init, v);
      assert init + [v] == values;
      FallingInit(shift, values);
      TableFalling(shift, init);
      StoredLast(Recs(shift, init), shift, v);
    }
  }

  lemma FallingInit(shift: nat, values: seq<Value>)
    requires values != [] && Falling(shift, values)
    ensures var (init, v) := (values[..|values| - 1], values[|values| - 1]);
            && Falling(shift, init) && AllUsed(Recs(shift, init)) && v.count > 0
            && Recs(shift, values) == Recs(shift, init) + [Rec(v.count, v.num, Quotient(shift, v))]
            && forall k :: 0 <= k < |init| ==> Recs(shift, init)[k].numpc > Quotient(shift, v)
  {
    hide Quotient;
  }

  /** Nine single values, and two that count half of what the shift asks for. */
  function Halves(shift: nat): (values: seq<Value>)
    requires shift > 0
    ensures |values| == BINS + 1
  {
    seq(9, i requires 0 <= i < 9 => Value(1, 2000 - 10 * i))
    + [Value(Pow2(shift - 1), 1910), Value(Pow2(shift - 1), 1909)]
  }

  lemma HalvesQuotient(shift: nat, k: nat)
    requires shift > 0 && k <= BINS
    ensures Quotient(shift, Halves(shift)[k]) == if k == BINS then 1909 else 2000 - 10 * k
    ensures Halves(shift)[k].num == Quotient(shift, Halves(shift)[k])
  {
    assert Pow2(shift) == 2 * Pow2(shift - 1);
  }

  lemma HalvesFalling(shift: nat)
    requires shift > 0
    ensures Falling(shift, Halves(shift))
  {
    hide Numpc, Quotient;
    forall i, j | 0 <= i < j <= BINS
      ensures Quotient(shift, Halves(shift)[i]) > Quotient(shift, Halves(shift)[j])
    {
      HalvesQuotient(shift, i);
      HalvesQuotient(shift, j);
    }
  }

  /** Eleven values after which the records are out of order: the closest two, 1910 and 1909, are merged, and the
      doubled count now reaches the shift, so their totals are added up instead of averaged. */
  lemma OutOfOrder(shift: nat)
    requires 0 < shift < 32
    ensures Small(Halves(shift)) && !Sorted(Table(shift, Halves(shift)))
  {
    hide Numpc, Quotient, MergeAt, Closest, Halves, Table, Sorted;
    HalvesSmall(shift);
    HalvesFalling(shift);
    TableFalling(shift, Halves(shift));
    var s := Recs(shift, Halves(shift));
    LastTwoClosest(shift);
    HalvesMerged(shift);
    var m := WordMerged(s[9], s[10], shift);
    MergeAtIndex(s, 9, m);
    HalvesQuotient(shift, 8);
    var t := Table(shift, Halves(shift));
    assert t[8].numpc == 1920 && t[9].numpc == 3819 && t[9].count == m.count;
    NotSorted(t, 8);
  }

  lemma NotSorted(t: seq<Rec>, k: nat)
    requires k + 1 < |t| && t[k + 1].count != 0 && t[k].numpc <= t[k + 1].numpc
    ensures !Sorted(t)
  {
  }

  lemma LastTwoClosest(shift: nat)
    requires shift > 0
    ensures Closest(Recs(shift, Halves(shift)), BINS) == 9
  {
    hide Closest, Quotient, Halves;
    var s := Recs(shift, Halves(shift));
    forall k | 0 <= k <= BINS ensures s[k].numpc == if k == BINS then 1909 else 2000 - 10 * k {
      HalvesQuotient(shift, k);
    }
    assert forall k {:trigger Gap(s, k)} :: 0 <= k < 9 ==> Gap(s, k) == 10;
    assert Gap(s, 9) == 1;
    assert Gap(s, Closest(s, BINS)) <= 1;
  }

  lemma HalvesMerged(shift: nat)
    requires 0 < shift < 32
    ensures var s := Recs(shift, Halves(shift));
            WordMerged(s[9], s[10], shift) == Rec(Pow2(shift), 3819, 3819) && Pow2(shift) < WORD
  {
    hide Numpc, Halves, Recs, Quotient, Pow2, WordMerged;
    var s := Recs(shift, Halves(shift));
    HalvesEnd(shift);
    PowersFit(shift);
    FullQuotient(shift, 3819);
    MergedWithin(s[9], s[10], shift);
  }

  lemma HalvesEnd(shift: nat)
    requires shift > 0
    ensures var s := Recs(shift, Halves(shift));
            s[9].count + s[10].count == Pow2(shift) && s[9].num == 1910 && s[10].num == 1909
  {
    hide Quotient, Pow2;
    HalfPower(shift);
  }

  lemma HalfPower(shift: nat)
    requires shift > 0
    ensures Pow2(shift) == 2 * Pow2(shift - 1)
  {
  }

  lemma FullQuotient(shift: nat, n: nat)
    ensures Numpc(Pow2(shift), n, shift) == n
  {
    DivModUnique(1, 0, Pow2(shift));
  }

  lemma PowersFit(shift: nat)
    requires shift < 32
    ensures Pow2(shift) <= 0x8000_0000
  {
    hide Pow2;
    Pow2Monotone(shift, 31);
    Pow2Of31();
  }

  lemma {:induction false} SumsBound(values: seq<Value>, c: nat, n: nat)
    requires forall k {:trigger values[k]} :: 0 <= k < |values| ==> values[k].count <= c && values[k].num <= n
    ensures Sums(values).0 <= |values| * c && Sums(values).1 <= |values| * n
  {
    if values != [] {
      SumsBound(values[..|values| - 1], c, n);
      assert |values| * c == (|values| - 1) * c + c && |values| * n == (|values| - 1) * n + n;
    }
  }

  lemma HalvesSmall(shift: nat)
    requires 0 < shift < 32
    ensures Small(Halves(shift))
  {
    var v := Halves(shift);
    PowersFit(shift);
    assert Pow2(shift) == 2 * Pow2(shift - 1);
    SumsBound(v[..9], 1, 2000);
    assert v[..10][..9] == v[..9] && v[..11] == v && v[..11][..10] == v[..10];
  }

  /** The records are sorted after every run that fits 32 bits exactly when the table has no shift. */
  lemma SortedIffUnshifted(shift: nat)
    requires shift < 32
    ensures (forall values :: Small(values) ==> Sorted(Table(shift, values))) <==> shift == 0
  {
    if shift == 0 {
      forall values | Small(values)
        ensures Sorted(Table(0, values))
      {
        TableSorted(values);
      }
    } else {
      OutOfOrder(shift);
    }
  }

  // ---------- beyond 32 bits ----------

  lemma ModShift(x: nat, k: nat)
    ensures (x + WORD * k) % WORD == x % WORD
  {
    DivModUnique(x / WORD + k, x % WORD, WORD);
    assert x + WORD * k == (x / WORD + k) * WORD + x % WORD;
  }

  /** Reducing one summand does not change the sum modulo 2^32. */
  lemma ModSum(rest: nat, x: nat)
    ensures (rest + x % WORD) % WORD == (rest + x) % WORD
  {
    ModShift(rest + x % WORD, x / WORD);
    assert x == x % WORD + WORD * (x / WORD);
  }

  lemma ModIff(x: nat, d: nat)
    requires d < WORD && d <= x
    ensures (x - d) % WORD == x % WORD <==> d == 0
  {
    if (x - d) % WORD == x % WORD {
      var (q, r) := (x / WORD, (x - d) / WORD);
      assert x == WORD * q + x % WORD && x - d == WORD * r + (x - d) % WORD;
      assert d == WORD * (q - r);
      MulSmall(WORD, q - r);
    }
  }

  lemma SplitLast(t: seq<Rec>, i: nat)
    requires i < |t|
    ensures t[..i] + t[i..|t| - 1] + [t[|t| - 1]] == t
  {
  }

  lemma ShiftedTotals(t: seq<Rec>, i: nat, r: Rec)
    requires i < |t|
    ensures Counts(Shifted(t, i, r)) + t[|t| - 1].count == Counts(t) + r.count
    ensures Nums(Shifted(t, i, r)) + t[|t| - 1].num == Nums(t) + r.num
  {
    assert Shifted(t, i, r) == t[..i] + [r] + t[i..|t| - 1];
    hide *;
    var k := |t| - 1;
    TotalsReplace(t[..i], [r], t[i..k]);
    TotalsReplace(t[..i], t[i..k], [t[k]]);
    SplitLast(t, i);
    TotalsOne(r);
    TotalsOne(t[k]);
  }

  lemma MergeTableTotals(s: seq<Rec>, shift: nat)
    requires |s| == BINS + 1
    ensures var j := Closest(s, BINS);
            var (c, n) := (s[j].count + s[j + 1].count, s[j].num + s[j + 1].num);
            && Counts(MergeTable(s, shift)) + c == Counts(s) + c % WORD
            && Nums(MergeTable(s, shift)) + n == Nums(s) + n % WORD
  {
    hide Numpc, Closest, MergeAt, Counts, Nums;
    var j := Closest(s, BINS);
    var m := WordMerged(s[j], s[j + 1], shift);
    MergeAtTotals(s, j, m);
    TotalsConcat(MergeAt(s, j, m), [ZERO]);
    TotalsOne(ZERO);
  }

  /** No total is lost with the record that is shifted out. */
  predicate Lossless(t: seq<Rec>, shift: nat, count: nat, num: nat)
    requires |t| == BINS + 1
  {
    count > 0 ==>
      var i := Spot(t, Numpc(count, num, shift));
      (t[i].count != 0 && t[i].numpc == Numpc(count, num, shift)) || t[BINS].num == 0
  }

  /** One addition changes the totals modulo 2^32 by exactly the value: that of the counts always, the other exactly if
      no total is lost. */
  lemma StoredTotals(t: seq<Rec>, shift: nat, count: nat, num: nat)
    requires IsTable(t)
    ensures var r := Stored(t, shift, count, num);
            && Counts(r) % WORD == (Counts(t) + count) % WORD
            && (Nums(r) % WORD == (Nums(t) + if count > 0 then num else 0) % WORD <==> Lossless(t, shift, count, num))
  {
    hide Numpc, Counts, Nums, Spot, Shifted, MergeTable, Words;
    if count > 0 {
      var numpc := Numpc(count, num, shift);
      var i := Spot(t, numpc);
      if t[i].count != 0 && t[i].numpc == numpc {
        JoinTotals(t, i, count, num, numpc);
      } else {
        InsertedTotals(t, i, Rec(count, num, numpc), shift);
      }
    }
  }

  lemma JoinTotals(t: seq<Rec>, i: nat, count: nat, num: nat, numpc: nat)
    requires i < |t|
    ensures var r := t[i := Rec((t[i].count + count) % WORD, (t[i].num + num) % WORD, numpc)];
            Counts(r) % WORD == (Counts(t) + count) % WORD && Nums(r) % WORD == (Nums(t) + num) % WORD
  {
    hide Counts, Nums;
    OneOfTotal(t, i);
    UpdateTotals(t, i, Rec((t[i].count + count) % WORD, (t[i].num + num) % WORD, numpc));
    ModSum(Counts(t) - t[i].count, t[i].count + count);
    ModSum(Nums(t) - t[i].num, t[i].num + num);
  }

  lemma InsertedTotals(t: seq<Rec>, i: nat, r: Rec, shift: nat)
    requires IsTable(t) && i <= BINS
    ensures var s := Shifted(t, i, r);
            var u := if s[BINS].count != 0 then MergeTable(s, shift) else s;
            && Counts(u) % WORD == (Counts(t) + r.count) % WORD
            && (Nums(u) % WORD == (Nums(t) + r.num) % WORD <==> t[BINS].num == 0)
  {
    assert t[BINS].num < WORD;
    hide Counts, Nums, MergeTable, Shifted, Words;
    ShiftedTotals(t, i, r);
    OneOfTotal(t, BINS);
    ModIff(Nums(t) + r.num, t[BINS].num);
    MergedModulo(Shifted(t, i, r), shift);
  }

  lemma MergedModulo(s: seq<Rec>, shift: nat)
    requires |s| == BINS + 1
    ensures Counts(MergeTable(s, shift)) % WORD == Counts(s) % WORD
    ensures Nums(MergeTable(s, shift)) % WORD == Nums(s) % WORD
  {
    hide Counts, Nums, MergeTable, Closest;
    var j := Closest(s, BINS);
    PairOfTotal(s, j);
    MergeTableTotals(s, shift);
    ModSum(Counts(s) - (s[j].count + s[j + 1].count), s[j].count + s[j + 1].count);
    ModSum(Nums(s) - (s[j].num + s[j + 1].num), s[j].num + s[j + 1].num);
  }

  /** Eleven single values of about four thousand million, the first two next to each other. */
  function Large(): (values: seq<Value>)
    ensures |values| == BINS + 1
  {
    seq(BINS + 1, i requires 0 <= i <= BINS => Value(1, LargeAt(i)))
  }

  function LargeAt(i: nat): (n: nat)
    requires i <= BINS
    ensures n < WORD
  {
    if i == 1 then 3_999_999_999 else 4_000_000_000 - 100 * i
  }

  lemma LargeQuotient(k: nat)
    requires k <= BINS
    ensures Quotient(0, Large()[k]) == LargeAt(k)
  {
  }

  /** Without a shift, too, the table gets out of order once a total wraps: the first two values are merged, and what
      is left of their sum is the smallest total per count, in front of all others. */
  lemma WrapOutOfOrder()
    ensures !Small(Large()) && !Sorted(Table(0, Large()))
  {
    hide Numpc, Quotient, MergeAt, Closest, Large, Table, Sorted;
    LargeFalling();
    TableFalling(0, Large());
    var s := Recs(0, Large());
    FirstTwoClosest();
    LargeMerged();
    var m := WordMerged(s[0], s[1], 0);
    MergeAtIndex(s, 0, m);
    LargeQuotient(2);
    assert s[2].count == 1 by {
      LargeCounts();
    }
    var t := Table(0, Large());
    assert t[0].numpc == 1_852_516_351 && t[1].numpc == 3_999_999_800;
    NotSorted(t, 0);
    if Small(Large()) {
      TableSorted(Large());
    }
  }

  lemma LargeCounts()
    ensures forall k {:trigger Large()[k]} :: 0 <= k <= BINS ==> Large()[k] == Value(1, LargeAt(k))
  {
  }

  lemma LargeFalling()
    ensures Falling(0, Large())
  {
    LargeCounts();
    hide Numpc, Quotient, Large;
    forall i, j | 0 <= i < j <= BINS
      ensures Quotient(0, Large()[i]) > Quotient(0, Large()[j])
    {
      LargeQuotient(i);
      LargeQuotient(j);
    }
  }

  lemma FirstTwoClosest()
    ensures Closest(Recs(0, Large()), BINS) == 0
  {
    hide Closest, Quotient, Large;
    var s := Recs(0, Large());
    forall k | 0 <= k <= BINS ensures s[k].numpc == LargeAt(k) {
      LargeQuotient(k);
    }
    assert forall k {:trigger Gap(s, k)} :: 0 < k < BINS ==> Gap(s, k) >= 100;
    assert Gap(s, 0) == 1;
    assert Gap(s, Closest(s, BINS)) <= 1;
  }

  lemma LargeMerged()
    ensures var s := Recs(0, Large());
            WordMerged(s[0], s[1], 0) == Rec(2, 3_705_032_703, 1_852_516_351)
  {
    hide Quotient;
  }

  ghost predicate WordValues(values: seq<Value>)
  {
    forall k {:trigger values[k]} :: 0 <= k < |values| ==> values[k].count < WORD && values[k].num < WORD
  }

  /** Records that count nothing are all zero, the last one is one of them. */
  ghost predicate Proper(t: seq<Rec>)
  {
    && |t| == BINS + 1 && t[BINS] == ZERO
    && forall k {:trigger t[k]} :: 0 <= k <= BINS ==> t[k].count == 0 ==> t[k] == ZERO
  }

  lemma ProperMerged(s: seq<Rec>, shift: nat)
    requires |s| == BINS + 1 && Counts(s) < WORD
    requires forall k {:trigger s[k]} :: 0 <= k <= BINS ==> s[k].count == 0 ==> s[k] == ZERO
    ensures Proper(MergeTable(s, shift)) && Counts(MergeTable(s, shift)) == Counts(s)
  {
    hide Closest, Counts, Nums, MergeAt;
    var j := Closest(s, BINS);
    PairOfTotal(s, j);
    MergeTableTotals(s, shift);
    var m := WordMerged(s[j], s[j + 1], shift);
    assert m.count == 0 ==> m == ZERO;
    hide WordMerged;
    MergeAtIndex(s, j, m);
  }

  /** As long as the counts do not wrap, the table keeps them exactly and loses no total. */
  lemma StoredProper(t: seq<Rec>, shift: nat, count: nat, num: nat)
    requires Proper(t) && Counts(t) + count < WORD
    ensures var r := Stored(t, shift, count, num);
            Proper(r) && Counts(r) == Counts(t) + count && Lossless(t, shift, count, num)
  {
    hide Numpc, Counts, Nums, Spot, MergeTable;
    if count > 0 {
      var numpc := Numpc(count, num, shift);
      var i := Spot(t, numpc);
      OneOfTotal(t, i);
      if t[i].count != 0 && t[i].numpc == numpc {
        UpdateTotals(t, i, Rec((t[i].count + count) % WORD, (t[i].num + num) % WORD, numpc));
      } else {
        var s := Shifted(t, i, Rec(count, num, numpc));
        ShiftedTotals(t, i, Rec(count, num, numpc));
        ProperMerged(s, shift);
      }
    }
  }

  /** Over any run the counts are conserved modulo 2^32, and as long as they fit 32 bits, so are the other totals. */
  lemma {:induction false} TableModulo(shift: nat, values: seq<Value>)
    requires WordValues(values)
    ensures var (t, sums) := (Table(shift, values), Sums(values));
            && IsTable(t) && Counts(t) % WORD == sums.0 % WORD
            && (sums.0 < WORD ==> Proper(t) && Counts(t) == sums.0 && Nums(t) % WORD == sums.1 % WORD)
  {
    if values == [] {
      ZeroTotals(BINS + 1);
    } else {
      var init, v := values[..|values| - 1], values[|values| - 1];
      var t := Table(shift, init);
      hide Stored, Lossless, Proper, IsTable, Counts, Nums;
      TableModulo(shift, init);
      StoredIsTable(t, shift, v.count, v.num);
      StoredTotals(t, shift, v.count, v.num);
      ModTrans(Counts(t), Sums(init).0, v.count);
      if Sums(values).0 < WORD {
        StoredProper(t, shift, v.count, v.num);
        ModTrans(Nums(t), Sums(init).1, if v.count > 0 then v.num else 0);
      }
    }
  }

  lemma ModTrans(a: nat, b: nat, x: nat)
    requires a % WORD == b % WORD
    ensures (a + x) % WORD == (b + x) % WORD
  {
    ModSum(x, a);
    ModSum(x, b);
  }

  /** Nine single values, and two of the same quotient whose counts add up to 2^32. */
  function Wrapping(): (values: seq<Value>)
    ensures |values| == 11
  {
    seq(9, i requires 0 <= i < 9 => Value(1, 2000 - 10 * i))
    + [Value(0x8000_0000, 0x8000_0005), Value(0x8000_0000, 0x8000_0000)]
  }

  /** With a count of zero the record of these two passes for an unused one, although it holds a total. */
  lemma WrappedRecord()
    ensures var t := Table(0, Wrapping());
            t[0] == Rec(1, 2000, 2000) && t[9] == Rec(0, 5, 1) && t[BINS] == ZERO
  {
    hide Numpc, Stored, Spot;
    var w := Wrapping();
    assert w[..10] == w[..11][..10] && w[..11] == w;
    WrappingFalling();
    TableFalling(0, w[..10]);
    var t := Table(0, w[..10]);
    PaddedAt(Recs(0, w[..10]));
    WrappingQuotient(9);
    assert t[9] == Rec(0x8000_0000, 0x8000_0005, 1) && t[10] == ZERO;
    forall k | 0 <= k < 9 ensures t[k].count != 0 && t[k].numpc > 1 {
      WrappingQuotient(k);
    }
    WrappingQuotient(0);
    assert t[0] == Rec(1, 2000, 2000);
    SpotUnique(t, 1, 9);
    WrappingStored(t);
  }

  lemma WrappingStored(t: seq<Rec>)
    requires |t| == BINS + 1 && Spot(t, 1) == 9 && t[9] == Rec(0x8000_0000, 0x8000_0005, 1)
    ensures Stored(t, 0, 0x8000_0000, 0x8000_0000) == t[9 := Rec(0, 5, 1)]
  {
    hide Spot;
    assert Numpc(0x8000_0000, 0x8000_0000, 0) == 1;
  }

  lemma WrappingQuotient(k: nat)
    requires k < 10
    ensures Quotient(0, Wrapping()[k]) == if k == 9 then 1 else 2000 - 10 * k
    ensures Wrapping()[k].count > 0
  {
  }

  lemma WrappingFalling()
    ensures Falling(0, Wrapping()[..10])
  {
    hide Numpc, Quotient, Wrapping;
    var w := Wrapping();
    forall i | 0 <= i < 10 ensures w[..10][i] == w[i] && w[i].count > 0 {
      WrappingQuotient(i);
    }
    forall i, j | 0 <= i < j < 10
      ensures Quotient(0, w[..10][i]) > Quotient(0, w[..10][j])
    {
      WrappingQuotient(i);
      WrappingQuotient(j);
    }
  }

  lemma SingleQuotient(n: nat)
    ensures Numpc(1, n, 0) == n
  {
  }

  /** A greater value than any moves all records up. */
  lemma StoredFirst(t: seq<Rec>, n: nat)
    requires |t| == BINS + 1 && t[0].numpc < n && t[9].count == 0
    ensures Stored(t, 0, 1, n) == Shifted(t, 0, Rec(1, n, n)) && Spot(t, n) == 0
  {
    hide Numpc, MergeTable;
    SingleQuotient(n);
    assert Shifted(t, 0, Rec(1, n, n))[BINS] == t[9];
  }

  /** The first of two greater values moves that record to the end of the table, and the second one drops its total. */
  lemma TotalLost()
    ensures !Lossless(Table(0, Wrapping() + [Value(1, 3000)]), 0, 1, 4000)
  {
    hide Numpc, Wrapping, Table, Stored;
    var t := Table(0, Wrapping());
    WrappedRecord();
    TableOne(0, Wrapping(), Value(1, 3000));
    StoredFirst(t, 3000);
    SingleQuotient(4000);
    var u := Shifted(t, 0, Rec(1, 3000, 3000));
    assert u[BINS] == t[9] && u[0].numpc == 3000;
    SpotUnique(u, 4000, 0);
  }
}
