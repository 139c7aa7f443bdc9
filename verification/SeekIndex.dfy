/** The self-decimating seek index of containers/core/containers_index.c.

    A table of 2^len slots records every 2^maxCount-th accepted entry.  When it is full, every other record is
    dropped without moving any data: only the map from logical entry numbers to slots changes. */
module SeekIndex {
  import opened Common

  datatype Pos = Pos(time: int, fileOffset: int)

  datatype GetResult = Failed | Found(time: int, fileOffset: int, past: bool)

  // ---------- the map from entry numbers to slots ----------

  /** ENTRY(x, i): the slot of logical entry i when the table is filled in 2^gap passes. */
  function Slot(len: nat, gap: nat, i: nat): (j: nat)
    requires gap <= len && i < Pow2(len)
    ensures j < Pow2(len)
  {
    var (q, r) := HighLow(i, len, len - gap);
    if gap == 0 then i else SlotOfDigits(len, gap, q, r); q + r * Pow2(gap)
  }

  /** The part of i above its lowest m bits, and those bits. */
  function HighLow(i: nat, len: nat, m: nat): (d: (nat, nat))
    requires m <= len && i < Pow2(len)
    ensures d.0 < Pow2(len - m) && d.1 < Pow2(m) && i == d.0 * Pow2(m) + d.1
  {
    Pow2Add(len - m, m);
    TwoDigits(i, Pow2(len - m), Pow2(m));
    (i / Pow2(m), i % Pow2(m))
  }

  lemma SlotOfDigits(len: nat, gap: nat, q: nat, r: nat)
    requires gap <= len && q < Pow2(gap) && r < Pow2(len - gap)
    ensures 0 <= q + r * Pow2(gap) < Pow2(len)
  {
    Pow2Add(len - gap, gap);
    MixedRadix(r, q, Pow2(len - gap), Pow2(gap));
  }

  lemma HighLowUnique(i: nat, len: nat, m: nat, q: nat, r: nat)
    requires m <= len && i < Pow2(len) && r < Pow2(m) && i == q * Pow2(m) + r
    ensures HighLow(i, len, m) == (q, r)
  {
    DivModUnique(q, r, Pow2(m));
  }

  /** The gap after one more discard; a gap of len is the identity map again and is written as 0. */
  function NextGap(len: nat, gap: nat): nat
  {
    if gap + 1 == len then 0 else gap + 1
  }

  lemma SlotFormula(len: nat, gap: nat, i: nat, q: nat, r: nat)
    requires gap <= len && i < Pow2(len) && r < Pow2(len - gap) && i == q * Pow2(len - gap) + r
    ensures Slot(len, gap, i) == q + r * Pow2(gap)
  {
    HighLowUnique(i, len, len - gap, q, r);
  }

  /** Slot maps [0, 2^len) into itself and is inverted by the map for len - gap: it is a bijection. */
  lemma SlotBijection(len: nat, gap: nat, i: nat)
    requires gap <= len && i < Pow2(len)
    ensures Slot(len, len - gap, Slot(len, gap, i)) == i
  {
    hide Slot;
    var (q, r) := HighLow(i, len, len - gap);
    SlotFormula(len, gap, i, q, r);
    SlotFormula(len, len - gap, Slot(len, gap, i), r, q);
  }

  lemma SlotInjective(len: nat, gap: nat, i: nat, j: nat)
    requires gap <= len && i < Pow2(len) && j < Pow2(len)
    requires Slot(len, gap, i) == Slot(len, gap, j)
    ensures i == j
  {
    SlotBijection(len, gap, i);
    SlotBijection(len, gap, j);
  }

  /** After a discard, new entry i lives where old entry 2 * i lived, also when the gap wraps to 0. */
  lemma DiscardKeepsEven(len: nat, gap: nat, i: nat)
    requires gap < len && i < Pow2(len - 1)
    ensures Slot(len, NextGap(len, gap), i) == Slot(len, gap, 2 * i)
  {
    hide Slot;
    var m := Pow2(len - gap - 1);
    var (q, r) := HighLow(i, len - 1, len - gap - 1);
    MulTwice(q, m);
    MulTwice(r, Pow2(gap));
    SlotFormula(len, gap, 2 * i, q, 2 * r);
    if gap + 1 == len {
      SlotFormula(len, 0, i, 0, i);
    } else {
      SlotFormula(len, gap + 1, i, q, r);
    }
  }

  // ---------- sequences of entries ----------

  /** s is every step-th element of h, from the first to the last multiple of step. */
  ghost predicate Sampled(h: seq<Pos>, step: nat, s: seq<Pos>)
  {
    forall k {:trigger s[k]} :: 0 <= k < |s| ==> 0 <= k * step < |h| && s[k] == h[k * step]
  }

  function Evens(s: seq<Pos>): (r: seq<Pos>)
  {
    seq((|s| + 1) / 2, k requires 0 <= k < (|s| + 1) / 2 => s[2 * k])
  }

  ghost predicate StrictlyIncreasing(s: seq<Pos>)
  {
    forall i, j :: 0 <= i < j < |s| ==> s[i].time < s[j].time
  }

  lemma IncreasingAppend(s: seq<Pos>, p: Pos)
    requires StrictlyIncreasing(s) && (s != [] ==> s[|s| - 1].time < p.time)
    ensures StrictlyIncreasing(s + [p])
  {
  }

  lemma LastEven(s: seq<Pos>)
    requires StrictlyIncreasing(s)
    ensures s != [] ==> Evens(s) != [] && Evens(s)[|Evens(s)| - 1].time <= s[|s| - 1].time
  {
  }

  lemma SampledEvens(h: seq<Pos>, step: nat, s: seq<Pos>)
    requires Sampled(h, step, s)
    ensures Sampled(h, 2 * step, Evens(s))
  {
    forall k | 0 <= k < |Evens(s)|
      ensures 0 <= k * (2 * step) < |h| && Evens(s)[k] == h[k * (2 * step)]
    {
      var t := s[2 * k];
      assert t == h[(2 * k) * step];
      assert (2 * k) * step == k * (2 * step);
    }
  }

  /** Number of stored entries and left-over count for a history of n entries and the given step. */
  ghost predicate Counts(n: nat, step: nat, next: nat, count: nat)
  {
    if next == 0 then n == 0 && count == 0 && step == 1
    else n == (next - 1) * step + 1 + count && count < step
  }

  /** Accepting one more entry either counts it or makes a record due. */
  lemma CountOne(n: nat, step: nat, next: nat, count: nat)
    requires Counts(n, step, next, count)
    ensures count + 1 != step ==> Counts(n + 1, step, next, count + 1)
    ensures count + 1 == step ==> n + 1 == next * step + 1
  {
  }

  lemma StoreOne(n: nat, step: nat, next: nat)
    requires step >= 1 && n == next * step + 1
    ensures Counts(n, step, next + 1, 0)
  {
  }

  lemma SampledLonger(h: seq<Pos>, p: Pos, step: nat, s: seq<Pos>)
    requires Sampled(h, step, s)
    ensures Sampled(h + [p], step, s)
  {
    forall k | 0 <= k < |s|
      ensures 0 <= k * step < |h + [p]| && s[k] == (h + [p])[k * step]
    {
      assert s[k] == s[k];
    }
  }

  lemma SampledStore(h: seq<Pos>, step: nat, s: seq<Pos>)
    requires Sampled(h, step, s) && |h| == |s| * step + 1
    ensures Sampled(h, step, s + [h[|h| - 1]])
  {
  }

  /** The first n records of a table. */
  function Records(table: seq<Pos>, len: nat, gap: nat, n: nat): (s: seq<Pos>)
    requires gap < len && n <= Pow2(len) == |table|
    ensures |s| == n
  {
    seq(n, k requires 0 <= k < n => table[Slot(len, gap, k)])
  }

  class Index {
    var len: nat
    var next: nat
    var gap: nat
    var mgap: nat
    var count: nat
    var maxCount: nat
    var maxTime: int
    var entry: array<Pos>

    /** Every entry accepted so far, oldest first. */
    ghost var history: seq<Pos>

    ghost predicate Shape()
      reads `len, `next, `gap, `mgap, `entry, entry
    {
      && 1 <= len && entry.Length == Pow2(len)
      && gap < len && mgap == len - gap
      && next <= Pow2(len)
    }

    /** The records in logical order. */
    ghost function Logical(): (s: seq<Pos>)
      requires Shape()
      reads `len, `next, `gap, `mgap, `entry, entry
      ensures |s| == next
    {
      Records(entry[..], len, gap, next)
    }

    ghost predicate Valid()
      reads this, entry
    {
      && Shape()
      && Counts(|history|, Pow2(maxCount), next, count)
      && Sampled(history, Pow2(maxCount), Logical())
      && StrictlyIncreasing(Logical())
      && (next > 0 ==> maxTime == Logical()[next - 1].time)
      && (maxCount > 0 ==> next > Pow2(len - 1))
    }

    /** vc_container_index_create: 2^len is the largest power of two within the clamped length. */
    constructor (length: int)
      ensures Valid() && fresh(entry) && history == []
      ensures 4 <= len <= 12
      ensures Pow2(len) <= Max(16, Min(4096, length)) < 2 * Pow2(len)
    {
      var n := if length < 16 then 16 else if length > 4096 then 4096 else length;
      ghost var clamped := n;
      var log := 0;
      n := n / 2;
      while n != 0
        invariant n >= 0
        invariant n * Pow2(log + 1) <= clamped < (n + 1) * Pow2(log + 1)
        invariant n == 0 ==> Pow2(log) <= clamped
      {
        Halve(n, Pow2(log + 1), clamped);
        n := n / 2;
        log := log + 1;
      }
      LogBounds(log);
      len, mgap, gap := log, log, 0;
      next, count, maxCount, maxTime := 0, 0, 0, 0;
      entry := new Pos[Pow2(log)](_ => Pos(0, 0));
      history := [];
    }

    /** vc_container_index_add.  An entry within the covered time is ignored.  Any other joins the history; it is
        stored when it is the 2^maxCount-th since the last stored one, after dropping every other record if the
        table is full. */
    method Add(time: int, fileOffset: int)
      requires Valid()
      modifies this, entry
      ensures Valid() && len == old(len) && entry == old(entry)
      ensures history ==
              if old(next) != 0 && time <= old(maxTime) then old(history) else old(history) + [Pos(time, fileOffset)]
      ensures Logical() ==
              if history == old(history) || old(count) + 1 != Pow2(old(maxCount)) then old(Logical())
              else if old(next) != Pow2(len) then old(Logical()) + [Pos(time, fileOffset)]
              else Evens(old(Logical())) + [Pos(time, fileOffset)]
      ensures maxCount == old(maxCount) || (maxCount == old(maxCount) + 1 && old(next) == Pow2(len))
    {
      hide Slot, Counts, Sampled, StrictlyIncreasing, Pow2, Index.Shape, Index.Logical;
      if next != 0 && time <= maxTime {
        return;
      }
      WithinLength();
      ghost var p := Pos(time, fileOffset);
      ghost var before := Logical();
      CountOne(|history|, Pow2(maxCount), next, count);
      SampledLonger(history, p, Pow2(maxCount), before);
      count := count + 1;
      history := history + [p];
      assert Logical() == before;
      if count == Pow2(maxCount) {
        LastEven(before);
        if next == Pow2(len) {
          Discard();
        }
        SampledStore(history, Pow2(maxCount), Logical());
        StoreOne(|history|, Pow2(maxCount), next);
        Store(time, fileOffset);
      }
    }

    lemma WithinLength()
      requires Shape()
      ensures next <= Pow2(len)
    {
    }

    /** The storing step of vc_container_index_add: the slot written is not one of those in use. */
    method Store(time: int, fileOffset: int)
      requires Shape() && next < Pow2(len) && StrictlyIncreasing(Logical())
      requires next > 0 ==> Logical()[next - 1].time < time
      modifies this`next, this`count, this`maxTime, entry
      ensures Shape() && next == old(next) + 1 && count == 0 && maxTime == time
      ensures Logical() == old(Logical()) + [Pos(time, fileOffset)] && StrictlyIncreasing(Logical())
    {
      hide Slot, StrictlyIncreasing, Pow2;
      ghost var kept := Logical();
      KeptSlots(len, gap, next);
      var slot := Slot(len, gap, next);
      entry[slot] := Pos(time, fileOffset);
      count := 0;
      next := next + 1;
      maxTime := time;
      assert Logical() == kept + [Pos(time, fileOffset)];
      IncreasingAppend(kept, Pos(time, fileOffset));
    }

    /** The discard step of vc_container_index_add: no slot is written, yet exactly the even records remain. */
    method Discard()
      requires Shape() && next == Pow2(len)
      requires |history| == next * Pow2(maxCount) + 1
      requires Sampled(history, Pow2(maxCount), Logical()) && StrictlyIncreasing(Logical())
      modifies this`next, this`gap, this`mgap, this`maxCount
      ensures Shape() && next == Pow2(len - 1) < Pow2(len) && maxCount == old(maxCount) + 1
      ensures Logical() == Evens(old(Logical())) && StrictlyIncreasing(Logical())
      ensures |history| == next * Pow2(maxCount) + 1
      ensures Sampled(history, Pow2(maxCount), Logical())
    {
      hide Slot;
      ghost var before := Logical();
      ghost var oldGap := gap;
      next := next / 2;
      gap := gap + 1;
      mgap := mgap - 1;
      maxCount := maxCount + 1;
      if gap == len {
        gap := 0;
        mgap := len;
      }
      forall k | 0 <= k < next
        ensures Logical()[k] == before[2 * k]
      {
        DiscardKeepsEven(len, oldGap, k);
      }
      assert Logical() == Evens(before);
      SampledEvens(history, Pow2(maxCount - 1), before);
      MulTwice(next, Pow2(maxCount - 1));
    }

    /** The loop of vc_container_index_get. */
    method Bisect(time: int) returns (guess: nat, start: nat, end: nat)
      requires Valid() && next > 0
      ensures start <= end < next && guess < next
      ensures Logical()[guess].time == time || (end <= start + 1 && guess in {start, end})
      ensures start > 0 ==> Logical()[start].time < time
      ensures end < next - 1 ==> Logical()[end].time > time
    {
      hide Slot;
      guess, start, end := 0, 0, next - 1;
      while end - start > 1
        invariant 0 <= start <= end < next && guess in {start, end}
        invariant start > 0 ==> Logical()[start].time < time
        invariant end < next - 1 ==> Logical()[end].time > time
      {
        guess := (start + end) / 2;
        var gtime := entry[Slot(len, gap, guess)].time;
        assert gtime == Logical()[guess].time;
        if time < gtime {
          end := guess;
        } else if time > gtime {
          start := guess;
        } else {
          break;
        }
      }
    }

    /** vc_container_index_get: with later, the least record at or after the time; otherwise the greatest at or
        before it; beyond either end of the table the nearest record. */
    method Get(later: bool, time: int) returns (r: GetResult)
      requires Valid()
      ensures r.Failed? <==> next == 0
      ensures r.Found? ==> exists k :: IsSelected(Logical(), later, time, k) &&
                                       r == Found(Logical()[k].time, Logical()[k].fileOffset, time > maxTime)
    {
      hide Slot;
      if next == 0 {
        return Failed;
      }
      var guess, start, end := Bisect(time);
      ghost var s := Logical();
      var past := time > maxTime;
      if time != entry[Slot(len, gap, guess)].time {
        assert s[guess].time != time;
        if later {
          if time <= entry[Slot(len, gap, start)].time {
            guess := start;
          } else {
            guess := end;
          }
        } else {
          if time >= entry[Slot(len, gap, end)].time {
            guess := end;
          } else {
            guess := start;
          }
        }
        Between(s, later, time, start, end);
      }
      var slot := Slot(len, gap, guess);
      r := Found(entry[slot].time, entry[slot].fileOffset, past);
      assert IsSelected(s, later, time, guess);
    }
  }

  /** The slot of a new entry holds none of the entries before it. */
  lemma KeptSlots(len: nat, gap: nat, n: nat)
    requires gap <= len && n < Pow2(len)
    ensures forall k {:trigger Slot(len, gap, k)} :: 0 <= k < n ==> Slot(len, gap, k) != Slot(len, gap, n)
  {
    hide Slot;
    forall k: nat | k < n
      ensures Slot(len, gap, k) != Slot(len, gap, n)
    {
      if Slot(len, gap, k) == Slot(len, gap, n) {
        SlotInjective(len, gap, k, n);
      }
    }
  }

  /** Up to 2^33 accepted entries the counters stay well within 32 bits: a table that has discarded entries holds more
      than half of its length, and all but the last of them stand for as many entries as the step says. */
  lemma CountersFit(len: nat, history: nat, maxCount: nat, next: nat, count: nat)
    requires len >= 4 && history <= 0x2_0000_0000 && Counts(history, Pow2(maxCount), next, count)
    requires maxCount > 0 ==> next > Pow2(len - 1)
    ensures maxCount < 31 && count < Pow2(maxCount) < 0x8000_0000
  {
    if maxCount > 0 {
      hide Pow2;
      EightAndMore(len);
      MulOrder(Pow2(maxCount), 8, next - 1);
    }
    SmallPower(maxCount);
  }

  lemma EightAndMore(len: nat)
    requires len >= 4
    ensures Pow2(len - 1) >= 8 == Pow2(3)
  {
    Pow2Monotone(3, len - 1);
  }

  lemma SmallPower(n: nat)
    requires Pow2(n) <= 0x4000_0000
    ensures n < 31
  {
    Pow2Of31();
    hide Pow2;
    if n >= 31 {
      Pow2Monotone(31, n);
    }
  }

  lemma Halve(n: nat, unit: nat, c: nat)
    requires n * unit <= c < (n + 1) * unit
    ensures n / 2 * (2 * unit) <= c < (n / 2 + 1) * (2 * unit)
    ensures n > 0 ==> unit <= c
  {
    MulOrder(unit, n / 2 * 2, n);
    MulOrder(unit, n + 1, (n / 2 + 1) * 2);
    MulOrder(unit, 1, n);
  }

  lemma LogBounds(log: nat)
    requires Pow2(log) <= 4096 && 16 < 2 * Pow2(log)
    ensures 4 <= log <= 12
  {
    Pow2Monotone(Min(log, 3), 3);
    Pow2Monotone(13, Max(log, 13));
    assert Pow2(13) == 8 * Pow2(10) && Pow2(10) == 8 * Pow2(7) && Pow2(7) == 16 * Pow2(3) && Pow2(3) == 8;
  }

  /** The record that a linear search selects. */
  ghost predicate IsSelected(s: seq<Pos>, later: bool, time: int, k: int)
  {
    && 0 <= k < |s|
    && if later
       then (s[k].time >= time || k == |s| - 1) && forall j :: 0 <= j < k ==> s[j].time < time
       else (s[k].time <= time || k == 0) && forall j :: k < j < |s| ==> s[j].time > time
  }

  /** Which of two neighbours around the time is the one to select. */
  lemma Between(s: seq<Pos>, later: bool, time: int, start: nat, end: nat)
    requires StrictlyIncreasing(s) && start <= end < |s| && end <= start + 1
    requires start > 0 ==> s[start].time < time
    requires end < |s| - 1 ==> s[end].time > time
    ensures later ==> IsSelected(s, later, time, if time <= s[start].time then start else end)
    ensures !later ==> IsSelected(s, later, time, if time >= s[end].time then end else start)
  {
  }

  /** On strictly increasing records the linear search selects exactly one. */
  lemma SelectedUnique(s: seq<Pos>, later: bool, time: int, j: int, k: int)
    requires StrictlyIncreasing(s) && IsSelected(s, later, time, j) && IsSelected(s, later, time, k)
    ensures j == k
  {
  }

  /** The history alone fixes the step: two tables of one size that saw equally many entries agree on
      their discards, on how many records they hold and on the left-over count. */
  lemma HistoryFixesCounts(len: nat, n: nat, c1: nat, next1: nat, count1: nat, c2: nat, next2: nat, count2: nat)
    requires len >= 1 && next1 <= Pow2(len) && next2 <= Pow2(len)
    requires Counts(n, Pow2(c1), next1, count1) && Counts(n, Pow2(c2), next2, count2)
    requires c1 > 0 ==> next1 > Pow2(len - 1)
    requires c2 > 0 ==> next2 > Pow2(len - 1)
    ensures Pow2(c1) == Pow2(c2) && next1 == next2 && count1 == count2
  {
    if c1 < c2 {
      StepNotLarger(n, Pow2(len - 1), Pow2(c1), next1, count1, Pow2(c2), next2, count2);
      Pow2Monotone(c1 + 1, c2);
    } else if c2 < c1 {
      StepNotLarger(n, Pow2(len - 1), Pow2(c2), next2, count2, Pow2(c1), next1, count1);
      Pow2Monotone(c2 + 1, c1);
    }
    if next1 > 0 {
      DivModUnique(next1 - 1, count1, Pow2(c1));
      DivModUnique(next2 - 1, count2, Pow2(c1));
    }
  }

  /** If both steps fit a history, the table with step b being more than half full, b is less than twice a. */
  lemma StepNotLarger(n: nat, half: nat, a: nat, next1: nat, count1: nat, b: nat, next2: nat, count2: nat)
    requires next1 <= 2 * half && next2 > half && a >= 1
    requires Counts(n, a, next1, count1) && Counts(n, b, next2, count2)
    ensures b < 2 * a
  {
    MulTwice(half, a);
    MulOrder(half, 2 * a, b);
    AtLeastHalf(n, half, b, next2, count2);
    AtMostFull(n, half, a, next1, count1);
  }


  lemma AtLeastHalf(n: nat, half: nat, step: nat, next: nat, count: nat)
    requires next > half && Counts(n, step, next, count)
    ensures n > half * step
  {
    MulOrder(step, half, next - 1);
  }

  lemma AtMostFull(n: nat, half: nat, step: nat, next: nat, count: nat)
    requires next <= 2 * half && Counts(n, step, next, count)
    ensures n <= 2 * half * step
  {
    MulOrder(step, next, 2 * half);
    MulOrder(step, 0, 2 * half);
    assert next > 0 ==> next * step == (next - 1) * step + step;
  }
}
