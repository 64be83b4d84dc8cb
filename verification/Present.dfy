/** Block intervals read in one run, and the gaps between them. */
module Present {
  import opened Types

  datatype Interval = Interval(start: U64, end: U64)

  predicate In(iv: Interval, n: int) {
    iv.start <= n <= iv.end
  }

  ghost predicate InAny(ivs: seq<Interval>, n: int) {
    exists i :: 0 <= i < |ivs| && In(ivs[i], n)
  }

  /** Ascending, non-empty, disjoint and never adjacent. */
  ghost predicate Separated(ivs: seq<Interval>) {
    && (forall i | 0 <= i < |ivs| :: ivs[i].start <= ivs[i].end)
    && (forall i, j | 0 <= i < j < |ivs| :: ivs[i].end + 1 < ivs[j].start)
  }

  ghost predicate Within(ivs: seq<Interval>, from: U64, to: U64) {
    forall i | 0 <= i < |ivs| :: from <= ivs[i].start && ivs[i].end <= to
  }

  // ── Present intervals ──────────────────────────────────────────────────────

  function PushBlock(ivs: seq<Interval>, block: U64): seq<Interval> {
    var n := |ivs| - 1;
    if ivs != [] && block == WrappingAdd(ivs[n].end, 1) then ivs[n := ivs[n].(end := block)]
    else if ivs != [] && block <= ivs[n].end then ivs
    else ivs + [Interval(block, block)]
  }

  function PushAll(blocks: seq<U64>): seq<Interval> {
    if blocks == [] then []
    else PushBlock(PushAll(blocks[..|blocks| - 1]), blocks[|blocks| - 1])
  }

  /** Edits one scope's list in place. */
  method PushPresentBlock(scopePresent: array<seq<Interval>>, idx: nat, block: U64)
    requires idx < scopePresent.Length
    modifies scopePresent
    ensures scopePresent[idx] == PushBlock(old(scopePresent[idx]), block)
    ensures forall i | 0 <= i < scopePresent.Length && i != idx :: scopePresent[i] == old(scopePresent[i])
  {
    var intervals := scopePresent[idx];
    if intervals != [] {
      var n := |intervals| - 1;
      var last := intervals[n];
      if block == WrappingAdd(last.end, 1) {
        scopePresent[idx] := intervals[n := last.(end := block)];
        return;
      }
      if block <= last.end {
        return;
      }
    }
    scopePresent[idx] := intervals + [Interval(block, block)];
  }

  lemma PushAddsOnly(ivs: seq<Interval>, block: U64, n: int)
    requires InAny(PushBlock(ivs, block), n)
    ensures n == block || InAny(ivs, n)
  {
    var after := PushBlock(ivs, block);
    var i :| 0 <= i < |after| && In(after[i], n);
    if i < |ivs| && after[i] == ivs[i] {
      assert In(ivs[i], n);
    } else if i < |ivs| && n != block {
      assert In(ivs[i], n);
    }
  }

  /** For any arrival order, wrap-around included, an interval holds pushed blocks only. */
  lemma {:induction false} PresentWasPushed(blocks: seq<U64>, n: int)
    requires InAny(PushAll(blocks), n)
    ensures n in blocks
  {
    if blocks != [] {
      var front, last := blocks[..|blocks| - 1], blocks[|blocks| - 1];
      PushAddsOnly(PushAll(front), last, n);
      if n != last {
        PresentWasPushed(front, n);
      }
    }
  }

  lemma SeparatedSnoc(front: seq<Interval>, iv: Interval)
    ensures Separated(front + [iv]) <==>
            && Separated(front) && iv.start <= iv.end
            && (front != [] ==> front[|front| - 1].end + 1 < iv.start)
  {
    var all, n := front + [iv], |front|;
    assert all[n] == iv;
    assert forall i | 0 <= i < n :: all[i] == front[i];
    if Separated(all) && front != [] {
      assert all[n - 1].end + 1 < all[n].start;
    }
  }

  lemma PushSeparated(ivs: seq<Interval>, block: U64)
    requires Separated(ivs)
    requires !EndsAtMax(ivs) || block != 0
    ensures Separated(PushBlock(ivs, block))
  {
    hide Separated;
    if ivs == [] {
      SeparatedSnoc([], Interval(block, block));
    } else {
      var n := |ivs| - 1;
      var front, last := ivs[..n], ivs[n];
      assert ivs == front + [last];
      SeparatedSnoc(front, last);
      SeparatedSnoc(front, last.(end := block));
      SeparatedSnoc(ivs, Interval(block, block));
      assert ivs[n := last.(end := block)] == front + [last.(end := block)];
    }
  }

  /** A 0 arrives after the largest block number: the only way to wrap around. */
  ghost predicate WrapsAround(blocks: seq<U64>) {
    exists i, j :: 0 <= i < j < |blocks| && blocks[i] == U64_MAX && blocks[j] == 0
  }

  lemma WrapsAtLast(blocks: seq<U64>)
    requires blocks != []
    ensures var front, last := blocks[..|blocks| - 1], blocks[|blocks| - 1];
            WrapsAround(blocks) <==> WrapsAround(front) || (last == 0 && U64_MAX in front)
  {
    var n := |blocks| - 1;
    var front := blocks[..n];
    if i, j :| 0 <= i < j < |blocks| && blocks[i] == U64_MAX && blocks[j] == 0 {
      assert front[i] == U64_MAX;
      assert j < n ==> front[j] == 0;
    }
    if WrapsAround(front) {
      var i, j :| 0 <= i < j < n && front[i] == U64_MAX && front[j] == 0;
      assert blocks[i] == U64_MAX && blocks[j] == 0;
    } else if blocks[n] == 0 && U64_MAX in front {
      var i :| 0 <= i < n && front[i] == U64_MAX;
      assert blocks[i] == U64_MAX && blocks[n] == 0;
    }
  }

  predicate EndsAtMax(ivs: seq<Interval>) {
    ivs != [] && ivs[|ivs| - 1].end == U64_MAX
  }

  lemma PushEndsAtMax(ivs: seq<Interval>, block: U64)
    requires !EndsAtMax(ivs) || block != 0
    ensures EndsAtMax(PushBlock(ivs, block)) <==> EndsAtMax(ivs) || block == U64_MAX
  {
  }

  /** For any arrival order in which no 0 follows the maximum, the intervals stay
      ascending, disjoint and never adjacent. */
  lemma {:induction false} PresentSeparated(blocks: seq<U64>)
    requires !WrapsAround(blocks)
    ensures Separated(PushAll(blocks))
    ensures EndsAtMax(PushAll(blocks)) <==> U64_MAX in blocks
  {
    if blocks != [] {
      hide Separated, WrapsAround, PushBlock;
      var front, last := blocks[..|blocks| - 1], blocks[|blocks| - 1];
      WrapsAtLast(blocks);
      PresentSeparated(front);
      PushSeparated(PushAll(front), last);
      PushEndsAtMax(PushAll(front), last);
      assert blocks == front + [last];
    } else {
      PushNone();
    }
  }

  lemma PushNone()
    ensures PushAll([]) == [] && Separated([])
  {
  }

  function LastSpan(ivs: seq<Interval>): int {
    if ivs == [] then -1 else ivs[|ivs| - 1].end - ivs[|ivs| - 1].start
  }

  lemma PushSpan(ivs: seq<Interval>, block: U64)
    requires !EndsAtMax(ivs) || block != 0
    requires Separated(ivs)
    ensures PushBlock(ivs, block) != [] && LastSpan(PushBlock(ivs, block)) <= LastSpan(ivs) + 1
  {
  }

  /** Without wrapping an interval is no wider than the number of arrivals. */
  lemma {:induction false} LastWidth(blocks: seq<U64>)
    requires !WrapsAround(blocks)
    ensures LastSpan(PushAll(blocks)) < |blocks|
  {
    if blocks != [] {
      hide Separated, WrapsAround, PushBlock, LastSpan;
      var front, last := blocks[..|blocks| - 1], blocks[|blocks| - 1];
      WrapsAtLast(blocks);
      PresentSeparated(front);
      LastWidth(front);
      PushSpan(PushAll(front), last);
    }
  }

  /** A reversed interval, not yet extended far enough to be forward again. */
  ghost predicate Reversed(ivs: seq<Interval>, arrivals: nat) {
    exists i :: 0 <= i < |ivs| && ivs[i].end < ivs[i].start
                && (i == |ivs| - 1 ==> TWO64 - ivs[i].start + ivs[i].end < arrivals)
  }

  lemma StaysReversed(ivs: seq<Interval>, arrivals: nat, block: U64)
    requires Reversed(ivs, arrivals) && arrivals < TWO64
    ensures Reversed(PushBlock(ivs, block), arrivals + 1)
  {
    var i :| 0 <= i < |ivs| && ivs[i].end < ivs[i].start
             && (i == |ivs| - 1 ==> TWO64 - ivs[i].start + ivs[i].end < arrivals);
    var after := PushBlock(ivs, block);
    assert after[i].end < after[i].start;
  }

  lemma {:induction false} WrappingReverses(blocks: seq<U64>)
    requires WrapsAround(blocks) && |blocks| <= TWO64
    ensures Reversed(PushAll(blocks), |blocks|)
  {
    hide WrapsAround, Reversed, Separated;
    assert blocks != [] by { NoneWraps(); }
    var front, last := blocks[..|blocks| - 1], blocks[|blocks| - 1];
    WrapsAtLast(blocks);
    if WrapsAround(front) {
      WrappingReverses(front);
      StaysReversed(PushAll(front), |front|, last);
    } else {
      PresentSeparated(front);
      LastWidth(front);
      FirstWrap(PushAll(front), |front|);
    }
  }

  lemma NoneWraps()
    ensures !WrapsAround([])
  {
  }

  lemma FirstWrap(ivs: seq<Interval>, arrivals: nat)
    requires ivs != [] && ivs[|ivs| - 1].end == U64_MAX && U64_MAX - ivs[|ivs| - 1].start < arrivals < TWO64
    ensures Reversed(PushBlock(ivs, 0), arrivals + 1)
  {
    var after, n := PushBlock(ivs, 0), |ivs| - 1;
    assert after[n].end < after[n].start;
  }

  /** For any arrival order of at most 2^64 blocks the intervals are separated
      exactly when no 0 follows the maximum: there the addition wraps, and an
      interval ends before it starts. */
  lemma PresentSeparatedIff(blocks: seq<U64>)
    requires |blocks| <= TWO64
    ensures Separated(PushAll(blocks)) <==> !WrapsAround(blocks)
  {
    if WrapsAround(blocks) {
      WrappingReverses(blocks);
    } else {
      PresentSeparated(blocks);
    }
  }

  lemma WrappedInterval()
    ensures PushAll([U64_MAX, 0]) == [Interval(U64_MAX, 0)]
  {
    assert [U64_MAX, 0][..1] == [U64_MAX];
    assert [U64_MAX][..0] == [];
    assert PushAll([U64_MAX]) == [Interval(U64_MAX, U64_MAX)];
  }

  ghost predicate NonDescending(blocks: seq<U64>) {
    forall i, j | 0 <= i < j < |blocks| :: blocks[i] <= blocks[j]
  }

  lemma PushEnd(ivs: seq<Interval>, block: U64)
    requires ivs != [] ==> ivs[|ivs| - 1].end <= block
    ensures var after := PushBlock(ivs, block); after != [] && after[|after| - 1].end == block
  {
  }

  lemma {:induction false} PresentShape(blocks: seq<U64>)
    requires NonDescending(blocks)
    ensures Separated(PushAll(blocks))
    ensures blocks != [] ==> PushAll(blocks) != [] && PushAll(blocks)[|PushAll(blocks)| - 1].end == blocks[|blocks| - 1]
  {
    if blocks != [] {
      hide Separated, PushBlock;
      var front, last := blocks[..|blocks| - 1], blocks[|blocks| - 1];
      PresentShape(front);
      if front != [] {
        assert front[|front| - 1] <= last;
      }
      PushEnd(PushAll(front), last);
      PushSeparated(PushAll(front), last);
    }
  }

  lemma PushKeeps(ivs: seq<Interval>, block: U64, n: int)
    requires ivs != [] ==> ivs[|ivs| - 1].end <= block
    requires Separated(ivs)
    ensures n == block || InAny(ivs, n) ==> InAny(PushBlock(ivs, block), n)
  {
    var after := PushBlock(ivs, block);
    assert In(after[|after| - 1], block);
    if InAny(ivs, n) {
      var i :| 0 <= i < |ivs| && In(ivs[i], n);
      assert In(after[i], n);
    }
  }

  /** For non-descending arrivals the intervals are separated and hold exactly
      the pushed blocks. */
  lemma {:induction false} PresentExact(blocks: seq<U64>, n: int)
    requires NonDescending(blocks)
    ensures InAny(PushAll(blocks), n) <==> n in blocks
  {
    if blocks != [] {
      var front, last := blocks[..|blocks| - 1], blocks[|blocks| - 1];
      PresentShape(front);
      PresentExact(front, n);
      assert front != [] ==> front[|front| - 1] <= last;
      PushKeeps(PushAll(front), last, n);
      if InAny(PushAll(blocks), n) {
        PushAddsOnly(PushAll(front), last, n);
      }
      assert blocks == front + [last];
    }
  }

  // ── Gaps ───────────────────────────────────────────────────────────────────

  function Max(a: U64, b: U64): U64 {
    if a < b then b else a
  }

  function Gap(cursor: U64, start: U64): seq<Interval> {
    if start > cursor then [Interval(cursor, start - 1)] else []
  }

  function GapsFrom(cursor: U64, to: U64, present: seq<Interval>): seq<Interval>
    decreases |present|
  {
    if present == [] then
      if cursor <= to then [Interval(cursor, to)] else []
    else
      Gap(cursor, present[0].start)
      + GapsFrom(Max(cursor, SaturatingAdd(present[0].end, 1)), to, present[1..])
  }

  method MissingSubranges(from: U64, to: U64, present: seq<Interval>) returns (gaps: seq<Interval>)
    ensures gaps == GapsFrom(from, to, present)
  {
    hide GapsFrom, Max;
    gaps := [];
    var cursor: U64 := from;
    assert present[0..] == present;
    for i := 0 to |present|
      invariant GapsFrom(from, to, present) == gaps + GapsFrom(cursor, to, present[i..])
    {
      var iv := present[i];
      GapsUnfold(gaps, cursor, to, present, i);
      if iv.start > cursor {
        gaps := gaps + [Interval(cursor, iv.start - 1)];
      }
      cursor := Max(cursor, SaturatingAdd(iv.end, 1));
    }
    assert present[|present|..] == [];
    GapsEnd(cursor, to);
    if cursor <= to {
      gaps := gaps + [Interval(cursor, to)];
    }
  }

  lemma GapsEnd(cursor: U64, to: U64)
    ensures GapsFrom(cursor, to, []) == if cursor <= to then [Interval(cursor, to)] else []
  {
  }

  lemma GapsUnfold(gaps: seq<Interval>, cursor: U64, to: U64, present: seq<Interval>, i: nat)
    requires i < |present|
    ensures var next := Max(cursor, SaturatingAdd(present[i].end, 1));
            gaps + GapsFrom(cursor, to, present[i..]) ==
            gaps + Gap(cursor, present[i].start) + GapsFrom(next, to, present[i + 1..])
  {
    assert present[i..][1..] == present[i + 1..];
  }

  /** Each block of the range lies in one list and not in the other. */
  ghost predicate Partition(from: U64, to: U64, present: seq<Interval>, gaps: seq<Interval>) {
    && Separated(gaps) && Within(gaps, from, to)
    && forall n | from <= n <= to :: InAny(gaps, n) <==> !InAny(present, n)
  }

  /** A gap cannot be widened: it ends at the range's edge or next to a present block. */
  ghost predicate Maximal(from: U64, to: U64, present: seq<Interval>, gap: Interval) {
    && (gap.start == from || InAny(present, gap.start - 1))
    && (gap.end == to || InAny(present, gap.end + 1))
  }

  lemma InTail(ivs: seq<Interval>, n: int)
    requires ivs != []
    ensures InAny(ivs, n) <==> In(ivs[0], n) || InAny(ivs[1..], n)
  {
    if InAny(ivs, n) {
      var i :| 0 <= i < |ivs| && In(ivs[i], n);
      if i > 0 {
        assert In(ivs[1..][i - 1], n);
      }
    }
    if InAny(ivs[1..], n) {
      var i :| 0 <= i < |ivs| - 1 && In(ivs[1..][i], n);
      assert In(ivs[i + 1], n);
    }
    if In(ivs[0], n) {
      assert 0 < |ivs|;
    }
  }

  lemma NoneBelow(ivs: seq<Interval>, from: U64, to: U64, n: int)
    requires Within(ivs, from, to) && n < from
    ensures !InAny(ivs, n)
  {
  }

  lemma GapsStep(from: U64, to: U64, present: seq<Interval>)
    requires Separated(present) && Within(present, from, to)
    requires present != [] && present[0].end < U64_MAX
    ensures var next := present[0].end + 1;
            && from < next
            && Separated(present[1..]) && Within(present[1..], next, to)
            && GapsFrom(from, to, present) == Gap(from, present[0].start) + GapsFrom(next, to, present[1..])
  {
  }

  lemma NothingPresent(from: U64, to: U64)
    ensures Partition(from, to, [], GapsFrom(from, to, []))
  {
    var gaps := GapsFrom(from, to, []);
    if from <= to {
      forall n | from <= n <= to ensures InAny(gaps, n) {
        assert In(gaps[0], n);
      }
    }
  }

  lemma PartitionStep(from: U64, to: U64, present: seq<Interval>, tail: seq<Interval>)
    requires present != [] && from <= present[0].start <= present[0].end <= to && present[0].end < U64_MAX
    requires Within(present[1..], present[0].end + 1, to)
    requires Partition(present[0].end + 1, to, present[1..], tail)
    ensures Partition(from, to, present, Gap(from, present[0].start) + tail)
  {
    hide InAny, Separated, Within;
    var iv, rest, next: U64 := present[0], present[1..], present[0].end + 1;
    GapBefore(from, to, iv, tail);
    forall n | from <= n <= to ensures InAny(Gap(from, iv.start) + tail, n) <==> !InAny(present, n) {
      InTail(present, n);
      if n < next {
        NoneBelow(rest, next, to, n);
        NoneBelow(tail, next, to, n);
      }
    }
  }

  lemma {:induction false} GapsPartition(from: U64, to: U64, present: seq<Interval>)
    requires Separated(present) && Within(present, from, to)
    requires !(to == U64_MAX && InAny(present, U64_MAX))
    ensures Partition(from, to, present, GapsFrom(from, to, present))
    decreases |present|
  {
    hide GapsFrom, Partition;
    if present == [] {
      NothingPresent(from, to);
    } else {
      var iv, rest := present[0], present[1..];
      assert In(present[0], iv.end);
      GapsStep(from, to, present);
      if to == U64_MAX {
        InTail(present, to);
      }
      GapsPartition(iv.end + 1, to, rest);
      PartitionStep(from, to, present, GapsFrom(iv.end + 1, to, rest));
    }
  }

  /** Putting the gap before an interval in front of the gaps after it. */
  lemma GapBefore(from: U64, to: U64, iv: Interval, tail: seq<Interval>)
    requires from <= iv.start <= iv.end <= to && iv.end < U64_MAX
    requires Separated(tail) && Within(tail, iv.end + 1, to)
    ensures var gaps := Gap(from, iv.start) + tail;
            && Separated(gaps) && Within(gaps, from, to)
            && forall n :: InAny(gaps, n) <==> (from <= n < iv.start) || InAny(tail, n)
  {
    hide InAny, Separated, Within;
    var gaps := Gap(from, iv.start) + tail;
    if iv.start > from {
      GapInFront(from, to, iv, tail);
    } else {
      assert gaps == tail;
      WithinWider(tail, iv.end + 1, from, to);
    }
  }

  lemma WithinWider(ivs: seq<Interval>, from: U64, wider: U64, to: U64)
    requires Within(ivs, from, to) && wider <= from
    ensures Within(ivs, wider, to)
  {
  }

  lemma GapInFront(from: U64, to: U64, iv: Interval, tail: seq<Interval>)
    requires from < iv.start <= iv.end <= to && iv.end < U64_MAX
    requires Separated(tail) && Within(tail, iv.end + 1, to)
    ensures var gaps := [Interval(from, iv.start - 1)] + tail;
            && Separated(gaps) && Within(gaps, from, to)
            && forall n :: InAny(gaps, n) <==> (from <= n < iv.start) || InAny(tail, n)
  {
    var gaps := [Interval(from, iv.start - 1)] + tail;
    assert gaps[1..] == tail;
    forall n ensures InAny(gaps, n) <==> (from <= n < iv.start) || InAny(tail, n) {
      hide InAny;
      InTail(gaps, n);
    }
  }

  lemma MaximalInTail(from: U64, to: U64, present: seq<Interval>, gap: Interval)
    requires present != [] && present[0].start <= present[0].end < U64_MAX
    requires Maximal(present[0].end + 1, to, present[1..], gap)
    ensures Maximal(from, to, present, gap)
  {
    assert In(present[0], present[0].end);
    InTail(present, gap.start - 1);
    InTail(present, gap.end + 1);
  }

  lemma FirstGapMaximal(from: U64, to: U64, present: seq<Interval>, gap: Interval)
    requires present != [] && present[0].start <= present[0].end
    requires gap in Gap(from, present[0].start)
    ensures Maximal(from, to, present, gap)
  {
    assert In(present[0], present[0].start);
  }

  /** Every reported gap is as wide as it can be. */
  lemma {:induction false} GapsMaximal(from: U64, to: U64, present: seq<Interval>, gap: Interval)
    requires Separated(present) && Within(present, from, to)
    requires !(to == U64_MAX && InAny(present, U64_MAX))
    requires gap in GapsFrom(from, to, present)
    ensures Maximal(from, to, present, gap)
    decreases |present|
  {
    if present != [] {
      assert present[0].start <= present[0].end <= to && In(present[0], present[0].end);
      assert present[0].end < U64_MAX;
      GapsStep(from, to, present);
      hide GapsFrom, Maximal, Separated, Within, InAny;
      if gap in Gap(from, present[0].start) {
        FirstGapMaximal(from, to, present, gap);
      } else {
        InTail(present, to);
        GapsMaximal(present[0].end + 1, to, present[1..], gap);
        MaximalInTail(from, to, present, gap);
      }
    }
  }

  lemma {:induction false} SaturatedGap(from: U64, present: seq<Interval>)
    requires Separated(present) && Within(present, from, U64_MAX)
    requires InAny(present, U64_MAX)
    ensures Interval(U64_MAX, U64_MAX) in GapsFrom(from, U64_MAX, present)
    decreases |present|
  {
    InTail(present, U64_MAX);
    if present[0].end < U64_MAX {
      SaturatedGap(present[0].end + 1, present[1..]);
    } else if |present| == 1 {
      assert GapsFrom(U64_MAX, U64_MAX, present[1..]) == [Interval(U64_MAX, U64_MAX)];
    }
  }

  /** Present and gaps partition the range and every gap is maximal, except when
      the range ends at the last representable block and that block is present:
      the cursor saturates and the block is reported missing as well. */
  lemma PartitionIff(from: U64, to: U64, present: seq<Interval>)
    requires Separated(present) && Within(present, from, to)
    ensures Partition(from, to, present, GapsFrom(from, to, present))
            <==> !(to == U64_MAX && InAny(present, U64_MAX))
  {
    if to == U64_MAX && InAny(present, U64_MAX) {
      SaturatedGap(from, present);
      var gaps := GapsFrom(from, to, present);
      var i :| 0 <= i < |gaps| && gaps[i] == Interval(U64_MAX, U64_MAX);
      assert In(gaps[i], U64_MAX);
    } else {
      GapsPartition(from, to, present);
    }
  }

  lemma SecondIntervalLeavesGap(from: U64, to: U64, present: seq<Interval>)
    requires Separated(present) && Within(present, from, to)
    ensures |present| > 1 ==> GapsFrom(from, to, present) != []
  {
    if |present| > 1 {
      assert present[0].end + 1 < present[1].start;
      GapsStep(from, to, present);
      assert present[0].end + 1 < present[1].start;
      assert present[1..][0] == present[1];
    }
  }

  /** A range has no gap exactly when one interval was recorded and it is the
      whole range. */
  lemma NoGapsIff(from: U64, to: U64, present: seq<Interval>)
    requires Separated(present) && Within(present, from, to)
    requires from <= to
    ensures GapsFrom(from, to, present) == [] <==> present == [Interval(from, to)] && to < U64_MAX
  {
    hide GapsFrom;
    SecondIntervalLeavesGap(from, to, present);
    GapsEnd(from, to);
    if |present| == 1 {
      assert present == [present[0]];
      OneInterval(from, to, present[0]);
    }
  }

  lemma OneInterval(from: U64, to: U64, iv: Interval)
    requires from <= iv.start <= iv.end <= to
    ensures GapsFrom(from, to, [iv]) == [] <==> iv == Interval(from, to) && to < U64_MAX
  {
    assert [iv][1..] == [];
  }
}
