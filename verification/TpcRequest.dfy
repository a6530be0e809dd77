/** Counts from which a largest entry is lowered by one, again and again. */
module WaterFilling {

  function Sum(c: seq<nat>): nat { if c == [] then 0 else Sum(c[..|c| - 1]) + c[|c| - 1] }

  /** The first of the largest entries. */
  function FirstMax(c: seq<nat>): (m: nat)
    requires c != []
    ensures m < |c|
    ensures forall i :: 0 <= i < |c| ==> c[i] <= c[m]
    ensures forall i :: 0 <= i < m ==> c[i] < c[m]
  {
    FirstMaxOf(c, |c|)
  }

  function FirstMaxOf(c: seq<nat>, n: nat): (m: nat)
    requires 0 < n <= |c|
    ensures m < n
    ensures forall i :: 0 <= i < n ==> c[i] <= c[m]
    ensures forall i :: 0 <= i < m ==> c[i] < c[m]
  {
    if n == 1 then 0
    else
      var m := FirstMaxOf(c, n - 1);
      if c[n - 1] > c[m] then n - 1 else m
  }

  lemma {:induction false} SumOfUpdate(c: seq<nat>, i: nat, x: nat)
    requires i < |c|
    ensures Sum(c[i := x]) == Sum(c) - c[i] + x
  {
    var n := |c| - 1;
    if i < n {
      SumOfUpdate(c[..n], i, x);
      assert c[i := x][..n] == c[..n][i := x];
    } else {
      assert c[i := x][..n] == c[..n];
    }
  }

  lemma {:induction false} SomethingLeft(c: seq<nat>)
    requires Sum(c) > 0
    ensures c != [] && c[FirstMax(c)] > 0
  {
    var n := |c| - 1;
    if c[n] == 0 { SomethingLeft(c[..n]); }
  }

  predicate Below(d: seq<nat>, c: seq<nat>)
  {
    |d| == |c| && forall i :: 0 <= i < |c| ==> d[i] <= c[i]
  }

  lemma {:induction false} SumBelow(d: seq<nat>, c: seq<nat>)
    requires Below(d, c)
    ensures Sum(d) <= Sum(c)
  {
    if c != [] { SumBelow(d[..|c| - 1], c[..|c| - 1]); }
  }

  /** The first of the largest entries goes down by one. */
  function Lower(d: seq<nat>): seq<nat>
  {
    if d == [] || d[FirstMax(d)] == 0 then d else d[FirstMax(d) := d[FirstMax(d)] - 1]
  }

  /** The counts after k rounds. */
  function Greedy(c: seq<nat>, k: nat): seq<nat>
  {
    if k == 0 then c else Lower(Greedy(c, k - 1))
  }

  lemma LowerSum(d: seq<nat>)
    requires Sum(d) > 0
    ensures |Lower(d)| == |d| && Sum(Lower(d)) == Sum(d) - 1
  {
    SomethingLeft(d);
    SumOfUpdate(d, FirstMax(d), d[FirstMax(d)] - 1);
  }

  /** Each round takes one away. */
  lemma {:induction false} GreedySum(c: seq<nat>, k: nat)
    requires k <= Sum(c)
    ensures |Greedy(c, k)| == |c| && Sum(Greedy(c, k)) == Sum(c) - k
  {
    if k > 0 {
      GreedySum(c, k - 1);
      LowerSum(Greedy(c, k - 1));
    }
  }

  /** Entries at or below the level are untouched; the others stand at the level or one above,
      those at the level first. */
  ghost predicate Level(c: seq<nat>, d: seq<nat>, level: nat)
  {
    && |d| == |c|
    && (forall i :: 0 <= i < |c| && c[i] <= level ==> d[i] == c[i])
    && (forall i :: 0 <= i < |c| && c[i] > level ==> d[i] == level || d[i] == level + 1)
    && (forall i, j :: 0 <= i < j < |c| && c[i] > level && c[j] > level && d[i] == level + 1 ==> d[j] == level + 1)
  }

  /** The level is one some entry reaches. */
  ghost predicate Reached(c: seq<nat>, level: nat) { exists i :: 0 <= i < |c| && c[i] >= level }

  lemma StepKeepsLevel(c: seq<nat>, d: seq<nat>, level: nat) returns (level': nat)
    requires d != [] && d[FirstMax(d)] > 0 && Level(c, d, level) && Reached(c, level)
    ensures Level(c, d[FirstMax(d) := d[FirstMax(d)] - 1], level') && Reached(c, level')
  {
    var m := FirstMax(d);
    if d[m] == level + 1 && c[m] > level {
      level' := level;
    } else {
      var top :| 0 <= top < |c| && c[top] >= level;
      assert d[top] >= level;
      assert d[m] == level;
      level' := level - 1;
    }
  }

  lemma StartsLevel(c: seq<nat>)
    requires c != []
    ensures Level(c, c, c[FirstMax(c)]) && Reached(c, c[FirstMax(c)])
  {}

  lemma OneRound(c: seq<nat>, k: nat)
    requires k < Sum(c)
    ensures var d := Greedy(c, k); d != [] && |d| == |c| && d[FirstMax(d)] > 0
  {
    GreedySum(c, k);
    SomethingLeft(Greedy(c, k));
  }

  /** Any number of rounds leaves the counts water-filled. */
  lemma {:induction false} GreedyWaterFills(c: seq<nat>, k: nat) returns (level: nat)
    requires k <= Sum(c) && c != []
    ensures Level(c, Greedy(c, k), level) && Reached(c, level)
  {
    if k == 0 {
      StartsLevel(c);
      level := c[FirstMax(c)];
    } else {
      level := GreedyWaterFills(c, k - 1);
      OneRound(c, k - 1);
      level := StepKeepsLevel(c, Greedy(c, k - 1), level);
    }
  }

  lemma {:induction false} EqualSums(d: seq<nat>, e: seq<nat>)
    requires Below(d, e) && Sum(d) == Sum(e)
    ensures d == e
  {
    if d != [] {
      var n := |d| - 1;
      SumBelow(d[..n], e[..n]);
      EqualSums(d[..n], e[..n]);
      assert d == d[..n] + [d[n]] && e == e[..n] + [e[n]];
    }
  }

  /** A water-filled result is determined by its sum. */
  lemma OneWaterFill(c: seq<nat>, d: seq<nat>, level: nat, e: seq<nat>, level': nat)
    requires Level(c, d, level) && Level(c, e, level') && level <= level' && Sum(d) == Sum(e)
    ensures d == e
  {
    if Below(d, e) {
      EqualSums(d, e);
    } else {
      EqualSums(e, d);
    }
  }

  /** The rounds compute the water-fill that removes k, and nothing else does. */
  lemma GreedyIsTheWaterFill(c: seq<nat>, k: nat, d: seq<nat>)
    requires k <= Sum(c) && c != []
    ensures d == Greedy(c, k) <==> Sum(d) == Sum(c) - k && exists level: nat :: Level(c, d, level)
  {
    GreedySum(c, k);
    var level := GreedyWaterFills(c, k);
    if Sum(d) == Sum(c) - k && exists l: nat :: Level(c, d, l) {
      var l: nat :| Level(c, d, l);
      if l <= level {
        OneWaterFill(c, d, l, Greedy(c, k), level);
      } else {
        OneWaterFill(c, Greedy(c, k), level, d, l);
      }
    }
  }

  // ---------------------------------------------------------------- optimality

  function Min(x: nat, t: nat): nat { if x <= t then x else t }

  /** What stands at or below the threshold. */
  function Under(c: seq<nat>, t: nat): nat
  {
    if c == [] then 0 else Under(c[..|c| - 1], t) + Min(c[|c| - 1], t)
  }

  /** What stands above it. */
  function Excess(c: seq<nat>, t: nat): nat
  {
    if c == [] then 0 else Excess(c[..|c| - 1], t) + (c[|c| - 1] - Min(c[|c| - 1], t))
  }

  lemma {:induction false} ExcessAndUnder(c: seq<nat>, t: nat)
    ensures Excess(c, t) + Under(c, t) == Sum(c)
  {
    if c != [] { ExcessAndUnder(c[..|c| - 1], t); }
  }

  lemma {:induction false} UnderIsMonotone(d: seq<nat>, e: seq<nat>, t: nat)
    requires |d| == |e| && forall i :: 0 <= i < |d| ==> Min(e[i], t) <= Min(d[i], t)
    ensures Under(e, t) <= Under(d, t)
  {
    if d != [] { UnderIsMonotone(d[..|d| - 1], e[..|d| - 1], t); }
  }

  lemma {:induction false} AllUnder(d: seq<nat>, t: nat)
    requires forall i :: 0 <= i < |d| ==> d[i] <= t
    ensures Under(d, t) == Sum(d)
  {
    if d != [] { AllUnder(d[..|d| - 1], t); }
  }

  /** The greedy result is the most even one: every other way of clearing as many bits leaves at
      least as much above every threshold. */
  lemma GreedyIsMostEven(c: seq<nat>, k: nat, e: seq<nat>, t: nat)
    requires k <= Sum(c) && Below(e, c) && Sum(e) == Sum(c) - k
    ensures Excess(Greedy(c, k), t) <= Excess(e, t)
  {
    var d := Greedy(c, k);
    GreedySum(c, k);
    ExcessAndUnder(d, t);
    ExcessAndUnder(e, t);
    if c != [] {
      var level := GreedyWaterFills(c, k);
      if t <= level {
        UnderIsMonotone(d, e, t);
      } else {
        AllUnder(d, t);
      }
    }
  }

  lemma {:induction false} NoExcess(d: seq<nat>, t: nat)
    ensures Excess(d, t) == 0 <==> forall i :: 0 <= i < |d| ==> d[i] <= t
  {
    if d != [] {
      NoExcess(d[..|d| - 1], t);
      assert d[..|d| - 1] + [d[|d| - 1]] == d;
    }
  }

  /** In particular the largest count left is as small as it can be. */
  lemma GreedyMinimisesTheLargest(c: seq<nat>, k: nat, e: seq<nat>, t: nat)
    requires k <= Sum(c) && Below(e, c) && Sum(e) == Sum(c) - k
    requires forall i :: 0 <= i < |e| ==> e[i] <= t
    ensures |Greedy(c, k)| == |c| && forall i :: 0 <= i < |c| ==> Greedy(c, k)[i] <= t
  {
    GreedySum(c, k);
    NoExcess(e, t);
    GreedyIsMostEven(c, k, e, t);
    NoExcess(Greedy(c, k), t);
  }
}

/** The model of clearing TPC bits from the six CTRL words. */
module TpcRequest {
  import opened Basics
  import opened WaterFilling

  const SLOTS: nat := 6
  const CTRL_BASE: nat := 0x21838

  predicate Bit(w: bv32, i: nat)
    requires i < 7
  {
    if i == 0 then w & 1 != 0 else if i == 1 then w & 2 != 0 else if i == 2 then w & 4 != 0
    else if i == 3 then w & 8 != 0 else if i == 4 then w & 0x10 != 0 else if i == 5 then w & 0x20 != 0
    else w & 0x40 != 0
  }

  /** Set bits of a seven-bit mask. */
  function BitCount(w: bv32): nat
  {
    One(Bit(w, 0)) + One(Bit(w, 1)) + One(Bit(w, 2)) + One(Bit(w, 3)) + One(Bit(w, 4)) + One(Bit(w, 5))
    + One(Bit(w, 6))
  }

  /** `m` is `orig` without some of its lowest set bits. */
  ghost predicate LowestGone(m: bv32, orig: bv32)
  {
    && m <= 0x7f
    && (forall i :: 0 <= i < 7 && Bit(m, i) ==> Bit(orig, i))
    && (forall i, j :: 0 <= i < 7 && 0 <= j < 7 && Bit(orig, i) && !Bit(m, i) && Bit(m, j) ==> i < j)
  }

  /** m & (m - 1) clears exactly the lowest set bit. */
  lemma ClearsLowest(m: bv32, j: nat)
    requires 0 < m <= 0x7f && j < 7
    ensures var c := m & (m - 1);
      && c <= 0x7f
      && BitCount(c) == BitCount(m) - 1
      && (Bit(c, j) <==> Bit(m, j) && exists i :: 0 <= i < j && Bit(m, i))
  {}

  lemma CountIsZeroForNone(m: bv32)
    requires m <= 0x7f
    ensures BitCount(m) == 0 <==> m == 0
  {}

  lemma ClearingKeepsLowestGone(m: bv32, orig: bv32)
    requires 0 < m && LowestGone(m, orig)
    ensures LowestGone(m & (m - 1), orig) && BitCount(m & (m - 1)) == BitCount(m) - 1
  {
    var c := m & (m - 1);
    forall j: nat | j < 7
      ensures Bit(c, j) <==> Bit(m, j) && exists i :: 0 <= i < j && Bit(m, i)
    {
      ClearsLowest(m, j);
    }
    ClearsLowest(m, 0);
  }

  /** A mask is determined by how many of its lowest bits are gone. */
  lemma CountFixesTheMask(m: bv32, m': bv32, orig: bv32)
    requires LowestGone(m, orig) && LowestGone(m', orig) && BitCount(m) == BitCount(m')
    ensures m == m'
  {
    SameBits(m, m');
  }

  lemma SameBits(m: bv32, m': bv32)
    requires m <= 0x7f && m' <= 0x7f && forall i :: 0 <= i < 7 ==> Bit(m, i) == Bit(m', i)
    ensures m == m'
  {
    assert Bit(m, 0) == Bit(m', 0) && Bit(m, 1) == Bit(m', 1) && Bit(m, 2) == Bit(m', 2);
    assert Bit(m, 3) == Bit(m', 3) && Bit(m, 4) == Bit(m', 4) && Bit(m, 5) == Bit(m', 5);
    assert Bit(m, 6) == Bit(m', 6);
  }

  // ---------------------------------------------------------------- the request

  datatype Outcome =
    | Rejected
    | ZeroRequest
    | ExceedsSetBits
    | GuardZero(selected: seq<nat>)
    | Writeback(selected: seq<nat>, writes: map<nat, bv32>)

  function Masks(ctrl: seq<bv32>): (masks: seq<bv32>)
    ensures |masks| == |ctrl|
  {
    seq(|ctrl|, i requires 0 <= i < |ctrl| => ctrl[i] & 0x7f)
  }

  function Counts(masks: seq<bv32>): (counts: seq<nat>)
    ensures |counts| == |masks|
  {
    seq(|masks|, i requires 0 <= i < |masks| => BitCount(masks[i]))
  }

  /** Masks that have lost their lowest bits, `counts` of them left. */
  ghost predicate Cleared(masks: seq<bv32>, start: seq<bv32>, counts: seq<nat>)
  {
    && |masks| == |start| == |counts|
    && forall i :: 0 <= i < |masks| ==> LowestGone(masks[i], start[i]) && BitCount(masks[i]) == counts[i]
  }

  /** Round k takes slot x. */
  ghost predicate Takes(counts: seq<nat>, k: nat, x: nat)
  {
    Greedy(counts, k) != [] && x == FirstMax(Greedy(counts, k))
  }

  ghost predicate PicksFirstLargest(selected: seq<nat>, counts: seq<nat>)
  {
    |selected| <= Sum(counts) && forall k :: 0 <= k < |selected| ==> Takes(counts, k, selected[k])
  }

  /** One word per active slot, at the slot's CTRL register. */
  ghost predicate WritesMasks(writes: map<nat, bv32>, masks: seq<bv32>, active: bv32)
  {
    && |masks| == SLOTS
    && (forall i: nat :: i < SLOTS ==> (0x21838 + 4 * i in writes <==> Bit(active, i)))
    && (forall i: nat :: i < SLOTS && Bit(active, i) ==> writes[0x21838 + 4 * i] == masks[i])
    && (forall a <- writes :: exists i: nat :: i < SLOTS && a == 0x21838 + 4 * i)
  }

  function Register(i: nat): nat { CTRL_BASE + 4 * i }

  /** m after k clearings of its lowest set bit. */
  function Lowered(m: bv32, k: nat): bv32
  {
    if k == 0 then m else Lowered(m, k - 1) & (Lowered(m, k - 1) - 1)
  }

  lemma {:induction false} LoweringRemovesLowest(m: bv32, k: nat)
    requires m <= 0x7f && k <= BitCount(m)
    ensures LowestGone(Lowered(m, k), m) && BitCount(Lowered(m, k)) == BitCount(m) - k
  {
    if k > 0 {
      LoweringRemovesLowest(m, k - 1);
      CountIsZeroForNone(Lowered(m, k - 1));
      ClearingKeepsLowestGone(Lowered(m, k - 1), m);
    }
  }

  /** The masks from which as many lowest bits were cleared as the counts went down. */
  ghost predicate LoweredTo(masks: seq<bv32>, start: seq<bv32>, counts0: seq<nat>, counts: seq<nat>)
  {
    && |masks| == |start| == |counts| && Below(counts, counts0)
    && forall i :: 0 <= i < |masks| ==> masks[i] == Lowered(start[i], counts0[i] - counts[i])
  }

  lemma LoweredIsCleared(masks: seq<bv32>, start: seq<bv32>, counts0: seq<nat>, counts: seq<nat>)
    requires LoweredTo(masks, start, counts0, counts)
    requires forall i :: 0 <= i < |start| ==> start[i] <= 0x7f && counts0[i] == BitCount(start[i])
    ensures Cleared(masks, start, counts)
  {
    forall i | 0 <= i < |masks| ensures LowestGone(masks[i], start[i]) && BitCount(masks[i]) == counts[i] {
      LoweringRemovesLowest(start[i], counts0[i] - counts[i]);
    }
  }

  lemma LoweringOne(masks: seq<bv32>, start: seq<bv32>, counts0: seq<nat>, counts: seq<nat>, x: nat)
    requires LoweredTo(masks, start, counts0, counts) && x < |masks| && counts[x] > 0
    ensures LoweredTo(masks[x := masks[x] & (masks[x] - 1)], start, counts0, counts[x := counts[x] - 1])
  {}

  lemma PickingOne(selected: seq<nat>, counts: seq<nat>, x: nat)
    requires |selected| < Sum(counts) && PicksFirstLargest(selected, counts) && Takes(counts, |selected|, x)
    ensures PicksFirstLargest(selected + [x], counts)
  {}

  /** The loop: take the first slot with the most bits, clear its lowest. */
  method Clear(start: seq<bv32>, counts0: seq<nat>, count: nat) returns (masks: seq<bv32>, selected: seq<nat>)
    requires count <= Sum(counts0) && |start| == |counts0|
    ensures LoweredTo(masks, start, counts0, Greedy(counts0, count))
    ensures |selected| == count && PicksFirstLargest(selected, counts0)
  {
    var counts := counts0;
    masks, selected := start, [];
    for k := 0 to count
      invariant |selected| == k && PicksFirstLargest(selected, counts0)
      invariant counts == Greedy(counts0, k) && LoweredTo(masks, start, counts0, counts)
    {
      OneRound(counts0, k);
      var index := FirstMax(counts);
      PickingOne(selected, counts0, index);
      LoweringOne(masks, start, counts0, counts, index);
      masks := masks[index := masks[index] & (masks[index] - 1)];
      counts := counts[index := counts[index] - 1];
      selected := selected + [index];
    }
  }

  method Model(ctrl: seq<bv32>, count: int, guard: bv32, active: bv32)
    returns (outcome: Outcome, ghost final: seq<bv32>)
    ensures outcome == Rejected <==> |ctrl| != SLOTS || count < 0 || count > 255
    ensures var start, counts := Masks(ctrl), Counts(Masks(ctrl));
      outcome != Rejected ==>
        && (outcome == ZeroRequest <==> count == 0)
        && (outcome == ExceedsSetBits <==> count > Sum(counts))
        && (0 < count <= Sum(counts) ==>
              && Cleared(final, start, Greedy(counts, count))
              && (outcome.GuardZero? <==> guard & 0xff == 0)
              && |outcome.selected| == count
              && PicksFirstLargest(outcome.selected, counts)
              && (outcome.Writeback? ==> WritesMasks(outcome.writes, final, active)))
  {
    var masks, counts := Masks(ctrl), Counts(Masks(ctrl));
    final := masks;
    if |ctrl| != SLOTS || count < 0 || count > 255 {
      return Rejected, final;
    }
    if count == 0 {
      return ZeroRequest, final;
    }
    if count > Sum(counts) {
      return ExceedsSetBits, final;
    }
    var selected: seq<nat>;
    masks, selected := Clear(masks, counts, count);
    final := masks;
    SevenBitMasks(ctrl);
    LoweredIsCleared(final, Masks(ctrl), counts, Greedy(counts, count));
    if guard & 0xff == 0 {
      return GuardZero(selected), final;
    }
    var writes := WriteActive(masks, active);
    outcome := Writeback(selected, writes);
  }

  lemma SevenBitMasks(ctrl: seq<bv32>)
    ensures forall i :: 0 <= i < |ctrl| ==> Masks(ctrl)[i] <= 0x7f
  {
    forall i | 0 <= i < |ctrl| ensures ctrl[i] & 0x7f <= 0x7f {
      SevenBits(ctrl[i]);
    }
  }

  lemma SevenBits(w: bv32)
    ensures w & 0x7f <= 0x7f
  {}

  method WriteActive(masks: seq<bv32>, active: bv32) returns (writes: map<nat, bv32>)
    requires |masks| == SLOTS
    ensures WritesMasks(writes, masks, active)
  {
    writes := map[];
    for i := 0 to SLOTS
      invariant forall j: nat :: j < SLOTS ==> (Register(j) in writes <==> j < i && Bit(active, j))
      invariant forall j: nat :: j < i && Bit(active, j) ==> writes[Register(j)] == masks[j]
      invariant forall a <- writes :: exists j: nat :: j < SLOTS && a == Register(j)
    {
      if Bit(active, i) {
        writes := writes[Register(i) := masks[i]];
      }
    }
  }
}
