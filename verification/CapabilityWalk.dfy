/** The walk over the linked capability list of PCI configuration space, section 6.7 of
    PCI Local Bus Specification 3.0, on untrusted bytes. */
module CapabilityWalk {
  import opened Chains

  type Byte = b: nat | b < 256

  const CAPABILITIES_POINTER: nat := 0x34
  const PCIE_ID: nat := 0x10
  const STEP_CAP: nat := 48

  datatype Outcome = Found(exp: nat) | NoCapability | ShortRead

  /** value & 0xfc */
  function Aligned(b: Byte): (a: nat)
    ensures a <= 0xfc && a % 4 == 0 && a <= b < a + 4
  {
    b - b % 4
  }

  /** A full 256-byte configuration space. */
  predicate Full(config: seq<Byte>) { |config| >= 256 }

  function Start(config: seq<Byte>): nat
    requires Full(config)
  {
    Aligned(config[CAPABILITIES_POINTER])
  }

  function Next(config: seq<Byte>): nat -> nat { (at: nat) => if at + 1 < |config| then Aligned(config[at + 1]) else 0 }

  function Pcie(config: seq<Byte>): nat -> bool { (at: nat) => at < |config| && config[at] == PCIE_ID }

  /** The k-th entry of the list. */
  function Cap(config: seq<Byte>, k: nat): (cap: nat)
    requires Full(config)
    ensures cap <= 0xfc && cap % 4 == 0
  {
    var cap := Entry(Start(config), Next(config), k);
    if k == 0 then cap else assert Follow(Next(config), Cap(config, k - 1)) == cap; cap
  }

  ghost predicate Listed(config: seq<Byte>)
    requires Full(config)
  {
    OnList(Start(config), Next(config), Pcie(config))
  }

  ghost predicate FirstPcie(config: seq<Byte>, k: nat)
    requires Full(config)
  {
    FirstHit(Start(config), Next(config), Pcie(config), k)
  }

  /** The first n entries were looked at in vain, and the walk is at the n-th. */
  ghost predicate Looking(config: seq<Byte>, n: nat, cap: nat, seen: set<nat>)
    requires Full(config)
  {
    && cap == Cap(config, n) && seen == Visited(Start(config), Next(config), n)
    && forall j :: 0 <= j < n ==> !HitAt(Start(config), Next(config), Pcie(config), j)
  }

  lemma LooksOn(config: seq<Byte>, n: nat, cap: nat, seen: set<nat>)
    requires Full(config) && Looking(config, n, cap, seen) && cap != 0 && config[cap] != PCIE_ID
    ensures Looking(config, n + 1, Aligned(config[cap + 1]), seen + {cap})
  {}

  /** The outcome is the first PCIe capability if it is among the first 48 entries, and
      NoCapability exactly if none is. */
  ghost predicate Right(config: seq<Byte>, outcome: Outcome)
    requires Full(config)
  {
    && (forall k :: 0 <= k < STEP_CAP && FirstPcie(config, k) ==> outcome == Found(Cap(config, k)))
    && (outcome == NoCapability <==> !exists k :: 0 <= k < STEP_CAP && FirstPcie(config, k))
    && outcome != ShortRead
  }

  lemma LooksNoMore(config: seq<Byte>, n: nat, cap: nat, seen: set<nat>)
    requires Full(config) && Looking(config, n, cap, seen) && (cap == 0 || cap in seen || n == STEP_CAP)
    ensures Right(config, NoCapability)
  {
    if n == STEP_CAP {
      assert forall k: nat :: FirstPcie(config, k) ==> k >= STEP_CAP;
    } else {
      NothingLeft(Start(config), Next(config), Pcie(config), n);
      assert forall k: nat :: !HitAt(Start(config), Next(config), Pcie(config), k);
    }
  }

  lemma LookedFirst(config: seq<Byte>, n: nat, cap: nat, seen: set<nat>)
    requires Full(config) && Looking(config, n, cap, seen) && cap != 0 && config[cap] == PCIE_ID && n < STEP_CAP
    ensures Right(config, Found(cap))
  {
    assert HitAt(Start(config), Next(config), Pcie(config), n);
    assert FirstPcie(config, n);
    assert forall k: nat :: FirstPcie(config, k) ==> k == n;
  }

  /** The constructor's walk.  It terminates on any bytes; on a full 256-byte space it never
      reads short and finds the first PCIe capability exactly when that is one of the first
      48 entries. */
  method Walk(config: seq<Byte>) returns (outcome: Outcome)
    ensures Full(config) ==> Right(config, outcome)
    ensures outcome.Found? ==> outcome.exp < |config| && outcome.exp <= 0xfc
  {
    if |config| <= CAPABILITIES_POINTER { return ShortRead; }
    var cap: nat := Aligned(config[CAPABILITIES_POINTER]);
    var seen: set<nat> := {};
    ghost var n := 0;
    while cap != 0 && cap !in seen && |seen| < STEP_CAP
      invariant cap <= 0xfc && n == |seen| <= STEP_CAP
      invariant Full(config) ==> Looking(config, n, cap, seen)
      decreases STEP_CAP - |seen|
    {
      if cap >= |config| { return ShortRead; }
      if config[cap] == PCIE_ID {
        if Full(config) { LookedFirst(config, n, cap, seen); }
        return Found(cap);
      }
      if cap + 1 >= |config| { return ShortRead; }
      if Full(config) { LooksOn(config, n, cap, seen); }
      seen, n := seen + {cap}, n + 1;
      cap := Aligned(config[cap + 1]);
    }
    if Full(config) { LooksNoMore(config, n, cap, seen); }
    return NoCapability;
  }

  // ---- when the cap cannot bind ----

  ghost predicate HighPointers(config: seq<Byte>)
    requires Full(config)
  {
    forall k: nat :: Cap(config, k) == 0 || Cap(config, k) >= 0x40
  }

  lemma CapNeverBinds(config: seq<Byte>, k: nat)
    requires Full(config) && HighPointers(config) && FirstPcie(config, k)
    ensures k < STEP_CAP
  {
    forall j: nat ensures var cap := Entry(Start(config), Next(config), j);
      cap == 0 || exists i :: 0 <= i < 48 && cap == Rung(0x40, 4, i)
    {
      var cap := Cap(config, j);
      if cap != 0 { assert cap == Rung(0x40, 4, (cap - 0x40) / 4); }
    }
    FirstHitIsEarly(Start(config), Next(config), Pcie(config), k, 0x40, 4, 48);
  }

  /** With every pointer at 0x40 or above, being among the first 48 entries is no
      restriction: a PCIe capability is on the list exactly when the walk's bound admits it. */
  lemma HighPointersSuffice(config: seq<Byte>)
    requires Full(config) && HighPointers(config)
    ensures Listed(config) <==> exists k :: 0 <= k < STEP_CAP && FirstPcie(config, k)
  {
    if Listed(config) {
      var k: nat :| HitAt(Start(config), Next(config), Pcie(config), k);
      var first := FirstOf(Start(config), Next(config), Pcie(config), k);
      CapNeverBinds(config, first);
      assert 0 <= first < STEP_CAP && FirstPcie(config, first);
    } else {
      assert forall k: nat :: !HitAt(Start(config), Next(config), Pcie(config), k);
    }
  }

  // ---- low pointers can hide the capability ----

  /** Every aligned address from 4 up points to the next; only the last one is PCIe. */
  function LongByte(i: nat): Byte
    requires i < 256
  {
    if i == CAPABILITIES_POINTER then 4
    else if i == 0xfc then PCIE_ID
    else if i % 4 == 1 && i < 0xfc then i + 3
    else 0
  }

  function LongList(): (config: seq<Byte>)
    ensures |config| == 256 && forall i :: 0 <= i < 256 ==> config[i] == LongByte(i)
  {
    seq(256, i requires 0 <= i < 256 => LongByte(i))
  }

  lemma CapAfter(config: seq<Byte>, k: nat)
    requires Full(config) && Cap(config, k) != 0
    ensures Cap(config, k + 1) == Aligned(config[Cap(config, k) + 1])
  {}

  lemma LongLink(i: nat)
    requires 1 <= i < 63
    ensures Aligned(LongByte(4 * i + 1)) == 4 * (i + 1)
  {}

  ghost predicate IsLongList(config: seq<Byte>)
  {
    |config| == 256 && forall i :: 0 <= i < 256 ==> config[i] == LongByte(i)
  }

  lemma {:induction false} LongEntry(config: seq<Byte>, k: nat)
    requires IsLongList(config) && k < 63
    ensures Cap(config, k) == 4 * (k + 1)
    decreases k
  {
    if k > 0 {
      LongEntry(config, k - 1);
      CapAfter(config, k - 1);
      LongLink(k);
    }
  }

  /** Pointers below 0x40 let the bound bind: the capability is on this list, beyond the
      48 entries the walk looks at. */
  lemma LowPointersHideIt(config: seq<Byte>)
    requires config == LongList()
    ensures Listed(config) && !exists k :: 0 <= k < STEP_CAP && FirstPcie(config, k)
  {
    LongEntry(config, 62);
    assert HitAt(Start(config), Next(config), Pcie(config), 62);
    forall k | 0 <= k < STEP_CAP ensures !FirstPcie(config, k) {
      LongEntry(config, k);
      NotYet(k);
    }
  }

  lemma NotYet(k: nat)
    requires k < STEP_CAP
    ensures LongByte(4 * (k + 1)) != PCIE_ID
  {}
}
