/** The walk over the extended capability list for the Advanced Error Reporting capability, on
    untrusted contents.  Where it gives up, the check for new uncorrectable errors is off.
    Every read is of four bytes at a multiple of four, so configuration space is a sequence of
    32-bit words. */
module AerWalk {
  import opened Chains

  type Word = w: nat | w < 0x1_0000_0000

  const FIRST: nat := 0x100
  const AER_ID: nat := 1
  const STEP_CAP: nat := 256
  const SPACE: nat := 4096

  datatype Outcome = Errors(uncorrectable: nat, correctable: nat) | NoAer | ShortRead

  predicate Readable(config: seq<Word>, at: nat) { at / 4 < |config| }

  function Read(config: seq<Word>, at: nat): Word
    requires Readable(config, at)
  {
    config[at / 4]
  }

  /** A header that ends the list. */
  predicate Terminal(header: nat) { header == 0 || header == 0xFFFF_FFFF }

  /** (header >> 20) & 0xffc */
  function Pointer(header: Word): (at: nat)
    ensures at <= 0xffc && at % 4 == 0
  {
    var high := header / 0x10_0000;
    high - high % 4
  }

  /** A full 4096-byte configuration space. */
  predicate Full(config: seq<Word>) { 4 * |config| >= SPACE }

  function Next(config: seq<Word>): nat -> nat { (at: nat) => NextOf(config, at) }

  function NextOf(config: seq<Word>, at: nat): nat
  {
    if !Readable(config, at) || Terminal(Read(config, at)) then 0 else Pointer(Read(config, at))
  }

  function Aer(config: seq<Word>): nat -> bool { (at: nat) => AerAt(config, at) }

  predicate AerAt(config: seq<Word>, at: nat) { Readable(config, at) && Read(config, at) % 0x1_0000 == AER_ID }

  /** The k-th address of the list; it ends after a terminal header. */
  function Cap(config: seq<Word>, k: nat): (at: nat)
    ensures at <= 0xffc && at % 4 == 0
  {
    var at := Entry(FIRST, Next(config), k);
    if k == 0 then at else assert Follow(Next(config), Cap(config, k - 1)) == at; at
  }

  ghost predicate FirstAer(config: seq<Word>, k: nat) { FirstHit(FIRST, Next(config), Aer(config), k) }

  ghost predicate Listed(config: seq<Word>) { OnList(FIRST, Next(config), Aer(config)) }

  /** What is read of the capability at an address. */
  function Registers(config: seq<Word>, at: nat): Outcome
  {
    if !Readable(config, at + 0x10) then ShortRead else Errors(Read(config, at + 4), Read(config, at + 0x10))
  }

  /** The first n entries were looked at in vain, and the walk is at the n-th. */
  ghost predicate Looking(config: seq<Word>, n: nat, offset: nat, seen: set<nat>)
  {
    && offset == Cap(config, n) && seen == Visited(FIRST, Next(config), n)
    && forall j :: 0 <= j < n ==> !HitAt(FIRST, Next(config), Aer(config), j)
  }

  lemma LooksOn(config: seq<Word>, n: nat, offset: nat, seen: set<nat>)
    requires Looking(config, n, offset, seen) && offset != 0 && !AerAt(config, offset)
    ensures Looking(config, n + 1, NextOf(config, offset), seen + {offset})
  {}

  /** The outcome is what the first AER capability says if it is among the first 256 entries,
      and NoAer exactly if none is. */
  ghost predicate Right(config: seq<Word>, outcome: Outcome)
  {
    && (forall k :: 0 <= k < STEP_CAP && FirstAer(config, k) ==> outcome == Registers(config, Cap(config, k)))
    && (outcome == NoAer <==> !exists k :: 0 <= k < STEP_CAP && FirstAer(config, k))
  }

  lemma LooksNoMore(config: seq<Word>, n: nat, offset: nat, seen: set<nat>)
    requires Looking(config, n, offset, seen) && (offset == 0 || offset in seen || n == STEP_CAP)
    ensures Right(config, NoAer)
  {
    if n == STEP_CAP {
      assert forall k: nat :: FirstAer(config, k) ==> k >= STEP_CAP;
    } else {
      NothingLeft(FIRST, Next(config), Aer(config), n);
      assert forall k: nat :: !HitAt(FIRST, Next(config), Aer(config), k);
    }
  }

  lemma NewSeen(seen: set<nat>, x: nat)
    requires x !in seen
    ensures |seen + {x}| == |seen| + 1
  {}

  lemma LooksTerminal(config: seq<Word>, n: nat, offset: nat, seen: set<nat>)
    requires Looking(config, n, offset, seen) && offset != 0 && Readable(config, offset) && n < STEP_CAP
    requires Terminal(Read(config, offset))
    ensures Right(config, NoAer)
  {
    LooksOn(config, n, offset, seen);
    LooksNoMore(config, n + 1, 0, seen + {offset});
  }

  lemma LookedFirst(config: seq<Word>, n: nat, offset: nat, seen: set<nat>)
    requires Looking(config, n, offset, seen) && offset != 0 && AerAt(config, offset) && n < STEP_CAP
    ensures Right(config, Registers(config, offset))
  {
    assert HitAt(FIRST, Next(config), Aer(config), n);
    assert FirstAer(config, n);
    assert forall k: nat :: FirstAer(config, k) ==> k == n;
  }

  /** `aer`.  It terminates on any contents; on a full space it reads the registers of the
      first AER capability exactly when that is one of the first 256 entries. */
  method Walk(config: seq<Word>) returns (outcome: Outcome)
    ensures Full(config) ==> Right(config, outcome)
  {
    var offset: nat := FIRST;
    var seen: set<nat> := {};
    ghost var n := 0;
    while offset != 0 && offset !in seen && |seen| < STEP_CAP
      invariant offset <= 0xffc && n == |seen| <= STEP_CAP
      invariant Looking(config, n, offset, seen)
      decreases STEP_CAP - |seen|
    {
      if !Readable(config, offset) { return ShortRead; }
      var header := Read(config, offset);
      if header == 0 || header == 0xFFFF_FFFF {
        LooksTerminal(config, n, offset, seen);
        return NoAer;
      }
      if header % 0x1_0000 == AER_ID {
        LookedFirst(config, n, offset, seen);
        return Registers(config, offset);
      }
      LooksOn(config, n, offset, seen);
      NewSeen(seen, offset);
      seen, n := seen + {offset}, n + 1;
      offset := Pointer(header);
    }
    LooksNoMore(config, n, offset, seen);
    return NoAer;
  }

  // ---- when the cap cannot bind ----

  /** Capabilities at multiples of sixteen, all in the extended space. */
  ghost predicate WideApart(config: seq<Word>)
  {
    forall k: nat :: Cap(config, k) == 0 || (Cap(config, k) >= FIRST && Cap(config, k) % 16 == 0)
  }

  lemma CapNeverBinds(config: seq<Word>, k: nat)
    requires WideApart(config) && FirstAer(config, k)
    ensures k < 240 < STEP_CAP
  {
    forall j: nat ensures var at := Entry(FIRST, Next(config), j);
      at == 0 || exists i :: 0 <= i < 240 && at == Rung(FIRST, 16, i)
    {
      var at := Cap(config, j);
      if at != 0 { assert at == Rung(FIRST, 16, (at - FIRST) / 16); }
    }
    FirstHitIsEarly(FIRST, Next(config), Aer(config), k, FIRST, 16, 240);
  }

  /** Then the walk finds the capability exactly when it is on the list. */
  lemma WideApartSuffices(config: seq<Word>)
    requires WideApart(config)
    ensures Listed(config) <==> exists k :: 0 <= k < STEP_CAP && FirstAer(config, k)
  {
    if Listed(config) {
      var k: nat :| HitAt(FIRST, Next(config), Aer(config), k);
      var first := FirstOf(FIRST, Next(config), Aer(config), k);
      CapNeverBinds(config, first);
      assert 0 <= first < STEP_CAP && FirstAer(config, first);
    } else {
      assert forall k: nat :: !HitAt(FIRST, Next(config), Aer(config), k);
    }
  }

  // ---- a list that hides it ----

  const LAST: nat := 0x500

  /** Every address from 0x100 up to 0x500 points to the next; only the last is AER. */
  ghost predicate IsDense(config: seq<Word>)
  {
    && 4 * |config| == SPACE && config[LAST / 4] == AER_ID
    && forall i :: FIRST / 4 <= i < LAST / 4 ==> config[i] == 2 + 0x10_0000 * (4 * i + 4)
  }

  lemma PointsOn(header: Word, at: nat)
    requires at < SPACE && at % 4 == 0 && header == 2 + 0x10_0000 * at
    ensures Pointer(header) == at && !Terminal(header) && header % 0x1_0000 != AER_ID
  {
    assert header == 2 + 0x1_0000 * (16 * at);
  }

  lemma DenseNext(config: seq<Word>, k: nat)
    requires IsDense(config) && k < 256
    ensures NextOf(config, FIRST + 4 * k) == FIRST + 4 * (k + 1) && !AerAt(config, FIRST + 4 * k)
  {
    var at := FIRST + 4 * k;
    assert at / 4 == FIRST / 4 + k;
    PointsOn(config[at / 4], at + 4);
  }

  lemma {:induction false} DenseCap(config: seq<Word>, k: nat)
    requires IsDense(config) && k <= 256
    ensures Cap(config, k) == FIRST + 4 * k
    decreases k
  {
    if k > 0 {
      DenseCap(config, k - 1);
      DenseNext(config, k - 1);
    }
  }

  lemma LastIsAer(config: seq<Word>)
    requires IsDense(config)
    ensures FIRST + 4 * 256 == LAST && AerAt(config, LAST)
  {
    assert Read(config, LAST) == AER_ID;
  }

  lemma DenseHolds(config: seq<Word>)
    requires IsDense(config)
    ensures Listed(config)
  {
    DenseCap(config, 256);
    LastIsAer(config);
    assert HitAt(FIRST, Next(config), Aer(config), 256);
  }

  lemma DenseMisses(config: seq<Word>, k: nat)
    requires IsDense(config) && k < STEP_CAP
    ensures !FirstAer(config, k)
  {
    DenseCap(config, k);
    DenseNext(config, k);
  }

  /** The AER capability is on this list, beyond the 256 entries the walk looks at, and every
      pointer stays in the extended space. */
  lemma DenseListHidesIt(config: seq<Word>)
    requires IsDense(config)
    ensures Full(config) && Listed(config) && !exists k :: 0 <= k < STEP_CAP && FirstAer(config, k)
  {
    DenseHolds(config);
    forall k | 0 <= k < STEP_CAP ensures !FirstAer(config, k) { DenseMisses(config, k); }
  }

  /** There is such a space. */
  lemma DenseExists()
    ensures exists config: seq<Word> :: IsDense(config)
  {
    var words: seq<Word> := seq(1024, i requires 0 <= i < 1024 => DenseWord(i));
    assert IsDense(words);
  }

  function DenseWord(i: nat): Word
    requires i < 1024
  {
    if i == LAST / 4 then AER_ID else if i < LAST / 4 then 2 + 0x10_0000 * (4 * i + 4) else 0
  }
}
