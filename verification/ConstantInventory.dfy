/** Powers of two and 32-bit words on unbounded integers. */
module Words {

  const WORDS: int := 0x1_0000_0000

  function Pow2(n: nat): (p: nat)
    ensures p >= 1
  {
    if n == 0 then 1 else 2 * Pow2(n - 1)
  }

  lemma Scales(k: int, m: int)
    requires m >= 1
    ensures k >= 1 ==> k * m >= m && k * m >= k
    ensures k <= -1 ==> k * m <= -m
  {}

  /** Division is determined by its equation. */
  lemma DivisionIsUnique(x: int, m: int, q: int, r: int)
    requires 0 <= r < m && x == q * m + r
    ensures x / m == q && x % m == r
  {
    var q', r' := x / m, x % m;
    assert x == q' * m + r';
    assert (q' - q) * m == r - r';
    Scales(q' - q, m);
  }

  lemma QuotientBounds(x: int, p: int)
    requires x >= 0 && p >= 1
    ensures 0 <= x / p <= x
  {
    var low := x / p;
    assert x == low * p + x % p;
    Scales(low, p);
  }

  lemma QuotientBelow(x: int, p: int, up: int)
    requires 0 <= x < up * p && p >= 1
    ensures x / p < up
  {
    var low := x / p;
    assert x == low * p + x % p;
    assert (up - low) * p > 0;
    Scales(up - low, p);
  }

  lemma HalfMod(a: int, p: int)
    requires p >= 1
    ensures (a % (2 * p)) / 2 == (a / 2) % p && (a % (2 * p)) % 2 == a % 2
  {
    var q, r := a / (2 * p), a % (2 * p);
    assert a == q * (2 * p) + r;
    assert q * (2 * p) == 2 * (q * p);
    assert a / 2 == q * p + r / 2;
    DivisionIsUnique(a / 2, p, q, r / 2);
  }

  lemma {:induction false} PowSplit(n: nat, b: nat)
    requires b <= n
    ensures Pow2(n) == Pow2(n - b) * Pow2(b)
    decreases b
  {
    if b > 0 {
      PowSplit(n - 1, b - 1);
      assert n - b == (n - 1) - (b - 1);
      assert 2 * (Pow2(n - b) * Pow2(b - 1)) == Pow2(n - b) * (2 * Pow2(b - 1));
    }
  }

  lemma Pow32()
    ensures Pow2(32) == WORDS
  {
    assert Pow2(4) == 16;
    assert Pow2(8) == 256;
    assert Pow2(12) == 0x1000;
    assert Pow2(16) == 0x1_0000;
    assert Pow2(20) == 0x10_0000;
    assert Pow2(24) == 0x100_0000;
    assert Pow2(28) == 0x1000_0000;
  }

  lemma ShlOfLow(a: int, p: int)
    ensures (a * p) % WORDS == ((a % WORDS) * p) % WORDS
  {
    var q, r := a / WORDS, a % WORDS;
    assert a * p == (q * p) * WORDS + r * p;
  }

  /** Shifting q words plus r right: the quotient keeps q scaled down. */
  lemma ShiftedDown(q: int, r: int, p: int, up: int)
    requires p >= 1 && up >= 1 && 0 <= r < up * p
    ensures (q * (up * p) + r) / p == q * up + r / p
    ensures 0 <= r / p < up
  {
    QuotientBounds(r, p);
    QuotientBelow(r, p, up);
    var low, rem := r / p, r % p;
    assert r == low * p + rem;
    assert q * (up * p) == (q * up) * p;
    assert (q * up + low) * p == (q * up) * p + low * p;
    DivisionIsUnique(q * (up * p) + r, p, q * up + low, rem);
  }

  /** And masking it keeps exactly the bits of q that were shifted into the word. */
  lemma Wrapped(q: int, low: int, p: int, up: int)
    requires p >= 1 && up >= 1 && 0 <= low < up
    ensures (q * up + low) % (up * p) == (q % p) * up + low
  {
    var q1, q0 := q / p, q % p;
    assert q == q1 * p + q0;
    WrappedBy(q1, q0, low, p, up);
  }

  lemma WrappedBy(q1: int, q0: int, low: int, p: int, up: int)
    requires p >= 1 && up >= 1 && 0 <= low < up && 0 <= q0 < p
    ensures ((q1 * p + q0) * up + low) % (up * p) == q0 * up + low
  {
    assert (p - q0) * up >= up by { Scales(p - q0, up); }
    assert (p - q0) * up == up * p - q0 * up;
    assert q0 * up >= 0;
    assert (q1 * p + q0) * up == q1 * (up * p) + q0 * up;
    DivisionIsUnique((q1 * p + q0) * up + low, up * p, q1, q0 * up + low);
  }

  lemma PowProduct(b: nat)
    requires b < 32
    ensures WORDS == Pow2(32 - b) * Pow2(b)
  {
    Pow32();
    PowSplit(32, b);
  }

  lemma ShrCore(a: int, w: int, p: int, up: int)
    requires p >= 1 && up >= 1 && w == up * p
    ensures (a / p) % w == (a % w) / p <==> (a / w) % p == 0
  {
    var q, r := a / w, a % w;
    assert a == q * w + r;
    ShiftedDown(q, r, p, up);
    Wrapped(q, r / p, p, up);
    Scales(q % p, up);
  }

  /** Right shift of an unbounded integer agrees with the machine on its low word exactly
      when none of the bits above 32 that the shift brings down is set. */
  lemma ShrAgreesExactly(a: int, b: nat)
    requires b < 32
    ensures (a / Pow2(b)) % WORDS == (a % WORDS) / Pow2(b) <==> (a / WORDS) % Pow2(b) == 0
  {
    PowProduct(b);
    ShrCore(a, WORDS, Pow2(b), Pow2(32 - b));
  }
}

/** The block-local constant inventory of helper calls in a Falcon listing, against a
    concrete machine of sixteen 32-bit registers. */
module ConstantInventory {
  import opened Words
  import opened Basics

  type RegNo = n: nat | n < 16

  // ---- listings ----

  /** An operand as the listing spells it.  `hex` marks a number written with a leading
      "0x"; anything that is neither a register, a width nor a number is text. */
  datatype Token = Reg(n: RegNo) | Imm(value: int, hex: bool) | B8 | B16 | B32 | Text

  datatype Kind = Add | Sub | And | Or | Xor | Shl | Shr

  datatype Op =
    | Bra | Lbra | Call | Lcall | Ret | Exit | Iret | MpopRet | MpopAddRet
    | St | Iowr | Cmp | Test | Push | Nop | Sleep
    | Clear | Mov | Arith(kind: Kind) | Other

  datatype Instr = Instr(pc: nat, op: Op, raw: seq<Token>)

  predicate IsCall(op: Op) { op.Call? || op.Lcall? }
  predicate IsDirect(op: Op) { op.Bra? || op.Lbra? || IsCall(op) }
  predicate IsControl(op: Op) {
    IsDirect(op) || op.Ret? || op.Exit? || op.Iret? || op.MpopRet? || op.MpopAddRet?
  }
  predicate IsReadOnly(op: Op) {
    op.St? || op.Iowr? || op.Cmp? || op.Test? || op.Push? || op.Nop? || op.Sleep?
  }

  /** Operands without the width tokens. */
  function Args(raw: seq<Token>): seq<Token> {
    if raw == [] then []
    else (if raw[0].B8? || raw[0].B16? || raw[0].B32? then [] else [raw[0]]) + Args(raw[1..])
  }

  predicate Partial(raw: seq<Token>) { B8 in raw || B16 in raw }

  predicate HasDest(i: Instr) {
    !IsReadOnly(i.op) && Args(i.raw) != [] && Args(i.raw)[0].Reg?
  }

  /** The address a direct branch or call names. */
  function DirectTarget(i: Instr): Option<int> {
    if IsDirect(i.op) && i.raw != [] && i.raw[|i.raw| - 1].Imm? && i.raw[|i.raw| - 1].hex
    then Some(i.raw[|i.raw| - 1].value) else None
  }

  function Targets(listing: seq<Instr>): set<int> {
    set k | 0 <= k < |listing| && DirectTarget(listing[k]).Some? :: DirectTarget(listing[k]).value
  }

  // ---- arithmetic ----

  function Bit(kind: Kind, x: int, y: int): (b: nat)
    ensures b <= 1
  {
    match kind
    case And => if x == 1 && y == 1 then 1 else 0
    case Or => if x == 1 || y == 1 then 1 else 0
    case _ => if x != y then 1 else 0
  }

  /** The low n bits of a bitwise operation on two's-complement integers. */
  function Bits(kind: Kind, n: nat, a: int, b: int): (r: nat)
    ensures r < Pow2(n)
  {
    if n == 0 then 0 else Bit(kind, a % 2, b % 2) + 2 * Bits(kind, n - 1, a / 2, b / 2)
  }

  /** The analysis' operators on unbounded integers, masked to 32 bits afterwards. */
  function Fold(kind: Kind, a: int, b: int): (r: Option<int>)
    ensures r.Some? ==> 0 <= r.value < WORDS
  {
    match kind
    case Add => Some((a + b) % WORDS)
    case Sub => Some((a - b) % WORDS)
    case Shl => if 0 <= b < 32 then Some((a * Pow2(b)) % WORDS) else None
    case Shr => if 0 <= b < 32 then Some((a / Pow2(b)) % WORDS) else None
    case _ => Pow32(); Some(Bits(kind, 32, a, b))
  }

  /** The machine's operators on 32-bit words; a shift by 32 or more is left open. */
  function Alu(kind: Kind, a: int, b: int): Option<int>
    requires 0 <= a < WORDS && 0 <= b < WORDS
  {
    match kind
    case Add => Some(if a + b < WORDS then a + b else a + b - WORDS)
    case Sub => Some(if a >= b then a - b else a - b + WORDS)
    case Shl => if b < 32 then Some((a * Pow2(b)) % WORDS) else None
    case Shr => if b < 32 then Some(a / Pow2(b)) else None
    case _ => Some(Bits(kind, 32, a, b))
  }

  /** Is bit k of a two's-complement integer set? */
  predicate Set(x: int, k: nat) { (x / Pow2(k)) % 2 == 1 }

  lemma SetLowest(x: int)
    ensures Set(x, 0) <==> x % 2 == 1
  {
    assert Pow2(0) == 1;
  }

  lemma BitsSplit(kind: Kind, n: nat, a: int, b: int)
    requires n > 0
    ensures Bits(kind, n, a, b) % 2 == Bit(kind, a % 2, b % 2)
    ensures Bits(kind, n, a, b) / 2 == Bits(kind, n - 1, a / 2, b / 2)
  {}

  /** What an operator makes of two bits. */
  predicate Combines(kind: Kind, x: bool, y: bool) {
    match kind
    case And => x && y
    case Or => x || y
    case _ => x != y
  }

  /** The bitwise operators do what their names say, bit by bit. */
  lemma {:induction false} BitsAreBitwise(kind: Kind, n: nat, a: int, b: int, k: nat)
    requires k < n && (kind.And? || kind.Or? || kind.Xor?)
    ensures Set(Bits(kind, n, a, b), k) <==> Combines(kind, Set(a, k), Set(b, k))
    decreases n
  {
    var r := Bits(kind, n, a, b);
    BitsSplit(kind, n, a, b);
    if k == 0 {
      SetLowest(r);
      SetLowest(a);
      SetLowest(b);
    } else {
      BitsAreBitwise(kind, n - 1, a / 2, b / 2, k - 1);
      SetAbove(r, k);
      SetAbove(a, k);
      SetAbove(b, k);
    }
  }

  lemma SetAbove(x: int, k: nat)
    requires k > 0
    ensures Set(x, k) <==> Set(x / 2, k - 1)
  {
    HalvedTwice(x, Pow2(k - 1));
  }

  lemma HalvedTwice(x: int, p: int)
    requires p >= 1
    ensures x / (2 * p) == (x / 2) / p
  {
    var q := (x / 2) / p;
    var r := (x / 2) % p;
    var low := x % 2;
    assert x == 2 * (q * p + r) + low;
    assert x == q * (2 * p) + (2 * r + low);
    DivisionIsUnique(x, 2 * p, q, 2 * r + low);
  }

  lemma {:induction false} BitsOfLow(kind: Kind, n: nat, a: int, b: int)
    ensures Bits(kind, n, a, b) == Bits(kind, n, a % Pow2(n), b % Pow2(n))
    decreases n
  {
    if n > 0 {
      BitsOfLow(kind, n - 1, a / 2, b / 2);
      HalfMod(a, Pow2(n - 1));
      HalfMod(b, Pow2(n - 1));
    }
  }

  lemma SumsAgree(a: int, b: int)
    ensures Fold(Add, a, b) == Alu(Add, a % WORDS, b % WORDS)
  {}

  lemma DifferencesAgree(a: int, b: int)
    ensures Fold(Sub, a, b) == Alu(Sub, a % WORDS, b % WORDS)
  {}

  lemma BitwiseAgree(kind: Kind, a: int, b: int)
    requires kind.And? || kind.Or? || kind.Xor?
    ensures Fold(kind, a, b) == Alu(kind, a % WORDS, b % WORDS)
  {
    Pow32();
    BitsOfLow(kind, 32, a, b);
  }

  lemma ShiftsAgree(a: int, b: int)
    requires 0 <= b < 32
    ensures Fold(Shl, a, b) == Alu(Shl, a % WORDS, b % WORDS)
    ensures Fold(Shr, a, b) == Alu(Shr, a % WORDS, b % WORDS) <==> (a / WORDS) % Pow2(b) == 0
  {
    assert b % WORDS == b;
    ShlOfLow(a, Pow2(b));
    ShrAgreesExactly(a, b);
  }

  /** Folding on the analysis' integers predicts the machine's word, for a right shift
      exactly when no bit above 32 is shifted down. */
  lemma FoldPredictsAlu(kind: Kind, a: int, b: int)
    requires Fold(kind, a, b).Some?
    ensures Fold(kind, a, b) == Alu(kind, a % WORDS, b % WORDS)
       <==> (kind.Shr? ==> (a / WORDS) % Pow2(b) == 0)
  {
    match kind
    case Add => SumsAgree(a, b);
    case Sub => DifferencesAgree(a, b);
    case Shl => ShiftsAgree(a, b);
    case Shr => ShiftsAgree(a, b);
    case _ => BitwiseAgree(kind, a, b);
  }

  // ---- the analysis ----

  type Known = map<RegNo, int>

  function Value(known: Known, token: Token): Option<int> {
    match token
    case Reg(n) => if n in known then Some(known[n]) else None
    case Imm(v, _) => Some(v)
    case _ => None
  }

  /** The constant an instruction leaves in its destination, when the analysis sees one. */
  function Result(known: Known, i: Instr): Option<int>
    requires HasDest(i)
  {
    var args := Args(i.raw);
    var operands := args[1..];
    if Partial(i.raw) then None else
    match i.op
    case Clear => Some(0)
    case Mov => if |operands| == 1 then Value(known, operands[0]) else None
    case Arith(kind) =>
      if |operands| != 1 && |operands| != 2 then None else
      var a := Value(known, if |operands| == 1 then args[0] else operands[0]);
      var b := Value(known, operands[|operands| - 1]);
      if a.Some? && b.Some? then Fold(kind, a.value, b.value) else None
    case _ => None
  }

  /** Known constants after an instruction. */
  function Transfer(known: Known, i: Instr): Known {
    if IsControl(i.op) then map[]
    else if !HasDest(i) then known
    else
      var dest := Args(i.raw)[0].n;
      var r := Result(known, i);
      if r.Some? then known[dest := r.value % WORDS] else known - {dest}
  }

  /** Constants carried into instruction k from the one above it. */
  function Carried(listing: seq<Instr>, k: nat): Known
    requires k <= |listing|
    decreases k, 0
  {
    if k == 0 then map[] else Transfer(Entering(listing, k - 1), listing[k - 1])
  }

  /** Constants at instruction k: none at a join. */
  function Entering(listing: seq<Instr>, k: nat): Known
    requires k < |listing|
    decreases k, 1
  {
    if listing[k].pc in Targets(listing) then map[] else Carried(listing, k)
  }

  datatype Record = Record(pc: nat, helper: int, arguments: seq<Option<int>>)

  function Arguments(known: Known): seq<Option<int>> {
    [Value(known, Reg(10)), Value(known, Reg(11)), Value(known, Reg(12)), Value(known, Reg(13)), Value(known, Reg(14))]
  }

  function CallTarget(known: Known, i: Instr): Option<int> {
    var args := Args(i.raw);
    if args == [] then None else Value(known, args[|args| - 1])
  }

  function RecordAt(listing: seq<Instr>, helpers: set<int>, k: nat): Option<Record>
    requires k < |listing|
  {
    var known := Entering(listing, k);
    var target := CallTarget(known, listing[k]);
    if IsCall(listing[k].op) && target.Some? && target.value in helpers
    then Some(Record(listing[k].pc, target.value, Arguments(known))) else None
  }

  function Records(listing: seq<Instr>, helpers: set<int>, n: nat): seq<Record>
    requires n <= |listing|
  {
    if n == 0 then [] else
    Records(listing, helpers, n - 1) +
    match RecordAt(listing, helpers, n - 1) case None => [] case Some(r) => [r]
  }

  /** The first pass: the addresses that direct branches and calls name. */
  method CollectTargets(listing: seq<Instr>) returns (targets: set<int>)
    ensures targets == Targets(listing)
  {
    targets := {};
    for k := 0 to |listing|
      invariant targets == Targets(listing[..k])
    {
      var i := listing[k];
      TargetsGrow(listing[..k], i);
      assert listing[..k] + [i] == listing[..k + 1];
      if IsDirect(i.op) && i.raw != [] {
        var last := i.raw[|i.raw| - 1];
        if last.Imm? && last.hex { targets := targets + {last.value}; }
      }
    }
    assert listing[..|listing|] == listing;
  }

  /** What one instruction does to the constants known before it. */
  method Interpret(known: Known, i: Instr) returns (regs: Known)
    ensures regs == Transfer(known, i)
  {
    regs := known;
    var args := Args(i.raw);
    if IsControl(i.op) {
      regs := map[];
    } else if IsReadOnly(i.op) || args == [] || !args[0].Reg? {
    } else {
      var dest := args[0].n;
      var result := Result(regs, i);
      regs := regs - {dest};
      if result.Some? { regs := regs[dest := result.value % WORDS]; }
    }
  }

  /** The two passes of the tool: collect direct targets, then interpret the listing once,
      forgetting everything at joins, calls and jumps. */
  method Inventory(listing: seq<Instr>, helpers: set<int>) returns (records: seq<Record>)
    ensures records == Records(listing, helpers, |listing|)
  {
    var targets := CollectTargets(listing);
    var regs: Known := map[];
    records := [];
    for k := 0 to |listing|
      invariant regs == Carried(listing, k)
      invariant records == Records(listing, helpers, k)
    {
      var i := listing[k];
      if i.pc in targets { regs := map[]; }
      assert regs == Entering(listing, k);
      var args := Args(i.raw);
      if IsCall(i.op) && args != [] {
        var target := Value(regs, args[|args| - 1]);
        if target.Some? && target.value in helpers {
          records := records + [Record(i.pc, target.value, Arguments(regs))];
        }
      }
      regs := Interpret(regs, i);
    }
  }

  lemma TargetsGrow(prefix: seq<Instr>, i: Instr)
    ensures Targets(prefix + [i]) ==
            Targets(prefix) + if DirectTarget(i).Some? then {DirectTarget(i).value} else {}
  {
    var longer := prefix + [i];
    forall x | x in Targets(prefix) + (if DirectTarget(i).Some? then {DirectTarget(i).value} else {})
      ensures x in Targets(longer)
    {
      if x in Targets(prefix) {
        var k :| 0 <= k < |prefix| && DirectTarget(prefix[k]) == Some(x);
        assert longer[k] == prefix[k];
      } else {
        assert longer[|prefix|] == i;
      }
    }
  }

  // ---- the machine ----

  datatype Machine = Machine(at: nat, regs: seq<int>)

  predicate IsWord(x: int) { 0 <= x < WORDS }

  predicate AreWords(regs: seq<int>) {
    |regs| == 16 && forall n :: 0 <= n < 16 ==> IsWord(regs[n])
  }

  predicate Sane(m: Machine) { AreWords(m.regs) }

  function Operand(regs: seq<int>, token: Token): (r: Option<int>)
    requires AreWords(regs)
    ensures r.Some? ==> IsWord(r.value)
  {
    match token
    case Reg(n) => Some(regs[n])
    case Imm(v, _) => Some(v % WORDS)
    case _ => None
  }

  /** The word a full-width instruction must put in its destination, where the machine
      fixes one; partial writes, loads and other operations may put anything there. */
  function Written(regs: seq<int>, i: Instr): Option<int>
    requires AreWords(regs) && HasDest(i)
  {
    var args := Args(i.raw);
    var operands := args[1..];
    if Partial(i.raw) then None else
    match i.op
    case Clear => Some(0)
    case Mov => if |operands| == 1 then Operand(regs, operands[0]) else None
    case Arith(kind) =>
      if |operands| != 1 && |operands| != 2 then None else
      var a := Operand(regs, if |operands| == 1 then args[0] else operands[0]);
      var b := Operand(regs, operands[|operands| - 1]);
      if a.Some? && b.Some? then Alu(kind, a.value, b.value) else None
    case _ => None
  }

  /** Where control may arrive other than by falling through. */
  predicate IsLanding(listing: seq<Instr>, k: nat) {
    && k < |listing|
    && (k == 0 || listing[k].pc in Targets(listing) || IsCall(listing[k - 1].op))
  }

  /** Operations after which control never falls through. */
  predicate Leaves(op: Op) { op.Ret? || op.Exit? || op.Iret? || op.MpopRet? || op.MpopAddRet? }

  ghost predicate Step(listing: seq<Instr>, m: Machine, m': Machine) {
    && Sane(m) && Sane(m') && m.at < |listing|
    && var i := listing[m.at];
       if IsControl(i.op) then (m'.at == m.at + 1 && !Leaves(i.op)) || IsLanding(listing, m'.at)
       else
         && m'.at == m.at + 1
         && if HasDest(i) then
              var dest := Args(i.raw)[0].n;
              && (forall n :: 0 <= n < 16 && n != dest ==> m'.regs[n] == m.regs[n])
              && (Written(m.regs, i).Some? ==> m'.regs[dest] == Written(m.regs, i).value)
            else m'.regs == m.regs
  }

  ghost predicate IsExecution(listing: seq<Instr>, ms: seq<Machine>) {
    && ms != [] && Sane(ms[0]) && IsLanding(listing, ms[0].at)
    && forall k {:trigger StepsAt(listing, ms, k)} :: 0 <= k < |ms| - 1 ==> StepsAt(listing, ms, k)
  }

  ghost predicate StepsAt(listing: seq<Instr>, ms: seq<Machine>, k: nat)
    requires k + 1 < |ms|
  {
    Step(listing, ms[k], ms[k + 1])
  }

  // ---- soundness ----

  /** The two operands of an arithmetic instruction; the destination is the first of them when
      only one is written out. */
  function FirstOperand(i: Instr): Token
    requires |Args(i.raw)| == 2 || |Args(i.raw)| == 3
  {
    if |Args(i.raw)| == 2 then Args(i.raw)[0] else Args(i.raw)[1]
  }

  function SecondOperand(i: Instr): Token
    requires |Args(i.raw)| == 2 || |Args(i.raw)| == 3
  {
    Args(i.raw)[|Args(i.raw)| - 1]
  }

  /** A right shift that is folded shifts no bit above the 32nd into the word. */
  predicate Fits(known: Known, i: Instr) {
    i.op == Arith(Shr) && HasDest(i) && Result(known, i).Some? ==>
      (Value(known, FirstOperand(i)).value / WORDS) % Pow2(Value(known, SecondOperand(i)).value) == 0
  }

  /** Control can arrive at instruction k. */
  predicate Reached(listing: seq<Instr>, k: nat) {
    k < |listing| && (IsLanding(listing, k) || (!Leaves(listing[k - 1].op) && Reached(listing, k - 1)))
  }

  /** Fits, or is never executed, or is forgotten at a join before anything can use it. */
  predicate FitsAt(listing: seq<Instr>, k: nat)
    requires k < |listing|
  {
    Reached(listing, k) && k + 1 < |listing| && listing[k + 1].pc !in Targets(listing) ==>
      Fits(Entering(listing, k), listing[k])
  }

  predicate AllFit(listing: seq<Instr>) { forall k :: 0 <= k < |listing| ==> FitsAt(listing, k) }

  predicate Describes(known: Known, m: Machine) {
    |m.regs| == 16 && forall n: RegNo :: n in known ==> m.regs[n] == known[n]
  }

  lemma OperandsAgree(known: Known, m: Machine, token: Token)
    requires Sane(m) && Describes(known, m) && Value(known, token).Some?
    ensures Operand(m.regs, token) == Some(Value(known, token).value % WORDS)
    ensures token.Reg? ==> Value(known, token).value / WORDS == 0
  {
    if token.Reg? { assert IsWord(m.regs[token.n]); }
  }

  lemma FoldIsMasked(kind: Kind, a: int, b: int)
    requires Fold(kind, a, b).Some?
    ensures Fold(kind, a, b).value % WORDS == Fold(kind, a, b).value
  {}

  /** The folded constant is the machine's word exactly when a folded shift fits. */
  lemma ResultIsWrittenExactly(known: Known, m: Machine, i: Instr)
    requires Sane(m) && Describes(known, m) && HasDest(i) && Result(known, i).Some?
    ensures Written(m.regs, i).Some?
    ensures Written(m.regs, i) == Some(Result(known, i).value % WORDS) <==> Fits(known, i)
  {
    if i.op.Mov? {
      OperandsAgree(known, m, Args(i.raw)[1]);
    } else if i.op.Arith? {
      OperandsAgree(known, m, FirstOperand(i));
      OperandsAgree(known, m, SecondOperand(i));
      var a, b := Value(known, FirstOperand(i)).value, Value(known, SecondOperand(i)).value;
      FoldPredictsAlu(i.op.kind, a, b);
      FoldIsMasked(i.op.kind, a, b);
    }
  }

  lemma TransferIsSound(known: Known, m: Machine, m': Machine, listing: seq<Instr>)
    requires Step(listing, m, m') && Describes(known, m) && Fits(known, listing[m.at])
    requires !IsControl(listing[m.at].op)
    ensures Describes(Transfer(known, listing[m.at]), m')
  {
    var i := listing[m.at];
    if HasDest(i) && Result(known, i).Some? { ResultIsWrittenExactly(known, m, i); }
  }

  lemma {:induction false} ExecutionsReach(listing: seq<Instr>, ms: seq<Machine>, k: nat)
    requires IsExecution(listing, ms) && k < |ms| && ms[k].at < |listing|
    ensures Reached(listing, ms[k].at)
    decreases k
  {
    if k > 0 {
      assert StepsAt(listing, ms, k - 1);
      ExecutionsReach(listing, ms, k - 1);
    }
  }

  /** On every execution, every constant the analysis holds at an instruction is the value
      of its register when the machine is about to execute that instruction, as long as the
      shifts above it fit. */
  lemma {:induction false} ConstantsAreSound(listing: seq<Instr>, ms: seq<Machine>, k: nat)
    requires IsExecution(listing, ms) && k < |ms| && ms[k].at < |listing|
    requires forall j :: 0 <= j < ms[k].at ==> FitsAt(listing, j)
    ensures Sane(ms[k]) && Describes(Entering(listing, ms[k].at), ms[k])
    decreases k
  {
    if k == 0 {
      LandingKnowsNothing(listing, ms[0].at);
    } else {
      assert StepsAt(listing, ms, k - 1);
      var before := ms[k - 1];
      if IsControl(listing[before.at].op) {
        if ms[k].at == before.at + 1 {
          assert Carried(listing, ms[k].at) == map[];
        } else {
          LandingKnowsNothing(listing, ms[k].at);
        }
      } else if listing[ms[k].at].pc !in Targets(listing) {
        ConstantsAreSound(listing, ms, k - 1);
        ExecutionsReach(listing, ms, k - 1);
        assert FitsAt(listing, before.at);
        TransferIsSound(Entering(listing, before.at), before, ms[k], listing);
      }
    }
  }

  lemma LandingKnowsNothing(listing: seq<Instr>, k: nat)
    requires IsLanding(listing, k)
    ensures Entering(listing, k) == map[]
  {}

  // ---- the condition is exact ----

  ghost predicate SoundAt(listing: seq<Instr>, ms: seq<Machine>, k: nat)
    requires k < |ms|
  {
    ms[k].at < |listing| ==> Describes(Entering(listing, ms[k].at), ms[k])
  }

  /** Do all constants, at all instructions, hold on all executions? */
  ghost predicate AllSound(listing: seq<Instr>) {
    forall ms: seq<Machine>, k: nat {:trigger SoundAt(listing, ms, k)} ::
      IsExecution(listing, ms) && k < |ms| ==> SoundAt(listing, ms, k)
  }

  lemma AluGivesWords(kind: Kind, a: int, b: int)
    requires IsWord(a) && IsWord(b) && Alu(kind, a, b).Some?
    ensures IsWord(Alu(kind, a, b).value)
  {
    Pow32();
    if kind.Shr? { QuotientBounds(a, Pow2(b)); }
  }

  lemma WrittenIsWord(regs: seq<int>, i: Instr)
    requires AreWords(regs) && HasDest(i) && Written(regs, i).Some?
    ensures IsWord(Written(regs, i).value)
  {
    if i.op.Arith? {
      AluGivesWords(i.op.kind, Operand(regs, FirstOperand(i)).value, Operand(regs, SecondOperand(i)).value);
    }
  }

  /** The machine after an instruction that falls through. */
  function After(listing: seq<Instr>, m: Machine): Machine
    requires Sane(m) && m.at < |listing|
  {
    var i := listing[m.at];
    if IsControl(i.op) || !HasDest(i) || Written(m.regs, i).None? then m.(at := m.at + 1)
    else Machine(m.at + 1, m.regs[Args(i.raw)[0].n := Written(m.regs, i).value])
  }

  lemma AfterIsAStep(listing: seq<Instr>, m: Machine)
    requires Sane(m) && m.at < |listing| && !Leaves(listing[m.at].op)
    ensures Step(listing, m, After(listing, m))
  {
    var i := listing[m.at];
    if HasDest(i) && Written(m.regs, i).Some? { WrittenIsWord(m.regs, i); }
  }

  /** An execution that arrives at a reached instruction: from the landing above it, falling
      through. */
  lemma {:induction false} Arrives(listing: seq<Instr>, n: nat) returns (ms: seq<Machine>)
    requires Reached(listing, n)
    ensures IsExecution(listing, ms) && ms[|ms| - 1].at == n && Sane(ms[|ms| - 1])
    decreases n
  {
    if IsLanding(listing, n) {
      ms := [Machine(n, seq(16, _ => 0))];
    } else {
      var before := Arrives(listing, n - 1);
      ms := OneMore(listing, before);
    }
  }

  /** An execution goes on by falling through. */
  lemma OneMore(listing: seq<Instr>, before: seq<Machine>) returns (ms: seq<Machine>)
    requires IsExecution(listing, before)
    requires var m := before[|before| - 1]; Sane(m) && m.at < |listing| && !Leaves(listing[m.at].op)
    ensures ms == before + [After(listing, before[|before| - 1])] && IsExecution(listing, ms)
    ensures Sane(ms[|ms| - 1])
  {
    var n := |before| - 1;
    AfterIsAStep(listing, before[n]);
    ms := before + [After(listing, before[n])];
    forall k | 0 <= k < |ms| - 1 ensures StepsAt(listing, ms, k) {
      if k < n { assert StepsAt(listing, before, k); }
    }
  }

  /** A folded shift that does not fit, with all before it fitting, is contradicted by the
      machine one instruction later. */
  lemma MisfitIsWrong(listing: seq<Instr>, n: nat)
    requires n < |listing| && !FitsAt(listing, n) && forall j :: 0 <= j < n ==> FitsAt(listing, j)
    ensures !AllSound(listing)
  {
    var before := Arrives(listing, n);
    var last := |before| - 1;
    ConstantsAreSound(listing, before, last);
    var m, i, known := before[last], listing[n], Entering(listing, n);
    ResultIsWrittenExactly(known, m, i);
    var ms := OneMore(listing, before);
    var dest := Args(i.raw)[0].n;
    assert Carried(listing, n + 1)[dest] == Result(known, i).value % WORDS;
    assert !SoundAt(listing, ms, last + 1);
  }

  lemma {:induction false} FirstMisfit(listing: seq<Instr>, n: nat) returns (k: nat)
    requires n < |listing| && !FitsAt(listing, n)
    ensures k <= n && !FitsAt(listing, k) && forall j :: 0 <= j < k ==> FitsAt(listing, j)
    decreases n
  {
    if j :| 0 <= j < n && !FitsAt(listing, j) { k := FirstMisfit(listing, j); } else { k := n; }
  }

  /** For every listing: the analysis is sound on all executions if and only if every folded
      right shift that is executed, and whose result is not forgotten at once, fits. */
  lemma SoundExactlyWhenShiftsFit(listing: seq<Instr>)
    ensures AllSound(listing) <==> AllFit(listing)
  {
    if AllFit(listing) {
      forall ms: seq<Machine>, k: nat | IsExecution(listing, ms) && k < |ms| ensures SoundAt(listing, ms, k) {
        if ms[k].at < |listing| { ConstantsAreSound(listing, ms, k); }
      }
    } else {
      var n :| 0 <= n < |listing| && !FitsAt(listing, n);
      var k := FirstMisfit(listing, n);
      MisfitIsWrong(listing, k);
    }
  }

  // ---- nothing is forgotten without need ----

  /** What an operation does: jump to a named address or on, call, leave for good, only read
      registers, or write its first register operand. */
  datatype Effect = Jumping | Calling | Leaving | Reading | Writing

  function EffectOf(op: Op): Effect {
    match op
    case Bra => Jumping
    case Lbra => Jumping
    case Call => Calling
    case Lcall => Calling
    case Ret => Leaving
    case Exit => Leaving
    case Iret => Leaving
    case MpopRet => Leaving
    case MpopAddRet => Leaving
    case St => Reading
    case Iowr => Reading
    case Cmp => Reading
    case Test => Reading
    case Push => Reading
    case Nop => Reading
    case Sleep => Reading
    case Clear => Writing
    case Mov => Writing
    case Arith(_) => Writing
    case Other => Writing
  }

  lemma EffectsAgree(op: Op)
    ensures IsCall(op) <==> EffectOf(op).Calling?
    ensures IsDirect(op) <==> EffectOf(op).Jumping? || EffectOf(op).Calling?
    ensures Leaves(op) <==> EffectOf(op).Leaving?
    ensures IsControl(op) <==> EffectOf(op).Jumping? || EffectOf(op).Calling? || EffectOf(op).Leaving?
    ensures IsReadOnly(op) <==> EffectOf(op).Reading?
  {}

  /** Width tokens are left out, everything else stays in order. */
  lemma ArgsOfOne(t: Token)
    ensures Args([t]) == if t == B8 || t == B16 || t == B32 then [] else [t]
  {
    assert [t][1..] == [];
  }

  lemma ArgsOfRest(raw: seq<Token>)
    requires raw != []
    ensures Args(raw) == Args([raw[0]]) + Args(raw[1..])
  {
    ArgsOfOne(raw[0]);
  }

  lemma Regroup(x: seq<Token>, y: seq<Token>, z: seq<Token>)
    ensures x + (y + z) == (x + y) + z
  {}

  lemma {:induction false} ArgsOfAppend(a: seq<Token>, b: seq<Token>)
    ensures Args(a + b) == Args(a) + Args(b)
  {
    if a == [] {
      assert a + b == b;
    } else {
      ArgsOfAppend(a[1..], b);
      ArgsOfRest(a + b);
      ArgsOfRest(a);
      Regroup(Args([a[0]]), Args(a[1..]), Args(b));
      assert (a + b)[1..] == a[1..] + b;
    }
  }

  /** Written out somewhere in the operands. */
  predicate Mentions(raw: seq<Token>, t: Token) { exists k :: 0 <= k < |raw| && raw[k] == t }

  lemma PartialIsNarrow(raw: seq<Token>)
    ensures Partial(raw) <==> Mentions(raw, B8) || Mentions(raw, B16)
  {}

  /** Some jump or call names this address last, in hexadecimal. */
  ghost predicate IsNamed(listing: seq<Instr>, pc: int) { exists j :: 0 <= j < |listing| && NamedBy(listing[j], pc) }

  predicate NamedBy(i: Instr, pc: int) {
    (EffectOf(i.op).Jumping? || EffectOf(i.op).Calling?) && i.raw != [] && i.raw[|i.raw| - 1] == Imm(pc, true)
  }

  lemma TargetsAreNamed(listing: seq<Instr>, pc: int)
    ensures pc in Targets(listing) <==> IsNamed(listing, pc)
  {
    forall i: Instr ensures DirectTarget(i) == Some(pc) <==> NamedBy(i, pc) { EffectsAgree(i.op); }
    if pc in Targets(listing) {
      var j :| 0 <= j < |listing| && DirectTarget(listing[j]) == Some(pc);
      assert NamedBy(listing[j], pc);
    }
  }

  /** A register is derivable at an instruction when, going back in its block, the last write
      to it puts down a constant: nothing else names the instructions in between, and no
      control operation stands there. */
  ghost predicate Derivable(listing: seq<Instr>, k: nat, n: RegNo)
    requires k < |listing|
    decreases k, 0
  {
    && k > 0 && !IsNamed(listing, listing[k].pc)
    && var i := listing[k - 1];
       match EffectOf(i.op)
       case Reading => Derivable(listing, k - 1, n)
       case Writing =>
         if Args(i.raw) != [] && Args(i.raw)[0] == Reg(n) then Evaluates(listing, k - 1) else Derivable(listing, k - 1, n)
       case _ => false
  }

  /** The instruction writes a constant: a full-width clear, move or fold of derivable operands,
      shifts only by less than 32. */
  ghost predicate Evaluates(listing: seq<Instr>, k: nat)
    requires k < |listing|
    decreases k, 2
  {
    var i := listing[k];
    var args := Args(i.raw);
    && !Mentions(i.raw, B8) && !Mentions(i.raw, B16)
    && match i.op
       case Clear => args != []
       case Mov => |args| == 2 && Given(listing, k, args[1])
       case Arith(kind) =>
         && (|args| == 2 || |args| == 3)
         && Given(listing, k, args[|args| - 2]) && Given(listing, k, args[|args| - 1])
         && (kind.Shl? || kind.Shr? ==> Short(Value(Entering(listing, k), args[|args| - 1])))
       case _ => false
  }

  ghost predicate Given(listing: seq<Instr>, k: nat, t: Token)
    requires k < |listing|
    decreases k, 1
  {
    t.Imm? || (t.Reg? && Derivable(listing, k, t.n))
  }

  predicate Short(distance: Option<int>) { distance.Some? && 0 <= distance.value < 32 }

  lemma {:induction false} ValueIsGiven(listing: seq<Instr>, k: nat, t: Token)
    requires k < |listing| && (t.Reg? ==> (t.n in Entering(listing, k) <==> Derivable(listing, k, t.n)))
    ensures Value(Entering(listing, k), t).Some? <==> Given(listing, k, t)
  {}

  lemma {:induction false} ResultIsEvaluated(listing: seq<Instr>, k: nat)
    requires k < |listing| && HasDest(listing[k])
    requires forall n: RegNo :: n in Entering(listing, k) <==> Derivable(listing, k, n)
    ensures Result(Entering(listing, k), listing[k]).Some? <==> Evaluates(listing, k)
  {
    var i := listing[k];
    var args := Args(i.raw);
    PartialIsNarrow(i.raw);
    if |args| >= 2 {
      ValueIsGiven(listing, k, args[|args| - 2]);
      ValueIsGiven(listing, k, args[|args| - 1]);
    }
  }

  /** The analysis knows a register at an instruction exactly when it is derivable there: it
      keeps nothing it should drop and drops nothing it could keep. */
  lemma {:induction false} KnownExactlyWhenDerivable(listing: seq<Instr>, k: nat, n: RegNo)
    requires k < |listing|
    ensures n in Entering(listing, k) <==> Derivable(listing, k, n)
    decreases k
  {
    TargetsAreNamed(listing, listing[k].pc);
    if k > 0 {
      var i := listing[k - 1];
      EffectsAgree(i.op);
      var j: nat := k - 1;
      forall m: RegNo ensures m in Entering(listing, j) <==> Derivable(listing, j, m) {
        KnownExactlyWhenDerivable(listing, j, m);
      }
      if HasDest(i) { ResultIsEvaluated(listing, j); }
    }
  }

  /** Every call whose last operand is a helper's address, written out or derivable, is
      recorded, with the arguments that are derivable and no others. */
  lemma {:induction false} CallsAreRecorded(listing: seq<Instr>, helpers: set<int>, k: nat)
    requires k < |listing| && EffectOf(listing[k].op).Calling? && Args(listing[k].raw) != []
    ensures var target := Args(listing[k].raw)[|Args(listing[k].raw)| - 1];
            var known := Entering(listing, k);
            RecordAt(listing, helpers, k).Some? <==>
              Given(listing, k, target) && Value(known, target).Some? && Value(known, target).value in helpers
    ensures RecordAt(listing, helpers, k).Some? ==>
            var r := RecordAt(listing, helpers, k).value;
            r.pc == listing[k].pc && |r.arguments| == 5 &&
            forall arg: nat :: arg < 5 ==> (r.arguments[arg].Some? <==> Derivable(listing, k, 10 + arg))
  {
    EffectsAgree(listing[k].op);
    var target := Args(listing[k].raw)[|Args(listing[k].raw)| - 1];
    forall n: RegNo ensures n in Entering(listing, k) <==> Derivable(listing, k, n) {
      KnownExactlyWhenDerivable(listing, k, n);
    }
    ValueIsGiven(listing, k, target);
  }

  // ---- the records ----

  /** The machine calls the recorded helper and holds each reported r10..r14 constant. */
  predicate Confirms(m: Machine, i: Instr, r: Record) {
    && Sane(m) && IsCall(i.op) && i.pc == r.pc && Args(i.raw) != [] && |r.arguments| == 5
    && (match Args(i.raw)[|Args(i.raw)| - 1]
        case Reg(n) => m.regs[n] == r.helper
        case Imm(v, _) => v == r.helper
        case _ => false)
    && forall arg :: 0 <= arg < 5 && r.arguments[arg].Some? ==> m.regs[10 + arg] == r.arguments[arg].value
  }

  /** Every record the inventory returns belongs to a call of the listing, and every machine
      that reaches that call on any execution confirms it. */
  lemma RecordsAreTrue(listing: seq<Instr>, helpers: set<int>, r: Record) returns (at: nat)
    requires AllFit(listing) && r in Records(listing, helpers, |listing|)
    ensures at < |listing| && RecordAt(listing, helpers, at) == Some(r) && r.helper in helpers
    ensures forall ms: seq<Machine>, k: nat ::
              IsExecution(listing, ms) && k < |ms| && ms[k].at == at ==> Confirms(ms[k], listing[at], r)
  {
    RecordsComeFromCalls(listing, helpers, |listing|, r);
    at :| at < |listing| && IsRecordOf(listing, helpers, at, r);
    forall ms: seq<Machine>, k: nat | IsExecution(listing, ms) && k < |ms| && ms[k].at == at
      ensures Confirms(ms[k], listing[at], r)
    {
      CallIsConfirmed(listing, helpers, ms, k);
    }
  }

  /** And every helper call the analysis sees on an execution is in the inventory. */
  lemma CallIsConfirmed(listing: seq<Instr>, helpers: set<int>, ms: seq<Machine>, k: nat)
    requires IsExecution(listing, ms) && k < |ms| && ms[k].at < |listing|
    requires forall j :: 0 <= j < ms[k].at ==> FitsAt(listing, j)
    requires RecordAt(listing, helpers, ms[k].at).Some?
    ensures var r := RecordAt(listing, helpers, ms[k].at).value;
            Confirms(ms[k], listing[ms[k].at], r) && r in Records(listing, helpers, |listing|)
  {
    ConstantsAreSound(listing, ms, k);
    var at := ms[k].at;
    assert IsRecordOf(listing, helpers, at, RecordAt(listing, helpers, at).value);
    RecordsComeFromCalls(listing, helpers, |listing|, RecordAt(listing, helpers, at).value);
  }

  /** Every line of the inventory is the record of some call of the listing. */
  lemma {:induction false} RecordsComeFromCalls(listing: seq<Instr>, helpers: set<int>, n: nat, r: Record)
    requires n <= |listing|
    ensures r in Records(listing, helpers, n) <==>
            exists k :: 0 <= k < n && IsRecordOf(listing, helpers, k, r)
    decreases n
  {
    if n > 0 {
      RecordsComeFromCalls(listing, helpers, n - 1, r);
      assert r in Records(listing, helpers, n) <==>
        r in Records(listing, helpers, n - 1) || IsRecordOf(listing, helpers, n - 1, r);
    }
  }

  predicate IsRecordOf(listing: seq<Instr>, helpers: set<int>, k: nat, r: Record)
    requires k < |listing|
  {
    RecordAt(listing, helpers, k) == Some(r)
  }

  // ---- a report that is wrong ----

  /** shr $r10 a b ; lcall 0x63, placed at addresses 0 and 4. */
  function ShiftThenCall(a: int, b: nat): seq<Instr> {
    [Instr(0, Arith(Shr), [Reg(10), Imm(a, false), Imm(b, false)]), Instr(4, Lcall, [Imm(99, true)])]
  }

  lemma ArgsStep(token: Token, rest: seq<Token>)
    requires token.Reg? || token.Imm?
    ensures Args([token] + rest) == [token] + Args(rest)
  {
    assert ([token] + rest)[1..] == rest;
  }

  lemma ArgsOfShift(a: int, b: nat)
    ensures Args([Reg(10), Imm(a, false), Imm(b, false)]) == [Reg(10), Imm(a, false), Imm(b, false)]
    ensures !Partial([Reg(10), Imm(a, false), Imm(b, false)])
  {
    ArgsStep(Imm(b, false), []);
    ArgsStep(Imm(a, false), [Imm(b, false)]);
    ArgsStep(Reg(10), [Imm(a, false), Imm(b, false)]);
    assert [Reg(10)] + [Imm(a, false), Imm(b, false)] == [Reg(10), Imm(a, false), Imm(b, false)];
    assert [Imm(a, false)] + [Imm(b, false)] == [Imm(a, false), Imm(b, false)];
    assert [Imm(b, false)] + [] == [Imm(b, false)];
  }

  lemma NoTarget(a: int, b: nat)
    ensures 0 !in Targets(ShiftThenCall(a, b)) && 4 !in Targets(ShiftThenCall(a, b))
  {
    var l := ShiftThenCall(a, b);
    forall x | x in Targets(l) ensures x == 99 {
      var k :| 0 <= k < |l| && DirectTarget(l[k]) == Some(x);
    }
  }

  lemma ShiftFits(i: Instr, a: int, b: nat)
    requires b < 32 && i == Instr(0, Arith(Shr), [Reg(10), Imm(a, false), Imm(b, false)])
    ensures Fits(map[], i) <==> (a / WORDS) % Pow2(b) == 0
  {
    ArgsOfShift(a, b);
  }

  /** For every such listing the analysis is right on all executions exactly when the bits of
      the immediate above the 32nd vanish modulo the shift; so it is wrong for a = 2^32, b = 1. */
  lemma ShiftedImmediateMustFit(a: int, b: nat)
    requires b < 32
    ensures AllSound(ShiftThenCall(a, b)) <==> (a / WORDS) % Pow2(b) == 0
  {
    var l := ShiftThenCall(a, b);
    SoundExactlyWhenShiftsFit(l);
    NoTarget(a, b);
    assert l[1].pc == 4 && Entering(l, 0) == map[];
    ShiftFits(l[0], a, b);
    assert FitsAt(l, 1);
    assert AllFit(l) <==> FitsAt(l, 0);
  }

  lemma ShiftTransfers(i: Instr, a: int, b: nat)
    requires b < 32 && i == Instr(0, Arith(Shr), [Reg(10), Imm(a, false), Imm(b, false)])
    ensures Transfer(map[], i) == map[10 := Fold(Shr, a, b).value]
  {
    ArgsOfShift(a, b);
    FoldIsMasked(Shr, a, b);
  }

  lemma {:induction false} CallIsRecorded(l: seq<Instr>, k: nat)
    requires k < |l| && l[k].op == Lcall && l[k].raw == [Imm(99, true)]
    ensures RecordAt(l, {99}, k) == Some(Record(l[k].pc, 99, Arguments(Entering(l, k))))
  {
    ArgsStep(Imm(99, true), []);
    assert l[k].raw == [Imm(99, true)] + [];
    assert Args([]) == [];
    assert Args(l[k].raw) == [Imm(99, true)];
  }

  lemma ShiftThenCallReports(a: int, b: nat)
    requires b < 32
    ensures var l := ShiftThenCall(a, b);
            && Entering(l, 0) == map[] && Entering(l, 1) == map[10 := Fold(Shr, a, b).value]
            && RecordAt(l, {99}, 1) == Some(Record(4, 99, Arguments(Entering(l, 1))))
  {
    var l := ShiftThenCall(a, b);
    NoTarget(a, b);
    ShiftTransfers(l[0], a, b);
    assert Entering(l, 0) == map[];
    assert Entering(l, 1) == Transfer(Entering(l, 0), l[0]);
    CallIsRecorded(l, 1);
  }

  lemma MachinesAreSane(listing: seq<Instr>, ms: seq<Machine>, k: nat)
    requires IsExecution(listing, ms) && k < |ms|
    ensures Sane(ms[k])
  {
    if k > 0 { assert StepsAt(listing, ms, k - 1); }
  }

  /** Does every machine that reaches instruction `at` confirm the record? */
  ghost predicate AllConfirm(l: seq<Instr>, at: nat, r: Record)
    requires at < |l|
  {
    forall ms: seq<Machine>, k: nat :: IsExecution(l, ms) && k < |ms| && ms[k].at == at ==> Confirms(ms[k], l[at], r)
  }

  /** And so is what it reports about the call. */
  lemma ReportIsRightExactlyWhenShiftFits(a: int, b: nat)
    requires b < 32
    ensures var l := ShiftThenCall(a, b);
            && RecordAt(l, {99}, 1).Some?
            && (AllConfirm(l, 1, RecordAt(l, {99}, 1).value) <==> (a / WORDS) % Pow2(b) == 0)
  {
    var l := ShiftThenCall(a, b);
    ShiftThenCallReports(a, b);
    ShiftedImmediateMustFit(a, b);
    var r := RecordAt(l, {99}, 1).value;
    if AllSound(l) {
      SoundExactlyWhenShiftsFit(l);
      forall ms: seq<Machine>, k: nat | IsExecution(l, ms) && k < |ms| && ms[k].at == 1
        ensures Confirms(ms[k], l[1], r)
      {
        CallIsConfirmed(l, {99}, ms, k);
      }
    } else {
      var ms: seq<Machine>, k: nat :| IsExecution(l, ms) && k < |ms| && !SoundAt(l, ms, k);
      MachinesAreSane(l, ms, k);
      assert ms[k].at == 1 && ms[k].regs[10] != Fold(Shr, a, b).value;
      assert r.arguments[0] == Some(Fold(Shr, a, b).value);
      assert !Confirms(ms[k], l[1], r);
    }
  }
}
