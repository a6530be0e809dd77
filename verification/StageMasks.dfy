/** Mask comparison between the stages of one capture run. */
module StageMasks {
  import opened Basics
  import opened StageRecords

  datatype Family = Raw | Ctrl | Status

  const MAX_GPCS: nat := 6

  function RegOf(f: Family, slot: nat): nat {
    match f
    case Raw => 0x21760 + 4 * slot
    case Ctrl => 0x21838 + 4 * slot
    case Status => 0x21C38 + 4 * slot
  }

  /** PMC, POST and GPC status, then raw, ctrl and status of each slot. */
  function PhysicalRegs(slots: nat): (regs: seq<nat>)
    ensures forall f, slot :: 0 <= slot < slots ==> RegOf(f, slot) in regs
  {
    if slots == 0 then [0x000200, 0x02240C, 0x021C1C]
    else PhysicalRegs(slots - 1) + [RegOf(Raw, slots - 1), RegOf(Ctrl, slots - 1), RegOf(Status, slots - 1)]
  }

  /** The first register of a family. */
  function Base(f: Family): nat {
    match f
    case Raw => 0x21760
    case Ctrl => 0x21838
    case Status => 0x21C38
  }

  /** A family's registers are six consecutive words from its base, one per slot. */
  lemma SlotRegisters(f: Family, x: nat)
    ensures (exists slot :: 0 <= slot < MAX_GPCS && RegOf(f, slot) == x) <==> Base(f) <= x < Base(f) + 24 && x % 4 == 0
  {
    if Base(f) <= x < Base(f) + 24 && x % 4 == 0 {
      assert RegOf(f, (x - Base(f)) / 4) == x;
    }
  }

  /** No two slots share a register. */
  lemma RegistersDiffer(f: Family, slot: nat, g: Family, slot': nat)
    requires slot < MAX_GPCS && slot' < MAX_GPCS && RegOf(f, slot) == RegOf(g, slot')
    ensures f == g && slot == slot'
  {}

  predicate IsSlotRegister(x: nat, slots: nat) {
    exists slot :: 0 <= slot < slots && (x == RegOf(Raw, slot) || x == RegOf(Ctrl, slot) || x == RegOf(Status, slot))
  }

  lemma OneSlotMore(x: nat, slots: nat)
    ensures IsSlotRegister(x, slots + 1) <==>
            IsSlotRegister(x, slots) || x == RegOf(Raw, slots) || x == RegOf(Ctrl, slots) || x == RegOf(Status, slots)
  {}

  lemma ThreeMore(a: seq<nat>, p: nat, q: nat, r: nat, x: nat)
    ensures x in a + [p, q, r] <==> x in a || x == p || x == q || x == r
  {}

  /** The registers every stage must have read: three of the whole GPU and those of the slots. */
  lemma {:induction false} PhysicalRegsAre(slots: nat, x: nat)
    ensures x in PhysicalRegs(slots) <==> x in [0x200, 0x2240C, 0x21C1C] || IsSlotRegister(x, slots)
  {
    if slots > 0 {
      PhysicalRegsAre(slots - 1, x);
      OneSlotMore(x, slots - 1);
      ThreeMore(PhysicalRegs(slots - 1), RegOf(Raw, slots - 1), RegOf(Ctrl, slots - 1), RegOf(Status, slots - 1), x);
    }
  }

  /** The first value recorded for each register. */
  function ValueMap(values: seq<Reading>): map<nat, nat> {
    if values == [] then map[] else
    var m := ValueMap(values[..|values| - 1]);
    var last := values[|values| - 1];
    if last.reg in m then m else m[last.reg := last.value]
  }

  /** The registers of the readings that found a value already there. */
  function Again(values: seq<Reading>): seq<nat> {
    if values == [] then [] else
    var before, last := values[..|values| - 1], values[|values| - 1];
    Again(before) + if last.reg in ValueMap(before) then [last.reg] else []
  }

  /** `_value_map`: the value kept for each register, and every register read again. */
  method CollectValues(values: seq<Reading>) returns (m: map<nat, nat>, duplicates: seq<nat>)
    ensures m == ValueMap(values) && duplicates == Again(values)
  {
    m, duplicates := map[], [];
    for k := 0 to |values|
      invariant m == ValueMap(values[..k]) && duplicates == Again(values[..k])
    {
      assert values[..k + 1][..k] == values[..k];
      if values[k].reg in m {
        duplicates := duplicates + [values[k].reg];
      } else {
        m := m[values[k].reg := values[k].value];
      }
    }
    assert values[..|values|] == values;
  }

  /** No earlier reading is of the same register. */
  predicate FirstOfItsKind(values: seq<Reading>, i: nat)
    requires i < |values|
  {
    forall j :: 0 <= j < i ==> values[j].reg != values[i].reg
  }

  lemma {:induction false} ReadIsMapped(values: seq<Reading>, r: nat)
    ensures r in ValueMap(values) <==> exists i :: 0 <= i < |values| && values[i].reg == r
  {
    if values != [] {
      var n := |values| - 1;
      ReadIsMapped(values[..n], r);
      assert values == values[..n] + [values[n]];
    }
  }

  /** The value kept is the first one read. */
  lemma {:induction false} FirstValueIsKept(values: seq<Reading>, i: nat)
    requires i < |values| && FirstOfItsKind(values, i)
    ensures values[i].reg in ValueMap(values) && ValueMap(values)[values[i].reg] == values[i].value
    decreases |values|
  {
    var n := |values| - 1;
    if i < n {
      assert FirstOfItsKind(values[..n], i);
      FirstValueIsKept(values[..n], i);
    } else {
      ReadIsMapped(values[..n], values[n].reg);
    }
  }

  /** The duplicates are the readings that were not the first of their register. */
  lemma {:induction false} DuplicatesAreLaterReadings(values: seq<Reading>, r: nat)
    ensures r in Again(values) <==>
            exists i :: 0 <= i < |values| && values[i].reg == r && !FirstOfItsKind(values, i)
    ensures |Again(values)| + |ValueMap(values)| == |values|
  {
    if values != [] {
      var n := |values| - 1;
      DuplicatesAreLaterReadings(values[..n], r);
      ReadIsMapped(values[..n], values[n].reg);
      forall i | 0 <= i < n ensures FirstOfItsKind(values[..n], i) == FirstOfItsKind(values, i) {}
      assert FirstOfItsKind(values, n) <==> values[n].reg !in ValueMap(values[..n]);
      assert values == values[..n] + [values[n]];
    }
  }

  function MissingPhysical(s: Stage): seq<nat> { Missing(PhysicalRegs(MAX_GPCS), ValueMap(s.values)) }

  function Missing(regs: seq<nat>, m: map<nat, nat>): (r: seq<nat>)
    ensures r == [] <==> forall x :: x in regs ==> x in m
  {
    if regs == [] then [] else
    assert regs == [regs[0]] + regs[1..];
    (if regs[0] in m then [] else [regs[0]]) + Missing(regs[1..], m)
  }

  function Observe(s: Stage, f: Family, slot: nat): Option<nat> {
    var m := ValueMap(s.values);
    if RegOf(f, slot) in m then Some(m[RegOf(f, slot)]) else None
  }

  /** A slot counts as changed only when both stages observed it. */
  predicate SlotChanged(before: Stage, after: Stage, f: Family, slot: nat) {
    Observe(before, f, slot).Some? && Observe(after, f, slot).Some? && Observe(before, f, slot) != Observe(after, f, slot)
  }

  predicate Changed(before: Stage, after: Stage) {
    exists f, slot :: 0 <= slot < MAX_GPCS && SlotChanged(before, after, f, slot)
  }

  /** Does any transition between neighbours, in sequence order, report a change? */
  predicate AnyChange(ordered: seq<Stage>) {
    exists i :: 0 <= i < |ordered| - 1 && Transition(ordered, i)
  }

  predicate Transition(ordered: seq<Stage>, i: nat)
    requires i < |ordered| - 1
  {
    Changed(ordered[i], ordered[i + 1])
  }

  method ChangedSlots(before: Stage, after: Stage, f: Family) returns (slots: seq<nat>)
    ensures forall slot :: slot in slots <==> 0 <= slot < MAX_GPCS && SlotChanged(before, after, f, slot)
    ensures forall i, j :: 0 <= i < j < |slots| ==> slots[i] < slots[j]
  {
    slots := [];
    for slot := 0 to MAX_GPCS
      invariant forall k :: k in slots <==> 0 <= k < slot && SlotChanged(before, after, f, k)
      invariant forall i :: 0 <= i < |slots| ==> slots[i] < slot
      invariant forall i, j :: 0 <= i < j < |slots| ==> slots[i] < slots[j]
    {
      var old_, new_ := Observe(before, f, slot), Observe(after, f, slot);
      if old_.Some? && new_.Some? && old_ != new_ { slots := slots + [slot]; }
    }
  }

  /** One reported transition between two stages. */
  datatype Report = Report(from: int, to: int, slots: map<Family, seq<nat>>, changed: bool)

  /** The report names the two stages, lists exactly the changed slots of each family, and is
      marked changed exactly when some slot is. */
  ghost predicate Reports(r: Report, before: Stage, after: Stage) {
    && r.from == before.seqNo && r.to == after.seqNo
    && (forall f :: f in r.slots)
    && (forall f, slot :: slot in r.slots[f] <==> 0 <= slot < MAX_GPCS && SlotChanged(before, after, f, slot))
    && (r.changed <==> Changed(before, after))
  }

  /** r is the report from stage i to the next. */
  ghost predicate ReportsNext(r: Report, ordered: seq<Stage>, i: nat)
  {
    i + 1 < |ordered| && Reports(r, ordered[i], ordered[i + 1])
  }

  method CompareTwo(before: Stage, after: Stage) returns (r: Report)
    ensures Reports(r, before, after)
  {
    var raw := ChangedSlots(before, after, Raw);
    var ctrl := ChangedSlots(before, after, Ctrl);
    var status := ChangedSlots(before, after, Status);
    r := Report(before.seqNo, after.seqNo, map[Raw := raw, Ctrl := ctrl, Status := status],
                raw != [] || ctrl != [] || status != []);
    forall f ensures f in r.slots {
      match f case Raw => case Ctrl => case Status =>
    }
    if raw != [] { assert SlotChanged(before, after, Raw, raw[0]); }
    if ctrl != [] { assert SlotChanged(before, after, Ctrl, ctrl[0]); }
    if status != [] { assert SlotChanged(before, after, Status, status[0]); }
    if Changed(before, after) {
      var f, slot :| 0 <= slot < MAX_GPCS && SlotChanged(before, after, f, slot);
      assert slot in r.slots[f];
    }
  }

  lemma SortKeepsLength(stages: seq<Stage>)
    ensures |Sort(stages)| == |stages|
  {
    SortSorts(stages);
    assert |Sort(stages)| == |multiset(Sort(stages))| && |stages| == |multiset(stages)|;
  }

  /** `_mask_observations`: one report for every stage and the next one in sequence order. */
  method CompareMasks(stages: seq<Stage>) returns (transitions: seq<Report>, anyChange: bool)
    ensures |transitions| == if stages == [] then 0 else |stages| - 1
    ensures |Sort(stages)| == |stages|
    ensures forall i {:trigger transitions[i]} :: 0 <= i < |transitions| ==> ReportsNext(transitions[i], Sort(stages), i)
    ensures anyChange <==> AnyChange(Sort(stages))
  {
    var ordered := Sort(stages);
    SortKeepsLength(stages);
    transitions, anyChange := [], false;
    var i := 0;
    while i + 1 < |ordered|
      invariant 0 <= i && (i < |ordered| || i == 0) && |transitions| == i
      invariant forall k {:trigger transitions[k]} :: 0 <= k < i ==> ReportsNext(transitions[k], ordered, k)
      invariant anyChange <==> exists k :: 0 <= k < i && Transition(ordered, k)
    {
      var r := CompareTwo(ordered[i], ordered[i + 1]);
      assert r.changed <==> Transition(ordered, i);
      transitions := transitions + [r];
      if r.changed { anyChange := true; }
      i := i + 1;
    }
  }

  predicate AllObserved(stages: seq<Stage>) {
    forall s :: s in stages ==> MissingPhysical(s) == []
  }

  predicate Agree(a: Stage, b: Stage) {
    forall f, slot :: 0 <= slot < MAX_GPCS ==> Observe(a, f, slot) == Observe(b, f, slot)
  }

  predicate Complete(s: Stage) {
    forall f, slot :: 0 <= slot < MAX_GPCS ==> Observe(s, f, slot).Some?
  }

  lemma CheckedIsComplete(s: Stage)
    requires MissingPhysical(s) == []
    ensures Complete(s)
  {
    forall f, slot | 0 <= slot < MAX_GPCS ensures Observe(s, f, slot).Some? {
      assert RegOf(f, slot) in PhysicalRegs(MAX_GPCS);
    }
  }

  predicate AllAgree(stages: seq<Stage>) { forall a, b :: a in stages && b in stages ==> Agree(a, b) }

  /** Each slot of each family was observed by all stages or by none. */
  predicate Uniform(stages: seq<Stage>) {
    forall f, slot :: 0 <= slot < MAX_GPCS ==> SeenByAll(stages, f, slot) || SeenByNone(stages, f, slot)
  }

  predicate SeenByAll(stages: seq<Stage>, f: Family, slot: nat) {
    forall s :: s in stages ==> Observe(s, f, slot).Some?
  }

  predicate SeenByNone(stages: seq<Stage>, f: Family, slot: nat) {
    forall s :: s in stages ==> Observe(s, f, slot).None?
  }

  lemma {:induction false} SlotStays(ordered: seq<Stage>, f: Family, slot: nat, i: nat, j: nat)
    requires SeenByAll(ordered, f, slot) || SeenByNone(ordered, f, slot)
    requires !AnyChange(ordered) && slot < MAX_GPCS && i <= j < |ordered|
    ensures Observe(ordered[i], f, slot) == Observe(ordered[j], f, slot)
    decreases j
  {
    assert ordered[i] in ordered && ordered[j] in ordered;
    if i < j {
      SlotStays(ordered, f, slot, i, j - 1);
      assert ordered[j - 1] in ordered;
      assert !Transition(ordered, j - 1);
      assert !SlotChanged(ordered[j - 1], ordered[j], f, slot);
    }
  }

  lemma UniformStays(ordered: seq<Stage>, a: Stage, b: Stage)
    requires Uniform(ordered) && !AnyChange(ordered) && a in ordered && b in ordered
    ensures Agree(a, b)
  {
    var i :| 0 <= i < |ordered| && ordered[i] == a;
    var j :| 0 <= j < |ordered| && ordered[j] == b;
    forall f, slot | 0 <= slot < MAX_GPCS ensures Observe(a, f, slot) == Observe(b, f, slot) {
      if i <= j { SlotStays(ordered, f, slot, i, j); } else { SlotStays(ordered, f, slot, j, i); }
    }
  }

  lemma AgreementIsUniform(stages: seq<Stage>)
    requires AllAgree(stages)
    ensures Uniform(stages)
  {
    forall f, slot | 0 <= slot < MAX_GPCS ensures SeenByAll(stages, f, slot) || SeenByNone(stages, f, slot) {
      if !SeenByNone(stages, f, slot) {
        var a :| a in stages && Observe(a, f, slot).Some?;
        forall b | b in stages ensures Observe(b, f, slot).Some? { assert Agree(a, b); }
      }
    }
  }

  lemma AgreementIsUnchanged(ordered: seq<Stage>)
    requires AllAgree(ordered)
    ensures !AnyChange(ordered)
  {
    forall i | 0 <= i < |ordered| - 1 ensures !Transition(ordered, i) {
      assert ordered[i] in ordered && ordered[i + 1] in ordered;
      assert Agree(ordered[i], ordered[i + 1]);
    }
  }

  lemma SortHasTheSame(stages: seq<Stage>, s: Stage)
    ensures s in Sort(stages) <==> s in stages
  {
    SortSorts(stages);
    assert s in Sort(stages) <==> s in multiset(Sort(stages));
    assert s in stages <==> s in multiset(stages);
  }

  /** All stages of a run agree on all eighteen masks exactly when no transition reports a
      change and every mask was observed by all of them or by none. */
  lemma ConstantExactlyWhenUniform(stages: seq<Stage>)
    ensures AllAgree(stages) <==> Uniform(stages) && !AnyChange(Sort(stages))
  {
    var ordered := Sort(stages);
    forall s ensures s in ordered <==> s in stages { SortHasTheSame(stages, s); }
    if AllAgree(stages) {
      AgreementIsUniform(stages);
      AgreementIsUnchanged(ordered);
    }
    if Uniform(stages) && !AnyChange(ordered) {
      assert Uniform(ordered) by {
        forall f, slot | 0 <= slot < MAX_GPCS ensures SeenByAll(ordered, f, slot) || SeenByNone(ordered, f, slot) {
          assert SeenByAll(stages, f, slot) || SeenByNone(stages, f, slot);
        }
      }
      forall a, b | a in stages && b in stages ensures Agree(a, b) { UniformStays(ordered, a, b); }
    }
  }

  /** The missing-register check establishes the second half, so in a run that passes it "no
      observed change" is a statement about the whole run. */
  lemma NoChangeMeansConstant(stages: seq<Stage>)
    requires AllObserved(stages)
    ensures !AnyChange(Sort(stages)) <==> AllAgree(stages)
  {
    forall s | s in stages ensures Complete(s) { CheckedIsComplete(s); }
    assert forall f, slot :: 0 <= slot < MAX_GPCS ==> SeenByAll(stages, f, slot);
    ConstantExactlyWhenUniform(stages);
  }

  /** Without the register check the statement fails: a stage that recorded nothing hides
      any disagreement between its two neighbours. */
  lemma MissingValueHidesAChange(run: seq<Stage>)
    requires |run| == 3 && Contiguous(run) && run[1].values == [] && !Agree(run[0], run[2])
    ensures !AnyChange(Sort(run)) && !Uniform(run) && !Complete(run[1])
  {
    SortFinds(run, run);
    assert forall f, slot :: Observe(run[1], f, slot) == None;
    ConstantExactlyWhenUniform(run);
    assert Observe(run[1], Raw, 0) == None;
    assert run[0] in run && run[2] in run;
    assert !Transition(run, 0) && !Transition(run, 1);
  }

  /** Two such neighbours: one mask, two values. */
  lemma DisagreementExists()
    ensures exists a: Stage, b: Stage :: a.seqNo == 0 && b.seqNo == 2 && !Agree(a, b)
  {
    var a, b := Stage(0, NvidiaBaseline, [Reading(0x21760, 1)]), Stage(2, PostReturn, [Reading(0x21760, 2)]);
    assert a.values[..0] == [] && b.values[..0] == [];
    assert Observe(a, Raw, 0) == Some(1) && Observe(b, Raw, 0) == Some(2);
    assert a.seqNo == 0 && b.seqNo == 2 && !Agree(a, b);
  }
}
