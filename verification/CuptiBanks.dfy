/** Metric banks of one device of the CUPTI collector, and the bank operations
    that only the collector's worker performs on them.  CUPTI and CUDA are the
    environment: what each call answers is a parameter. */
module CuptiBanks {

  /** One `metric_bank`.  A bank owns its single-pass event set exactly when it is
      `available`, because preparation keeps the set only on its last, successful path. */
  datatype Bank = Bank(available: bool, enabled: bool, disabled: bool, failures: nat, lastRead: nat)

  /** History of one device: when a bank's event groups were switched on and off and
      which half-open intervals [from, to) its reads consumed. */
  datatype Event =
    | Opened(bank: nat, at: nat)
    | Window(bank: nat, from: nat, to: nat)
    | Closed(bank: nat)

  datatype Device = Device(ready: bool, active: nat, banks: seq<Bank>, log: seq<Event>)

  /** What CUPTI answers to an enable: refusal, success without a first timestamp (the
      output variable may then hold anything), or success at a timestamp. */
  datatype EnableAnswer = Refused | NoFirstStamp(leftover: nat) | StartedAt(at: nat)

  /** What a read meets: no context, no timestamp, or a timestamp followed by an event
      read that succeeds or not and evaluates some number of metrics. */
  datatype ReadAnswer = NoContext | NoStamp | Stamped(ended: nat, readOk: bool, evaluated: nat)

  function Fresh(available: seq<bool>): (banks: seq<Bank>)
    ensures |banks| == |available|
  {
    seq(|available|, i requires 0 <= i < |available| => Bank(available[i], false, false, 0, 0))
  }

  /** `enable_bank`: the bank afterwards and whether it was enabled. */
  function EnableBank(b: Bank, answer: EnableAnswer): (Bank, bool) {
    if !b.available || b.disabled then (b, false) else
    match answer
    case Refused => (b, false)
    case NoFirstStamp(leftover) => (b.(enabled := false, lastRead := leftover), false)
    case StartedAt(at) => (b.(enabled := true, lastRead := at), true)
  }

  /** `disable_bank`: the flag drops whatever CUPTI answers. */
  function DisableBank(b: Bank): Bank {
    if b.enabled then b.(enabled := false, lastRead := 0) else b
  }

  /** Does the read get as far as consuming an interval? */
  predicate Consumes(b: Bank, answer: ReadAnswer) {
    b.enabled && answer.Stamped? && answer.ended > b.lastRead
  }

  /** The timestamp part of `read_bank` on the device's active bank. */
  function ReadActive(d: Device, answer: ReadAnswer): Device
    requires d.active < |d.banks|
  {
    var b := d.banks[d.active];
    if Consumes(b, answer) then
      d.(banks := d.banks[d.active := b.(lastRead := answer.ended)],
         log := d.log + [Window(d.active, b.lastRead, answer.ended)])
    else d
  }

  /** Number of metrics the read published. */
  function Published(b: Bank, answer: ReadAnswer): nat {
    if Consumes(b, answer) && answer.readOk then answer.evaluated else 0
  }

  /** One device's part of a sampling pass: the device afterwards, and whether a third
      consecutive failure made the worker ask for a rotation. */
  function SampleDevice(d: Device, answer: ReadAnswer): (Device, bool) {
    if !d.ready || d.active >= |d.banks| || !d.banks[d.active].enabled || d.banks[d.active].disabled
    then (d, false)
    else
      var published := Published(d.banks[d.active], answer);
      var d1 := ReadActive(d, answer);
      var b := d1.banks[d.active];
      if published != 0 then (d1.(banks := d1.banks[d.active := b.(failures := 0)]), false)
      else
        var failures := b.failures + 1;
        (d1.(banks := d1.banks[d.active := b.(failures := failures, disabled := failures >= 3)]), failures >= 3)
  }

  /** The tail read before a rotation, made only on an enabled bank still in use. */
  function FinalRead(d: Device, answer: ReadAnswer): Device
    requires d.active < |d.banks|
  {
    if d.banks[d.active].enabled && !d.banks[d.active].disabled then ReadActive(d, answer) else d
  }

  function CloseActive(d: Device): Device
    requires d.active < |d.banks|
  {
    if d.banks[d.active].enabled then
      d.(banks := d.banks[d.active := DisableBank(d.banks[d.active])], log := d.log + [Closed(d.active)])
    else d
  }

  lemma WrapOnce(x: nat, n: nat)
    requires 0 < n <= x < 2 * n
    ensures x % n == x - n
  {
    var q := x / n;
    assert x == q * n + x % n;
    assert q >= 2 ==> q * n >= 2 * n;
    assert q <= 0 ==> q * n <= 0;
  }

  /** The place `step` places after `a` on a ring of n. */
  function Ring(a: nat, step: nat, n: nat): (place: nat)
    requires a < n && step <= n
    ensures place == if a + step < n then a + step else a + step - n
  {
    if a + step >= n then WrapOnce(a + step, n); (a + step) % n else (a + step) % n
  }

  function Candidate(d: Device, offset: nat): nat
    requires d.active < |d.banks| && offset <= |d.banks|
  {
    Ring(d.active, offset, |d.banks|)
  }

  predicate Eligible(b: Bank) { b.available && !b.disabled }

  /** One turn of the candidate loop: skip, select, or give the candidate up for good. */
  function TryCandidate(d: Device, offset: nat, answer: EnableAnswer): (Device, bool)
    requires d.active < |d.banks| && offset <= |d.banks|
  {
    var i := Candidate(d, offset);
    var b := d.banks[i];
    if !Eligible(b) then (d, false) else
    var (b', on) := EnableBank(b, answer);
    if on then
      (d.(banks := d.banks[i := b'], active := i, log := d.log + [Opened(i, b'.lastRead)]), true)
    else
      (d.(banks := d.banks[i := b'.(disabled := true)]), false)
  }

  /** The candidate loop from `offset` on; a device left without a bank is not ready. */
  function PickFrom(d: Device, offset: nat, answers: seq<EnableAnswer>): Device
    requires 1 <= offset <= |d.banks| + 1 && d.active < |d.banks| == |answers|
    decreases |d.banks| + 1 - offset
  {
    if offset > |d.banks| then d.(ready := false) else
    var (d', selected) := TryCandidate(d, offset, answers[offset - 1]);
    if selected then d' else PickFrom(d', offset + 1, answers)
  }

  /** One device's part of `rotate_at_idle_boundary`. */
  function RotateDevice(d: Device, tail: ReadAnswer, pushed: bool, answers: seq<EnableAnswer>): Device
    requires d.ready && d.active < |d.banks| == |answers|
  {
    var d1 := FinalRead(d, tail);
    if !pushed then d1 else PickFrom(CloseActive(d1), 1, answers)
  }

  /** `select_first_bank` over banks [i..]; the device is ready when one was enabled. */
  function SelectFrom(banks: seq<Bank>, i: nat, answers: seq<EnableAnswer>): Device
    requires i <= |banks| == |answers|
    decreases |banks| - i
  {
    if i == |banks| then Device(false, 0, banks, []) else
    var (b, on) := EnableBank(banks[i], answers[i]);
    if on then Device(true, i, banks[i := b], [Opened(i, b.lastRead)])
    else SelectFrom(banks[i := b], i + 1, answers)
  }

  /** A device as start-up leaves it: nothing prepared, no context, or a first selection. */
  ghost predicate StartsAs(d: Device) {
    exists available: seq<bool>, answers: seq<EnableAnswer> ::
      |available| == |answers| &&
      (d == Device(false, 0, Fresh(available), []) || d == SelectFrom(Fresh(available), 0, answers))
  }

  // ---- invariants of one device ----

  predicate NoneEnabled(d: Device) {
    forall i :: 0 <= i < |d.banks| ==> !d.banks[i].enabled
  }

  predicate BanksOk(banks: seq<Bank>) {
    forall i :: 0 <= i < |banks| ==>
      (banks[i].enabled ==> banks[i].available) && banks[i].failures <= 3 &&
      (banks[i].failures == 3 ==> banks[i].disabled)
  }

  /** A ready device has exactly one enabled bank, the active one; any other has none. */
  predicate DeviceOk(d: Device) {
    && BanksOk(d.banks)
    && (d.ready ==> d.active < |d.banks|)
    && (forall i :: 0 <= i < |d.banks| ==> (d.banks[i].enabled <==> d.ready && i == d.active))
  }

  /** A ready device in the middle of a rotation: its old bank is off, no new one is on. */
  predicate BetweenBanks(d: Device) {
    BanksOk(d.banks) && d.ready && d.active < |d.banks| && NoneEnabled(d)
  }

  /** What a request must never see change: active index and enabled flags. */
  datatype Setup = Setup(active: nat, enabled: seq<bool>)

  function SetupOf(d: Device): Setup {
    Setup(d.active, seq(|d.banks|, i requires 0 <= i < |d.banks| => d.banks[i].enabled))
  }

  /** Disabled marks only accumulate and a device that lost readiness never regains it. */
  predicate Ages(d: Device, d': Device) {
    && |d'.banks| == |d.banks|
    && (d'.ready ==> d.ready)
    && (forall i :: 0 <= i < |d.banks| ==>
          d'.banks[i].available == d.banks[i].available && (d.banks[i].disabled ==> d'.banks[i].disabled))
  }

  lemma {:induction false} SelectFromOk(banks: seq<Bank>, i: nat, answers: seq<EnableAnswer>)
    requires i <= |banks| == |answers| && BanksOk(banks)
    requires forall k :: 0 <= k < |banks| ==> !banks[k].enabled
    ensures DeviceOk(SelectFrom(banks, i, answers))
    decreases |banks| - i
  {
    if i < |banks| {
      var (b, on) := EnableBank(banks[i], answers[i]);
      if !on { SelectFromOk(banks[i := b], i + 1, answers); }
    }
  }

  /** A bank that a first selection can take. */
  predicate Startable(b: Bank, answer: EnableAnswer) { Eligible(b) && answer.StartedAt? }

  /** The first selection takes the first bank that is available and starts, and the device is
      ready exactly if there is one. */
  lemma {:induction false} SelectsTheFirst(banks: seq<Bank>, i: nat, answers: seq<EnableAnswer>)
    requires i <= |banks| == |answers|
    ensures var d := SelectFrom(banks, i, answers);
            && |d.banks| == |banks|
            && (d.ready <==> exists k :: i <= k < |banks| && Startable(banks[k], answers[k]))
            && (d.ready ==>
                  && i <= d.active < |banks| && Startable(banks[d.active], answers[d.active])
                  && d.banks[d.active].lastRead == answers[d.active].at
                  && forall k :: i <= k < d.active ==> !Startable(banks[k], answers[k]))
    decreases |banks| - i
  {
    if i < |banks| && !EnableBank(banks[i], answers[i]).1 {
      var banks' := banks[i := EnableBank(banks[i], answers[i]).0];
      SelectsTheFirst(banks', i + 1, answers);
      assert forall k :: i + 1 <= k < |banks| ==> banks'[k] == banks[k];
    }
  }

  lemma StartIsOk(d: Device)
    requires StartsAs(d)
    ensures DeviceOk(d)
  {
    var available: seq<bool>, answers: seq<EnableAnswer> :|
      |available| == |answers| &&
      (d == Device(false, 0, Fresh(available), []) || d == SelectFrom(Fresh(available), 0, answers));
    SelectFromOk(Fresh(available), 0, answers);
  }

  lemma SampleKeeps(d: Device, answer: ReadAnswer)
    requires DeviceOk(d)
    ensures DeviceOk(SampleDevice(d, answer).0)
    ensures SetupOf(SampleDevice(d, answer).0) == SetupOf(d)
    ensures Ages(d, SampleDevice(d, answer).0)
  {
    var d' := SampleDevice(d, answer).0;
    assert SetupOf(d').enabled == SetupOf(d).enabled;
  }

  lemma CloseLeavesNone(d: Device, tail: ReadAnswer)
    requires DeviceOk(d) && d.ready
    ensures DeviceOk(FinalRead(d, tail)) && FinalRead(d, tail).ready && FinalRead(d, tail).active == d.active
    ensures BetweenBanks(CloseActive(d))
    ensures Ages(d, FinalRead(d, tail)) && Ages(d, CloseActive(d))
  {}

  lemma TryKeeps(d: Device, offset: nat, answer: EnableAnswer)
    requires BetweenBanks(d) && offset <= |d.banks|
    ensures var (d', on) := TryCandidate(d, offset, answer);
            (on ==> DeviceOk(d') && d'.ready) && (!on ==> BetweenBanks(d') && d'.active == d.active) && Ages(d, d')
  {}

  lemma {:induction false} PickKeeps(d: Device, offset: nat, answers: seq<EnableAnswer>)
    requires BetweenBanks(d) && 1 <= offset <= |d.banks| + 1 && |answers| == |d.banks|
    ensures DeviceOk(PickFrom(d, offset, answers)) && Ages(d, PickFrom(d, offset, answers))
    decreases |d.banks| + 1 - offset
  {
    if offset <= |d.banks| {
      var (d', on) := TryCandidate(d, offset, answers[offset - 1]);
      TryKeeps(d, offset, answers[offset - 1]);
      if !on { PickKeeps(d', offset + 1, answers); }
    }
  }

  /** Rotating one device, whatever CUPTI and CUDA answer: exactly one bank is on if the
      device is still ready and none otherwise, and nothing given up comes back. */
  lemma RotateKeeps(d: Device, tail: ReadAnswer, pushed: bool, answers: seq<EnableAnswer>)
    requires DeviceOk(d) && d.ready && |answers| == |d.banks|
    ensures DeviceOk(RotateDevice(d, tail, pushed, answers))
    ensures Ages(d, RotateDevice(d, tail, pushed, answers))
  {
    var d1 := FinalRead(d, tail);
    CloseLeavesNone(d, tail);
    CloseLeavesNone(d1, tail);
    if pushed { PickKeeps(CloseActive(d1), 1, answers); }
  }

  // ---- round robin ----

  /** Steps forward from a to b around a ring of n. */
  function Ahead(a: nat, b: nat, n: nat): (k: nat)
    requires a < n && b < n
    ensures k < n && Ring(a, k, n) == b
  {
    if b >= a then b - a else b + n - a
  }

  /** A ring of eligible banks and the walk of the active index when every context push
      and every enable succeeds. */
  function NextEligible(ok: seq<bool>, a: nat, offset: nat): (next: nat)
    requires a < |ok| && 1 <= offset <= |ok| + 1
    ensures next < |ok|
    decreases |ok| + 1 - offset
  {
    if offset > |ok| then a
    else if ok[Ring(a, offset, |ok|)] then Ring(a, offset, |ok|)
    else NextEligible(ok, a, offset + 1)
  }

  function Walk(ok: seq<bool>, a: nat, k: nat): (at: nat)
    requires a < |ok|
    ensures at < |ok|
    decreases k
  {
    if k == 0 then a else Walk(ok, NextEligible(ok, a, 1), k - 1)
  }

  function EligibleFlags(d: Device): (ok: seq<bool>)
    ensures |ok| == |d.banks|
  {
    seq(|d.banks|, i requires 0 <= i < |d.banks| => Eligible(d.banks[i]))
  }

  predicate AllStart(answers: seq<EnableAnswer>) {
    forall i :: 0 <= i < |answers| ==> answers[i].StartedAt?
  }

  lemma {:induction false} PickIsNext(d: Device, offset: nat, answers: seq<EnableAnswer>)
    requires BetweenBanks(d) && 1 <= offset <= |d.banks| + 1 && |answers| == |d.banks| && AllStart(answers)
    requires exists i :: offset <= i <= |d.banks| && Eligible(d.banks[Candidate(d, i)])
    ensures var d' := PickFrom(d, offset, answers);
            d'.ready && d'.active == NextEligible(EligibleFlags(d), d.active, offset) &&
            EligibleFlags(d') == EligibleFlags(d)
    decreases |d.banks| + 1 - offset
  {
    var i := Candidate(d, offset);
    assert offset <= |d.banks|;
    assert EligibleFlags(d)[i] == Eligible(d.banks[i]);
    if !Eligible(d.banks[i]) {
      PickIsNext(d, offset + 1, answers);
    }
  }

  /** With every push and enable succeeding, a rotation moves the active index to the
      next eligible bank in ring order, and leaves the eligible set alone. */
  lemma RotationIsRoundRobin(d: Device, tail: ReadAnswer, answers: seq<EnableAnswer>)
    requires DeviceOk(d) && d.ready && |answers| == |d.banks| && AllStart(answers)
    requires exists i :: 0 <= i < |d.banks| && Eligible(d.banks[i])
    ensures var d' := RotateDevice(d, tail, true, answers);
            d'.ready && d'.active == NextEligible(EligibleFlags(d), d.active, 1) &&
            EligibleFlags(d') == EligibleFlags(d)
  {
    var d1 := CloseActive(FinalRead(d, tail));
    CloseLeavesNone(d, tail);
    CloseLeavesNone(FinalRead(d, tail), tail);
    assert EligibleFlags(d1) == EligibleFlags(d);
    var i :| 0 <= i < |d.banks| && Eligible(d.banks[i]);
    assert EligibleFlags(d1)[i] == EligibleFlags(d)[i];
    var k := if i == d.active then |d.banks| else Ahead(d.active, i, |d.banks|);
    assert Candidate(d1, k) == i;
    PickIsNext(d1, 1, answers);
  }

  /** The next eligible bank lies no further ahead than any eligible bank does. */
  lemma {:induction false} NextNotPast(ok: seq<bool>, a: nat, offset: nat, k: nat)
    requires a < |ok| && 1 <= offset <= k <= |ok| && ok[Ring(a, k, |ok|)]
    ensures exists j :: offset <= j <= k && NextEligible(ok, a, offset) == Ring(a, j, |ok|)
    decreases k - offset
  {
    if ok[Ring(a, offset, |ok|)] {
    } else {
      NextNotPast(ok, a, offset + 1, k);
    }
  }

  /** Fair turns: while the eligible set stands still, every eligible bank becomes the
      active one within as many rotations as it lies ahead on the ring. */
  lemma {:induction false} EveryEligibleBankGetsATurn(ok: seq<bool>, a: nat, b: nat)
    requires a < |ok| && b < |ok| && ok[b]
    ensures exists k: nat :: k <= Ahead(a, b, |ok|) && Walk(ok, a, k) == b
    decreases Ahead(a, b, |ok|)
  {
    if a == b {
      assert Walk(ok, a, 0) == b;
    } else {
      var n := |ok|;
      var far := Ahead(a, b, n);
      NextNotPast(ok, a, 1, far);
      var j :| 1 <= j <= far && NextEligible(ok, a, 1) == Ring(a, j, n);
      EveryEligibleBankGetsATurn(ok, Ring(a, j, n), b);
      var k: nat :| k <= far - j && Walk(ok, Ring(a, j, n), k) == b;
      assert Walk(ok, a, k + 1) == b;
    }
  }

  lemma {:induction false} WalkOnce(ok: seq<bool>, a: nat, k: nat)
    requires a < |ok|
    ensures Walk(ok, a, k + 1) == NextEligible(ok, Walk(ok, a, k), 1)
    decreases k
  {
    if k > 0 { WalkOnce(ok, NextEligible(ok, a, 1), k - 1); }
  }

  datatype Turn = Turn(tail: ReadAnswer, answers: seq<EnableAnswer>)

  /** Successive rotations of one device in which every push and every enable succeeds. */
  ghost predicate Rotations(ds: seq<Device>, turns: seq<Turn>) {
    && |ds| == |turns| + 1 && DeviceOk(ds[0]) && ds[0].ready
    && forall k {:trigger TurnAt(ds, turns, k)} :: 0 <= k < |turns| ==> TurnAt(ds, turns, k)
  }

  ghost predicate TurnAt(ds: seq<Device>, turns: seq<Turn>, k: nat)
    requires k < |turns| < |ds|
  {
    && DeviceOk(ds[k]) && ds[k].ready && |turns[k].answers| == |ds[k].banks| && AllStart(turns[k].answers)
    && ds[k + 1] == RotateDevice(ds[k], turns[k].tail, true, turns[k].answers)
  }

  lemma StillEligible(d: Device, d': Device)
    requires EligibleFlags(d) == EligibleFlags(d') && exists i :: 0 <= i < |d.banks| && Eligible(d.banks[i])
    ensures |d'.banks| == |d.banks| && exists i :: 0 <= i < |d'.banks| && Eligible(d'.banks[i])
  {
    var i :| 0 <= i < |d.banks| && Eligible(d.banks[i]);
    assert EligibleFlags(d')[i] == EligibleFlags(d)[i];
  }

  /** After n rotations the active index has walked n places around the eligible banks. */
  lemma {:induction false} RotationsWalk(ds: seq<Device>, turns: seq<Turn>, n: nat)
    requires Rotations(ds, turns) && n < |ds|
    requires exists i :: 0 <= i < |ds[0].banks| && Eligible(ds[0].banks[i])
    ensures DeviceOk(ds[n]) && ds[n].ready && EligibleFlags(ds[n]) == EligibleFlags(ds[0])
    ensures ds[n].active == Walk(EligibleFlags(ds[0]), ds[0].active, n)
    decreases n
  {
    if n > 0 {
      RotationsWalk(ds, turns, n - 1);
      assert TurnAt(ds, turns, n - 1);
      StillEligible(ds[0], ds[n - 1]);
      RotationIsRoundRobin(ds[n - 1], turns[n - 1].tail, turns[n - 1].answers);
      RotateKeeps(ds[n - 1], turns[n - 1].tail, true, turns[n - 1].answers);
      WalkOnce(EligibleFlags(ds[0]), ds[0].active, n - 1);
    }
  }

  /** Every eligible bank of the device becomes its active, enabled one within as many
      rotations as it lies ahead on the ring. */
  lemma EveryEligibleBankIsRotatedIn(ds: seq<Device>, turns: seq<Turn>, b: nat) returns (n: nat)
    requires Rotations(ds, turns) && b < |ds[0].banks| && Eligible(ds[0].banks[b])
    requires |turns| >= Ahead(ds[0].active, b, |ds[0].banks|)
    ensures n <= Ahead(ds[0].active, b, |ds[0].banks|)
    ensures ds[n].ready && ds[n].active == b < |ds[n].banks| && ds[n].banks[b].enabled
  {
    var ok := EligibleFlags(ds[0]);
    EveryEligibleBankGetsATurn(ok, ds[0].active, b);
    n :| n <= Ahead(ds[0].active, b, |ok|) && Walk(ok, ds[0].active, n) == b;
    RotationsWalk(ds, turns, n);
  }

  // ---- sample windows ----

  datatype Period = NoPeriod | Period(bank: nat, since: nat, upto: nat)

  /** Reads a history left to right: which bank is on and up to where it was read.  The
      result is meaningful when `WellTimed` holds. */
  function OpenPeriod(log: seq<Event>): Period {
    if log == [] then NoPeriod else
    var p := OpenPeriod(log[..|log| - 1]);
    match log[|log| - 1]
    case Opened(b, at) => Period(b, at, at)
    case Window(b, from, to) => if p.Period? then p.(upto := to) else NoPeriod
    case Closed(b) => NoPeriod
  }

  function Latest(log: seq<Event>): nat {
    if log == [] then 0 else
    match log[|log| - 1]
    case Opened(b, at) => at
    case Window(b, from, to) => to
    case Closed(b) => Latest(log[..|log| - 1])
  }

  /** Banks open one at a time, no earlier than anything before, and the windows of an
      open bank tile its period from the moment it opened. */
  predicate WellTimed(log: seq<Event>) {
    log == [] ||
    (var before := log[..|log| - 1];
     var p := OpenPeriod(before);
     WellTimed(before) &&
     match log[|log| - 1]
     case Opened(b, at) => p.NoPeriod? && at >= Latest(before)
     case Window(b, from, to) => p.Period? && p.bank == b && p.upto == from < to
     case Closed(b) => p.Period? && p.bank == b)
  }

  /** The history agrees with the banks, and no timestamp in it is past `clock`. */
  predicate Timed(d: Device, clock: nat) {
    && WellTimed(d.log) && Latest(d.log) <= clock
    && var p := OpenPeriod(d.log);
       (if exists i :: 0 <= i < |d.banks| && d.banks[i].enabled
        then d.active < |d.banks| && p.Period? && p.bank == d.active && p.upto == d.banks[d.active].lastRead
        else p.NoPeriod?)
  }

  lemma {:induction false} PeriodIsCurrent(log: seq<Event>)
    requires WellTimed(log)
    ensures OpenPeriod(log).Period? ==> OpenPeriod(log).since <= OpenPeriod(log).upto == Latest(log)
    decreases |log|
  {
    if log != [] { PeriodIsCurrent(log[..|log| - 1]); }
  }

  /** Timestamps an answer carries into the collector. */
  predicate ReadNotBefore(answer: ReadAnswer, clock: nat) { answer.Stamped? ==> answer.ended >= clock }
  predicate EnableNotBefore(answer: EnableAnswer, clock: nat) { answer.StartedAt? ==> answer.at >= clock }

  function ClockAfterRead(answer: ReadAnswer, clock: nat): nat {
    if answer.Stamped? && answer.ended > clock then answer.ended else clock
  }

  function ClockAfterEnable(answer: EnableAnswer, clock: nat): nat {
    if answer.StartedAt? && answer.at > clock then answer.at else clock
  }

  lemma Snoc(log: seq<Event>, e: Event)
    ensures (log + [e])[..|log + [e]| - 1] == log
  {}

  lemma SampleTimed(d: Device, answer: ReadAnswer, clock: nat)
    requires DeviceOk(d) && Timed(d, clock) && ReadNotBefore(answer, clock)
    ensures Timed(SampleDevice(d, answer).0, ClockAfterRead(answer, clock))
  {
    var d' := SampleDevice(d, answer).0;
    if d'.log != d.log { Snoc(d.log, d'.log[|d.log|]); }
    assert d.ready ==> d.banks[d.active].enabled && d'.banks[d.active].enabled;
  }

  lemma FinalReadTimed(d: Device, answer: ReadAnswer, clock: nat)
    requires DeviceOk(d) && d.ready && Timed(d, clock) && ReadNotBefore(answer, clock)
    ensures Timed(FinalRead(d, answer), ClockAfterRead(answer, clock))
  {
    var d' := FinalRead(d, answer);
    if d'.log != d.log { Snoc(d.log, d'.log[|d.log|]); }
    assert d.banks[d.active].enabled && d'.banks[d.active].enabled;
  }

  lemma CloseTimed(d: Device, clock: nat)
    requires DeviceOk(d) && d.ready && Timed(d, clock)
    ensures Timed(CloseActive(d), clock)
  {
    var d' := CloseActive(d);
    Snoc(d.log, Closed(d.active));
    assert NoneEnabled(d');
  }

  lemma TryTimed(d: Device, offset: nat, answer: EnableAnswer, clock: nat)
    requires BetweenBanks(d) && offset <= |d.banks| && Timed(d, clock) && EnableNotBefore(answer, clock)
    ensures Timed(TryCandidate(d, offset, answer).0, ClockAfterEnable(answer, clock))
  {
    var (d', on) := TryCandidate(d, offset, answer);
    TryKeeps(d, offset, answer);
    if on {
      Snoc(d.log, d'.log[|d.log|]);
      assert d'.banks[d'.active].enabled;
    }
  }

  lemma {:induction false} SelectTimed(banks: seq<Bank>, i: nat, answers: seq<EnableAnswer>)
    requires i <= |banks| == |answers|
    requires forall k :: 0 <= k < |banks| ==> !banks[k].enabled
    ensures exists clock: nat :: Timed(SelectFrom(banks, i, answers), clock)
    decreases |banks| - i
  {
    if i == |banks| {
      assert Timed(SelectFrom(banks, i, answers), 0);
    } else {
      var (b, on) := EnableBank(banks[i], answers[i]);
      if on {
        var d := Device(true, i, banks[i := b], [Opened(i, b.lastRead)]);
        assert SelectFrom(banks, i, answers) == d;
        assert d.banks[i].enabled;
        assert d.log[..0] == [];
        assert OpenPeriod(d.log) == Period(i, b.lastRead, b.lastRead);
        assert WellTimed(d.log[..0]) && Latest(d.log[..0]) == 0;
        assert Timed(d, b.lastRead);
      } else {
        assert SelectFrom(banks, i, answers) == SelectFrom(banks[i := b], i + 1, answers);
        SelectTimed(banks[i := b], i + 1, answers);
      }
    }
  }

  /** Windows do not overlap: of two windows in a well-timed history the earlier one ends
      before the later one starts. */
  lemma {:induction false} WindowsAreDisjoint(log: seq<Event>, j: nat, k: nat)
    requires WellTimed(log) && j < k < |log| && log[j].Window? && log[k].Window?
    ensures log[j].from < log[j].to <= log[k].from < log[k].to
    decreases |log|
  {
    var before := log[..|log| - 1];
    if k < |log| - 1 {
      WindowsAreDisjoint(before, j, k);
    } else {
      assert log[j] == before[j];
      WindowEndsByLatest(before, j);
      PeriodIsCurrent(before);
    }
  }

  lemma {:induction false} WindowEndsByLatest(log: seq<Event>, j: nat)
    requires WellTimed(log) && j < |log| && log[j].Window?
    ensures log[j].from < log[j].to <= Latest(log)
    decreases |log|
  {
    if j < |log| - 1 {
      assert log[j] == log[..|log| - 1][j];
      WindowEndsByLatest(log[..|log| - 1], j);
      PeriodIsCurrent(log[..|log| - 1]);
    }
  }

  /** The open period of a well-timed history starts at the last switching event, which
      opened the very bank the period names. */
  lemma {:induction false} PeriodHasAnOpening(log: seq<Event>) returns (i: nat)
    requires WellTimed(log) && OpenPeriod(log).Period?
    ensures i < |log| && log[i] == Opened(OpenPeriod(log).bank, OpenPeriod(log).since)
    ensures forall m :: i < m < |log| ==> log[m].Window?
    decreases |log|
  {
    var last := |log| - 1;
    if log[last].Opened? { return last; }
    i := PeriodHasAnOpening(log[..last]);
  }

  /** Every window lies inside one enabled period: its bank was opened at or before its
      start and nothing was switched between that opening and the window. */
  lemma {:induction false} WindowInsideOnePeriod(log: seq<Event>, k: nat) returns (i: nat)
    requires WellTimed(log) && k < |log| && log[k].Window?
    ensures i < k && log[i].Opened? && log[i].bank == log[k].bank && log[i].at <= log[k].from
    ensures forall m :: i < m < k ==> log[m].Window?
    decreases |log|
  {
    var before := log[..|log| - 1];
    if k < |log| - 1 {
      assert log[k] == before[k];
      i := WindowInsideOnePeriod(before, k);
      assert forall m :: i < m < k ==> log[m] == before[m];
    } else {
      i := PeriodHasAnOpening(before);
      PeriodIsCurrent(before);
      assert forall m :: i < m < k ==> log[m] == before[m];
    }
  }

  // ---- the operations as the collector performs them, on one device object ----

  class DeviceState {
    var ready: bool
    var active: nat
    var banks: seq<Bank>
    ghost var log: seq<Event>

    ghost function View(): Device
      reads this
    {
      Device(ready, active, banks, log)
    }

    constructor (available: seq<bool>)
      ensures View() == Device(false, 0, Fresh(available), [])
    {
      ready, active, banks, log := false, 0, Fresh(available), [];
    }

    /** `enable_bank` on banks[i]. */
    method EnableAt(i: nat, answer: EnableAnswer) returns (on: bool)
      requires i < |banks|
      modifies this`banks
      ensures banks == old(banks)[i := EnableBank(old(banks)[i], answer).0]
      ensures on == EnableBank(old(banks)[i], answer).1
    {
      var b := banks[i];
      if !b.available || b.disabled { return false; }
      match answer
      case Refused => return false;
      case NoFirstStamp(leftover) =>
        banks := banks[i := b.(enabled := true)];
        banks := banks[i := banks[i].(enabled := false, lastRead := leftover)];
        return false;
      case StartedAt(at) =>
        banks := banks[i := b.(enabled := true)];
        banks := banks[i := banks[i].(lastRead := at)];
        return true;
    }

    method SelectFirstBank(answers: seq<EnableAnswer>)
      requires !ready && active == 0 && log == [] && |answers| == |banks|
      modifies this
      ensures View() == SelectFrom(old(banks), 0, answers)
    {
      var i := 0;
      while i < |banks|
        invariant i <= |banks| == |old(banks)| && !ready && active == 0 && log == []
        invariant SelectFrom(banks, i, answers) == SelectFrom(old(banks), 0, answers)
        decreases |banks| - i
      {
        var on := EnableAt(i, answers[i]);
        if on {
          ready, active, log := true, i, [Opened(i, banks[i].lastRead)];
          return;
        }
        i := i + 1;
      }
    }

    /** The tail read that accounts for the end of the last request. */
    method ReadTail(tail: ReadAnswer)
      requires active < |banks|
      modifies this`banks, this`log
      ensures View() == FinalRead(old(View()), tail)
    {
      var b := banks[active];
      if b.enabled && !b.disabled && tail.Stamped? && tail.ended > b.lastRead {
        log := log + [Window(active, b.lastRead, tail.ended)];
        banks := banks[active := b.(lastRead := tail.ended)];
      }
    }

    /** `disable_bank` on the active bank. */
    method DisableActive()
      requires active < |banks|
      modifies this`banks, this`log
      ensures View() == CloseActive(old(View()))
    {
      if banks[active].enabled {
        banks := banks[active := banks[active].(enabled := false)];
        banks := banks[active := banks[active].(lastRead := 0)];
        log := log + [Closed(active)];
      }
    }

    method Try(offset: nat, answer: EnableAnswer) returns (selected: bool)
      requires active < |banks| && offset <= |banks|
      modifies this
      ensures View() == TryCandidate(old(View()), offset, answer).0
      ensures selected == TryCandidate(old(View()), offset, answer).1
    {
      var i := Ring(active, offset, |banks|);
      if !banks[i].available || banks[i].disabled { return false; }
      selected := EnableAt(i, answer);
      if selected {
        active := i;
        log := log + [Opened(i, banks[i].lastRead)];
      } else {
        banks := banks[i := banks[i].(disabled := true)];
      }
    }

    /** The device's turn in `rotate_at_idle_boundary`. */
    method Rotate(tail: ReadAnswer, pushed: bool, answers: seq<EnableAnswer>)
      requires ready && active < |banks| == |answers|
      modifies this
      ensures View() == RotateDevice(old(View()), tail, pushed, answers)
    {
      ReadTail(tail);
      if !pushed { return; }
      DisableActive();
      ghost var closed := View();
      var offset := 1;
      while offset <= |banks|
        invariant 1 <= offset <= |banks| + 1 && active < |banks| == |answers|
        invariant PickFrom(View(), offset, answers) == PickFrom(closed, 1, answers)
        decreases |banks| + 1 - offset
      {
        var selected := Try(offset, answers[offset - 1]);
        if selected { return; }
        offset := offset + 1;
      }
      ready := false;
    }
  }
}
