/** What the collector guarantees over whole runs: stable banks while a request runs,
    exactly one rotation between busy periods, monotone degradation, disjoint sample
    windows, and a way out for every waiting request. */
module CuptiTheorems {
  import opened CuptiBanks
  import opened CuptiProtocol

  /** A run: states[k] --actions[k]--> states[k + 1], from a started collector. */
  ghost predicate IsRun(states: seq<State>, actions: seq<Action>) {
    && |states| == |actions| + 1 && Init(states[0])
    && (forall k {:trigger StepAt(states, actions, k)} :: 0 <= k < |actions| ==> StepAt(states, actions, k))
  }

  ghost predicate StepAt(states: seq<State>, actions: seq<Action>, k: nat)
    requires k < |actions| < |states|
  {
    Enabled(states[k], actions[k]) && states[k + 1] == Apply(states[k], actions[k])
  }

  lemma {:induction false} RunKeepsInv(states: seq<State>, actions: seq<Action>, k: nat)
    requires IsRun(states, actions) && k < |states|
    ensures Inv(states[k])
    decreases k
  {
    if k == 0 {
      InitHolds(states[0]);
    } else {
      RunKeepsInv(states, actions, k - 1);
      assert StepAt(states, actions, k - 1);
      StepKeepsInv(states[k - 1], actions[k - 1]);
    }
  }

  // ---- stability while a request runs ----

  function Setups(s: State): seq<Setup> {
    seq(|s.devices|, i requires 0 <= i < |s.devices| => SetupOf(s.devices[i]))
  }

  lemma BusyStepKeepsSetup(s: State, a: Action)
    requires Inv(s) && Enabled(s, a) && s.active > 0
    ensures Setups(Apply(s, a)) == Setups(s)
  {
    if a.Sample? { SampleKeeps(s.devices[s.worker.dev], a.read); }
    var s' := Apply(s, a);
    assert forall i :: 0 <= i < |s.devices| ==> SetupOf(s'.devices[i]) == SetupOf(s.devices[i]);
  }

  lemma RunningCounts(s: State, t: Thread)
    requires Inv(s) && t in s.pc && Running(s.pc[t])
    ensures s.active > 0
  {
    assert t in InFlight(s.pc);
  }

  /** In every interleaving, as long as some request t stays between its increment and its
      decrement, no active index and no enabled flag of any device changes. */
  lemma {:induction false} NoBankChangesDuringARequest(
    states: seq<State>, actions: seq<Action>, t: Thread, i: nat, j: nat)
    requires IsRun(states, actions) && i <= j < |states|
    requires forall k :: i <= k <= j ==> t in states[k].pc && Running(states[k].pc[t])
    ensures Setups(states[i]) == Setups(states[j])
    decreases j
  {
    if i < j {
      NoBankChangesDuringARequest(states, actions, t, i, j - 1);
      RunKeepsInv(states, actions, j - 1);
      RunningCounts(states[j - 1], t);
      assert StepAt(states, actions, j - 1);
      BusyStepKeepsSetup(states[j - 1], actions[j - 1]);
    }
  }

  /** In every reachable state a device outside the one the worker is switching right now
      has exactly its active bank enabled when ready and no bank enabled otherwise, and
      while any request runs that is true of every device. */
  lemma OneEnabledBank(states: seq<State>, actions: seq<Action>, k: nat, dev: nat, bank: nat)
    requires IsRun(states, actions) && k < |states|
    requires dev < |states[k].devices| && bank < |states[k].devices[dev].banks|
    requires states[k].active > 0 || !InPicking(states[k], dev)
    ensures var d := states[k].devices[dev];
            d.banks[bank].enabled <==> d.ready && bank == d.active
    ensures states[k].devices[dev].ready ==> states[k].devices[dev].active < |states[k].devices[dev].banks|
  {
    RunKeepsInv(states, actions, k);
  }

  // ---- degradation is one-way ----

  predicate AllAge(s: State, s': State) {
    |s'.devices| == |s.devices| && forall i :: 0 <= i < |s.devices| ==> Ages(s.devices[i], s'.devices[i])
  }

  lemma RotationAges(s: State, a: Action)
    requires Inv(s) && Enabled(s, a) && (a.Tail? || a.Switch? || a.Try?)
    ensures AllAge(s, Apply(s, a))
  {
    var d := s.devices[s.worker.at];
    if a.Tail? && d.ready { CloseLeavesNone(d, a.read); }
    else if a.Switch? { CloseLeavesNone(d, NoStamp); }
    else if a.Try? && s.worker.phase.offset <= |d.banks| { TryKeeps(d, s.worker.phase.offset, a.enable); }
  }

  lemma StepAges(s: State, a: Action)
    requires Inv(s) && Enabled(s, a)
    ensures AllAge(s, Apply(s, a))
  {
    if a.Sample? { SampleKeeps(s.devices[s.worker.dev], a.read); }
    else if a.Tail? || a.Switch? || a.Try? { RotationAges(s, a); }
    else { assert Apply(s, a).devices == s.devices; }
  }

  /** Over any stretch of a run, disabled marks are never taken back and a device that is
      not ready never becomes ready again. */
  lemma {:induction false} DegradationIsOneWay(states: seq<State>, actions: seq<Action>, i: nat, j: nat)
    requires IsRun(states, actions) && i <= j < |states|
    ensures AllAge(states[i], states[j])
    decreases j
  {
    if i < j {
      DegradationIsOneWay(states, actions, i, j - 1);
      RunKeepsInv(states, actions, j - 1);
      assert StepAt(states, actions, j - 1);
      StepAges(states[j - 1], actions[j - 1]);
      AgeTogether(states[i], states[j - 1], states[j]);
    }
  }

  lemma AgeTogether(a: State, b: State, c: State)
    requires AllAge(a, b) && AllAge(b, c)
    ensures AllAge(a, c)
  {}

  // ---- one rotation per idle gap ----

  /** Does this step start a rotation (clear the flag and begin switching banks)? */
  predicate StartsRotation(s: State, a: Action) {
    a.Test? && s.worker.Testing? && s.active == 0 && s.rotate
  }

  function Rotations(states: seq<State>, actions: seq<Action>, i: nat, j: nat): nat
    requires i <= j <= |actions| && |states| == |actions| + 1
    decreases j
  {
    if i == j then 0 else
    Rotations(states, actions, i, j - 1) + if StartsRotation(states[j - 1], actions[j - 1]) then 1 else 0
  }

  /** A rotation is owed: the flag is up, or the ender still holding the mutex will raise it. */
  predicate Owed(s: State) { s.rotate || FlagPending(s) }

  lemma IdleStep(s: State, a: Action)
    requires Inv(s) && Enabled(s, a) && s.active == 0 && Apply(s, a).active == 0
    ensures StartsRotation(s, a) ==> Owed(s) && !Owed(Apply(s, a)) && Apply(s, a).worker.Rotating?
    ensures !StartsRotation(s, a) ==> (Owed(Apply(s, a)) <==> Owed(s))
  {
    if a.EndStore? { CountDown(s, a.t); }
    else if a.EndFlag? { assert s.lock == ByRequest(a.t); }
  }

  lemma LastRequestEnds(s: State, a: Action)
    requires Inv(s) && Enabled(s, a) && s.active > 0 && Apply(s, a).active == 0
    ensures Owed(Apply(s, a)) && !StartsRotation(s, a)
  {
    if a.Count? { CountUp(s, a.t); }
    if a.EndStore? { assert s.lock == ByRequest(a.t); }
  }

  lemma NextBusyPeriodStarts(s: State, a: Action)
    requires Inv(s) && Enabled(s, a) && s.active == 0 && Apply(s, a).active > 0
    ensures !Owed(s) && !StartsRotation(s, a) && !Apply(s, a).worker.Rotating?
  {
    assert a.Count?;
    assert s.lock == ByRequest(a.t);
  }

  /** Inside an idle gap that follows a busy state: either no rotation has started and one
      is owed, or exactly one has started and none is owed. */
  lemma {:induction false} IdleGap(states: seq<State>, actions: seq<Action>, i: nat, k: nat)
    requires IsRun(states, actions) && i < k < |states| && states[i].active > 0
    requires forall m :: i < m <= k ==> states[m].active == 0
    ensures Rotations(states, actions, i, k) == if Owed(states[k]) then 0 else 1
    decreases k
  {
    RunKeepsInv(states, actions, k - 1);
    if k == i + 1 {
      assert StepAt(states, actions, i);
      LastRequestEnds(states[i], actions[i]);
    } else {
      IdleGap(states, actions, i, k - 1);
      assert StepAt(states, actions, k - 1);
      IdleStep(states[k - 1], actions[k - 1]);
    }
  }

  /** Exactly one rotation starts between two consecutive busy periods, and it is over
      before the second one begins. */
  lemma ExactlyOneRotationBetweenBusyPeriods(states: seq<State>, actions: seq<Action>, i: nat, j: nat)
    requires IsRun(states, actions) && i + 1 < j < |states|
    requires states[i].active > 0 && states[j].active > 0
    requires forall m :: i < m < j ==> states[m].active == 0
    ensures Rotations(states, actions, i, j) == 1
    ensures !states[j].worker.Rotating?
  {
    IdleGap(states, actions, i, j - 1);
    RunKeepsInv(states, actions, j - 1);
    assert StepAt(states, actions, j - 1);
    NextBusyPeriodStarts(states[j - 1], actions[j - 1]);
  }

  /** No rotation starts before the first request is counted. */
  lemma {:induction false} NoRotationBeforeTheFirstRequest(states: seq<State>, actions: seq<Action>, k: nat)
    requires IsRun(states, actions) && k < |states|
    requires forall m :: 0 <= m <= k ==> states[m].active == 0
    ensures Rotations(states, actions, 0, k) == 0 && !Owed(states[k])
    decreases k
  {
    if k > 0 {
      NoRotationBeforeTheFirstRequest(states, actions, k - 1);
      RunKeepsInv(states, actions, k - 1);
      assert StepAt(states, actions, k - 1);
      IdleStep(states[k - 1], actions[k - 1]);
    }
  }

  // ---- sample windows ----

  predicate ClockAllows(s: State, a: Action) {
    && ((a.Sample? || a.Tail?) ==> ReadNotBefore(a.read, s.clock))
    && (a.Try? ==> EnableNotBefore(a.enable, s.clock))
  }

  predicate AllTimed(s: State) {
    forall i :: 0 <= i < |s.devices| ==> Timed(s.devices[i], s.clock)
  }

  lemma LaterClock(d: Device, clock: nat, clock': nat)
    requires Timed(d, clock) && clock <= clock'
    ensures Timed(d, clock')
  {}

  lemma StartIsTimed(d: Device, clock: nat)
    requires StartsAs(d) && Latest(d.log) <= clock
    ensures Timed(d, clock)
  {
    var available: seq<bool>, answers: seq<EnableAnswer> :|
      |available| == |answers| &&
      (d == Device(false, 0, Fresh(available), []) || d == SelectFrom(Fresh(available), 0, answers));
    SelectTimed(Fresh(available), 0, answers);
  }

  lemma StepKeepsTimed(s: State, a: Action)
    requires Inv(s) && Enabled(s, a) && AllTimed(s) && ClockAllows(s, a)
    ensures AllTimed(Apply(s, a))
  {
    var s' := Apply(s, a);
    if a.Sample? {
      SampleTimed(s.devices[s.worker.dev], a.read, s.clock);
    } else if a.Tail? && s.devices[s.worker.at].ready {
      FinalReadTimed(s.devices[s.worker.at], a.read, s.clock);
    } else if a.Switch? {
      CloseTimed(s.devices[s.worker.at], s.clock);
    } else if a.Try? && s.worker.phase.offset <= |s.devices[s.worker.at].banks| {
      TryTimed(s.devices[s.worker.at], s.worker.phase.offset, a.enable, s.clock);
    }
    forall i | 0 <= i < |s'.devices| ensures Timed(s'.devices[i], s'.clock) {
      if s'.devices[i] == s.devices[i] { LaterClock(s.devices[i], s.clock, s'.clock); }
    }
  }

  lemma {:induction false} RunKeepsTimed(states: seq<State>, actions: seq<Action>, k: nat)
    requires IsRun(states, actions) && k < |states|
    requires forall m :: 0 <= m < |actions| ==> ClockAllows(states[m], actions[m])
    ensures AllTimed(states[k])
    decreases k
  {
    if k == 0 {
      forall i | 0 <= i < |states[0].devices| ensures Timed(states[0].devices[i], states[0].clock) {
        StartIsTimed(states[0].devices[i], states[0].clock);
      }
    } else {
      RunKeepsTimed(states, actions, k - 1);
      RunKeepsInv(states, actions, k - 1);
      assert StepAt(states, actions, k - 1);
      StepKeepsTimed(states[k - 1], actions[k - 1]);
    }
  }

  /** Given a monotone CUPTI clock, every sample window of every device in every run lies
      inside a single period during which its bank stayed enabled. */
  lemma SampleWindowInsideOnePeriod(states: seq<State>, actions: seq<Action>, k: nat, dev: nat, i: nat)
    returns (opening: nat)
    requires IsRun(states, actions) && k < |states| && dev < |states[k].devices|
    requires forall m :: 0 <= m < |actions| ==> ClockAllows(states[m], actions[m])
    requires var log := states[k].devices[dev].log; i < |log| && log[i].Window?
    ensures var log := states[k].devices[dev].log;
            && opening < i && log[opening].Opened? && log[opening].bank == log[i].bank
            && log[opening].at <= log[i].from < log[i].to && forall m :: opening < m < i ==> log[m].Window?
  {
    RunKeepsTimed(states, actions, k);
    WindowEndsByLatest(states[k].devices[dev].log, i);
    opening := WindowInsideOnePeriod(states[k].devices[dev].log, i);
  }

  /** And any two of them, over all the banks of the device and whatever failed, are
      disjoint half-open intervals. */
  lemma SampleWindowsAreDisjoint(states: seq<State>, actions: seq<Action>, k: nat, dev: nat, i: nat, j: nat)
    returns (first: nat, second: nat)
    requires IsRun(states, actions) && k < |states| && dev < |states[k].devices|
    requires forall m :: 0 <= m < |actions| ==> ClockAllows(states[m], actions[m])
    requires var log := states[k].devices[dev].log; i < j < |log| && log[i].Window? && log[j].Window?
    ensures var log := states[k].devices[dev].log;
            && log[i].from < log[i].to <= log[j].from < log[j].to
            && first < i && log[first].Opened? && log[first].bank == log[i].bank && log[first].at <= log[i].from
            && (forall m :: first < m < i ==> log[m].Window?)
            && second < j && log[second].Opened? && log[second].bank == log[j].bank && log[second].at <= log[j].from
            && (forall m :: second < m < j ==> log[m].Window?)
  {
    RunKeepsTimed(states, actions, k);
    WindowsAreDisjoint(states[k].devices[dev].log, i, j);
    first := SampleWindowInsideOnePeriod(states, actions, k, dev, i);
    second := SampleWindowInsideOnePeriod(states, actions, k, dev, j);
  }

  // ---- nobody waits for ever with nothing to wait for ----

  predicate Waits(pc: Pc) { pc.Blocked? || pc.Notified? }

  /** A waiting request is never stranded: the flag is clear and it only has to take the
      mutex, or the worker is switching, or the counter is 0 with a rotation owed, or some
      counted request has yet to end. */
  lemma NoWaiterIsStranded(states: seq<State>, actions: seq<Action>, k: nat, t: Thread)
    requires IsRun(states, actions) && k < |states| && t in states[k].pc && Waits(states[k].pc[t])
    ensures var s := states[k];
            || (!s.rotate && s.pc[t].Notified?)
            || s.worker.Rotating?
            || (s.rotate && s.active == 0)
            || (exists u :: u in s.pc && Running(s.pc[u]))
  {
    RunKeepsInv(states, actions, k);
    var s := states[k];
    if s.active != 0 {
      assert InFlight(s.pc) != {};
      var u :| u in InFlight(s.pc);
      assert u in s.pc && Running(s.pc[u]);
    }
  }
}
