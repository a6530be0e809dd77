/** Deadlock freedom of the collector: from every reachable state, whatever CUPTI and
    CUDA answer, a finite schedule of enabled steps, none of them a new request, admits
    any given waiting request. */
module CuptiProgress {
  import opened CuptiBanks
  import opened CuptiProtocol
  import opened CuptiTheorems

  /** What the environment would answer in a state. */
  datatype Answers = Answers(read: ReadAnswer, pushed: bool, enable: EnableAnswer)
  type Environment = State -> Answers

  /** t is inside `request_begin`, waiting or on its way to the increment. */
  predicate Pending(s: State, t: Thread) {
    t in s.pc && (Waits(s.pc[t]) || s.pc[t].Rechecking? || s.pc[t].Admitted?)
  }

  predicate Admission(s: State, t: Thread) { t in s.pc && s.pc[t].Counted? }

  function HolderAction(s: State): Action
    requires LockInv(s) && s.lock.ByRequest?
  {
    var u := s.lock.who;
    match s.pc[u]
    case Checking => BeginLoad(u)
    case CheckingFlag => BeginFlag(u)
    case Rechecking => Recheck(u)
    case Admitted => Count(u)
    case Ending => EndStore(u)
    case Flagging(_) => EndFlag(u)
  }

  function WorkerAction(s: State, env: Environment): Action {
    match s.worker
    case Sleeping => TimeOut
    case Sensing => Sense
    case SensingFlag => SenseFlag
    case Sampling(dev) => if dev < |s.devices| then Sample(env(s).read) else SampleDone
    case Locking => Lock
    case Testing => Test
    case Rotating(at, phase) =>
      if at >= |s.devices| then Announce else
      match phase
      case TailRead => Tail(env(s).read)
      case Switching => Switch(env(s).pushed)
      case Trying(_) => Try(env(s).enable)
  }

  /** The schedule: let the mutex holder finish, then end the running requests, then let
      the worker rotate, then let t take the mutex. */
  ghost function Plan(s: State, t: Thread, env: Environment): Action
    requires Inv(s) && Pending(s, t)
  {
    if s.lock.ByRequest? then HolderAction(s)
    else if s.lock.ByWorker? then WorkerAction(s, env)
    else if !s.rotate then Relock(t)
    else if s.active == 0 then WorkerAction(s, env)
    else
      SomeoneRuns(s);
      var u :| u in s.pc && s.pc[u].Counted?;
      EndLock(u)
  }

  lemma SomeoneRuns(s: State)
    requires Inv(s) && s.lock.Free? && s.active > 0
    ensures exists u :: u in s.pc && s.pc[u].Counted?
  {
    assert InFlight(s.pc) != {};
    var u :| u in InFlight(s.pc);
    assert s.pc[u].Counted?;
  }

  // ---- a measure that every scheduled step decreases ----

  /** A rotation must happen first. */
  predicate NeedsRotation(s: State) {
    s.rotate || FlagPending(s) || (s.lock.ByRequest? && At(s, s.lock.who, Ending) && s.active == 1)
  }

  function Stage(s: State): nat {
    if NeedsRotation(s) then 2 else if s.worker.Rotating? then 1 else 0
  }

  function Holding(s: State): nat {
    if !s.lock.ByRequest? || s.lock.who !in s.pc then 5 else
    match s.pc[s.lock.who]
    case Checking => 29
    case CheckingFlag => 28
    case Rechecking => 28
    case Admitted => 27
    case Flagging(_) => 9
    case _ => 4
  }

  function WorkerDistance(s: State): nat {
    match s.worker
    case Sampling(dev) => if dev < |s.devices| then 5 + |s.devices| - dev else 5
    case Sleeping => 4
    case Sensing => 3
    case SensingFlag => 2
    case Locking => 1
    case _ => 0
  }

  function PhaseDistance(s: State): nat {
    if !s.worker.Rotating? || s.worker.at >= |s.devices| then 0 else
    var banks := |s.devices[s.worker.at].banks|;
    match s.worker.phase
    case TailRead => banks + 3
    case Switching => banks + 2
    case Trying(offset) => if offset <= banks then banks + 1 - offset else 0
  }

  function Handover(s: State, t: Thread): nat {
    if s.lock.Free? then 5
    else if s.lock.ByWorker? then 40
    else if s.lock.who == t then if At(s, t, Rechecking) then 4 else 3
    else if s.lock.who in s.pc && s.pc[s.lock.who].Flagging? then 6
    else 7 + Holding(s)
  }

  datatype Rank = Rank(stage: nat, first: nat, second: nat, third: nat)

  function RankOf(s: State, t: Thread): Rank {
    var stage := Stage(s);
    if stage == 2 then
      Rank(2, if s.worker.Testing? && (s.active != 0 || !s.rotate) then 1 else 0,
           20 * s.active + Holding(s), WorkerDistance(s))
    else if stage == 1 then
      Rank(1, if s.worker.at <= |s.devices| then |s.devices| - s.worker.at else 0, PhaseDistance(s), 0)
    else Rank(0, 0, Handover(s, t), 0)
  }

  predicate Less(a: Rank, b: Rank) {
    a.stage < b.stage || (a.stage == b.stage &&
    (a.first < b.first || (a.first == b.first &&
    (a.second < b.second || (a.second == b.second && a.third < b.third)))))
  }

  lemma BeginnerDescends(s: State, t: Thread)
    requires Inv(s) && Pending(s, t) && s.lock.ByRequest? && (HolderAction(s).BeginLoad? || HolderAction(s).BeginFlag? || HolderAction(s).Recheck?)
    ensures Enabled(s, HolderAction(s))
    ensures var s' := Apply(s, HolderAction(s));
            Admission(s', t) || (Pending(s', t) && Less(RankOf(s', t), RankOf(s, t)))
  {
    var s' := Apply(s, HolderAction(s));
    assert !s.worker.Testing? && !s.worker.Rotating?;
    assert Stage(s') == Stage(s);
  }

  lemma CounterDescends(s: State, t: Thread)
    requires Inv(s) && Pending(s, t) && s.lock.ByRequest? && HolderAction(s).Count?
    ensures Enabled(s, HolderAction(s))
    ensures var s' := Apply(s, HolderAction(s));
            Admission(s', t) || (Pending(s', t) && Less(RankOf(s', t), RankOf(s, t)))
  {
    CountUp(s, s.lock.who);
    var s' := Apply(s, HolderAction(s));
    assert Stage(s') == Stage(s);
  }

  lemma EnderStoreDescends(s: State, t: Thread)
    requires Inv(s) && Pending(s, t) && s.lock.ByRequest? && HolderAction(s).EndStore?
    ensures Enabled(s, HolderAction(s))
    ensures var s' := Apply(s, HolderAction(s));
            Admission(s', t) || (Pending(s', t) && Less(RankOf(s', t), RankOf(s, t)))
  {
    CountDown(s, s.lock.who);
    var s' := Apply(s, HolderAction(s));
    assert Stage(s') == Stage(s);
  }

  lemma EnderFlagDescends(s: State, t: Thread)
    requires Inv(s) && Pending(s, t) && s.lock.ByRequest? && HolderAction(s).EndFlag?
    ensures Enabled(s, HolderAction(s))
    ensures var s' := Apply(s, HolderAction(s));
            Admission(s', t) || (Pending(s', t) && Less(RankOf(s', t), RankOf(s, t)))
  {
    var s' := Apply(s, HolderAction(s));
    assert Stage(s') == Stage(s);
  }

  lemma RotatorDescends(s: State, t: Thread, env: Environment)
    requires Inv(s) && Pending(s, t) && s.worker.Rotating?
    ensures Enabled(s, WorkerAction(s, env))
    ensures var s' := Apply(s, WorkerAction(s, env));
            Pending(s', t) && Less(RankOf(s', t), RankOf(s, t))
  {
    assert Waits(s.pc[t]);
    assert Stage(s) == 1;
    var s' := Apply(s, WorkerAction(s, env));
    assert !NeedsRotation(s');
    if s.worker.at < |s.devices| {
      var d := s.devices[s.worker.at];
      assert s'.worker.Rotating? && |s'.devices| == |s.devices|;
      assert |s'.devices[s.worker.at].banks| == |d.banks|;
    }
  }

  lemma WorkerDescends(s: State, t: Thread, env: Environment)
    requires Inv(s) && Pending(s, t) && !s.lock.ByRequest? && !s.worker.Rotating?
    requires s.lock.Free? ==> s.rotate && s.active == 0
    ensures Enabled(s, WorkerAction(s, env))
    ensures var s' := Apply(s, WorkerAction(s, env));
            Pending(s', t) && Less(RankOf(s', t), RankOf(s, t))
  {
    var s' := Apply(s, WorkerAction(s, env));
    assert s'.pc == s.pc;
  }

  lemma EnderDescends(s: State, t: Thread, u: Thread)
    requires Inv(s) && Pending(s, t) && s.lock.Free? && s.rotate && At(s, u, Counted)
    ensures var s' := Apply(s, EndLock(u));
            Pending(s', t) && Less(RankOf(s', t), RankOf(s, t))
  {}

  lemma WaiterDescends(s: State, t: Thread)
    requires Inv(s) && Pending(s, t) && s.lock.Free? && !s.rotate
    ensures Enabled(s, Relock(t))
    ensures var s' := Apply(s, Relock(t));
            Pending(s', t) && Less(RankOf(s', t), RankOf(s, t))
  {
    assert Waits(s.pc[t]);
    assert !s.worker.Rotating?;
  }

  lemma PlanDescends(s: State, t: Thread, env: Environment)
    requires Inv(s) && Pending(s, t)
    ensures Enabled(s, Plan(s, t, env))
    ensures var s' := Apply(s, Plan(s, t, env));
            Admission(s', t) || (Pending(s', t) && Less(RankOf(s', t), RankOf(s, t)))
  {
    if s.lock.ByRequest? {
      match HolderAction(s)
      case Count(_) => CounterDescends(s, t);
      case EndStore(_) => EnderStoreDescends(s, t);
      case EndFlag(_) => EnderFlagDescends(s, t);
      case _ => BeginnerDescends(s, t);
    }
    else if s.worker.Rotating? { RotatorDescends(s, t, env); }
    else if s.lock.ByWorker? { WorkerDescends(s, t, env); }
    else if !s.rotate { WaiterDescends(s, t); }
    else if s.active == 0 { WorkerDescends(s, t, env); }
    else { EnderDescends(s, t, Plan(s, t, env).t); }
  }

  /** A continuation of s made of enabled steps. */
  ghost predicate Continues(s: State, steps: seq<Action>, last: State)
    decreases |steps|
  {
    if steps == [] then last == s
    else Enabled(s, steps[0]) && Continues(Apply(s, steps[0]), steps[1..], last)
  }

  lemma {:induction false} AdmissionFrom(s: State, t: Thread, env: Environment) returns (steps: seq<Action>, last: State)
    requires Inv(s) && Pending(s, t)
    ensures Continues(s, steps, last) && Admission(last, t)
    ensures forall k :: 0 <= k < |steps| ==> !steps[k].BeginLock?
    decreases RankOf(s, t).stage, RankOf(s, t).first, RankOf(s, t).second, RankOf(s, t).third
  {
    var a := Plan(s, t, env);
    PlanDescends(s, t, env);
    var s' := Apply(s, a);
    if Admission(s', t) {
      steps, last := [a], s';
      assert Continues(s', [], s');
    } else {
      StepKeepsInv(s, a);
      var rest: seq<Action>;
      rest, last := AdmissionFrom(s', t, env);
      steps := [a] + rest;
      assert steps[1..] == rest;
    }
  }

  /** From any state of any run and for any environment, every waiting request can still be
      admitted without help from a new one. */
  lemma EveryWaiterCanBeAdmitted(states: seq<State>, actions: seq<Action>, k: nat, t: Thread, env: Environment)
    returns (steps: seq<Action>, last: State)
    requires IsRun(states, actions) && k < |states| && t in states[k].pc && Waits(states[k].pc[t])
    ensures Continues(states[k], steps, last) && Admission(last, t)
    ensures forall m :: 0 <= m < |steps| ==> !steps[m].BeginLock?
  {
    RunKeepsInv(states, actions, k);
    steps, last := AdmissionFrom(states[k], t, env);
  }

  // ---- the worker's small steps compose to the device's turn ----

  /** last is s with device i replaced and the worker moved on to the next device. */
  predicate TurnOver(s: State, last: State, i: nat, d: Device)
    requires i < |s.devices|
  {
    last.devices == s.devices[i := d] && last.worker == Rotating(i + 1, TailRead) &&
    last.pc == s.pc && last.lock == s.lock && last.active == s.active && last.rotate == s.rotate
  }

  lemma {:induction false} PickRun(s: State, i: nat, offset: nat, answers: seq<EnableAnswer>)
    returns (steps: seq<Action>, last: State)
    requires i < |s.devices| && s.worker == Rotating(i, Trying(offset))
    requires s.devices[i].active < |s.devices[i].banks| == |answers| && 1 <= offset <= |answers| + 1
    ensures Continues(s, steps, last)
    ensures TurnOver(s, last, i, PickFrom(s.devices[i], offset, answers))
    decreases |answers| + 1 - offset
  {
    var a := Try(if offset <= |answers| then answers[offset - 1] else Refused);
    var s' := Apply(s, a);
    if s'.worker == Rotating(i + 1, TailRead) {
      steps, last := [a], s';
      assert Continues(s', [], s');
    } else {
      var rest: seq<Action>;
      rest, last := PickRun(s', i, offset + 1, answers);
      steps := [a] + rest;
      assert steps[1..] == rest;
      assert s'.devices[i := PickFrom(s'.devices[i], offset + 1, answers)]
          == s.devices[i := PickFrom(s.devices[i], offset, answers)];
    }
  }

  /** One device's turn: the step sequence tail read, switch, candidates does to the shared
      state exactly what the device's rotation method does to the device, whether or not the
      context could be pushed. */
  lemma SmallStepsMakeARotation(s: State, i: nat, tail: ReadAnswer, pushed: bool, answers: seq<EnableAnswer>)
    returns (steps: seq<Action>, last: State)
    requires i < |s.devices| && s.worker == Rotating(i, TailRead) && s.devices[i].ready
    requires s.devices[i].active < |s.devices[i].banks| == |answers|
    ensures Continues(s, steps, last)
    ensures TurnOver(s, last, i, RotateDevice(s.devices[i], tail, pushed, answers))
  {
    var s1 := Apply(s, Tail(tail));
    var s2 := Apply(s1, Switch(pushed));
    var rest: seq<Action>;
    if pushed {
      rest, last := PickRun(s2, i, 1, answers);
      assert s2.devices[i] == CloseActive(FinalRead(s.devices[i], tail));
      assert s2.devices[i := PickFrom(s2.devices[i], 1, answers)]
          == s.devices[i := RotateDevice(s.devices[i], tail, true, answers)];
    } else {
      rest, last := [], s2;
    }
    assert Continues(s1, [Switch(pushed)] + rest, last) by { assert ([Switch(pushed)] + rest)[1..] == rest; }
    steps := [Tail(tail)] + ([Switch(pushed)] + rest);
    assert steps[1..] == [Switch(pushed)] + rest;
  }

  // ---- and so do its sampling steps ----

  /** The devices after sampling those from i on. */
  function SampledFrom(devices: seq<Device>, samples: seq<ReadAnswer>, i: nat): (sampled: seq<Device>)
    requires i <= |devices| == |samples|
    ensures |sampled| == |devices|
    ensures forall k :: 0 <= k < |devices| ==>
              sampled[k] == if k < i then devices[k] else SampleDevice(devices[k], samples[k]).0
  {
    seq(|devices|, k requires 0 <= k < |devices| =>
      if k < i then devices[k] else SampleDevice(devices[k], samples[k]).0)
  }

  lemma {:induction false} SampleRun(s: State, samples: seq<ReadAnswer>) returns (steps: seq<Action>, last: State)
    requires s.worker.Sampling? && s.worker.dev <= |s.devices| == |samples|
    ensures Continues(s, steps, last)
    ensures last.worker == Sleeping && last.devices == SampledFrom(s.devices, samples, s.worker.dev)
    ensures last.pc == s.pc && last.lock == s.lock && last.active == s.active
    ensures last.rotate <==>
            s.rotate || exists k :: s.worker.dev <= k < |samples| && SampleDevice(s.devices[k], samples[k]).1
    decreases |s.devices| - s.worker.dev
  {
    var i := s.worker.dev;
    if i == |s.devices| {
      steps, last := [SampleDone], Apply(s, SampleDone);
      assert Continues(last, [], last);
      assert steps[1..] == [];
    } else {
      var a := Sample(samples[i]);
      var s' := Apply(s, a);
      var rest: seq<Action>;
      rest, last := SampleRun(s', samples);
      steps := [a] + rest;
      assert steps[1..] == rest;
      assert SampledFrom(s'.devices, samples, i + 1) == SampledFrom(s.devices, samples, i);
    }
  }

  /** A worker that wakes up while a request is counted samples every device once, whatever
      each read answers, and goes back to sleep. */
  lemma SmallStepsMakeASamplingPass(s: State, samples: seq<ReadAnswer>) returns (steps: seq<Action>, last: State)
    requires s.worker == Sleeping && s.active > 0 && |samples| == |s.devices|
    ensures Continues(s, steps, last)
    ensures last.worker == Sleeping && last.devices == SampledFrom(s.devices, samples, 0)
    ensures last.pc == s.pc && last.lock == s.lock && last.active == s.active
    ensures last.rotate <==> s.rotate || exists k :: 0 <= k < |samples| && SampleDevice(s.devices[k], samples[k]).1
  {
    var s1 := Apply(s, TimeOut);
    var s2 := Apply(s1, Sense);
    var rest: seq<Action>;
    rest, last := SampleRun(s2, samples);
    assert Continues(s1, [Sense] + rest, last) by { assert ([Sense] + rest)[1..] == rest; }
    steps := [TimeOut] + ([Sense] + rest);
    assert steps[1..] == [Sense] + rest;
  }
}
