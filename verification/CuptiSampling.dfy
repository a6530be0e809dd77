/** When sampling gives a bank up: exactly at the third consecutive read of it that publishes
    nothing, first for one device and a sequence of answers, then in every run. */
module CuptiSampling {
  import opened CuptiBanks
  import opened CuptiProtocol
  import opened CuptiTheorems

  /** A sampling pass reads this device. */
  predicate InUse(d: Device) {
    d.ready && d.active < |d.banks| && d.banks[d.active].enabled && !d.banks[d.active].disabled
  }

  // ---- one device ----

  /** The latest timestamp consumed by the first k reads of a bank opened at `since`. */
  function Consumed(since: nat, answers: seq<ReadAnswer>, k: nat): nat
    requires k <= |answers|
  {
    if k == 0 then since else
    var before := Consumed(since, answers, k - 1);
    if answers[k - 1].Stamped? && answers[k - 1].ended > before then answers[k - 1].ended else before
  }

  /** Read k publishes: it has a timestamp past the latest one consumed, succeeds, and
      evaluates some metric. */
  predicate Publishes(since: nat, answers: seq<ReadAnswer>, k: nat)
    requires k < |answers|
  {
    answers[k].Stamped? && answers[k].ended > Consumed(since, answers, k) && answers[k].readOk && answers[k].evaluated > 0
  }

  predicate ThirdSilent(since: nat, answers: seq<ReadAnswer>, k: nat)
    requires k < |answers|
  {
    k >= 2 && !Publishes(since, answers, k - 2) && !Publishes(since, answers, k - 1) && !Publishes(since, answers, k)
  }

  ghost predicate Samples(ds: seq<Device>, answers: seq<ReadAnswer>) {
    |ds| == |answers| + 1 && forall k {:trigger SampleAt(ds, answers, k)} :: 0 <= k < |answers| ==> SampleAt(ds, answers, k)
  }

  ghost predicate SampleAt(ds: seq<Device>, answers: seq<ReadAnswer>, k: nat)
    requires k < |answers| < |ds|
  {
    ds[k + 1] == SampleDevice(ds[k], answers[k]).0
  }

  /** Silent reads in a row before read k. */
  function Silence(since: nat, answers: seq<ReadAnswer>, k: nat): nat
    requires k <= |answers|
  {
    if k == 0 || Publishes(since, answers, k - 1) then 0 else Silence(since, answers, k - 1) + 1
  }

  lemma ThirdSilentIsThree(since: nat, answers: seq<ReadAnswer>, k: nat)
    requires k < |answers|
    ensures ThirdSilent(since, answers, k) <==> Silence(since, answers, k + 1) >= 3
  {
    if k >= 1 {
      assert Silence(since, answers, k) == if Publishes(since, answers, k - 1) then 0 else Silence(since, answers, k - 1) + 1;
    }
    if k >= 2 {
      assert Silence(since, answers, k - 1) == if Publishes(since, answers, k - 2) then 0 else Silence(since, answers, k - 2) + 1;
    }
  }

  /** The device after n reads: in use, with its failures counted, unless some read was the
      third silent one. */
  lemma {:induction false} SamplesCount(ds: seq<Device>, answers: seq<ReadAnswer>, n: nat)
    requires Samples(ds, answers) && n < |ds| && InUse(ds[0])
    requires var b := ds[0].banks[ds[0].active]; b.failures == 0
    ensures var since := ds[0].banks[ds[0].active].lastRead;
            && |ds[n].banks| == |ds[0].banks| && ds[n].active == ds[0].active && ds[n].ready
            && ds[n].banks[ds[n].active].enabled
            && (InUse(ds[n]) <==> forall k :: 0 <= k < n ==> !ThirdSilent(since, answers, k))
            && (InUse(ds[n]) ==>
                  && ds[n].banks[ds[n].active].failures == Silence(since, answers, n) < 3
                  && ds[n].banks[ds[n].active].lastRead == Consumed(since, answers, n))
    decreases n
  {
    if n > 0 {
      SamplesCount(ds, answers, n - 1);
      assert SampleAt(ds, answers, n - 1);
      ThirdSilentIsThree(ds[0].banks[ds[0].active].lastRead, answers, n - 1);
    }
  }

  /** Sampling gives a bank up, and asks for a rotation, at the third consecutive read that
      publishes nothing: not before, not after a read in between that published, and no other
      read asks. */
  lemma GivenUpAtTheThird(ds: seq<Device>, answers: seq<ReadAnswer>, n: nat)
    requires Samples(ds, answers) && n < |answers| && InUse(ds[0]) && ds[0].banks[ds[0].active].failures == 0
    ensures var since := ds[0].banks[ds[0].active].lastRead;
            && (InUse(ds[n]) && !InUse(ds[n + 1]) <==> InUse(ds[n]) && ThirdSilent(since, answers, n))
            && (SampleDevice(ds[n], answers[n]).1 <==> InUse(ds[n]) && ThirdSilent(since, answers, n))
            && (InUse(ds[n]) <==> forall k :: 0 <= k < n ==> !ThirdSilent(since, answers, k))
  {
    var since := ds[0].banks[ds[0].active].lastRead;
    SamplesCount(ds, answers, n);
    SamplesCount(ds, answers, n + 1);
    assert SampleAt(ds, answers, n);
    ThirdSilentIsThree(since, answers, n);
  }

  // ---- whole runs ----

  /** This step samples a bank. */
  predicate ReadsBank(s: State, a: Action, dev: nat, bank: nat) {
    && a.Sample? && s.worker.Sampling? && s.worker.dev == dev < |s.devices|
    && InUse(s.devices[dev]) && s.devices[dev].active == bank
  }

  /** And what it reads is published: its timestamp is past everything in the device's history. */
  predicate Told(s: State, a: Action, dev: nat)
    requires a.Sample? && dev < |s.devices|
  {
    a.read.Stamped? && a.read.ended > Latest(s.devices[dev].log) && a.read.readOk && a.read.evaluated > 0
  }

  predicate SilentRead(s: State, a: Action, dev: nat, bank: nat) {
    ReadsBank(s, a, dev, bank) && !Told(s, a, dev)
  }

  /** This step refuses the bank in a rotation. */
  predicate RefusesBank(s: State, a: Action, dev: nat, bank: nat) {
    && a.Try? && s.worker.Rotating? && s.worker.phase.Trying? && s.worker.at == dev < |s.devices|
    && var d := s.devices[dev];
       && d.active < |d.banks| && s.worker.phase.offset <= |d.banks| && bank < |d.banks|
       && Candidate(d, s.worker.phase.offset) == bank && Eligible(d.banks[bank]) && !a.enable.StartedAt?
  }

  /** Silent reads of the bank in a row, over the run so far. */
  ghost function Streak(states: seq<State>, actions: seq<Action>, dev: nat, bank: nat, k: nat): nat
    requires k <= |actions| < |states|
  {
    if k == 0 then 0
    else if SilentRead(states[k - 1], actions[k - 1], dev, bank) then Streak(states, actions, dev, bank, k - 1) + 1
    else if ReadsBank(states[k - 1], actions[k - 1], dev, bank) then 0
    else Streak(states, actions, dev, bank, k - 1)
  }

  /** The read that ends at step k is the third silent one of its bank in a row. */
  ghost predicate ThirdInARow(states: seq<State>, actions: seq<Action>, dev: nat, bank: nat, k: nat)
    requires k < |actions| < |states|
  {
    SilentRead(states[k], actions[k], dev, bank) && Streak(states, actions, dev, bank, k) == 2
  }

  /** A bank that is on was last read, or opened, at the latest timestamp of the history. */
  predicate ReadUpToDate(d: Device) {
    d.active < |d.banks| && d.banks[d.active].enabled ==> d.banks[d.active].lastRead == Latest(d.log)
  }

  predicate AllUpToDate(s: State) { forall i :: 0 <= i < |s.devices| ==> ReadUpToDate(s.devices[i]) }

  lemma {:induction false} SelectedIsUpToDate(banks: seq<Bank>, i: nat, answers: seq<EnableAnswer>)
    requires i <= |banks| == |answers| && forall k :: 0 <= k < |banks| ==> !banks[k].enabled
    requires forall k :: 0 <= k < |banks| ==> banks[k].failures == 0 && !banks[k].disabled
    ensures var d := SelectFrom(banks, i, answers);
            && ReadUpToDate(d) && |d.banks| == |banks|
            && forall k :: 0 <= k < |d.banks| ==> d.banks[k].failures == 0 && !d.banks[k].disabled
    decreases |banks| - i
  {
    if i < |banks| && !EnableBank(banks[i], answers[i]).1 {
      SelectedIsUpToDate(banks[i := EnableBank(banks[i], answers[i]).0], i + 1, answers);
    }
  }

  lemma StartsUpToDate(d: Device)
    requires StartsAs(d)
    ensures ReadUpToDate(d) && forall k :: 0 <= k < |d.banks| ==> d.banks[k].failures == 0 && !d.banks[k].disabled
  {
    var available: seq<bool>, answers: seq<EnableAnswer> :|
      |available| == |answers| &&
      (d == Device(false, 0, Fresh(available), []) || d == SelectFrom(Fresh(available), 0, answers));
    SelectedIsUpToDate(Fresh(available), 0, answers);
  }

  lemma SampleStaysUpToDate(d: Device, read: ReadAnswer)
    requires ReadUpToDate(d)
    ensures ReadUpToDate(SampleDevice(d, read).0)
  {}

  lemma TurnStaysUpToDate(d: Device, read: ReadAnswer, offset: nat, enable: EnableAnswer)
    requires DeviceOk(d) && ReadUpToDate(d) && d.active < |d.banks|
    ensures ReadUpToDate(FinalRead(d, read)) && ReadUpToDate(CloseActive(d))
  {}

  lemma TryStaysUpToDate(d: Device, offset: nat, enable: EnableAnswer)
    requires BetweenBanks(d) && offset <= |d.banks|
    ensures ReadUpToDate(TryCandidate(d, offset, enable).0)
  {}

  lemma StepStaysUpToDate(s: State, a: Action)
    requires Inv(s) && Enabled(s, a) && AllUpToDate(s)
    ensures AllUpToDate(Apply(s, a))
  {
    if a.Sample? {
      SampleStaysUpToDate(s.devices[s.worker.dev], a.read);
    } else if a.Tail? && s.devices[s.worker.at].ready {
      TurnStaysUpToDate(s.devices[s.worker.at], a.read, 0, Refused);
    } else if a.Switch? {
      TurnStaysUpToDate(s.devices[s.worker.at], NoStamp, 0, Refused);
    } else if a.Try? && s.worker.phase.offset <= |s.devices[s.worker.at].banks| {
      TryStaysUpToDate(s.devices[s.worker.at], s.worker.phase.offset, a.enable);
    }
  }

  lemma {:induction false} RunStaysUpToDate(states: seq<State>, actions: seq<Action>, k: nat)
    requires IsRun(states, actions) && k < |states|
    ensures AllUpToDate(states[k])
    decreases k
  {
    if k == 0 {
      forall i | 0 <= i < |states[0].devices| ensures ReadUpToDate(states[0].devices[i]) {
        StartsUpToDate(states[0].devices[i]);
      }
    } else {
      RunStaysUpToDate(states, actions, k - 1);
      RunKeepsInv(states, actions, k - 1);
      assert StepAt(states, actions, k - 1);
      StepStaysUpToDate(states[k - 1], actions[k - 1]);
    }
  }

  // ---- the history of a device ----

  /** What a read adds to the history: from the latest timestamp to its own, when that is later,
      whether or not the counters could be read. */
  function Stretch(d: Device, read: ReadAnswer): seq<Event> {
    if read.Stamped? && read.ended > Latest(d.log) then [Window(d.active, Latest(d.log), read.ended)] else []
  }

  lemma ReadsAreStretches(d: Device, read: ReadAnswer)
    requires DeviceOk(d) && ReadUpToDate(d)
    ensures SampleDevice(d, read).0.log == d.log + if InUse(d) then Stretch(d, read) else []
    ensures d.ready ==> FinalRead(d, read).log == d.log + if InUse(d) then Stretch(d, read) else []
    ensures d.ready ==> CloseActive(d).log == d.log + [Closed(d.active)]
  {}

  lemma TriesAreOpenings(d: Device, offset: nat, enable: EnableAnswer)
    requires BetweenBanks(d) && offset <= |d.banks|
    ensures TryCandidate(d, offset, enable).0.log ==
            d.log + if Eligible(d.banks[Candidate(d, offset)]) && enable.StartedAt?
                    then [Opened(Candidate(d, offset), enable.at)] else []
  {}

  /** What a step adds to the history of a device: a read of its bank in use adds a window, be
      it a sample or the tail read of a rotation, switching off ends the period and a
      successful enable opens the next. */
  ghost function Added(s: State, a: Action, dev: nat): seq<Event>
    requires Enabled(s, a) && dev < |s.devices|
  {
    var d := s.devices[dev];
    match a
    case Sample(read) => if s.worker.dev == dev && InUse(d) then Stretch(d, read) else []
    case Tail(read) => if s.worker.at == dev && InUse(d) then Stretch(d, read) else []
    case Switch(pushed) => if s.worker.at == dev && pushed then [Closed(d.active)] else []
    case Try(enable) =>
      if s.worker.at == dev && s.worker.phase.offset <= |d.banks| &&
         Eligible(d.banks[Candidate(d, s.worker.phase.offset)]) && enable.StartedAt?
      then [Opened(Candidate(d, s.worker.phase.offset), enable.at)] else []
    case _ => []
  }

  /** In every run the history of every device is exactly that. */
  lemma HistoryIsWhatWasAnswered(states: seq<State>, actions: seq<Action>, k: nat, dev: nat)
    requires IsRun(states, actions) && k < |actions| && dev < |states[k].devices|
    ensures Enabled(states[k], actions[k]) && dev < |states[k + 1].devices|
    ensures states[k + 1].devices[dev].log == states[k].devices[dev].log + Added(states[k], actions[k], dev)
  {
    RunKeepsInv(states, actions, k);
    RunStaysUpToDate(states, actions, k);
    assert StepAt(states, actions, k);
    StepAdds(states[k], actions[k], dev);
  }

  lemma StepAdds(s: State, a: Action, dev: nat)
    requires Inv(s) && Enabled(s, a) && AllUpToDate(s) && dev < |s.devices|
    ensures dev < |Apply(s, a).devices|
    ensures Apply(s, a).devices[dev].log == s.devices[dev].log + Added(s, a, dev)
  {
    var d := s.devices[dev];
    if a.Sample? && s.worker.dev == dev {
      ReadsAreStretches(d, a.read);
    } else if a.Tail? && s.worker.at == dev {
      ReadsAreStretches(d, a.read);
    } else if a.Switch? && s.worker.at == dev {
      ReadsAreStretches(d, NoStamp);
    } else if a.Try? && s.worker.at == dev && s.worker.phase.offset <= |d.banks| {
      TriesAreOpenings(d, s.worker.phase.offset, a.enable);
    }
  }

  // ---- the count of silent reads ----

  predicate HasBank(s: State, dev: nat, bank: nat) { dev < |s.devices| && bank < |s.devices[dev].banks| }

  /** What a sampling pass does to the failure count and the mark of a bank of its device. */
  lemma SampleCounts(d: Device, read: ReadAnswer, bank: nat)
    requires DeviceOk(d) && ReadUpToDate(d) && bank < |d.banks|
    ensures var d' := SampleDevice(d, read).0;
            var reading := InUse(d) && d.active == bank;
            var told := read.Stamped? && read.ended > Latest(d.log) && read.readOk && read.evaluated > 0;
            && |d'.banks| == |d.banks|
            && d'.banks[bank].failures ==
               (if reading && !told then d.banks[bank].failures + 1 else if reading then 0 else d.banks[bank].failures)
            && (d'.banks[bank].disabled <==> d.banks[bank].disabled || (reading && !told && d.banks[bank].failures == 2))
  {}

  /** What a rotation does to them. */
  lemma RotationCounts(d: Device, offset: nat, enable: EnableAnswer, bank: nat)
    requires BetweenBanks(d) && bank < |d.banks| && offset <= |d.banks|
    ensures var d' := TryCandidate(d, offset, enable).0;
            && |d'.banks| == |d.banks| && d'.banks[bank].failures == d.banks[bank].failures
            && (d'.banks[bank].disabled <==>
                  d.banks[bank].disabled || (Candidate(d, offset) == bank && Eligible(d.banks[bank]) && !enable.StartedAt?))
  {}

  lemma TurnCounts(d: Device, read: ReadAnswer, bank: nat)
    requires d.active < |d.banks| && bank < |d.banks|
    ensures forall d' :: d' == FinalRead(d, read) || d' == CloseActive(d) ==>
              |d'.banks| == |d.banks| && d'.banks[bank].failures == d.banks[bank].failures &&
              d'.banks[bank].disabled == d.banks[bank].disabled
  {}

  /** What one step does to the failure count and the mark of a bank. */
  lemma StepCounts(s: State, a: Action, dev: nat, bank: nat)
    requires Inv(s) && Enabled(s, a) && AllUpToDate(s) && HasBank(s, dev, bank)
    ensures HasBank(Apply(s, a), dev, bank)
    ensures var b, b' := s.devices[dev].banks[bank], Apply(s, a).devices[dev].banks[bank];
            && b'.failures == (if SilentRead(s, a, dev, bank) then b.failures + 1
                               else if ReadsBank(s, a, dev, bank) then 0 else b.failures)
            && (b'.disabled <==> b.disabled || RefusesBank(s, a, dev, bank) ||
                                 (SilentRead(s, a, dev, bank) && b.failures == 2))
  {
    var d := s.devices[dev];
    if a.Sample? && s.worker.dev == dev {
      SampleCounts(d, a.read, bank);
    } else if a.Tail? && s.worker.at == dev && d.ready {
      TurnCounts(d, a.read, bank);
    } else if a.Switch? && s.worker.at == dev {
      TurnCounts(d, NoStamp, bank);
    } else if a.Try? && s.worker.at == dev && s.worker.phase.offset <= |d.banks| {
      RotationCounts(d, s.worker.phase.offset, a.enable, bank);
    }
  }

  lemma {:induction false} FailuresAreTheStreak(states: seq<State>, actions: seq<Action>, dev: nat, bank: nat, k: nat)
    requires IsRun(states, actions) && k < |states| && HasBank(states[0], dev, bank)
    ensures HasBank(states[k], dev, bank)
    ensures states[k].devices[dev].banks[bank].failures == Streak(states, actions, dev, bank, k)
    decreases k
  {
    if k == 0 {
      StartsUpToDate(states[0].devices[dev]);
    } else {
      FailuresAreTheStreak(states, actions, dev, bank, k - 1);
      RunKeepsInv(states, actions, k - 1);
      RunStaysUpToDate(states, actions, k - 1);
      assert StepAt(states, actions, k - 1);
      StepCounts(states[k - 1], actions[k - 1], dev, bank);
    }
  }

  /** In every run a bank is given up by exactly two kinds of step: the third silent read of it
      in a row, and a rotation in which it could not be enabled. */
  lemma GivenUpExactlyWhen(states: seq<State>, actions: seq<Action>, dev: nat, bank: nat, k: nat)
    requires IsRun(states, actions) && k < |actions| && HasBank(states[0], dev, bank)
    ensures HasBank(states[k], dev, bank) && HasBank(states[k + 1], dev, bank)
    ensures !states[k].devices[dev].banks[bank].disabled && states[k + 1].devices[dev].banks[bank].disabled <==>
            ThirdInARow(states, actions, dev, bank, k) || RefusesBank(states[k], actions[k], dev, bank)
  {
    FailuresAreTheStreak(states, actions, dev, bank, k);
    FailuresAreTheStreak(states, actions, dev, bank, k + 1);
    RunKeepsInv(states, actions, k);
    RunStaysUpToDate(states, actions, k);
    assert StepAt(states, actions, k);
    StepCounts(states[k], actions[k], dev, bank);
  }

  /** And sampling raises the rotate flag exactly at such a third read. */
  lemma SamplingAsksExactlyWhen(states: seq<State>, actions: seq<Action>, k: nat)
    requires IsRun(states, actions) && k < |actions| && actions[k].Sample?
    ensures states[k + 1].rotate <==>
            states[k].rotate ||
            exists dev: nat, bank: nat :: HasBank(states[0], dev, bank) && ThirdInARow(states, actions, dev, bank, k)
  {
    RunKeepsInv(states, actions, k);
    RunStaysUpToDate(states, actions, k);
    assert StepAt(states, actions, k);
    var dev := states[k].worker.dev;
    var d := states[k].devices[dev];
    if InUse(d) {
      SameShape(states, actions, k);
      assert HasBank(states[0], dev, d.active);
      FailuresAreTheStreak(states, actions, dev, d.active, k);
      assert ReadUpToDate(d);
    }
  }

  lemma {:induction false} SameShape(states: seq<State>, actions: seq<Action>, k: nat)
    requires IsRun(states, actions) && k < |states|
    ensures |states[k].devices| == |states[0].devices|
    ensures forall dev: nat, bank: nat :: HasBank(states[k], dev, bank) <==> HasBank(states[0], dev, bank)
  {
    DegradationIsOneWay(states, actions, 0, k);
    forall dev: nat, bank: nat ensures HasBank(states[k], dev, bank) <==> HasBank(states[0], dev, bank) {
      if dev < |states[0].devices| { assert Ages(states[0].devices[dev], states[k].devices[dev]); }
    }
  }

  /** What a streak is: its last two silent reads, with no other read of the bank since. */
  lemma {:induction false} StreakIsReads(states: seq<State>, actions: seq<Action>, dev: nat, bank: nat, k: nat)
    returns (last: nat)
    requires k <= |actions| < |states| && Streak(states, actions, dev, bank, k) > 0
    ensures last < k && SilentRead(states[last], actions[last], dev, bank)
    ensures Streak(states, actions, dev, bank, last) + 1 == Streak(states, actions, dev, bank, k)
    ensures forall m :: last < m < k ==> !ReadsBank(states[m], actions[m], dev, bank)
    decreases k
  {
    if SilentRead(states[k - 1], actions[k - 1], dev, bank) {
      last := k - 1;
    } else {
      last := StreakIsReads(states, actions, dev, bank, k - 1);
    }
  }

  /** Three silent reads of the bank, and no read of it in between. */
  lemma ThreeInARow(states: seq<State>, actions: seq<Action>, dev: nat, bank: nat, k: nat) returns (i: nat, j: nat)
    requires k < |actions| < |states| && ThirdInARow(states, actions, dev, bank, k)
    ensures i < j < k && SilentRead(states[i], actions[i], dev, bank) && SilentRead(states[j], actions[j], dev, bank)
    ensures forall m :: i < m < k && m != j ==> !ReadsBank(states[m], actions[m], dev, bank)
  {
    j := StreakIsReads(states, actions, dev, bank, k);
    i := StreakIsReads(states, actions, dev, bank, j);
  }
}
