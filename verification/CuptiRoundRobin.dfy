/** Fair turns over whole runs: as long as the eligible banks of a device stay what they
    are, its rotations visit them round-robin, whatever the other devices and the requests
    do in between. */
module CuptiRoundRobin {
  import opened CuptiBanks
  import opened CuptiProtocol
  import opened CuptiTheorems

  /** Does this step take device dev's bank off, beginning a rotation of that device? */
  predicate Rotates(s: State, a: Action, dev: nat) {
    s.worker.Rotating? && s.worker.at == dev && a == Switch(true)
  }

  /** Rotations of the device begun between two moments of a run. */
  function Turns(states: seq<State>, actions: seq<Action>, dev: nat, i: nat, j: nat): nat
    requires i <= j <= |actions| && |states| == |actions| + 1
    decreases j
  {
    if i == j then 0
    else Turns(states, actions, dev, i, j - 1) + if Rotates(states[j - 1], actions[j - 1], dev) then 1 else 0
  }

  predicate Eligibles(s: State, dev: nat, ok: seq<bool>) {
    dev < |s.devices| && EligibleFlags(s.devices[dev]) == ok
  }

  /** No candidate before the offset is eligible. */
  predicate Skipped(ok: seq<bool>, a: nat, offset: nat)
    requires a < |ok| && offset <= |ok| + 1
  {
    forall o :: 1 <= o < offset ==> !ok[Ring(a, o, |ok|)]
  }

  /** The device is ready, and its active bank is `place`, or will be when the candidate loop
      under way ends. */
  predicate Heads(s: State, dev: nat, ok: seq<bool>, place: nat) {
    && Eligibles(s, dev, ok) && s.devices[dev].ready && s.devices[dev].active < |ok|
    && if InPicking(s, dev) then
         && 1 <= s.worker.phase.offset <= |ok| + 1
         && Skipped(ok, s.devices[dev].active, s.worker.phase.offset)
         && place == NextEligible(ok, s.devices[dev].active, s.worker.phase.offset)
       else place == s.devices[dev].active
  }

  /** Every bank is some candidate of the loop. */
  lemma IsCandidate(a: nat, b: nat, n: nat) returns (o: nat)
    requires a < n && b < n
    ensures 1 <= o <= n && Ring(a, o, n) == b
  {
    o := if a == b then n else Ahead(a, b, n);
  }

  /** While no eligible flag changes, a candidate is selected exactly when it is eligible. */
  lemma CandidateTurn(d: Device, offset: nat, answer: EnableAnswer, ok: seq<bool>)
    requires BetweenBanks(d) && 1 <= offset <= |d.banks|
    requires EligibleFlags(d) == ok && EligibleFlags(TryCandidate(d, offset, answer).0) == ok
    ensures var (d', selected) := TryCandidate(d, offset, answer);
            && d'.ready == d.ready && selected == ok[Ring(d.active, offset, |ok|)]
            && d'.active == if selected then Ring(d.active, offset, |ok|) else d.active
  {
    var c, d' := Candidate(d, offset), TryCandidate(d, offset, answer).0;
    assert EligibleFlags(d)[c] == Eligible(d.banks[c]);
    assert EligibleFlags(d')[c] == Eligible(d'.banks[c]);
  }

  lemma TryHeads(s: State, a: Action, dev: nat, ok: seq<bool>, place: nat, b: nat)
    requires Inv(s) && Enabled(s, a) && a.Try? && s.worker.at == dev
    requires Heads(s, dev, ok, place) && Eligibles(Apply(s, a), dev, ok) && b < |ok| && ok[b]
    ensures Heads(Apply(s, a), dev, ok, place)
  {
    var d, offset := s.devices[dev], s.worker.phase.offset;
    var o := IsCandidate(d.active, b, |ok|);
    assert offset <= o;
    CandidateTurn(d, offset, a.enable, ok);
  }

  lemma StepHeads(s: State, a: Action, dev: nat, ok: seq<bool>, place: nat, b: nat)
    requires Inv(s) && Enabled(s, a) && b < |ok| && ok[b]
    requires Heads(s, dev, ok, place) && Eligibles(Apply(s, a), dev, ok)
    ensures Heads(Apply(s, a), dev, ok, if Rotates(s, a, dev) then NextEligible(ok, place, 1) else place)
  {
    if a.Try? && s.worker.at == dev {
      TryHeads(s, a, dev, ok, place, b);
    } else if a.Sample? {
      SampleKeeps(s.devices[s.worker.dev], a.read);
    } else if a.Tail? && s.devices[s.worker.at].ready {
      CloseLeavesNone(s.devices[s.worker.at], a.read);
    }
  }

  lemma StartHeads(s: State, dev: nat, ok: seq<bool>)
    requires Inv(s) && Eligibles(s, dev, ok) && s.devices[dev].ready && !InPicking(s, dev)
    ensures s.devices[dev].active < |ok| && Heads(s, dev, ok, s.devices[dev].active)
  {
    assert DeviceOk(s.devices[dev]);
  }

  lemma RunStepHeads(
    states: seq<State>, actions: seq<Action>, dev: nat, ok: seq<bool>, b: nat, a: nat, n: nat, k: nat)
    requires IsRun(states, actions) && k < |actions| && b < |ok| && ok[b] && a < |ok|
    requires Heads(states[k], dev, ok, Walk(ok, a, n)) && Eligibles(states[k + 1], dev, ok)
    ensures Heads(states[k + 1], dev, ok, Walk(ok, a, if Rotates(states[k], actions[k], dev) then n + 1 else n))
  {
    RunKeepsInv(states, actions, k);
    assert StepAt(states, actions, k);
    StepHeads(states[k], actions[k], dev, ok, Walk(ok, a, n), b);
    WalkOnce(ok, a, n);
  }

  /** In every run: over a stretch in which the eligible banks of a ready device stay what
      they are, the active index walks around them one place per rotation of the device, and
      the device stays ready. */
  lemma {:induction false} RunRotatesRoundRobin(
    states: seq<State>, actions: seq<Action>, dev: nat, ok: seq<bool>, b: nat, i: nat, j: nat)
    requires IsRun(states, actions) && i <= j < |states|
    requires Eligibles(states[i], dev, ok) && forall k :: i <= k <= j ==> Eligibles(states[k], dev, ok)
    requires b < |ok| && ok[b] && states[i].devices[dev].ready && !InPicking(states[i], dev)
    ensures states[i].devices[dev].active < |ok|
    ensures Heads(states[j], dev, ok, Walk(ok, states[i].devices[dev].active, Turns(states, actions, dev, i, j)))
    decreases j
  {
    if i == j {
      RunKeepsInv(states, actions, i);
      StartHeads(states[i], dev, ok);
    } else {
      RunRotatesRoundRobin(states, actions, dev, ok, b, i, j - 1);
      RunStepHeads(states, actions, dev, ok, b, states[i].devices[dev].active, Turns(states, actions, dev, i, j - 1), j - 1);
    }
  }

  /** A moment at which the device has made exactly n rotations and none is under way. */
  lemma {:induction false} MomentAfter(
    states: seq<State>, actions: seq<Action>, dev: nat, n: nat, i: nat, j: nat) returns (k: nat)
    requires IsRun(states, actions) && i <= j < |states|
    requires n <= Turns(states, actions, dev, i, j)
    requires n < Turns(states, actions, dev, i, j) || !InPicking(states[j], dev)
    ensures i <= k <= j && Turns(states, actions, dev, i, k) == n && !InPicking(states[k], dev)
    decreases j
  {
    if n == Turns(states, actions, dev, i, j) {
      k := j;
    } else {
      assert StepAt(states, actions, j - 1);
      k := MomentAfter(states, actions, dev, n, i, j - 1);
    }
  }

  /** Every eligible bank gets its turn: over such a stretch with as many rotations of the
      device as the bank lies ahead on the ring, there is a moment at which that bank is the
      active one and is enabled. */
  lemma EveryEligibleBankIsVisited(
    states: seq<State>, actions: seq<Action>, dev: nat, ok: seq<bool>, b: nat, i: nat, j: nat) returns (k: nat)
    requires IsRun(states, actions) && i <= j < |states|
    requires Eligibles(states[i], dev, ok) && forall m :: i <= m <= j ==> Eligibles(states[m], dev, ok)
    requires b < |ok| && ok[b] && states[i].devices[dev].ready
    requires !InPicking(states[i], dev) && !InPicking(states[j], dev)
    requires states[i].devices[dev].active < |ok|
    requires Turns(states, actions, dev, i, j) >= Ahead(states[i].devices[dev].active, b, |ok|)
    ensures i <= k <= j && Turns(states, actions, dev, i, k) <= Ahead(states[i].devices[dev].active, b, |ok|)
    ensures dev < |states[k].devices|
    ensures var d := states[k].devices[dev]; d.ready && d.active == b < |d.banks| && d.banks[b].enabled
  {
    var a := states[i].devices[dev].active;
    EveryEligibleBankGetsATurn(ok, a, b);
    var n: nat :| n <= Ahead(a, b, |ok|) && Walk(ok, a, n) == b;
    k := MomentAfter(states, actions, dev, n, i, j);
    RunRotatesRoundRobin(states, actions, dev, ok, b, i, k);
    RunKeepsInv(states, actions, k);
  }
}
