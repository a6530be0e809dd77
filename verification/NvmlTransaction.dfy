/** The settings transaction of the NVML tool and the multi-GPU boot profile built on it.
    NVML is the environment: a setter may fail and may write any value, failing or not; a
    getter may fail but never lies; each setter touches its own setting only. */
module NvmlTransaction {
  import opened Basics

  datatype Kind = Hbm | Core | Power
  datatype Change = Change(kind: Kind, previous: int, requested: int)

  datatype Settings = Settings(hbm: int, core: int, power: int) {
    function Get(k: Kind): int {
      match k case Hbm => hbm case Core => core case Power => power
    }

    function With(k: Kind, v: int): Settings {
      match k case Hbm => this.(hbm := v) case Core => this.(core := v) case Power => this.(power := v)
    }
  }

  /** What NVML reports as the range of a setting, the power limit in milliwatts. */
  datatype Limits = Limits(low: int, high: int)

  /** How a tool invocation ended.  `Refused` is any error before the first setter. */
  datatype Outcome = Refused | DryRun | Applied | Aborted(rollbackOk: bool)

  predicate Succeeded(o: Outcome) { o.DryRun? || o.Applied? }

  /** The exit status of an invocation.  Success needs a good outcome, but also that its
      report could be printed and that NVML shut down; both come after the last write, and a
      failure there undoes nothing. */
  predicate ExitsZero(o: Outcome, finished: bool) { Succeeded(o) && finished }

  const HBM_OFFSET: int := 138
  const HBM_CLOCK: int := 877

  predicate Planned(cs: seq<Change>, s: Settings) {
    forall i :: 0 <= i < |cs| ==> cs[i].previous == s.Get(cs[i].kind)
  }

  predicate OneEach(cs: seq<Change>) {
    forall i, j :: 0 <= i < j < |cs| ==> cs[i].kind != cs[j].kind
  }

  /** Settings that agree outside the kinds of the given changes. */
  predicate SameElsewhere(s: Settings, s': Settings, cs: seq<Change>) {
    forall k :: (forall i :: 0 <= i < |cs| ==> cs[i].kind != k) ==> s'.Get(k) == s.Get(k)
  }

  /** Every change of a plan, or every one of its first n, is in force. */
  predicate InForce(s: Settings, cs: seq<Change>, n: nat)
    requires n <= |cs|
  {
    forall i :: 0 <= i < n ==> s.Get(cs[i].kind) == cs[i].requested
  }

  predicate Restored(s: Settings, cs: seq<Change>) {
    forall i :: 0 <= i < |cs| ==> s.Get(cs[i].kind) == cs[i].previous
  }

  lemma AllBack(s: Settings, s': Settings, cs: seq<Change>)
    requires Planned(cs, s) && Restored(s', cs) && SameElsewhere(s, s', cs)
    ensures s' == s
  {
    forall k ensures s'.Get(k) == s.Get(k) {
      if i :| 0 <= i < |cs| && cs[i].kind == k { }
    }
    assert s'.Get(Hbm) == s.Get(Hbm) && s'.Get(Core) == s.Get(Core) && s'.Get(Power) == s.Get(Power);
  }

  /** A setter call: the GPU, the setting and the value asked for. */
  type Call = (string, Kind, int)

  /** The calls that apply a plan, in order. */
  function Writes(u: string, cs: seq<Change>): (calls: seq<Call>)
    ensures |calls| == |cs|
  {
    seq(|cs|, i requires 0 <= i < |cs| => (u, cs[i].kind, cs[i].requested))
  }

  /** The calls that undo it, last change first. */
  function Undos(u: string, cs: seq<Change>): (calls: seq<Call>)
    ensures |calls| == |cs|
  {
    seq(|cs|, i requires 0 <= i < |cs| => (u, cs[|cs| - 1 - i].kind, cs[|cs| - 1 - i].previous))
  }

  /** The calls of an execution that ended with r: all writes, or the writes up to the one that
      failed and the undoing of exactly those, or none. */
  ghost predicate CallsOf(u: string, cs: seq<Change>, r: Outcome, calls: seq<Call>)
  {
    match r
    case Applied => calls == Writes(u, cs)
    case Aborted(_) => exists n {:trigger cs[..n]} :: 0 <= n <= |cs| && calls == Writes(u, cs[..n]) + Undos(u, cs[..n])
    case _ => calls == []
  }

  /** Reading k is the first of the profile's clock, and none before it failed. */
  predicate Reached(readings: nat -> Option<int>, k: nat) {
    readings(k) == Some(HBM_CLOCK) && forall j: nat :: j < k ==> readings(j).Some? && readings(j) != Some(HBM_CLOCK)
  }

  /** The profile's clock is among the 21 readings. */
  predicate ClockReached(readings: nat -> Option<int>) { exists k :: 0 <= k < 21 && Reached(readings, k) }

  /** All GPUs of the machine by UUID, their settings, and the setter calls made.  `troubles`
      counts what the environment did wrong: failed, wrote another value, or could not be read;
      `incomplete` counts rollbacks that failed. */
  class Host {
    var gpus: map<string, Settings>
    var calls: seq<Call>
    ghost var troubles: nat
    ghost var incomplete: nat
    const defaultPower: map<string, int>
    const limits: (string, Kind) -> Limits

    constructor (gpus: map<string, Settings>, defaultPower: map<string, int>, limits: (string, Kind) -> Limits)
      ensures this.gpus == gpus && this.defaultPower == defaultPower && this.limits == limits && calls == []
    {
      this.gpus, this.defaultPower, this.limits, calls := gpus, defaultPower, limits, [];
      troubles, incomplete := 0, 0;
    }

    /** A value within the limits of the GPU's setting; clock offsets may bypass them. */
    predicate Allowed(u: string, k: Kind, v: int, bypass: bool)
    {
      limits(u, k).low <= v <= limits(u, k).high || (bypass && k != Power)
    }

    /** Only GPU u may differ from what it was. */
    twostate predicate OnlyChanged(u: string)
      reads this
    {
      u in old(gpus) && u in gpus && gpus == old(gpus)[u := gpus[u]] && old(calls) <= calls && old(troubles) <= troubles
    }

    /** The environment did nothing wrong. */
    twostate predicate Smooth()
      reads this
    {
      troubles == old(troubles)
    }

    /** Something that may go wrong. */
    method Succeeds() returns (ok: bool)
      modifies this`troubles
      ensures troubles >= old(troubles) && (Smooth() <==> ok)
    {
      ok := *;
      if !ok { troubles := troubles + 1; }
    }

    method CallSetter(u: string, k: Kind, v: int) returns (ok: bool)
      requires u in gpus
      modifies this
      ensures OnlyChanged(u) && exists w :: gpus[u] == old(gpus)[u].With(k, w)
      ensures calls == old(calls) + [(u, k, v)] && incomplete == old(incomplete)
      ensures Smooth() <==> ok && gpus[u].Get(k) == v
    {
      var w: int := *;
      gpus := gpus[u := gpus[u].With(k, w)];
      calls := calls + [(u, k, v)];
      ok := *;
      if !ok || w != v { troubles := troubles + 1; }
    }

    method CallGetter(u: string, k: Kind) returns (r: Option<int>)
      requires u in gpus
      modifies this`troubles
      ensures troubles >= old(troubles) && (Smooth() <==> r.Some?)
      ensures r.Some? ==> r.value == gpus[u].Get(k)
    {
      var ok := Succeeds();
      if !ok { return None; }
      return Some(gpus[u].Get(k));
    }

    /** `one`: write one setting and read it back. */
    method One(u: string, c: Change) returns (ok: bool)
      requires u in gpus
      modifies this
      ensures OnlyChanged(u) && forall k :: k != c.kind ==> gpus[u].Get(k) == old(gpus)[u].Get(k)
      ensures ok ==> gpus[u].Get(c.kind) == c.requested
      ensures calls == old(calls) + [(u, c.kind, c.requested)] && incomplete == old(incomplete)
      ensures Smooth() <==> ok
    {
      var set_ := CallSetter(u, c.kind, c.requested);
      if !set_ { return false; }
      var got := CallGetter(u, c.kind);
      return got == Some(c.requested);
    }

    /** `rollback`: rewrite the previous values, last change first, noting every failure. */
    method Rollback(u: string, cs: seq<Change>, ghost planTime: Settings) returns (ok: bool)
      requires u in gpus && Planned(cs, planTime)
      modifies this
      ensures OnlyChanged(u) && SameElsewhere(old(gpus)[u], gpus[u], cs)
      ensures ok ==> Restored(gpus[u], cs)
      ensures calls == old(calls) + Undos(u, cs) && incomplete == old(incomplete)
      ensures Smooth() <==> ok
    {
      ok := true;
      var i := |cs|;
      while i > 0
        invariant 0 <= i <= |cs| && u in gpus
        invariant OnlyChanged(u) && SameElsewhere(old(gpus)[u], gpus[u], cs)
        invariant calls == old(calls) + Undos(u, cs)[..|cs| - i] && incomplete == old(incomplete)
        invariant Smooth() <==> ok
        invariant ok ==> forall j :: i <= j < |cs| ==> gpus[u].Get(cs[j].kind) == cs[j].previous
      {
        i := i - 1;
        ghost var before := gpus[u];
        var one := One(u, Change(cs[i].kind, cs[i].previous, cs[i].previous));
        ok := ok && one;
        if ok {
          forall j | i <= j < |cs| ensures gpus[u].Get(cs[j].kind) == cs[j].previous {
            if cs[j].kind != cs[i].kind { assert gpus[u].Get(cs[j].kind) == before.Get(cs[j].kind); }
          }
        }
      }
    }

    /** `wait_hbm_clock`: up to 21 readings of the effective clock, given up at the first one
        that fails. */
    method WaitForClock(readings: nat -> Option<int>) returns (ok: bool)
      ensures ok <==> ClockReached(readings)
    {
      for attempt := 0 to 21
        invariant forall j :: 0 <= j < attempt ==> readings(j).Some? && readings(j) != Some(HBM_CLOCK)
      {
        if readings(attempt).None? { return false; }
        if readings(attempt).value == HBM_CLOCK {
          assert Reached(readings, attempt);
          return true;
        }
      }
      return false;
    }

    /** `exec`, with the clock readings when the clock is to be waited for: a dry run calls no
        setter; success means every requested value was read back; a failure that reports a complete rollback has restored every setting,
        including the one whose write failed. */
    method Exec(u: string, cs: seq<Change>, apply: bool, clock: Option<nat -> Option<int>>) returns (r: Outcome)
      requires u in gpus && Planned(cs, gpus[u])
      modifies this
      ensures OnlyChanged(u) && SameElsewhere(old(gpus)[u], gpus[u], cs)
      ensures r.DryRun? <==> !apply
      ensures r.DryRun? ==> gpus == old(gpus)
      ensures r.Applied? && OneEach(cs) ==> InForce(gpus[u], cs, |cs|)
      ensures r == Aborted(true) ==> gpus == old(gpus)
      ensures !r.Refused?
      ensures CallsOf(u, cs, r, calls[|old(calls)|..])
      ensures incomplete == old(incomplete) + if r == Aborted(false) then 1 else 0
      ensures Smooth() && (apply && clock.Some? ==> ClockReached(clock.value)) ==> r == if apply then Applied else DryRun
      ensures Succeeded(r) ==> Smooth()
      ensures r.Applied? && clock.Some? ==> ClockReached(clock.value)
    {
      if !apply { return DryRun; }
      ghost var planTime := gpus[u];
      var i := 0;
      while i < |cs|
        invariant i <= |cs| && u in gpus
        invariant OnlyChanged(u) && SameElsewhere(planTime, gpus[u], cs[..i])
        invariant OneEach(cs) ==> InForce(gpus[u], cs, i)
        invariant calls == old(calls) + Writes(u, cs[..i]) && incomplete == old(incomplete) && Smooth()
      {
        var ok := One(u, cs[i]);
        assert calls == old(calls) + Writes(u, cs[..i + 1]) by { OneMoreWrite(u, cs, i, old(calls)); }
        assert SameElsewhere(planTime, gpus[u], cs[..i + 1]) by { Widened(planTime, gpus[u], cs, i); }
        i := i + 1;
        if !ok {
          var back := RollbackAll(u, cs, i, planTime, old(calls));
          return Aborted(back);
        }
      }
      assert cs[..|cs|] == cs;
      if clock.Some? {
        var reached := WaitForClock(clock.value);
        if !reached {
          var back := RollbackAll(u, cs, |cs|, planTime, old(calls));
          return Aborted(back);
        }
      }
      return Applied;
    }

    /** A rollback of the first n changes, all that were affected, puts the GPU back to its
        plan-time settings. */
    method RollbackAll(u: string, cs: seq<Change>, n: nat, ghost planTime: Settings, ghost before: seq<Call>)
      returns (ok: bool)
      requires u in gpus && n <= |cs| && Planned(cs, planTime) && SameElsewhere(planTime, gpus[u], cs[..n])
      requires calls == before + Writes(u, cs[..n])
      modifies this
      ensures OnlyChanged(u) && SameElsewhere(planTime, gpus[u], cs)
      ensures ok ==> gpus[u] == planTime
      ensures CallsOf(u, cs, Aborted(ok), calls[|before|..]) && before <= calls
      ensures incomplete == old(incomplete) + if ok then 0 else 1
      ensures Smooth() <==> ok
    {
      var affected := cs[..n];
      ok := Rollback(u, affected, planTime);
      if ok { AllBack(planTime, gpus[u], affected); } else { incomplete := incomplete + 1; }
      assert calls[|before|..] == Writes(u, cs[..n]) + Undos(u, cs[..n]);
      NarrowIsSame(planTime, gpus[u], cs, n);
    }

    // ---- plans ----

    /** `po` and `pp`: read the current value and check the request against the limits NVML
        reports; clock offsets may bypass the limits, the power limit may not. */
    method PlanChange(u: string, k: Kind, requested: int, bypass: bool) returns (c: Option<Change>)
      requires u in gpus
      modifies this`troubles
      ensures c.Some? ==> c.value == Change(k, gpus[u].Get(k), requested) && Allowed(u, k, requested, bypass)
      ensures troubles >= old(troubles) && (c.Some? <==> Smooth() && Allowed(u, k, requested, bypass))
    {
      var current := CallGetter(u, k);
      if current.None? { return None; }
      var readable := Succeeds();
      if !readable { return None; }
      var range := limits(u, k);
      if (requested < range.low || requested > range.high) && !(bypass && !k.Power?) { return None; }
      return Some(Change(k, current.value, requested));
    }

    /** All requests are within limits. */
    predicate AllAllowed(u: string, wanted: seq<(Kind, int)>, bypass: bool)
    {
      forall i :: 0 <= i < |wanted| ==> Allowed(u, wanted[i].0, wanted[i].1, bypass)
    }

    /** Plans for several requests, in order; the first failure refuses the whole command. */
    method PlanAll(u: string, wanted: seq<(Kind, int)>, bypass: bool) returns (cs: Option<seq<Change>>)
      requires u in gpus
      modifies this`troubles
      ensures cs.Some? ==> |cs.value| == |wanted| && Planned(cs.value, gpus[u]) && AllAllowed(u, wanted, bypass)
      ensures cs.Some? ==> forall i :: 0 <= i < |wanted| ==>
                cs.value[i].kind == wanted[i].0 && cs.value[i].requested == wanted[i].1
      ensures troubles >= old(troubles) && (cs.Some? <==> Smooth() && AllAllowed(u, wanted, bypass))
    {
      var done: seq<Change> := [];
      for i := 0 to |wanted|
        invariant |done| == i && Planned(done, gpus[u]) && Smooth()
        invariant forall j :: 0 <= j < i ==> done[j].kind == wanted[j].0 && done[j].requested == wanted[j].1 &&
                                             Allowed(u, wanted[j].0, wanted[j].1, bypass)
      {
        var c := PlanChange(u, wanted[i].0, wanted[i].1, bypass);
        if c.None? { return None; }
        done := done + [c.value];
      }
      return Some(done);
    }

    /** A whole command on one GPU: look the GPU up, check its identity, plan, execute. */
    method Command(u: string, wanted: seq<(Kind, int)>, bypass: bool, apply: bool, clock: Option<nat -> Option<int>>)
      returns (r: Outcome)
      requires forall i, j :: 0 <= i < j < |wanted| ==> wanted[i].0 != wanted[j].0
      modifies this
      ensures u !in old(gpus) ==> r.Refused?
      ensures r.Refused? || r.DryRun? || r == Aborted(true) ==> gpus == old(gpus)
      ensures r.Refused? || r.DryRun? ==> calls == old(calls)
      ensures !r.Refused? ==> (r.DryRun? <==> !apply)
      ensures u in old(gpus) ==> OnlyChanged(u)
      ensures u in old(gpus) ==> forall k :: (forall i :: 0 <= i < |wanted| ==> wanted[i].0 != k) ==>
                gpus[u].Get(k) == old(gpus)[u].Get(k)
      ensures r.Applied? ==> forall i :: 0 <= i < |wanted| ==> gpus[u].Get(wanted[i].0) == wanted[i].1
      ensures !r.Refused? ==> AllAllowed(u, wanted, bypass)
      ensures incomplete == old(incomplete) + if r == Aborted(false) then 1 else 0
      ensures troubles >= old(troubles) && (Succeeded(r) ==> Smooth())
      ensures r.Applied? && clock.Some? ==> ClockReached(clock.value)
      ensures Smooth() && (apply && clock.Some? ==> ClockReached(clock.value)) ==>
                r == if u !in old(gpus) || !AllAllowed(u, wanted, bypass) then Refused
                     else if apply then Applied else DryRun
    {
      if u !in gpus { return Refused; }
      var identified := Succeeds();
      if !identified { return Refused; }
      var plan := PlanAll(u, wanted, bypass);
      if plan.None? { return Refused; }
      r := Exec(u, plan.value, apply, clock);
    }

    /** `profile --name hbm-877` */
    method Profile(u: string, apply: bool, readings: nat -> Option<int>) returns (r: Outcome)
      modifies this
      ensures u !in old(gpus) ==> r.Refused?
      ensures r.Refused? || r.DryRun? || r == Aborted(true) ==> gpus == old(gpus)
      ensures r.Refused? || r.DryRun? ==> calls == old(calls)
      ensures !r.Refused? ==> (r.DryRun? <==> !apply)
      ensures u in old(gpus) ==> OnlyChanged(u) && gpus[u].core == old(gpus)[u].core && gpus[u].power == old(gpus)[u].power
      ensures r.Applied? ==> gpus[u].hbm == HBM_OFFSET
      ensures incomplete == old(incomplete) + if r == Aborted(false) then 1 else 0
      ensures troubles >= old(troubles) && (Succeeded(r) ==> Smooth())
      ensures r.Applied? ==> ClockReached(readings)
      ensures Smooth() && (apply ==> ClockReached(readings)) ==>
                r == if u !in old(gpus) then Refused else if apply then Applied else DryRun
    {
      var wanted := [(Hbm, HBM_OFFSET)];
      assert wanted[0].0 == Hbm;
      r := Command(u, wanted, true, apply, Some(readings));
      if u in gpus { assert gpus[u].Get(Core) == old(gpus)[u].Get(Core) && gpus[u].Get(Power) == old(gpus)[u].Get(Power); }
      if r.Applied? { assert gpus[u].Get(wanted[0].0) == wanted[0].1; }
    }

    /** What a tune command asks for may be set. */
    predicate MayTune(u: string, hbm: Option<int>, core: Option<int>, watts: Option<nat>, bypass: bool)
    {
      && (hbm.Some? ==> Allowed(u, Hbm, hbm.value, bypass))
      && (core.Some? ==> Allowed(u, Core, core.value, bypass))
      && (watts.Some? ==> limits(u, Power).low <= 1000 * watts.value <= limits(u, Power).high)
    }

    /** `tune`: any of the three settings, at least one. */
    method Tune(u: string, hbm: Option<int>, core: Option<int>, watts: Option<nat>, bypass: bool, apply: bool)
      returns (r: Outcome)
      modifies this
      ensures u !in old(gpus) || (hbm.None? && core.None? && watts.None?) ==> r.Refused?
      ensures r.Refused? || r.DryRun? || r == Aborted(true) ==> gpus == old(gpus)
      ensures r.Refused? || r.DryRun? ==> calls == old(calls)
      ensures !r.Refused? ==> (r.DryRun? <==> !apply)
      ensures u in old(gpus) ==> OnlyChanged(u)
      ensures u in old(gpus) && hbm.None? ==> gpus[u].hbm == old(gpus)[u].hbm
      ensures u in old(gpus) && core.None? ==> gpus[u].core == old(gpus)[u].core
      ensures u in old(gpus) && watts.None? ==> gpus[u].power == old(gpus)[u].power
      ensures r.Applied? ==> (hbm.Some? ==> gpus[u].hbm == hbm.value) && (core.Some? ==> gpus[u].core == core.value)
      ensures r.Applied? ==> (watts.Some? ==> gpus[u].power == 1000 * watts.value)
      ensures !r.Refused? ==> MayTune(u, hbm, core, watts, bypass)
      ensures incomplete == old(incomplete) + if r == Aborted(false) then 1 else 0
      ensures troubles >= old(troubles) && (Succeeded(r) ==> Smooth())
      ensures Smooth() ==> r == if u !in old(gpus) || (hbm.None? && core.None? && watts.None?) ||
                                   !MayTune(u, hbm, core, watts, bypass) then Refused
                                else if apply then Applied else DryRun
    {
      if hbm.None? && core.None? && watts.None? { return Refused; }
      var h := if hbm.Some? then [(Hbm, hbm.value)] else [];
      var c := if core.Some? then [(Core, core.value)] else [];
      var p := if watts.Some? then [(Power, 1000 * watts.value)] else [];
      var all := h + c + p;
      assert AllAllowed(u, all, bypass) <==> MayTune(u, hbm, core, watts, bypass) by {
        assert hbm.Some? ==> all[0] == (Hbm, hbm.value);
        assert core.Some? ==> all[|h|] == (Core, core.value);
        assert watts.Some? ==> all[|h| + |c|] == (Power, 1000 * watts.value);
      }
      r := Command(u, all, bypass, apply, None);
      Listed(if u in gpus then gpus[u] else Settings(0, 0, 0), if u in old(gpus) then old(gpus)[u] else Settings(0, 0, 0), h, c, p);
    }

    /** The default power limit is known and within the constraints. */
    predicate HasDefault(u: string)
    {
      u in defaultPower && limits(u, Power).low <= defaultPower[u] <= limits(u, Power).high
    }

    /** `reset`: zero offsets and, when asked, the default power limit. */
    method Reset(u: string, hbm: bool, core: bool, power: bool, apply: bool) returns (r: Outcome)
      modifies this
      ensures u !in old(gpus) || (!hbm && !core && !power) ==> r.Refused?
      ensures r.Refused? || r.DryRun? || r == Aborted(true) ==> gpus == old(gpus)
      ensures r.Refused? || r.DryRun? ==> calls == old(calls)
      ensures !r.Refused? ==> (r.DryRun? <==> !apply)
      ensures u in old(gpus) ==> OnlyChanged(u)
      ensures u in old(gpus) && !hbm ==> gpus[u].hbm == old(gpus)[u].hbm
      ensures u in old(gpus) && !core ==> gpus[u].core == old(gpus)[u].core
      ensures u in old(gpus) && !power ==> gpus[u].power == old(gpus)[u].power
      ensures r.Applied? ==> (hbm ==> gpus[u].hbm == 0) && (core ==> gpus[u].core == 0)
      ensures !r.Refused? && power ==> HasDefault(u)
      ensures r.Applied? && power ==> gpus[u].power == defaultPower[u]
      ensures incomplete == old(incomplete) + if r == Aborted(false) then 1 else 0
      ensures troubles >= old(troubles) && (Succeeded(r) ==> Smooth())
      ensures Smooth() ==> r == if u !in old(gpus) || (!hbm && !core && !power) || (power && !HasDefault(u)) then Refused
                                else if apply then Applied else DryRun
    {
      if !hbm && !core && !power { return Refused; }
      if power && u !in defaultPower { return Refused; }
      var h := if hbm then [(Hbm, 0)] else [];
      var c := if core then [(Core, 0)] else [];
      var p := if power then [(Power, defaultPower[u])] else [];
      var all := h + c + p;
      assert AllAllowed(u, all, true) <==> !power || HasDefault(u) by {
        assert power ==> all[|h| + |c|] == (Power, defaultPower[u]);
      }
      r := Command(u, all, true, apply, None);
      Listed(if u in gpus then gpus[u] else Settings(0, 0, 0), if u in old(gpus) then old(gpus)[u] else Settings(0, 0, 0), h, c, p);
    }
  }

  lemma OneMoreWrite(u: string, cs: seq<Change>, i: nat, before: seq<Call>)
    requires i < |cs|
    ensures (before + Writes(u, cs[..i])) + [(u, cs[i].kind, cs[i].requested)] == before + Writes(u, cs[..i + 1])
  {
    assert Writes(u, cs[..i]) + [(u, cs[i].kind, cs[i].requested)] == Writes(u, cs[..i + 1]);
  }

  /** Equal outside the first n changes is equal outside all of them. */
  lemma NarrowIsSame(s: Settings, s': Settings, cs: seq<Change>, n: nat)
    requires n <= |cs| && SameElsewhere(s, s', cs[..n])
    ensures SameElsewhere(s, s', cs)
  {}

  /** Reading a request list of at most one entry per kind back by kind. */
  lemma Listed(s: Settings, s0: Settings, h: seq<(Kind, int)>, c: seq<(Kind, int)>, p: seq<(Kind, int)>)
    requires |h| <= 1 && |c| <= 1 && |p| <= 1
    requires (|h| == 1 ==> h[0].0 == Hbm) && (|c| == 1 ==> c[0].0 == Core) && (|p| == 1 ==> p[0].0 == Power)
    ensures (forall k :: (forall i :: 0 <= i < |h + c + p| ==> (h + c + p)[i].0 != k) ==> s.Get(k) == s0.Get(k)) ==>
            (|h| == 0 ==> s.hbm == s0.hbm) && (|c| == 0 ==> s.core == s0.core) && (|p| == 0 ==> s.power == s0.power)
    ensures (forall i :: 0 <= i < |h + c + p| ==> s.Get((h + c + p)[i].0) == (h + c + p)[i].1) ==>
            (|h| == 1 ==> s.hbm == h[0].1) && (|c| == 1 ==> s.core == c[0].1) && (|p| == 1 ==> s.power == p[0].1)
  {
    var all := h + c + p;
    assert s.Get(Hbm) == s.hbm && s.Get(Core) == s.core && s.Get(Power) == s.power;
    assert s0.Get(Hbm) == s0.hbm && s0.Get(Core) == s0.core && s0.Get(Power) == s0.power;
    if |h| == 1 { assert all[0] == h[0]; }
    if |c| == 1 { assert all[|h|] == c[0]; }
    if |p| == 1 { assert all[|h| + |c|] == p[0]; }
  }

  /** Writing the kind of cs[i] leaves settings equal outside cs[..i + 1]. */
  lemma Widened(s: Settings, s': Settings, cs: seq<Change>, i: nat)
    requires i < |cs|
    requires forall k :: (forall j :: 0 <= j < i ==> cs[j].kind != k) && k != cs[i].kind ==> s'.Get(k) == s.Get(k)
    ensures SameElsewhere(s, s', cs[..i + 1])
  {
    var shorter := cs[..i + 1];
    forall k | forall j :: 0 <= j < |shorter| ==> shorter[j].kind != k ensures s'.Get(k) == s.Get(k) {
      assert shorter[i].kind != k;
      assert forall j :: 0 <= j < i ==> cs[j] == shorter[j];
    }
  }
}
