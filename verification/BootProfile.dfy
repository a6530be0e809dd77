/** The boot script that applies the 877 MHz profile to a list of GPUs: a transaction over
    several GPUs on top of the tool's own transactions, with a cleanup trap. */
module BootProfile {
  import opened Basics
  import opened NvmlTransaction

  /** `Fail` says whether every rollback that a tool invocation attempted was complete and
      whether every cleanup reset took effect. */
  datatype BootResult = Pass | Fail(rolledBack: bool, cleaned: bool)

  predicate Distinct(uuids: seq<string>) {
    forall i, j :: 0 <= i < j < |uuids| ==> uuids[i] != uuids[j]
  }

  /** What a reset by the cleanup leaves: offset 0, the core offset untouched, and the
      default power limit when the script manages power. */
  predicate IsReset(before: Settings, after: Settings, power: bool, defaultPower: int) {
    after.hbm == 0 && after.core == before.core && after.power == if power then defaultPower else before.power
  }

  /** The apply loop touched only GPUs it lists as applied, and of those never the core. */
  predicate OnlyApplied(before: map<string, Settings>, after: map<string, Settings>, applied: seq<string>, power: bool) {
    && after.Keys == before.Keys
    && (forall u :: u in before && u !in applied ==> after[u] == before[u])
    && (forall u :: u in before ==> after[u].core == before[u].core)
    && (!power ==> forall u :: u in before ==> after[u].power == before[u].power)
  }

  /** Duplicate check and dry run of the strict gates, before any GPU is changed. */
  method CheckAll(host: Host, uuids: seq<string>, wellFormed: string -> bool) returns (ok: bool)
    modifies host
    ensures host.gpus == old(host.gpus) && host.calls == old(host.calls) && host.incomplete == old(host.incomplete)
    ensures ok ==> Distinct(uuids) && forall u :: u in uuids ==> wellFormed(u) && u in host.gpus
    ensures host.troubles >= old(host.troubles) && (ok ==> host.Smooth())
    ensures host.Smooth() ==> (ok <==> Distinct(uuids) && forall u :: u in uuids ==> wellFormed(u) && u in host.gpus)
  {
    var seen: set<string> := {};
    for i := 0 to |uuids|
      invariant host.gpus == old(host.gpus) && host.calls == old(host.calls) && host.incomplete == old(host.incomplete)
      invariant host.Smooth()
      invariant seen == set j | 0 <= j < i :: uuids[j]
      invariant forall j, k :: 0 <= j < k < i ==> uuids[j] != uuids[k]
      invariant forall j :: 0 <= j < i ==> wellFormed(uuids[j]) && uuids[j] in host.gpus
    {
      if !wellFormed(uuids[i]) || uuids[i] in seen {
        assert uuids[i] in uuids;
        return false;
      }
      seen := seen + {uuids[i]};
      var dry := host.Profile(uuids[i], false, _ => None);
      var finished := host.Succeeds();
      if !ExitsZero(dry, finished) {
        assert uuids[i] in uuids;
        return false;
      }
    }
    return true;
  }

  /** The configured power limit may be set. */
  predicate MayLimit(host: Host, u: string, watts: Option<nat>)
  {
    watts.Some? ==> host.limits(u, Power).low <= 1000 * watts.value <= host.limits(u, Power).high
  }

  /** One turn of the apply loop: the profile, then the power limit when configured.
      `finished` says whether the profile invocation, having done its work, also reported it
      and shut NVML down.  `listed` says whether the turn got as far as adding u to the
      applied list; `stranded`, that u has the profile but is not on the list. */
  method ApplyOne(host: Host, u: string, watts: Option<nat>, finished: bool, readings: nat -> Option<int>)
    returns (ok: bool, rolledBack: bool, listed: bool, ghost stranded: bool)
    requires u in host.gpus
    modifies host
    ensures u in host.gpus && host.gpus == old(host.gpus)[u := host.gpus[u]]
    ensures host.gpus[u].core == old(host.gpus)[u].core
    ensures watts.None? ==> host.gpus[u].power == old(host.gpus)[u].power
    ensures ok ==> rolledBack && listed && host.gpus[u].hbm == HBM_OFFSET
    ensures ok && watts.Some? ==> host.gpus[u].power == 1000 * watts.value
    ensures stranded ==> !finished && rolledBack && !listed && !ok
    ensures stranded ==> host.gpus[u] == old(host.gpus)[u].(hbm := HBM_OFFSET)
    ensures !listed && rolledBack && !stranded ==> host.gpus == old(host.gpus)
    ensures rolledBack <==> host.incomplete == old(host.incomplete)
    ensures host.incomplete >= old(host.incomplete) && host.troubles >= old(host.troubles)
    ensures ok ==> host.Smooth() && ClockReached(readings) && finished
    ensures host.Smooth() && ClockReached(readings) ==>
              rolledBack && listed == finished && (ok <==> finished && MayLimit(host, u, watts)) && stranded == !finished
    ensures listed || stranded ==> ClockReached(readings)
  {
    var r := host.Profile(u, true, readings);
    if !ExitsZero(r, finished) { return false, r != Aborted(false), false, r.Applied?; }
    if watts.Some? {
      var t := host.Tune(u, None, None, watts, false, true);
      var tuned := host.Succeeds();
      if !ExitsZero(t, tuned) { return false, t != Aborted(false), true, false; }
    }
    return true, true, true, false;
  }

  /** The GPUs without the effect on the stranded one. */
  function Aside(before: map<string, Settings>, after: map<string, Settings>, stranded: Option<string>): map<string, Settings>
  {
    if stranded.Some? && stranded.value in before then after[stranded.value := before[stranded.value]] else after
  }

  /** u is the one GPU left with the profile and off the list, because its invocation did not
      finish. */
  predicate IsStranded(before: map<string, Settings>, after: map<string, Settings>, u: string, finishes: string -> bool) {
    u in before && u in after && !finishes(u) && after[u] == before[u].(hbm := HBM_OFFSET)
  }

  /** The environment lets u have the profile: its clock settles, the invocation finishes and
      the power limit may be set. */
  ghost predicate Granted(
    host: Host, u: string, watts: Option<nat>, finishes: string -> bool, readings: string -> (nat -> Option<int>))
  {
    ClockReached(readings(u)) && finishes(u) && MayLimit(host, u, watts)
  }

  method ApplyAll(host: Host, uuids: seq<string>, watts: Option<nat>, finishes: string -> bool, readings: string -> (nat -> Option<int>))
    returns (ok: bool, rolledBack: bool, applied: seq<string>, ghost stranded: Option<string>)
    requires Distinct(uuids) && forall u :: u in uuids ==> u in host.gpus
    modifies host
    ensures applied <= uuids && host.gpus.Keys == old(host.gpus).Keys
    ensures stranded.Some? ==> rolledBack && stranded.value in uuids && stranded.value !in applied
    ensures stranded.Some? ==> IsStranded(old(host.gpus), host.gpus, stranded.value, finishes)
    ensures rolledBack ==>
              OnlyApplied(old(host.gpus), Aside(old(host.gpus), host.gpus, stranded), applied, watts.Some?)
    ensures forall u :: u in host.gpus && u !in uuids ==> host.gpus[u] == old(host.gpus)[u]
    ensures ok ==> rolledBack && applied == uuids && stranded.None?
    ensures rolledBack <==> host.incomplete == old(host.incomplete)
    ensures host.incomplete >= old(host.incomplete) && host.troubles >= old(host.troubles)
    ensures ok ==> host.Smooth() && forall u :: u in uuids ==> Granted(host, u, watts, finishes, readings)
    ensures host.Smooth() && (forall u :: u in uuids ==> ClockReached(readings(u))) ==>
              rolledBack && (ok <==> forall u :: u in uuids ==> Granted(host, u, watts, finishes, readings))
    ensures ok ==> forall u :: u in uuids ==> HasProfile(host.gpus[u], watts)
  {
    applied, rolledBack, stranded := [], true, None;
    for i := 0 to |uuids|
      invariant applied == uuids[..i] && rolledBack && host.gpus.Keys == old(host.gpus).Keys && stranded.None?
      invariant OnlyApplied(old(host.gpus), host.gpus, applied, watts.Some?)
      invariant host.incomplete == old(host.incomplete) && host.Smooth()
      invariant forall j :: 0 <= j < i ==> Granted(host, uuids[j], watts, finishes, readings)
      invariant forall j :: 0 <= j < i ==> HasProfile(host.gpus[uuids[j]], watts)
    {
      var u := uuids[i];
      ghost var left: bool;
      var one, back, listed: bool;
      one, back, listed, left := ApplyOne(host, u, watts, finishes(u), readings(u));
      if listed { applied := applied + [u]; assert applied == uuids[..i + 1]; }
      if !one {
        assert u in uuids;
        stranded := if left then Some(u) else None;
        return false, back, applied, stranded;
      }
    }
    return true, true, applied, None;
  }

  /** The verification loops: what the telemetry shows must be the profile.  Offsets and
      power limits are read honestly; the effective clock is whatever the hardware says. */
  method VerifyAll(host: Host, uuids: seq<string>, watts: Option<nat>) returns (ok: bool, clocks: map<string, int>)
    requires forall u :: u in uuids ==> u in host.gpus
    modifies host`troubles
    ensures ok ==> forall u :: u in uuids ==> HasProfile(host.gpus[u], watts) && u in clocks && clocks[u] == HBM_CLOCK
    ensures host.troubles >= old(host.troubles) && (ok ==> host.Smooth())
    ensures host.Smooth() ==> (ok <==> forall u :: u in uuids ==> HasProfile(host.gpus[u], watts))
  {
    clocks := map[];
    for i := 0 to |uuids|
      invariant host.Smooth()
      invariant forall j :: 0 <= j < i ==>
        host.gpus[uuids[j]].hbm == HBM_OFFSET && uuids[j] in clocks && clocks[uuids[j]] == HBM_CLOCK
    {
      assert uuids[i] in uuids;
      var readable := host.Succeeds();
      if !readable { return false, clocks; }
      var mhz := ReadClock(host);
      if host.gpus[uuids[i]].hbm != HBM_OFFSET || mhz != HBM_CLOCK { return false, clocks; }
      clocks := clocks[uuids[i] := mhz];
    }
    if watts.Some? {
      var readable := host.Succeeds();
      if !readable { return false, clocks; }
      for i := 0 to |uuids|
        invariant forall j :: 0 <= j < i ==> host.gpus[uuids[j]].power == 1000 * watts.value
      {
        assert uuids[i] in uuids;
        if host.gpus[uuids[i]].power != 1000 * watts.value { return false, clocks; }
      }
    }
    return true, clocks;
  }

  /** The effective clock is whatever the hardware says; any but the profile's is a trouble. */
  method ReadClock(host: Host) returns (mhz: int)
    modifies host`troubles
    ensures host.troubles >= old(host.troubles) && (host.Smooth() <==> mhz == HBM_CLOCK)
  {
    mhz := *;
    if mhz != HBM_CLOCK { host.troubles := host.troubles + 1; }
  }

  /** The profile, with the configured power limit. */
  predicate HasProfile(s: Settings, watts: Option<nat>) {
    s.hbm == HBM_OFFSET && (watts.Some? ==> s.power == 1000 * watts.value)
  }

  /** The trap: reset every applied GPU, carrying on past failures. */
  method Cleanup(host: Host, applied: seq<string>, power: bool) returns (cleaned: bool)
    requires Distinct(applied) && forall u :: u in applied ==> u in host.gpus
    modifies host
    ensures host.gpus.Keys == old(host.gpus).Keys
    ensures forall u :: u in host.gpus && u !in applied ==> host.gpus[u] == old(host.gpus)[u]
    ensures cleaned ==> forall u :: u in applied ==> ResetAt(host, old(host.gpus), u, power)
    ensures host.troubles >= old(host.troubles) && host.incomplete >= old(host.incomplete)
    ensures host.Smooth() ==> (cleaned <==> !power || forall u :: u in applied ==> host.HasDefault(u))
  {
    cleaned := true;
    for i := 0 to |applied|
      invariant host.gpus.Keys == old(host.gpus).Keys
      invariant forall u :: u in host.gpus && u !in applied[..i] ==> host.gpus[u] == old(host.gpus)[u]
      invariant cleaned ==> forall j :: 0 <= j < i ==> ResetAt(host, old(host.gpus), applied[j], power)
      invariant host.troubles >= old(host.troubles) && host.incomplete >= old(host.incomplete)
      invariant host.Smooth() ==> (cleaned <==> !power || forall j :: 0 <= j < i ==> host.HasDefault(applied[j]))
    {
      assert applied[i] !in applied[..i];
      assert applied[..i + 1] == applied[..i] + [applied[i]];
      var r := host.Reset(applied[i], true, false, power, true);
      cleaned := cleaned && r.Applied?;
    }
  }

  /** u has the settings a reset leaves. */
  predicate ResetAt(host: Host, before: map<string, Settings>, u: string, power: bool)
    reads host
  {
    && u in before && u in host.gpus && (power ==> u in host.defaultPower)
    && IsReset(before[u], host.gpus[u], power, if power then host.defaultPower[u] else 0)
  }

  /** u has its initial settings or the reset ones. */
  predicate InitialOrReset(host: Host, before: map<string, Settings>, u: string, power: bool)
    reads host
  {
    u in before && u in host.gpus && (host.gpus[u] == before[u] || ResetAt(host, before, u, power))
  }

  /** The whole script.  PASS: every listed GPU was read at offset 138 and 877 MHz, with the
      configured power limit.  After a failure whose rollbacks and resets all succeeded,
      every GPU has its initial settings or the reset ones, except one whose profile
      invocation applied the profile and then did not finish: it is not on the list the trap
      works through and keeps the profile.  That is a partly applied profile exactly when the
      GPU did not have it to begin with.  GPUs that are not listed are never touched. */
  method Boot(
    host: Host, uuids: seq<string>, watts: Option<nat>, ready: bool, wellFormed: string -> bool,
    finishes: string -> bool, readings: string -> (nat -> Option<int>))
    returns (r: BootResult, clocks: map<string, int>, ghost stranded: Option<string>)
    modifies host
    ensures host.gpus.Keys == old(host.gpus).Keys
    ensures forall u :: u in host.gpus && u !in uuids ==> host.gpus[u] == old(host.gpus)[u]
    ensures r.Pass? ==> forall u :: u in uuids ==>
              u in host.gpus && HasProfile(host.gpus[u], watts) && u in clocks && clocks[u] == HBM_CLOCK
    ensures r.Pass? ==> host.Smooth() && forall u :: u in uuids ==> ClockReached(readings(u))
    ensures host.Smooth() && (forall u :: u in uuids ==> ClockReached(readings(u))) ==>
              (r.Pass? <==> ready && Distinct(uuids) && forall u :: u in uuids ==>
                              wellFormed(u) && u in old(host.gpus) && Granted(host, u, watts, finishes, readings))
    ensures !ready || !Distinct(uuids) ==> r == Fail(true, true) && host.calls == old(host.calls)
    ensures r.Fail? && host.incomplete == old(host.incomplete) ==> r.rolledBack
    ensures r.Fail? && host.Smooth() && (forall u :: u in uuids ==> ClockReached(readings(u))) &&
            (watts.Some? ==> forall u :: u in uuids ==> host.HasDefault(u)) ==>
              r == Fail(true, true)
    ensures stranded.Some? ==> r.Fail? && stranded.value in uuids
    ensures stranded.Some? ==> IsStranded(old(host.gpus), host.gpus, stranded.value, finishes)
    ensures r == Fail(true, true) ==> forall u :: u in host.gpus && stranded != Some(u) ==>
              InitialOrReset(host, old(host.gpus), u, watts.Some?)
    ensures r == Fail(true, true) ==>
              ((forall u :: u in host.gpus ==> InitialOrReset(host, old(host.gpus), u, watts.Some?)) <==>
               stranded.None? || old(host.gpus)[stranded.value].hbm == HBM_OFFSET)
  {
    clocks, stranded := map[], None;
    if !ready { return Fail(true, true), clocks, stranded; }
    var checked := CheckAll(host, uuids, wellFormed);
    if !checked { return Fail(true, true), clocks, stranded; }
    var ok, rolledBack: bool, applied: seq<string>;
    ok, rolledBack, applied, stranded := ApplyAll(host, uuids, watts, finishes, readings);
    if ok { ok, clocks := VerifyAll(host, uuids, watts); }
    if ok { return Pass, clocks, None; }
    ghost var mid := host.gpus;
    assert Distinct(applied) && forall u :: u in applied ==> u in uuids;
    var cleaned := Cleanup(host, applied, watts.Some?);
    r := Fail(rolledBack, cleaned);
    if r == Fail(true, true) {
      forall u | u in host.gpus && stranded != Some(u) ensures InitialOrReset(host, old(host.gpus), u, watts.Some?) {
        assert Aside(old(host.gpus), mid, stranded)[u] == mid[u];
        if u in applied { assert ResetAt(host, mid, u, watts.Some?); }
      }
    }
  }
}
