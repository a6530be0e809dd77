/** The collector's concurrency protocol before stop is requested.  Request hooks and one
    worker share a counter, a rotate flag and the boundary mutex.  Accesses another thread
    could come between are steps of their own.  `Test` is one step, though it loads counter
    and flag and clears the flag: the worker holds the mutex there, requests write both only
    under it, and the worker's own other store is in `Sample`.  `Sample` is one step because
    the banks it reads and marks are the worker's alone and it makes at most one access to
    the flag.  CUPTI and CUDA answer each call as they please. */
module CuptiProtocol {
  import opened Basics
  import opened CuptiBanks

  type Thread = nat

  /** Where one request is in `request_begin` / `request_end`. */
  datatype Pc =
    | Idle          // outside any hook and uncounted
    | Checking      // begin: holds the mutex, about to load the counter
    | CheckingFlag  // begin: loaded counter 0, about to load the flag
    | Blocked       // begin: waiting on boundary_changed, mutex released
    | Notified      // begin: woken, must take the mutex back
    | Rechecking    // begin: holds the mutex again, about to test the predicate
    | Admitted      // begin: holds the mutex, about to increment the counter
    | Counted       // the request runs
    | Ending        // end: holds the mutex, about to decrement
    | Flagging(was: nat)  // end: decremented from `was`, about to raise the flag

  datatype Phase = TailRead | Switching | Trying(offset: nat)

  datatype Worker =
    | Sleeping            // in wait_for; it may time out at any moment
    | Sensing             // about to load the counter
    | SensingFlag         // loaded counter 0, about to load the flag
    | Sampling(dev: nat)  // loaded a nonzero counter, sampling without the mutex
    | Locking             // in rotate_at_idle_boundary, about to take the mutex
    | Testing             // holds the mutex, about to test counter and flag
    | Rotating(at: nat, phase: Phase)  // holds the mutex, switching banks

  datatype Holder = Free | ByRequest(who: Thread) | ByWorker

  datatype State = State(
    pc: map<Thread, Pc>,
    active: nat,        // active_requests, an unsigned 32-bit counter
    rotate: bool,       // rotate_requested
    lock: Holder,       // boundary_mutex
    worker: Worker,
    devices: seq<Device>,
    clock: nat)         // latest timestamp handed out by CUPTI

  const COUNTER_MODULUS: nat := 0x1_0000_0000

  datatype Action =
    | BeginLock(t: Thread) | BeginLoad(t: Thread) | BeginFlag(t: Thread)
    | Wake(t: Thread) | Relock(t: Thread) | Recheck(t: Thread) | Count(t: Thread)
    | EndLock(t: Thread) | EndStore(t: Thread) | EndFlag(t: Thread)
    | TimeOut | Sense | SenseFlag | Sample(read: ReadAnswer) | SampleDone
    | Lock | Test | Tail(read: ReadAnswer) | Switch(pushed: bool) | Try(enable: EnableAnswer) | Announce

  predicate At(s: State, t: Thread, pc: Pc) { t in s.pc && s.pc[t] == pc }

  predicate Enabled(s: State, a: Action) {
    match a
    case BeginLock(t) => At(s, t, Idle) && s.lock.Free?
    case BeginLoad(t) => At(s, t, Checking)
    case BeginFlag(t) => At(s, t, CheckingFlag)
    case Wake(t) => At(s, t, Blocked)
    case Relock(t) => At(s, t, Notified) && s.lock.Free?
    case Recheck(t) => At(s, t, Rechecking)
    case Count(t) => At(s, t, Admitted)
    case EndLock(t) => At(s, t, Counted) && s.lock.Free?
    case EndStore(t) => At(s, t, Ending)
    case EndFlag(t) => t in s.pc && s.pc[t].Flagging?
    case TimeOut => s.worker.Sleeping?
    case Sense => s.worker.Sensing?
    case SenseFlag => s.worker.SensingFlag?
    case Sample(_) => s.worker.Sampling? && s.worker.dev < |s.devices|
    case SampleDone => s.worker.Sampling? && s.worker.dev >= |s.devices|
    case Lock => s.worker.Locking? && s.lock.Free?
    case Test => s.worker.Testing?
    case Tail(_) => s.worker.Rotating? && s.worker.phase.TailRead? && s.worker.at < |s.devices|
    case Switch(_) => s.worker.Rotating? && s.worker.phase.Switching? && s.worker.at < |s.devices| &&
                      s.devices[s.worker.at].active < |s.devices[s.worker.at].banks|
    case Try(_) => s.worker.Rotating? && s.worker.phase.Trying? && s.worker.at < |s.devices| &&
                   s.devices[s.worker.at].active < |s.devices[s.worker.at].banks|
    case Announce => s.worker.Rotating? && s.worker.phase.TailRead? && s.worker.at >= |s.devices|
  }

  function Go(s: State, t: Thread, pc: Pc): State { s.(pc := s.pc[t := pc]) }

  function Apply(s: State, a: Action): State
    requires Enabled(s, a)
  {
    match a
    case BeginLock(t) => Go(s, t, Checking).(lock := ByRequest(t))
    case BeginLoad(t) => Go(s, t, if s.active == 0 then CheckingFlag else Admitted)
    case BeginFlag(t) => if s.rotate then Go(s, t, Blocked).(lock := Free) else Go(s, t, Admitted)
    case Wake(t) => Go(s, t, Notified)
    case Relock(t) => Go(s, t, Rechecking).(lock := ByRequest(t))
    case Recheck(t) => if s.rotate then Go(s, t, Blocked).(lock := Free) else Go(s, t, Admitted)
    case Count(t) => Go(s, t, Counted).(active := (s.active + 1) % COUNTER_MODULUS, lock := Free)
    case EndLock(t) => Go(s, t, Ending).(lock := ByRequest(t))
    case EndStore(t) =>
      if s.active == 0 then Go(s, t, Idle).(lock := Free)
      else Go(s, t, Flagging(s.active)).(active := s.active - 1)
    case EndFlag(t) => Go(s, t, Idle).(rotate := s.rotate || s.pc[t].was == 1, lock := Free)
    case TimeOut => s.(worker := Sensing)
    case Sense => s.(worker := if s.active != 0 then Sampling(0) else SensingFlag)
    case SenseFlag => s.(worker := if s.rotate then Locking else Sleeping)
    case Sample(read) =>
      var (d, asks) := SampleDevice(s.devices[s.worker.dev], read);
      s.(devices := s.devices[s.worker.dev := d], rotate := s.rotate || asks,
         worker := Sampling(s.worker.dev + 1), clock := ClockAfterRead(read, s.clock))
    case SampleDone => s.(worker := Sleeping)
    case Lock => s.(worker := Testing, lock := ByWorker)
    case Test =>
      if s.active != 0 || !s.rotate then s.(worker := Sleeping, lock := Free)
      else s.(rotate := false, worker := Rotating(0, TailRead))
    case Tail(read) =>
      var d := s.devices[s.worker.at];
      if !d.ready || d.active >= |d.banks| then s.(worker := Rotating(s.worker.at + 1, TailRead))
      else s.(devices := s.devices[s.worker.at := FinalRead(d, read)],
              worker := Rotating(s.worker.at, Switching), clock := ClockAfterRead(read, s.clock))
    case Switch(pushed) =>
      if !pushed then s.(worker := Rotating(s.worker.at + 1, TailRead))
      else s.(devices := s.devices[s.worker.at := CloseActive(s.devices[s.worker.at])],
              worker := Rotating(s.worker.at, Trying(1)))
    case Try(enable) =>
      var d := s.devices[s.worker.at];
      var offset := s.worker.phase.offset;
      if offset > |d.banks| then
        s.(devices := s.devices[s.worker.at := d.(ready := false)], worker := Rotating(s.worker.at + 1, TailRead))
      else
        var (d', selected) := TryCandidate(d, offset, enable);
        s.(devices := s.devices[s.worker.at := d'], clock := ClockAfterEnable(enable, s.clock),
           worker := if selected then Rotating(s.worker.at + 1, TailRead) else Rotating(s.worker.at, Trying(offset + 1)))
    case Announce =>
      s.(pc := map t | t in s.pc :: if s.pc[t].Blocked? then Notified else s.pc[t],
         lock := Free, worker := Sleeping)
  }

  ghost predicate Init(s: State) {
    && |s.pc| < COUNTER_MODULUS && (forall t :: t in s.pc ==> s.pc[t] == Idle)
    && s.active == 0 && !s.rotate && s.lock == Free && s.worker == Sleeping
    && (forall i :: 0 <= i < |s.devices| ==> StartsAs(s.devices[i]) && Latest(s.devices[i].log) <= s.clock)
  }

  // ---- the inductive invariant ----

  predicate Holds(pc: Pc) {
    pc.Checking? || pc.CheckingFlag? || pc.Rechecking? || pc.Admitted? || pc.Ending? || pc.Flagging?
  }

  /** Requests between their increment and their decrement. */
  predicate Running(pc: Pc) { pc.Counted? || pc.Ending? }

  function InFlight(pc: map<Thread, Pc>): set<Thread> { set t | t in pc && Running(pc[t]) }

  /** The last request has decremented the counter but not raised the flag yet. */
  predicate FlagPending(s: State) {
    s.lock.ByRequest? && At(s, s.lock.who, Flagging(1))
  }

  predicate LockInv(s: State) {
    && (forall t :: t in s.pc && Holds(s.pc[t]) ==> s.lock == ByRequest(t))
    && (s.lock.ByRequest? ==> s.lock.who in s.pc && Holds(s.pc[s.lock.who]))
    && (s.lock.ByWorker? <==> s.worker.Testing? || s.worker.Rotating?)
  }

  predicate FlagInv(s: State) {
    && (forall t :: t in s.pc && s.pc[t].CheckingFlag? ==> s.active == 0)
    && (forall t :: t in s.pc && s.pc[t].Admitted? && s.active == 0 ==> !s.rotate)
    && (forall t :: t in s.pc && s.pc[t].Flagging? ==> s.pc[t].was == s.active + 1)
    && (s.worker.Sampling? ==> s.active != 0 || s.rotate || FlagPending(s))
    && (s.worker.Rotating? ==> s.active == 0 && !s.rotate)
  }

  /** No lost wake-up: a blocked request implies the flag is up or being served. */
  predicate WaitInv(s: State) {
    forall t :: t in s.pc && s.pc[t].Blocked? ==> s.rotate || s.worker.Rotating?
  }

  predicate InPicking(s: State, i: nat) {
    s.worker.Rotating? && s.worker.at == i && s.worker.phase.Trying?
  }

  predicate DeviceInv(s: State) {
    && (forall i :: 0 <= i < |s.devices| ==>
          if InPicking(s, i) then BetweenBanks(s.devices[i]) else DeviceOk(s.devices[i]))
    && (s.worker.Rotating? ==>
          s.worker.at <= |s.devices| &&
          (!s.worker.phase.TailRead? ==> s.worker.at < |s.devices| && s.devices[s.worker.at].ready) &&
          (s.worker.phase.Trying? ==> 1 <= s.worker.phase.offset <= |s.devices[s.worker.at].banks| + 1))
  }

  predicate Inv(s: State) {
    && |s.pc| < COUNTER_MODULUS && s.active == |InFlight(s.pc)|
    && LockInv(s) && FlagInv(s) && WaitInv(s) && DeviceInv(s)
  }

  lemma InitHolds(s: State)
    requires Init(s)
    ensures Inv(s)
  {
    forall i | 0 <= i < |s.devices| ensures DeviceOk(s.devices[i]) { StartIsOk(s.devices[i]); }
    assert InFlight(s.pc) == {};
  }

  lemma InFlightBound(pc: map<Thread, Pc>)
    ensures |InFlight(pc)| <= |pc|
  {
    SubsetIsSmaller(InFlight(pc), pc.Keys);
  }

  predicate ByBegin(a: Action) {
    a.BeginLock? || a.BeginLoad? || a.BeginFlag? || a.Wake? || a.Relock? || a.Recheck?
  }

  predicate ByEnd(a: Action) { a.EndLock? || a.EndFlag? }

  lemma CountUp(s: State, t: Thread)
    requires Inv(s) && Enabled(s, Count(t))
    ensures var s' := Apply(s, Count(t));
            |s'.pc| == |s.pc| && s'.active == s.active + 1 == |InFlight(s'.pc)|
  {
    var pc' := s.pc[t := Counted];
    assert pc'.Keys == s.pc.Keys;
    assert InFlight(pc') == InFlight(s.pc) + {t};
    InFlightBound(pc');
  }

  lemma CountDown(s: State, t: Thread)
    requires Inv(s) && Enabled(s, EndStore(t))
    ensures var s' := Apply(s, EndStore(t));
            s.active > 0 && |s'.pc| == |s.pc| && s'.active == |InFlight(s'.pc)|
  {
    assert t in InFlight(s.pc);
    var pc' := s.pc[t := Flagging(s.active)];
    assert pc'.Keys == s.pc.Keys;
    assert InFlight(pc') == InFlight(s.pc) - {t};
  }

  lemma CountSame(pc: map<Thread, Pc>, t: Thread, next: Pc)
    requires t in pc && (Running(pc[t]) <==> Running(next))
    ensures |pc[t := next]| == |pc| && InFlight(pc[t := next]) == InFlight(pc)
  {
    assert pc[t := next].Keys == pc.Keys;
  }

  lemma BeginStep(s: State, a: Action)
    requires Inv(s) && Enabled(s, a) && ByBegin(a)
    ensures Inv(Apply(s, a))
  {
    var s' := Apply(s, a);
    CountSame(s.pc, a.t, s'.pc[a.t]);
    assert LockInv(s');
    assert FlagInv(s');
  }

  lemma CountStep(s: State, t: Thread)
    requires Inv(s) && Enabled(s, Count(t))
    ensures Inv(Apply(s, Count(t)))
  {
    CountUp(s, t);
  }

  lemma EndStoreStep(s: State, t: Thread)
    requires Inv(s) && Enabled(s, EndStore(t))
    ensures Inv(Apply(s, EndStore(t)))
  {
    CountDown(s, t);
    assert s.lock == ByRequest(t);
  }

  lemma EndStep(s: State, a: Action)
    requires Inv(s) && Enabled(s, a) && ByEnd(a)
    ensures Inv(Apply(s, a))
  {
    var s' := Apply(s, a);
    CountSame(s.pc, a.t, s'.pc[a.t]);
    assert Holds(s.pc[a.t]) ==> s.lock == ByRequest(a.t);
  }

  lemma SampleStep(s: State, a: Action)
    requires Inv(s) && Enabled(s, a) && a.Sample?
    ensures Inv(Apply(s, a))
  {
    SampleKeeps(s.devices[s.worker.dev], a.read);
    var s' := Apply(s, a);
    assert DeviceInv(s');
    assert FlagInv(s');
  }

  lemma RotationStep(s: State, a: Action)
    requires Inv(s) && Enabled(s, a) && (a.Tail? || a.Switch? || a.Try?)
    ensures Inv(Apply(s, a))
  {
    var d := s.devices[s.worker.at];
    var s' := Apply(s, a);
    if a.Tail? && d.ready {
      CloseLeavesNone(d, a.read);
    } else if a.Switch? {
      CloseLeavesNone(d, NoStamp);
    } else if a.Try? && s.worker.phase.offset <= |d.banks| {
      TryKeeps(d, s.worker.phase.offset, a.enable);
    }
    assert DeviceInv(s');
  }

  lemma AnnounceStep(s: State)
    requires Inv(s) && Enabled(s, Announce)
    ensures Inv(Apply(s, Announce))
  {
    var s' := Apply(s, Announce);
    assert s'.pc.Keys == s.pc.Keys;
    assert InFlight(s'.pc) == InFlight(s.pc);
  }

  lemma StepKeepsInv(s: State, a: Action)
    requires Inv(s) && Enabled(s, a)
    ensures Inv(Apply(s, a))
  {
    if ByBegin(a) { BeginStep(s, a); }
    else if ByEnd(a) { EndStep(s, a); }
    else if a.Count? { CountStep(s, a.t); }
    else if a.EndStore? { EndStoreStep(s, a.t); }
    else if a.Sample? { SampleStep(s, a); }
    else if a.Tail? || a.Switch? || a.Try? { RotationStep(s, a); }
    else if a.Announce? { AnnounceStep(s); }
  }
}
