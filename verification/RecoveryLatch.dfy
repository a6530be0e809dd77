/** The failed-boot latch of the recovery coordinator, over any serial sequence of runs
    with a crash, an exception or a guest reboot possible at every step. */
module RecoveryLatch {
  import opened Basics

  /** What the guest answers to the boot-id query: its identifier, or text that fails the
      identifier pattern.  Reboots give fresh identifiers, so a counter stands for them. */
  datatype BootText = Valid(id: nat) | Malformed(text: string)

  /** Contents of the state file. */
  datatype StateFile = Absent | InProgress(boot: BootText) | Failed(boot: BootText) | Passed(boot: BootText)

  function FailedBoot(f: StateFile): Option<BootText> {
    match f
    case InProgress(b) => Some(b)
    case Failed(b) => Some(b)
    case _ => None
  }

  /** An empty string counts as no failed boot. */
  predicate Truthy(b: Option<BootText>) { b.Some? && b.value != Malformed("") }

  datatype Event =
    | Invoked(run: nat, boot: nat, retry: bool)  // the guest helper was started
    | WrotePass(run: nat)
    | LostLatch(run: nat)  // a malformed identifier was recorded as the failed boot

  /** Where the current run is; a write first stages a temporary file, then replaces. */
  datatype Pc =
    | Off | Inspecting | Asking | Deciding | ReadingAer
    | Latching(staged: bool) | Preparing | Invoking | Verifying
    | Passing(staged: bool) | Reporting | Failing(staged: bool)

  datatype State = State(
    file: StateFile, guest: nat, pc: Pc, run: nat, retry: bool, check: bool,
    previous: StateFile, boot: Option<BootText>, trace: seq<Event>)

  datatype Action =
    | Start(retry: bool, check: bool)
    | Inspect(settled: bool)
    | Ask(answer: Option<BootText>)
    | Decide | ReadAer | Prepare | Invoke | Verify
    | StageWrite | Commit | Report
    | Raise   // any exception, including the readiness deadline
    | Crash | Reboot

  predicate Writes(pc: Pc) { pc.Latching? || pc.Passing? || pc.Failing? }

  predicate Enabled(s: State, a: Action) {
    match a
    case Start(_, _) => s.pc.Off?
    case Inspect(_) => s.pc.Inspecting?
    case Ask(answer) => s.pc.Asking? && (answer.Some? && answer.value.Valid? ==> answer.value.id == s.guest)
    case Decide => s.pc.Deciding?
    case ReadAer => s.pc.ReadingAer?
    case Prepare => s.pc.Preparing?
    case Invoke => s.pc.Invoking? && s.boot.Some? && s.boot.value.Valid?
    case Verify => s.pc.Verifying?
    case StageWrite => Writes(s.pc) && !s.pc.staged && s.boot.Some?
    case Commit => Writes(s.pc) && s.pc.staged && s.boot.Some?
    case Report => s.pc.Reporting?
    case Raise => !s.pc.Off?
    case Crash => !s.pc.Off?
    case Reboot => true
  }

  function Apply(s: State, a: Action): State
    requires Enabled(s, a)
  {
    match a
    case Start(retry, check) =>
      s.(pc := Inspecting, run := s.run + 1, retry := retry, check := check, boot := None)
    case Inspect(settled) =>
      var s' := s.(previous := s.file);
      if settled && !Truthy(FailedBoot(s.file)) then s'.(pc := Off)
      else if s.check then s'.(pc := Off)
      else s'.(pc := Asking)
    case Ask(answer) =>
      if answer.None? then s
      else s.(boot := answer, pc := if answer.value.Valid? then Deciding else Asking)
    case Decide =>
      if FailedBoot(s.previous) == s.boot && !s.retry then s.(pc := Off) else s.(pc := ReadingAer)
    case ReadAer => s.(pc := Latching(false))
    case Prepare => s.(pc := Invoking)
    case Invoke => s.(pc := Verifying, trace := s.trace + [Invoked(s.run, s.boot.value.id, s.retry)])
    case Verify => s.(pc := Passing(false))
    case StageWrite =>
      s.(pc := match s.pc case Latching(_) => Latching(true) case Passing(_) => Passing(true) case _ => Failing(true))
    case Commit =>
      match s.pc {
        case Latching(_) => s.(file := InProgress(s.boot.value), pc := Preparing)
        case Passing(_) => s.(file := Passed(s.boot.value), pc := Reporting, trace := s.trace + [WrotePass(s.run)])
        case _ =>
          s.(file := Failed(s.boot.value), pc := Off,
             trace := if s.boot.value.Malformed? then s.trace + [LostLatch(s.run)] else s.trace)
      }
    case Report => s.(pc := Off)
    case Raise =>
      if s.pc.Failing? || s.boot.None? then s.(pc := Off) else s.(pc := Failing(false))
    case Crash => s.(pc := Off)
    case Reboot => s.(guest := s.guest + 1)
  }

  predicate Init(s: State) {
    s.pc.Off? && s.trace == [] && s.boot.None?
  }

  // ---- histories ----

  ghost predicate IsHistory(states: seq<State>, actions: seq<Action>) {
    && |states| == |actions| + 1 && Init(states[0])
    && forall k {:trigger StepAt(states, actions, k)} :: 0 <= k < |actions| ==> StepAt(states, actions, k)
  }

  ghost predicate StepAt(states: seq<State>, actions: seq<Action>, k: nat)
    requires k < |actions| < |states|
  {
    Enabled(states[k], actions[k]) && states[k + 1] == Apply(states[k], actions[k])
  }

  /** The boot whose helper invocation has not been followed by its run's pass. */
  function Open(trace: seq<Event>): Option<nat> {
    if trace != [] && trace[|trace| - 1].Invoked? then Some(trace[|trace| - 1].boot) else None
  }

  /** Latch discipline of a trace: an invocation right after an unpassed one under the same
      boot id was an explicit retry, and a pass belongs to the run just invoked. */
  predicate Disciplined(trace: seq<Event>) {
    forall j :: 0 <= j < |trace| ==> DisciplinedAt(trace, j)
  }

  predicate DisciplinedAt(trace: seq<Event>, j: nat)
    requires j < |trace|
  {
    match trace[j]
    case Invoked(_, boot, retry) => j > 0 && trace[j - 1].Invoked? && trace[j - 1].boot == boot ==> retry
    case WrotePass(run) => j > 0 && trace[j - 1].Invoked? && trace[j - 1].run == run
    case LostLatch(_) => true
  }

  /** Invocations are made under ids that never go back. */
  predicate Monotone(trace: seq<Event>) {
    forall i, j :: 0 <= i < j < |trace| && trace[i].Invoked? && trace[j].Invoked? ==> trace[i].boot <= trace[j].boot
  }

  // ---- invariant ----

  predicate BootWithin(b: Option<BootText>, low: nat, high: nat) {
    b.Some? && b.value.Valid? && low <= b.value.id <= high
  }

  /** Has the current run recorded a valid boot id? */
  predicate Recorded(pc: Pc) {
    pc.Deciding? || pc.ReadingAer? || pc.Latching? || pc.Preparing? || pc.Invoking? || pc.Verifying? || pc.Passing? ||
    pc.Reporting?
  }

  predicate BeforeInvoke(pc: Pc) {
    pc.Asking? || pc.Deciding? || pc.ReadingAer? || pc.Latching? || pc.Preparing? || pc.Invoking?
  }

  /** The current run got past its latch check. */
  predicate Cleared(pc: Pc) { pc.ReadingAer? || pc.Latching? || pc.Preparing? || pc.Invoking? }

  predicate AfterInvoke(pc: Pc) { pc.Verifying? || pc.Passing? }

  function BootOr(s: State): nat {
    if s.boot.Some? && s.boot.value.Valid? then s.boot.value.id else s.guest
  }

  /** Identifiers in play: recorded ids come from the guest's past, invocations were made
      under recorded ids, and the current run's id is at least as new as any before it. */
  predicate IdInv(s: State) {
    && (Recorded(s.pc) ==> s.boot.Some? && s.boot.value.Valid?)
    && (s.pc.Inspecting? ==> s.boot.None?)
    && (s.boot.Some? && s.boot.value.Valid? ==> s.boot.value.id <= s.guest)
    && (forall k :: 0 <= k < |s.trace| && s.trace[k].Invoked? ==> s.trace[k].boot <= s.guest)
    && (!s.pc.Off? ==> forall k :: 0 <= k < |s.trace| && s.trace[k].Invoked? ==> s.trace[k].boot <= BootOr(s))
    && (s.boot.Some? && s.boot.value.Malformed? && !s.pc.Off? ==> s.pc.Asking? || s.pc.Failing?)
  }

  predicate TraceInv(s: State) {
    && Disciplined(s.trace) && Monotone(s.trace)
    && (AfterInvoke(s.pc) ==>
          s.trace != [] && s.trace[|s.trace| - 1].Invoked? && s.trace[|s.trace| - 1].run == s.run)
    && (s.pc.Preparing? || s.pc.Invoking? || AfterInvoke(s.pc) ==>
          s.boot.Some? && s.file == InProgress(s.boot.value))
  }

  /** An open invocation keeps the file latched under its id or a newer one, and the
      current run has seen a latch at least that new. */
  predicate LatchInv(s: State) {
    && (Open(s.trace).Some? ==> BootWithin(FailedBoot(s.file), Open(s.trace).value, s.guest))
    && (Open(s.trace).Some? && BeforeInvoke(s.pc) ==>
          BootWithin(FailedBoot(s.previous), Open(s.trace).value, BootOr(s)))
    && (Cleared(s.pc) ==> FailedBoot(s.previous) != s.boot || s.retry)
  }

  /** A run that only checks never gets past its inspection. */
  predicate CheckInv(s: State) { s.check && !s.pc.Off? ==> s.pc.Inspecting? && s.boot.None? }

  predicate Inv(s: State) { IdInv(s) && TraceInv(s) && LatchInv(s) && CheckInv(s) }

  lemma TraceStep(trace: seq<Event>, e: Event)
    requires Disciplined(trace) && DisciplinedAt(trace + [e], |trace|)
    ensures Disciplined(trace + [e])
  {
    var longer := trace + [e];
    forall j | 0 <= j < |longer| ensures DisciplinedAt(longer, j) {
      if j < |trace| { assert DisciplinedAt(trace, j); }
    }
  }

  lemma InvokeIsAllowed(s: State)
    requires Inv(s) && Enabled(s, Invoke)
    ensures Inv(Apply(s, Invoke))
  {
    var e := Invoked(s.run, s.boot.value.id, s.retry);
    if Open(s.trace) == Some(e.boot) {
      assert FailedBoot(s.previous) == s.boot;
    }
    TraceStep(s.trace, e);
  }

  lemma PassIsOwn(s: State)
    requires Inv(s) && Enabled(s, Commit) && s.pc.Passing?
    ensures Inv(Apply(s, Commit))
  {
    TraceStep(s.trace, WrotePass(s.run));
  }

  lemma WriteKeepsInv(s: State)
    requires Inv(s) && Enabled(s, Commit) && !s.pc.Passing?
    ensures Inv(Apply(s, Commit))
  {
    var s' := Apply(s, Commit);
    if s.boot.value.Malformed? {
      TraceStep(s.trace, LostLatch(s.run));
    } else {
      assert s'.trace == s.trace;
      assert Open(s.trace).Some? ==> s.trace[|s.trace| - 1].boot <= BootOr(s);
    }
  }

  predicate Quiet(a: Action) { !a.Invoke? && !a.Commit? }

  lemma QuietIds(s: State, a: Action)
    requires Inv(s) && Enabled(s, a) && Quiet(a)
    ensures IdInv(Apply(s, a))
  {}

  lemma QuietCheck(s: State, a: Action)
    requires Inv(s) && Enabled(s, a)
    ensures CheckInv(Apply(s, a))
  {}

  lemma QuietLatch(s: State, a: Action)
    requires Inv(s) && Enabled(s, a) && Quiet(a)
    ensures LatchInv(Apply(s, a)) && TraceInv(Apply(s, a))
  {
    assert Apply(s, a).trace == s.trace;
  }

  lemma StepKeepsInv(s: State, a: Action)
    requires Inv(s) && Enabled(s, a)
    ensures Inv(Apply(s, a))
  {
    if a.Invoke? { InvokeIsAllowed(s); }
    else if a.Commit? && s.pc.Passing? { PassIsOwn(s); }
    else if a.Commit? { WriteKeepsInv(s); }
    else { QuietIds(s, a); QuietLatch(s, a); QuietCheck(s, a); }
  }

  lemma {:induction false} HistoryKeepsInv(states: seq<State>, actions: seq<Action>, k: nat)
    requires IsHistory(states, actions) && k < |states|
    ensures Inv(states[k])
    decreases k
  {
    if k > 0 {
      HistoryKeepsInv(states, actions, k - 1);
      assert StepAt(states, actions, k - 1);
      StepKeepsInv(states[k - 1], actions[k - 1]);
    }
  }

  /** In every history: if the helper is started without a retry under a boot id it was
      started under before, then what happened last is that the run that started it last,
      under that same id, wrote "pass", or that a malformed identifier was recorded. */
  lemma SecondInvocationNeedsAPass(states: seq<State>, actions: seq<Action>, k: nat, i: nat, j: nat)
    requires IsHistory(states, actions) && k < |states|
    requires i < j < |states[k].trace|
    requires var t := states[k].trace; t[i].Invoked? && t[j].Invoked? && t[i].boot == t[j].boot && !t[j].retry
    ensures var t := states[k].trace;
            || t[j - 1].LostLatch?
            || (j - 2 >= i && t[j - 2].Invoked? && t[j - 2].boot == t[i].boot && t[j - 1] == WrotePass(t[j - 2].run))
  {
    HistoryKeepsInv(states, actions, k);
    var t := states[k].trace;
    assert DisciplinedAt(t, j) && DisciplinedAt(t, j - 1);
    assert t[j - 1].WrotePass? ==> t[i].boot <= t[j - 2].boot <= t[j].boot;
  }

  /** Whether the earlier run itself passed: exactly unless it was followed by an explicit
      retry or by a malformed record. */
  lemma EarlierRunPassedUnlessRetried(states: seq<State>, actions: seq<Action>, k: nat, i: nat, j: nat)
    requires IsHistory(states, actions) && k < |states|
    requires i < j < |states[k].trace|
    requires var t := states[k].trace; t[i].Invoked? && t[j].Invoked? && t[i].boot == t[j].boot && !t[j].retry
    ensures var t := states[k].trace;
            t[i + 1] == WrotePass(t[i].run) <==> !t[i + 1].LostLatch? && !(t[i + 1].Invoked? && t[i + 1].retry)
  {
    HistoryKeepsInv(states, actions, k);
    var t := states[k].trace;
    assert DisciplinedAt(t, i + 1);
    assert t[i + 1].Invoked? && i + 1 < j ==> t[i].boot <= t[i + 1].boot <= t[j].boot;
  }

  // ---- runs that must not act ----

  lemma {:induction false} RunsGoUp(states: seq<State>, actions: seq<Action>, i: nat, j: nat)
    requires IsHistory(states, actions) && i <= j < |states|
    ensures states[i].run <= states[j].run
    decreases j
  {
    if i < j {
      RunsGoUp(states, actions, i, j - 1);
      assert StepAt(states, actions, j - 1);
    }
  }

  /** A run started with `check` never writes the state file and never starts the helper:
      from its start until the next run starts, file and trace stay what they are. */
  lemma {:induction false} CheckRunsOnlyLook(states: seq<State>, actions: seq<Action>, i: nat, j: nat)
    requires IsHistory(states, actions) && i <= j < |states|
    requires states[i].check && states[j].run == states[i].run
    ensures states[j].check && states[j].file == states[i].file && states[j].trace == states[i].trace
    decreases j
  {
    if i < j {
      RunsGoUp(states, actions, i, j - 1);
      assert StepAt(states, actions, j - 1);
      CheckRunsOnlyLook(states, actions, i, j - 1);
      HistoryKeepsInv(states, actions, j - 1);
    }
  }

  lemma {:induction false} EndedRunsRest(states: seq<State>, actions: seq<Action>, i: nat, j: nat)
    requires IsHistory(states, actions) && i <= j < |states|
    requires states[i].pc.Off? && states[j].run == states[i].run
    ensures states[j].pc.Off? && states[j].file == states[i].file && states[j].trace == states[i].trace
    decreases j
  {
    if i < j {
      RunsGoUp(states, actions, i, j - 1);
      assert StepAt(states, actions, j - 1);
      EndedRunsRest(states, actions, i, j - 1);
    }
  }

  /** The file holds no failed boot, or an empty text for one, which counts as none. */
  predicate NothingFailed(file: StateFile)
  {
    FailedBoot(file) == None || FailedBoot(file) == Some(Malformed(""))
  }

  /** A run that only checks, or that sees every link settled with no failed boot on record, is
      over with its inspection: it never writes the file nor starts the helper. */
  lemma SettledRunsOnlyLook(states: seq<State>, actions: seq<Action>, i: nat, j: nat, settled: bool)
    requires IsHistory(states, actions) && i < j < |states| && actions[i] == Inspect(settled)
    requires states[i].check || (settled && NothingFailed(states[i].file))
    requires states[j].run == states[i].run
    ensures states[j].pc.Off? && states[j].file == states[i].file && states[j].trace == states[i].trace
  {
    assert StepAt(states, actions, i);
    EndedRunsRest(states, actions, i + 1, j);
  }

  /** Every other run goes on to ask the guest, in particular one that sees settled links after
      a failed boot. */
  lemma OtherRunsGoOn(states: seq<State>, actions: seq<Action>, i: nat, settled: bool)
    requires IsHistory(states, actions) && i < |actions| && actions[i] == Inspect(settled)
    requires !states[i].check && !(settled && NothingFailed(states[i].file))
    ensures states[i + 1].pc.Asking? && states[i + 1].previous == states[i].file
  {
    assert StepAt(states, actions, i);
  }

  // ---- both exceptions occur ----

  function Perform(s: State, actions: seq<Action>): Option<State>
    decreases |actions|
  {
    if actions == [] then Some(s)
    else if Enabled(s, actions[0]) then Perform(Apply(s, actions[0]), actions[1..])
    else None
  }

  /** A run that is asked with nothing but malformed answers until its deadline. */
  function MalformedRun(text: string): seq<Action> {
    [Start(false, false), Inspect(false), Ask(Some(Malformed(text))), Raise] + [StageWrite, Commit]
  }

  /** A run under boot b, up to starting the helper. */
  function InvokingRun(b: nat, retry: bool): seq<Action> {
    [Start(retry, false), Inspect(false), Ask(Some(Valid(b))), Decide] + [ReadAer, StageWrite, Commit, Prepare] + [Invoke]
  }

  /** How a run that started the helper may end. */
  const FAILING: seq<Action> := [Raise, StageWrite, Commit]
  const PASSING: seq<Action> := [Verify, StageWrite, Commit, Report]

  lemma {:induction false} PerformAll(s: State, first: seq<Action>, rest: seq<Action>)
    requires Perform(s, first).Some?
    ensures Perform(s, first + rest) == Perform(Perform(s, first).value, rest)
    decreases |first|
  {
    if first == [] {
      assert first + rest == rest;
    } else {
      PerformAll(Apply(s, first[0]), first[1..], rest);
      assert (first + rest)[1..] == first[1..] + rest;
    }
  }

  lemma PerformOne(s: State, a: Action)
    requires Enabled(s, a)
    ensures Perform(s, [a]) == Some(Apply(s, a))
  {
    assert [a][1..] == [];
    assert Perform(Apply(s, a), []) == Some(Apply(s, a));
  }

  lemma PerformTwo(s: State, a: Action, b: Action)
    requires Enabled(s, a) && Enabled(Apply(s, a), b)
    ensures Perform(s, [a, b]) == Some(Apply(Apply(s, a), b))
  {
    PerformOne(s, a);
    PerformOne(Apply(s, a), b);
    PerformAll(s, [a], [b]);
    assert [a] + [b] == [a, b];
  }

  lemma PerformFour(s: State, a: Action, b: Action, c: Action, d: Action)
    requires Enabled(s, a) && Enabled(Apply(s, a), b) && Enabled(Apply(Apply(s, a), b), c)
    requires Enabled(Apply(Apply(Apply(s, a), b), c), d)
    ensures Perform(s, [a, b, c, d]) == Some(Apply(Apply(Apply(Apply(s, a), b), c), d))
  {
    PerformTwo(s, a, b);
    PerformTwo(Apply(Apply(s, a), b), c, d);
    PerformAll(s, [a, b], [c, d]);
    assert [a, b] + [c, d] == [a, b, c, d];
  }

  /** Such a run takes the latch away, whatever it was. */
  lemma MalformedRunUnlatches(s: State, text: string)
    requires s.pc.Off?
    ensures Perform(s, MalformedRun(text)).Some?
    ensures var s' := Perform(s, MalformedRun(text)).value;
            && s'.pc.Off? && s'.file == Failed(Malformed(text)) && s'.guest == s.guest && s'.run == s.run + 1
            && s'.trace == s.trace + [LostLatch(s.run + 1)]
  {
    PerformFour(s, Start(false, false), Inspect(false), Ask(Some(Malformed(text))), Raise);
    var s4 := Perform(s, [Start(false, false), Inspect(false), Ask(Some(Malformed(text))), Raise]).value;
    PerformTwo(s4, StageWrite, Commit);
    PerformAll(s, [Start(false, false), Inspect(false), Ask(Some(Malformed(text))), Raise], [StageWrite, Commit]);
  }

  /** The state in which a run from s has just started the helper. */
  function Started(s: State, retry: bool): State {
    s.(file := InProgress(Valid(s.guest)), pc := Verifying, run := s.run + 1, retry := retry, check := false,
       previous := s.file, boot := Some(Valid(s.guest)),
       trace := s.trace + [Invoked(s.run + 1, s.guest, retry)])
  }

  /** A run starts the helper whenever the recorded failed id is not the guest's, or on a retry. */
  lemma RunInvokes(s: State, retry: bool)
    requires s.pc.Off? && (FailedBoot(s.file) != Some(Valid(s.guest)) || retry)
    ensures Perform(s, InvokingRun(s.guest, retry)) == Some(Started(s, retry))
  {
    var first := [Start(retry, false), Inspect(false), Ask(Some(Valid(s.guest))), Decide];
    var second := [ReadAer, StageWrite, Commit, Prepare];
    PerformFour(s, Start(retry, false), Inspect(false), Ask(Some(Valid(s.guest))), Decide);
    var s4 := Perform(s, first).value;
    PerformFour(s4, ReadAer, StageWrite, Commit, Prepare);
    var s8 := Perform(s4, second).value;
    PerformOne(s8, Invoke);
    PerformAll(s, first, second);
    PerformAll(s, first + second, [Invoke]);
  }

  lemma RunFails(s: State)
    requires s.pc.Verifying? && s.boot == Some(Valid(s.guest))
    ensures Perform(s, FAILING) == Some(s.(file := Failed(Valid(s.guest)), pc := Off))
  {
    PerformOne(s, Raise);
    PerformTwo(Apply(s, Raise), StageWrite, Commit);
    PerformAll(s, [Raise], [StageWrite, Commit]);
    assert [Raise] + [StageWrite, Commit] == FAILING;
  }

  lemma RunPasses(s: State)
    requires s.pc.Verifying? && s.boot == Some(Valid(s.guest))
    ensures Perform(s, PASSING) ==
            Some(s.(file := Passed(Valid(s.guest)), pc := Off, trace := s.trace + [WrotePass(s.run)]))
  {
    PerformFour(s, Verify, StageWrite, Commit, Report);
  }

  /** What the latch is for: a plain run under the recorded failed id stops at its check, with
      file and trace as they were. */
  lemma LatchedRunStops(s: State, settled: bool)
    requires s.pc.Off? && FailedBoot(s.file) == Some(Valid(s.guest))
    ensures var stopped := Perform(s, [Start(false, false), Inspect(settled), Ask(Some(Valid(s.guest))), Decide]);
            stopped.Some? && stopped.value.pc.Off? && stopped.value.file == s.file && stopped.value.trace == s.trace
  {
    PerformFour(s, Start(false, false), Inspect(settled), Ask(Some(Valid(s.guest))), Decide);
  }

  /** A reboot gives an identifier that no record holds, so the latch opens by itself: even
      after a failure under the old boot a plain run starts the helper. */
  lemma RebootOpensTheLatch(s: State)
    requires s.pc.Off? && FailedBoot(s.file) == Some(Valid(s.guest))
    ensures var started := Perform(s, [Reboot] + InvokingRun(s.guest + 1, false));
            && started.Some? && started.value.pc.Verifying?
            && started.value.trace == s.trace + [Invoked(s.run + 1, s.guest + 1, false)]
  {
    var s1 := Apply(s, Reboot);
    PerformOne(s, Reboot);
    RunInvokes(s1, false);
    PerformAll(s, [Reboot], InvokingRun(s1.guest, false));
  }

  /** A crash ends a run wherever it is and leaves what is on record; the failure of a run that
      never learned a boot id does the same. */
  lemma CrashKeepsTheRecord(s: State)
    requires !s.pc.Off?
    ensures var crashed := Perform(s, [Crash]);
            crashed.Some? && crashed.value.pc.Off? && crashed.value.file == s.file && crashed.value.trace == s.trace
    ensures s.boot.None? ==> Perform(s, [Raise]) == Perform(s, [Crash])
  {
    PerformOne(s, Crash);
    PerformOne(s, Raise);
  }

  /** The malformed record is a real exception: whenever the coordinator is between runs with
      an open invocation under the guest's current boot, one run answered only with malformed
      text and one ordinary run start the helper again under the same boot id, with neither a
      pass nor a retry. */
  lemma MalformedAnswerBreaksTheLatch(s: State, text: string)
    requires s.pc.Off? && Open(s.trace) == Some(s.guest)
    ensures Perform(s, MalformedRun(text)).Some?
    ensures var s1 := Perform(s, MalformedRun(text)).value;
            && Perform(s1, InvokingRun(s.guest, false)).Some?
            && Perform(s1, InvokingRun(s.guest, false)).value.trace
               == s.trace + [LostLatch(s.run + 1), Invoked(s.run + 2, s.guest, false)]
  {
    MalformedRunUnlatches(s, text);
    RunInvokes(Perform(s, MalformedRun(text)).value, false);
  }

  /** A whole run that starts the helper and fails. */
  lemma FailedRun(s: State)
    requires s.pc.Off? && FailedBoot(s.file) != Some(Valid(s.guest))
    ensures var done := Perform(s, InvokingRun(s.guest, false) + FAILING);
            && done.Some? && done.value.pc.Off? && done.value.guest == s.guest && done.value.run == s.run + 1
            && done.value.file == Failed(Valid(s.guest))
            && done.value.trace == s.trace + [Invoked(s.run + 1, s.guest, false)]
  {
    RunInvokes(s, false);
    RunFails(Started(s, false));
    PerformAll(s, InvokingRun(s.guest, false), FAILING);
  }

  /** A whole retry that starts the helper and passes. */
  lemma PassedRetry(s: State)
    requires s.pc.Off?
    ensures var done := Perform(s, InvokingRun(s.guest, true) + PASSING);
            && done.Some? && done.value.pc.Off? && done.value.guest == s.guest && done.value.run == s.run + 1
            && done.value.file == Passed(Valid(s.guest))
            && done.value.trace == s.trace + [Invoked(s.run + 1, s.guest, true), WrotePass(s.run + 1)]
  {
    RunInvokes(s, true);
    RunPasses(Started(s, true));
    PerformAll(s, InvokingRun(s.guest, true), PASSING);
  }

  /** So is the retry in the middle: a run that fails, a retry that passes and a plain run,
      all under one boot id.  The first and the last start the helper, the last without a
      retry, and the first never wrote "pass". */
  lemma RetryInTheMiddle(s: State)
    requires s.pc.Off? && FailedBoot(s.file) != Some(Valid(s.guest))
    ensures var b := s.guest;
            var first, second := InvokingRun(b, false) + FAILING, InvokingRun(b, true) + PASSING;
            && Perform(s, (first + second) + InvokingRun(b, false)).Some?
            && Perform(s, (first + second) + InvokingRun(b, false)).value.trace == s.trace +
               [Invoked(s.run + 1, b, false), Invoked(s.run + 2, b, true), WrotePass(s.run + 2), Invoked(s.run + 3, b, false)]
  {
    var b := s.guest;
    var first, second := InvokingRun(b, false) + FAILING, InvokingRun(b, true) + PASSING;
    FailedRun(s);
    var s1 := Perform(s, first).value;
    PassedRetry(s1);
    var s2 := Perform(s1, second).value;
    RunInvokes(s2, false);
    PerformAll(s, first, second);
    PerformAll(s, first + second, InvokingRun(b, false));
  }
}
