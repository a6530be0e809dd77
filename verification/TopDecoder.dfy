/** The continuation-bit decoder of the 64 GV100 TOP words. */
module TopDecoder {
  import opened Basics
  import opened Splitting
  import opened TopWords

  const TOP_WORDS: nat := 64

  predicate Live(w: Word) { !w.reading.NotValid? }

  /** What a record accumulates; None stands for the default -1 or null. */
  datatype Fields = Fields(
    code: Option<bv32>, sourceInstance: bv32, address: bv32, fault: Option<bv32>,
    engine: Option<bv32>, runlist: Option<bv32>, interrupt: Option<bv32>, reset: Option<bv32>)

  const BLANK := Fields(None, 0, 0, None, None, None, None, None)

  function Or(field: Option<bv32>, before: Option<bv32>): Option<bv32> { if field.Some? then field else before }

  /** One word written over the record. */
  function Write(f: Fields, r: Reading): Fields
  {
    match r
    case NotValid => f
    case Data(instance, address, fault) =>
      f.(sourceInstance := instance, address := address, fault := Or(fault, f.fault))
    case Enum(engine, runlist, interrupt, reset) =>
      f.(engine := Or(engine, f.engine), runlist := Or(runlist, f.runlist),
         interrupt := Or(interrupt, f.interrupt), reset := Or(reset, f.reset))
    case EngineType(code) => f.(code := Some(code))
  }

  // ---------------------------------------------------------------- records

  datatype Engine = GR | CE | MSPDEC | MSPPP | MSVLD | MSENC | VIC | SEC2 | NVENC | NVDEC
                  | IOCTRL | GSP | NVJPG | UNKNOWN

  /** An engine and its fixed instance, None where the word gives it. */
  datatype Named = Named(engine: Engine, fixed: Option<bv32>)

  /** The table of type codes. */
  function EngineTypes(code: bv32): Option<Named>
  {
    if code == 0x00 then Some(Named(GR, Some(0)))
    else if code == 0x01 then Some(Named(CE, Some(0)))
    else if code == 0x02 then Some(Named(CE, Some(1)))
    else if code == 0x03 then Some(Named(CE, Some(2)))
    else if code == 0x08 then Some(Named(MSPDEC, Some(0)))
    else if code == 0x09 then Some(Named(MSPPP, Some(0)))
    else if code == 0x0A then Some(Named(MSVLD, Some(0)))
    else if code == 0x0B then Some(Named(MSENC, Some(0)))
    else if code == 0x0C then Some(Named(VIC, Some(0)))
    else if code == 0x0D then Some(Named(SEC2, Some(0)))
    else if code == 0x0E then Some(Named(NVENC, None))
    else if code == 0x0F then Some(Named(NVENC, Some(1)))
    else if code == 0x10 then Some(Named(NVDEC, None))
    else if code == 0x12 then Some(Named(IOCTRL, None))
    else if code == 0x13 then Some(Named(CE, None))
    else if code == 0x14 then Some(Named(GSP, Some(0)))
    else if code == 0x15 then Some(Named(NVJPG, None))
    else None
  }

  /** The code that names an engine, with a fixed instance or leaving it to the word. */
  function CodeOf(e: Engine, fixed: Option<bv32>): bv32
  {
    match e
    case GR => 0
    case CE => if fixed.Some? then fixed.value + 1 else 0x13
    case MSPDEC => 8
    case MSPPP => 9
    case MSVLD => 10
    case MSENC => 11
    case VIC => 12
    case SEC2 => 13
    case NVENC => if fixed.Some? then 15 else 14
    case NVDEC => 16
    case IOCTRL => 18
    case GSP => 20
    case NVJPG => 21
    case UNKNOWN => 22
  }

  /** The table and the naming of engines by code are inverse to each other, so no two codes
      name the same engine with the same instance. */
  lemma TableIsCodes(code: bv32)
    ensures EngineTypes(code).Some? <==> code <= 0x15 && code != 0x11 && !(4 <= code <= 7)
    ensures EngineTypes(code).Some? ==>
      var named := EngineTypes(code).value;
      && CodeOf(named.engine, named.fixed) == code && named.engine != UNKNOWN
      && (named.fixed.Some? && !named.engine.CE? ==> named.fixed == Some(if named.engine.NVENC? then 1 else 0))
  {}

  datatype Record = Record(indices: seq<nat>, raw: seq<bv32>, fields: Fields)

  /** A finished record. What it identifies is a function of its fields. */
  datatype Device = Device(complete: bool, start: nat, end: nat, indices: seq<nat>, raw: seq<bv32>, fields: Fields)

  function Finish(r: Record, index: nat, complete: bool): Device
    requires r.indices != []
  {
    Device(complete, r.indices[0], index, r.indices, r.raw, r.fields)
  }

  /** The engine and instance named; instance None stands for -1. */
  datatype Identity = Identity(engine: Engine, instance: Option<bv32>, warning: bool)

  function IdentityOf(f: Fields): Identity
  {
    if f.code.None? || EngineTypes(f.code.value).None? then Identity(UNKNOWN, None, false)
    else
      var named := EngineTypes(f.code.value).value;
      Identity(named.engine, if named.fixed.None? then Some(f.sourceInstance) else named.fixed,
               named.fixed.Some? && f.sourceInstance != 0)
  }

  // ---------------------------------------------------------------- the loop

  datatype State = State(devices: seq<Device>, current: Option<Record>, invalid: seq<nat>)

  ghost predicate Sound(s: State) { s.current.Some? ==> s.current.value.indices != [] }

  ghost function Step(s: State, index: nat, w: Word): (t: State)
    requires Sound(s)
    ensures Sound(t)
  {
    if !Live(w) then s.(invalid := s.invalid + [index])
    else
      var r := if s.current.Some? then s.current.value else Record([], [], BLANK);
      var r' := Record(r.indices + [index], r.raw + [w.raw], Write(r.fields, w.reading));
      if w.closes then State(s.devices + [Finish(r', index, true)], None, s.invalid)
      else s.(current := Some(r'))
  }

  ghost function Run(words: seq<Word>, n: nat): (s: State)
    requires n <= |words|
    ensures Sound(s)
  {
    if n == 0 then START else Step(Run(words, n - 1), n - 1, words[n - 1])
  }

  const START := State([], None, [])

  /** What holds at the start and is kept by every word holds after any number of words. */
  lemma {:induction false} LoopInvariant(words: seq<Word>, n: nat, p: (State, nat) -> bool)
    requires n <= |words| && p(START, 0)
    requires forall s: State, k: nat {:trigger Step(s, k, words[k])} ::
      k < |words| && Sound(s) && p(s, k) ==> p(Step(s, k, words[k]), k + 1)
    ensures p(Run(words, n), n)
  {
    if n > 0 {
      LoopInvariant(words, n - 1, p);
      assert Run(words, n) == Step(Run(words, n - 1), n - 1, words[n - 1]);
    }
  }

  datatype Report = Report(devices: seq<Device>, incomplete: Option<Device>, invalid: seq<nat>)

  ghost function Decoded(words: seq<Word>): Report
  {
    var s := Run(words, |words|);
    Report(s.devices,
           if s.current.Some? then Some(Finish(s.current.value, Dec(|words|), false)) else None,
           s.invalid)
  }

  function Dec(n: nat): nat { if n == 0 then 0 else n - 1 }

  /** The decoder's loop, for a stream of any length. */
  method Decode(values: seq<bv32>) returns (report: Report)
    ensures report == Decoded(ReadAll(values))
  {
    var words := ReadAll(values);
    var devices: seq<Device> := [];
    var current: Option<Record> := None;
    var invalid: seq<nat> := [];
    for index := 0 to |words|
      invariant State(devices, current, invalid) == Run(words, index)
    {
      var data := words[index];
      if data.reading == NotValid {
        invalid := invalid + [index];
        continue;
      }
      if current == None {
        current := Some(Record([], [], BLANK));
      }
      var r := current.value;
      current := Some(Record(r.indices + [index], r.raw + [data.raw], Write(r.fields, data.reading)));
      if !data.closes {
        continue;
      }
      devices := devices + [Finish(current.value, index, true)];
      current := None;
    }
    var incomplete := None;
    if current.Some? {
      incomplete := Some(Finish(current.value, Dec(|words|), false));
    }
    report := Report(devices, incomplete, invalid);
  }

  predicate IsUnsigned(v: int) { 0 <= v <= 0xFFFF_FFFF }

  function ToWord(v: int): bv32
    requires IsUnsigned(v)
  {
    v as bv32
  }

  ghost function AsWords(values: seq<int>): (ws: seq<bv32>)
    requires forall i :: 0 <= i < |values| ==> IsUnsigned(values[i])
    ensures |ws| == |values|
  {
    seq(|values|, i requires 0 <= i < |values| => ToWord(values[i]))
  }

  /** The checked entry point: exactly 64 values, each an unsigned 32-bit integer. */
  method DecodeTopWords(values: seq<int>) returns (report: Option<Report>)
    ensures report.Some? <==>
      |values| == TOP_WORDS && forall i :: 0 <= i < |values| ==> IsUnsigned(values[i])
    ensures report.Some? ==> report.value == Decoded(ReadAll(AsWords(values)))
  {
    if |values| != TOP_WORDS {
      return None;
    }
    var words: seq<bv32> := [];
    for i := 0 to |values|
      invariant |words| == i
      invariant forall j :: 0 <= j < i ==> IsUnsigned(values[j]) && words[j] == ToWord(values[j])
    {
      if values[i] < 0 || values[i] > 0xFFFF_FFFF {
        assert !IsUnsigned(values[i]);
        return None;
      }
      words := words + [ToWord(values[i])];
    }
    assert words == AsWords(values);
    var decoded := Decode(words);
    report := Some(decoded);
  }

  // ---------------------------------------------------------------- the live stream

  type Item = Entry<Word>

  ghost function ItemAt(index: nat, w: Word): Item { Entry(index, w, w.closes) }

  ghost function LiveItems(words: seq<Word>, n: nat): seq<Item>
    requires n <= |words|
  {
    if n == 0 then []
    else LiveItems(words, n - 1) + (if Live(words[n - 1]) then [ItemAt(n - 1, words[n - 1])] else [])
  }

  ghost function InvalidIndices(words: seq<Word>, n: nat): seq<nat>
    requires n <= |words|
  {
    if n == 0 then []
    else InvalidIndices(words, n - 1) + (if Live(words[n - 1]) then [] else [n - 1])
  }

  ghost function Words(items: seq<Item>): (ws: seq<Word>)
    ensures |ws| == |items|
  {
    seq(|items|, i requires 0 <= i < |items| => items[i].word)
  }

  ghost function Indices(items: seq<Item>): (xs: seq<nat>)
    ensures |xs| == |items|
  {
    seq(|items|, i requires 0 <= i < |items| => items[i].index)
  }

  // ---------------------------------------------------------------- last write wins

  /** The last word of the stream that satisfies a predicate. */
  ghost function Last(ws: seq<Word>, p: Word -> bool): (w: Option<Word>)
    ensures w.Some? ==> p(w.value)
  {
    if ws == [] then None
    else if p(ws[|ws| - 1]) then Some(ws[|ws| - 1])
    else Last(ws[..|ws| - 1], p)
  }

  ghost predicate LastAt(ws: seq<Word>, p: Word -> bool, i: int)
  {
    0 <= i < |ws| && p(ws[i]) && forall j :: i < j < |ws| ==> !p(ws[j])
  }

  lemma {:induction false} LastIsLast(ws: seq<Word>, p: Word -> bool)
    ensures Last(ws, p).None? <==> forall i :: 0 <= i < |ws| ==> !p(ws[i])
    ensures Last(ws, p).Some? ==> exists i :: LastAt(ws, p, i) && ws[i] == Last(ws, p).value
  {
    if ws != [] {
      var n := |ws| - 1;
      LastIsLast(ws[..n], p);
      assert ws == ws[..n] + [ws[n]];
      if p(ws[n]) {
        assert LastAt(ws, p, n);
      } else if Last(ws, p).Some? {
        var i :| LastAt(ws[..n], p, i) && ws[..n][i] == Last(ws[..n], p).value;
        assert LastAt(ws, p, i);
      }
    }
  }

  ghost function Folded(ws: seq<Word>): Fields
  {
    if ws == [] then BLANK else Write(Folded(ws[..|ws| - 1]), ws[|ws| - 1].reading)
  }

  predicate IsType(w: Word) { w.reading.EngineType? }
  predicate IsData(w: Word) { w.reading.Data? }
  predicate HasFault(w: Word) { w.reading.Data? && w.reading.fault.Some? }
  predicate HasEngine(w: Word) { w.reading.Enum? && w.reading.engine.Some? }
  predicate HasRunlist(w: Word) { w.reading.Enum? && w.reading.runlist.Some? }
  predicate HasInterrupt(w: Word) { w.reading.Enum? && w.reading.interrupt.Some? }
  predicate HasReset(w: Word) { w.reading.Enum? && w.reading.reset.Some? }

  function CodeIn(w: Option<Word>): Option<bv32>
  {
    if w.Some? && IsType(w.value) then Some(w.value.reading.code) else None
  }

  function InstanceIn(w: Option<Word>): bv32
  {
    if w.Some? && IsData(w.value) then w.value.reading.sourceInstance else 0
  }

  function AddressIn(w: Option<Word>): bv32
  {
    if w.Some? && IsData(w.value) then w.value.reading.address else 0
  }

  function FaultIn(w: Option<Word>): Option<bv32>
  {
    if w.Some? && IsData(w.value) then w.value.reading.fault else None
  }

  function EngineIn(w: Option<Word>): Option<bv32>
  {
    if w.Some? && w.value.reading.Enum? then w.value.reading.engine else None
  }

  function RunlistIn(w: Option<Word>): Option<bv32>
  {
    if w.Some? && w.value.reading.Enum? then w.value.reading.runlist else None
  }

  function InterruptIn(w: Option<Word>): Option<bv32>
  {
    if w.Some? && w.value.reading.Enum? then w.value.reading.interrupt else None
  }

  function ResetIn(w: Option<Word>): Option<bv32>
  {
    if w.Some? && w.value.reading.Enum? then w.value.reading.reset else None
  }

  /** Each field comes from the last word that carries it, and has its default if none does. */
  ghost function LastWrites(ws: seq<Word>): Fields
  {
    Fields(CodeIn(Last(ws, IsType)), InstanceIn(Last(ws, IsData)), AddressIn(Last(ws, IsData)),
           FaultIn(Last(ws, HasFault)), EngineIn(Last(ws, HasEngine)), RunlistIn(Last(ws, HasRunlist)),
           InterruptIn(Last(ws, HasInterrupt)), ResetIn(Last(ws, HasReset)))
  }

  lemma LastOfAppend(ws: seq<Word>, w: Word, p: Word -> bool)
    ensures Last(ws + [w], p) == if p(w) then Some(w) else Last(ws, p)
  {
    assert (ws + [w])[..|ws|] == ws;
  }

  lemma CodeStep(f: Fields, ws: seq<Word>, w: Word)
    requires f.code == CodeIn(Last(ws, IsType))
    ensures Write(f, w.reading).code == CodeIn(Last(ws + [w], IsType))
  {
    LastOfAppend(ws, w, IsType);
  }

  lemma InstanceStep(f: Fields, ws: seq<Word>, w: Word)
    requires f.sourceInstance == InstanceIn(Last(ws, IsData))
    ensures Write(f, w.reading).sourceInstance == InstanceIn(Last(ws + [w], IsData))
  {
    LastOfAppend(ws, w, IsData);
  }

  lemma AddressStep(f: Fields, ws: seq<Word>, w: Word)
    requires f.address == AddressIn(Last(ws, IsData))
    ensures Write(f, w.reading).address == AddressIn(Last(ws + [w], IsData))
  {
    LastOfAppend(ws, w, IsData);
  }

  lemma FaultStep(f: Fields, ws: seq<Word>, w: Word)
    requires f.fault == FaultIn(Last(ws, HasFault))
    ensures Write(f, w.reading).fault == FaultIn(Last(ws + [w], HasFault))
  {
    LastOfAppend(ws, w, HasFault);
  }

  lemma EngineStep(f: Fields, ws: seq<Word>, w: Word)
    requires f.engine == EngineIn(Last(ws, HasEngine))
    ensures Write(f, w.reading).engine == EngineIn(Last(ws + [w], HasEngine))
  {
    LastOfAppend(ws, w, HasEngine);
  }

  lemma RunlistStep(f: Fields, ws: seq<Word>, w: Word)
    requires f.runlist == RunlistIn(Last(ws, HasRunlist))
    ensures Write(f, w.reading).runlist == RunlistIn(Last(ws + [w], HasRunlist))
  {
    LastOfAppend(ws, w, HasRunlist);
  }

  lemma InterruptStep(f: Fields, ws: seq<Word>, w: Word)
    requires f.interrupt == InterruptIn(Last(ws, HasInterrupt))
    ensures Write(f, w.reading).interrupt == InterruptIn(Last(ws + [w], HasInterrupt))
  {
    LastOfAppend(ws, w, HasInterrupt);
  }

  lemma ResetStep(f: Fields, ws: seq<Word>, w: Word)
    requires f.reset == ResetIn(Last(ws, HasReset))
    ensures Write(f, w.reading).reset == ResetIn(Last(ws + [w], HasReset))
  {
    LastOfAppend(ws, w, HasReset);
  }

  lemma WriteIsLast(f: Fields, ws: seq<Word>, w: Word)
    requires f == LastWrites(ws)
    ensures Write(f, w.reading) == LastWrites(ws + [w])
  {
    CodeStep(f, ws, w);
    InstanceStep(f, ws, w);
    AddressStep(f, ws, w);
    FaultStep(f, ws, w);
    EngineStep(f, ws, w);
    RunlistStep(f, ws, w);
    InterruptStep(f, ws, w);
    ResetStep(f, ws, w);
  }

  lemma {:induction false} FoldIsLastWrites(ws: seq<Word>)
    ensures Folded(ws) == LastWrites(ws)
  {
    if ws != [] {
      var n := |ws| - 1;
      FoldIsLastWrites(ws[..n]);
      WriteIsLast(Folded(ws[..n]), ws[..n], ws[n]);
      assert ws[..n] + [ws[n]] == ws;
    }
  }

  // ---------------------------------------------------------------- what the loop computes

  ghost function Raws(items: seq<Item>): (ws: seq<bv32>)
    ensures |ws| == |items|
  {
    seq(|items|, i requires 0 <= i < |items| => items[i].word.raw)
  }

  ghost function RecordOf(g: seq<Item>): Record { Record(Indices(g), Raws(g), Folded(Words(g))) }

  ghost function DeviceOf(g: seq<Item>): Device
    requires g != []
  {
    Finish(RecordOf(g), g[|g| - 1].index, true)
  }

  ghost predicate Tells(s: State, c: Split<Word>)
  {
    && |s.devices| == |c.groups|
    && (forall i :: 0 <= i < |c.groups| ==> c.groups[i] != [] && s.devices[i] == DeviceOf(c.groups[i]))
    && s.current == if c.rest == [] then None else Some(RecordOf(c.rest))
  }

  lemma RecordGrows(g: seq<Item>, x: Item)
    ensures RecordOf(g + [x]) ==
      Record(Indices(g) + [x.index], Raws(g) + [x.word.raw], Write(Folded(Words(g)), x.word.reading))
  {
    assert Indices(g + [x]) == Indices(g) + [x.index];
    assert Raws(g + [x]) == Raws(g) + [x.word.raw];
    assert Words(g + [x]) == Words(g) + [x.word];
    assert (Words(g) + [x.word])[..|g|] == Words(g);
  }

  lemma StepExtends(s: State, c: Split<Word>, x: Item)
    requires Sound(s) && Tells(s, c) && Live(x.word) && x.closes == x.word.closes
    ensures Tells(Step(s, x.index, x.word), Extend(c, x))
  {
    var g := c.rest + [x];
    RecordGrows(c.rest, x);
    assert RecordOf([]) == Record([], [], BLANK);
    assert g[|g| - 1] == x;
  }

  ghost predicate Follows(s: State, items: seq<Item>, invalid: seq<nat>)
  {
    Tells(s, Cut(items)) && s.invalid == invalid
  }

  lemma StartFollows()
    ensures Follows(START, [], [])
  {}

  lemma StepFollows(s: State, items: seq<Item>, invalid: seq<nat>, index: nat, w: Word)
    requires Sound(s) && Follows(s, items, invalid)
    ensures Live(w) ==> Follows(Step(s, index, w), items + [ItemAt(index, w)], invalid)
    ensures !Live(w) ==> Follows(Step(s, index, w), items, invalid + [index])
  {
    if Live(w) {
      CutOfAppend(items, ItemAt(index, w));
      StepExtends(s, Cut(items), ItemAt(index, w));
    }
  }

  ghost predicate FollowsAt(s: State, words: seq<Word>, k: nat)
  {
    k <= |words| && Follows(s, LiveItems(words, k), InvalidIndices(words, k))
  }

  lemma StepFollowsAt(s: State, words: seq<Word>, k: nat)
    requires k < |words| && Sound(s) && FollowsAt(s, words, k)
    ensures FollowsAt(Step(s, k, words[k]), words, k + 1)
  {
    StepFollows(s, LiveItems(words, k), InvalidIndices(words, k), k, words[k]);
    ItemsGrow(words, k);
  }

  lemma LoopFollowsCut(words: seq<Word>, n: nat)
    requires n <= |words|
    ensures FollowsAt(Run(words, n), words, n)
  {
    StartFollows();
    forall s: State, k: nat | k < |words| && Sound(s) && FollowsAt(s, words, k)
      ensures FollowsAt(Step(s, k, words[k]), words, k + 1)
    {
      StepFollowsAt(s, words, k);
    }
    LoopInvariant(words, n, (s: State, k: nat) => FollowsAt(s, words, k));
  }

  lemma ItemsGrow(words: seq<Word>, k: nat)
    requires k < |words|
    ensures LiveItems(words, k + 1) ==
      if Live(words[k]) then LiveItems(words, k) + [ItemAt(k, words[k])] else LiveItems(words, k)
    ensures InvalidIndices(words, k + 1) ==
      if Live(words[k]) then InvalidIndices(words, k) else InvalidIndices(words, k) + [k]
  {}

  /** Device by device: the live words split after each word with bit 31 clear, each group folded
      last-write-wins; what is left over is the incomplete record. */
  lemma DevicesAreTheSplit(words: seq<Word>, groups: seq<seq<Item>>, rest: seq<Item>)
    requires IsSplit(LiveItems(words, |words|), groups, rest)
    ensures var report := Decoded(words);
      && |report.devices| == |groups|
      && (forall i :: 0 <= i < |groups| ==>
            && groups[i] != []
            && report.devices[i] == DeviceOf(groups[i])
            && report.devices[i].fields == LastWrites(Words(groups[i])))
      && (report.incomplete.Some? <==> rest != [])
      && (rest != [] ==>
            && report.incomplete.value == Finish(RecordOf(rest), |words| - 1, false)
            && report.incomplete.value.fields == LastWrites(Words(rest)))
      && report.invalid == InvalidIndices(words, |words|)
  {
    var items := LiveItems(words, |words|);
    LoopFollowsCut(words, |words|);
    SplitIsUnique(items, groups, rest);
    forall i | 0 <= i < |groups|
      ensures groups[i] != [] && Folded(Words(groups[i])) == LastWrites(Words(groups[i]))
    {
      assert IsGroup(groups[i]);
      FoldIsLastWrites(Words(groups[i]));
    }
    FoldIsLastWrites(Words(rest));
  }

  // ---------------------------------------------------------------- every index once

  /** How often an index occurs in a list. */
  ghost function Times(xs: seq<nat>, i: nat): nat { multiset(xs)[i] }

  ghost function TimesInDevices(devices: seq<Device>, i: nat): nat
  {
    if devices == [] then 0
    else TimesInDevices(devices[..|devices| - 1], i) + Times(devices[|devices| - 1].indices, i)
  }

  ghost function Held(s: State, i: nat): nat
  {
    TimesInDevices(s.devices, i) + (if s.current.Some? then Times(s.current.value.indices, i) else 0)
    + Times(s.invalid, i)
  }

  lemma StepHolds(s: State, index: nat, w: Word, i: nat)
    requires Sound(s)
    ensures Held(Step(s, index, w), i) == Held(s, i) + if i == index then 1 else 0
  {
    var t := Step(s, index, w);
    if Live(w) && w.closes {
      assert t.devices[..|s.devices|] == s.devices;
    }
  }

  ghost predicate HeldUpTo(s: State, n: nat, i: nat) { Held(s, i) == if i < n then 1 else 0 }

  lemma StepHoldsUpTo(s: State, n: nat, w: Word, i: nat)
    requires Sound(s) && HeldUpTo(s, n, i)
    ensures HeldUpTo(Step(s, n, w), n + 1, i)
  {
    StepHolds(s, n, w, i);
  }

  lemma RunHolds(words: seq<Word>, n: nat, i: nat)
    requires n <= |words|
    ensures HeldUpTo(Run(words, n), n, i)
  {
    forall s: State, k: nat | k < |words| && Sound(s) && HeldUpTo(s, k, i)
      ensures HeldUpTo(Step(s, k, words[k]), k + 1, i)
    {
      StepHoldsUpTo(s, k, words[k], i);
    }
    LoopInvariant(words, n, (s: State, k: nat) => HeldUpTo(s, k, i));
  }

  /** Each index of the stream lies in exactly one device, the incomplete record or the invalid
      list, once; no other index lies anywhere. */
  lemma EveryIndexOnce(words: seq<Word>, i: nat)
    ensures var report := Decoded(words);
      TimesInDevices(report.devices, i)
      + (if report.incomplete.Some? then Times(report.incomplete.value.indices, i) else 0)
      + Times(report.invalid, i)
      == if i < |words| then 1 else 0
  {
    RunHolds(words, |words|, i);
  }

  // ---------------------------------------------------------------- invalid words do not matter

  ghost function Kept(words: seq<Word>): seq<Word>
  {
    if words == [] then []
    else Kept(words[..|words| - 1]) + (if Live(words[|words| - 1]) then [words[|words| - 1]] else [])
  }

  /** A device without its positions in the stream. */
  ghost function Nameless(d: Device): Device { d.(start := 0, end := 0, indices := []) }

  ghost predicate SameDevices(a: seq<Device>, b: seq<Device>)
  {
    |a| == |b| && forall i :: 0 <= i < |a| ==> Nameless(a[i]) == Nameless(b[i])
  }

  ghost predicate SameRecord(a: Option<Record>, b: Option<Record>)
  {
    && a.Some? == b.Some?
    && (a.Some? ==> a.value.raw == b.value.raw && a.value.fields == b.value.fields)
  }

  ghost predicate Similar(s: State, t: State)
  {
    SameDevices(s.devices, t.devices) && SameRecord(s.current, t.current)
  }

  lemma StepSimilar(s: State, t: State, i: nat, j: nat, w: Word)
    requires Sound(s) && Sound(t) && Similar(s, t)
    ensures Live(w) ==> Similar(Step(s, i, w), Step(t, j, w))
    ensures !Live(w) ==> Similar(Step(s, i, w), t)
  {}

  lemma {:induction false} RunOfPrefix(words: seq<Word>, w: Word, n: nat)
    requires n <= |words|
    ensures Run(words + [w], n) == Run(words, n)
  {
    if n > 0 { RunOfPrefix(words, w, n - 1); }
  }

  ghost function Full(words: seq<Word>): (s: State)
    ensures Sound(s)
  {
    Run(words, |words|)
  }

  lemma RunOfAppend(words: seq<Word>, w: Word)
    ensures Full(words + [w]) == Step(Full(words), |words|, w)
  {
    RunOfPrefix(words, w, |words|);
  }

  lemma {:induction false} KeptRunsSimilarly(words: seq<Word>)
    ensures Similar(Full(words), Full(Kept(words)))
    ensures Full(Kept(words)).invalid == []
  {
    if words != [] {
      var before, w := words[..|words| - 1], words[|words| - 1];
      KeptRunsSimilarly(before);
      assert words == before + [w];
      RunOfAppend(before, w);
      RunOfAppend(Kept(before), w);
      StepSimilar(Full(before), Full(Kept(before)), |before|, |Kept(before)|, w);
      assert Kept(words) == if Live(w) then Kept(before) + [w] else Kept(before);
    }
  }

  /** Deleting the NOT_VALID words changes nothing but positions. */
  lemma InvalidWordsDoNotMatter(words: seq<Word>)
    ensures var report, kept := Decoded(words), Decoded(Kept(words));
      && SameDevices(report.devices, kept.devices)
      && report.incomplete.Some? == kept.incomplete.Some?
      && (report.incomplete.Some? ==>
            Nameless(report.incomplete.value) == Nameless(kept.incomplete.value))
      && kept.invalid == []
  {
    KeptRunsSimilarly(words);
  }

  // ---------------------------------------------------------------- encoding

  /** Fields within the widths of their words. */
  ghost predicate Encodable(f: Fields)
  {
    && ReadingFits(DataOf(f)) && ReadingFits(EnumOf(f))
    && (f.code.Some? ==> ReadingFits(EngineType(f.code.value)))
  }

  function DataOf(f: Fields): Reading { Data(f.sourceInstance, f.address, f.fault) }

  function EnumOf(f: Fields): Reading { Enum(f.engine, f.runlist, f.interrupt, f.reset) }

  /** A DATA word, an ENUM word and, when the type is known, an ENGINE_TYPE word. */
  function EncodeOne(f: Fields): seq<bv32>
  {
    if f.code.None? then [Make(DataOf(f), true), Make(EnumOf(f), false)]
    else [Make(DataOf(f), true), Make(EnumOf(f), true), Make(EngineType(f.code.value), false)]
  }

  function Encode(fs: seq<Fields>): seq<bv32>
  {
    if fs == [] then [] else Encode(fs[..|fs| - 1]) + EncodeOne(fs[|fs| - 1])
  }

  ghost function FieldsOf(devices: seq<Device>): (fs: seq<Fields>)
    ensures |fs| == |devices|
  {
    seq(|devices|, i requires 0 <= i < |devices| => devices[i].fields)
  }

  /** The loop between words: `fs` decoded, `open` under way, nothing invalid. */
  ghost predicate At(s: State, fs: seq<Fields>, open: Option<Fields>)
  {
    && FieldsOf(s.devices) == fs && s.invalid == []
    && s.current.Some? == open.Some?
    && (open.Some? ==> s.current.value.fields == open.value)
  }

  lemma WordContinues(words: seq<Word>, fs: seq<Fields>, open: Option<Fields>, w: Word, f: Fields)
    requires At(Full(words), fs, open) && Live(w) && !w.closes
    requires f == Write(if open.Some? then open.value else BLANK, w.reading)
    ensures At(Full(words + [w]), fs, Some(f))
  {
    RunOfAppend(words, w);
  }

  lemma WordCloses(words: seq<Word>, fs: seq<Fields>, open: Option<Fields>, w: Word, f: Fields)
    requires At(Full(words), fs, open) && Live(w) && w.closes
    requires f == Write(if open.Some? then open.value else BLANK, w.reading)
    ensures At(Full(words + [w]), fs + [f], None)
  {
    RunOfAppend(words, w);
    assert FieldsOf(Full(words + [w]).devices) == FieldsOf(Full(words).devices) + [f];
  }

  /** Three readings make a device, two when the type is unknown. */
  lemma ReadingsDecode(words: seq<Word>, fs: seq<Fields>, f: Fields, d: Word, e: Word, t: Word)
    requires At(Full(words), fs, None)
    requires d.reading == DataOf(f) && !d.closes && e.reading == EnumOf(f) && e.closes == f.code.None?
    requires f.code.Some? ==> t.reading == EngineType(f.code.value) && t.closes
    ensures At(Full(if f.code.None? then words + [d] + [e] else words + [d] + [e] + [t]), fs + [f], None)
  {
    var afterData, afterEnum := Write(BLANK, d.reading), f.(code := None);
    WordContinues(words, fs, None, d, afterData);
    if f.code.None? {
      WordCloses(words + [d], fs, Some(afterData), e, f);
    } else {
      WordContinues(words + [d], fs, Some(afterData), e, afterEnum);
      WordCloses(words + [d] + [e], fs, Some(afterEnum), t, f);
    }
  }

  lemma ReadTwo(ws: seq<bv32>, d: bv32, e: bv32)
    ensures ReadAll(ws + [d, e]) == ReadAll(ws) + [Read(d)] + [Read(e)]
  {}

  lemma ReadThree(ws: seq<bv32>, d: bv32, e: bv32, t: bv32)
    ensures ReadAll(ws + [d, e, t]) == ReadAll(ws) + [Read(d)] + [Read(e)] + [Read(t)]
  {}

  /** Words with the right readings decode to the device, whatever their bits. */
  lemma WordsDecode(ws: seq<bv32>, fs: seq<Fields>, f: Fields, d: bv32, e: bv32, t: bv32)
    requires At(Full(ReadAll(ws)), fs, None)
    requires Read(d).reading == DataOf(f) && !Read(d).closes
    requires Read(e).reading == EnumOf(f) && Read(e).closes == f.code.None?
    requires f.code.Some? ==> Read(t).reading == EngineType(f.code.value) && Read(t).closes
    ensures At(Full(ReadAll(ws + if f.code.None? then [d, e] else [d, e, t])), fs + [f], None)
  {
    ReadingsDecode(ReadAll(ws), fs, f, Read(d), Read(e), Read(t));
    if f.code.None? {
      ReadTwo(ws, d, e);
    } else {
      ReadThree(ws, d, e, t);
    }
  }

  lemma OneDeviceDecodes(ws: seq<bv32>, fs: seq<Fields>, f: Fields)
    requires At(Full(ReadAll(ws)), fs, None) && Encodable(f)
    ensures At(Full(ReadAll(ws + EncodeOne(f))), fs + [f], None)
  {
    MakeReads(DataOf(f), true);
    MakeReads(EnumOf(f), f.code.Some?);
    var t := if f.code.Some? then Make(EngineType(f.code.value), false) else 0;
    if f.code.Some? {
      MakeReads(EngineType(f.code.value), false);
    }
    WordsDecode(ws, fs, f, Make(DataOf(f), true), Make(EnumOf(f), f.code.Some?), t);
  }

  lemma EncodeOfAppend(fs: seq<Fields>, f: Fields)
    ensures Encode(fs + [f]) == Encode(fs) + EncodeOne(f)
  {
    assert (fs + [f])[..|fs|] == fs;
  }

  lemma NothingDecodes()
    ensures At(Full(ReadAll(Encode([]))), [], None)
  {
    assert ReadAll(Encode([])) == [];
  }

  lemma {:induction false} EncodedDecodes(fs: seq<Fields>)
    requires forall i :: 0 <= i < |fs| ==> Encodable(fs[i])
    ensures At(Full(ReadAll(Encode(fs))), fs, None)
  {
    if fs == [] {
      NothingDecodes();
    } else {
      var before, f := fs[..|fs| - 1], fs[|fs| - 1];
      EncodedDecodes(before);
      OneDeviceDecodes(Encode(before), before, f);
      EncodeOfAppend(before, f);
      assert before + [f] == fs;
    }
  }

  /** Decoding an encoding gives the devices back. */
  lemma RoundTrip(fs: seq<Fields>)
    requires forall i :: 0 <= i < |fs| ==> Encodable(fs[i])
    ensures var report := Decoded(ReadAll(Encode(fs)));
      FieldsOf(report.devices) == fs && report.incomplete == None && report.invalid == []
  {
    EncodedDecodes(fs);
  }

  ghost predicate AllEncodable(s: State)
  {
    && (forall i :: 0 <= i < |s.devices| ==> Encodable(s.devices[i].fields))
    && (s.current.Some? ==> Encodable(s.current.value.fields))
  }

  lemma WriteStaysEncodable(f: Fields, r: Reading)
    requires Encodable(f) && ReadingFits(r)
    ensures Encodable(Write(f, r))
  {}

  lemma StepStaysEncodable(s: State, index: nat, w: Word)
    requires Sound(s) && AllEncodable(s) && ReadingFits(w.reading)
    ensures AllEncodable(Step(s, index, w))
  {
    WriteStaysEncodable(if s.current.Some? then s.current.value.fields else BLANK, w.reading);
  }

  lemma RunStaysEncodable(words: seq<Word>, n: nat)
    requires n <= |words| && forall i :: 0 <= i < |words| ==> ReadingFits(words[i].reading)
    ensures AllEncodable(Run(words, n))
  {
    forall s: State, k: nat | k < |words| && Sound(s) && AllEncodable(s)
      ensures AllEncodable(Step(s, k, words[k]))
    {
      StepStaysEncodable(s, k, words[k]);
    }
    LoopInvariant(words, n, (s: State, _: nat) => AllEncodable(s));
  }

  /** Whatever was decoded can be encoded again, and decodes to the same devices. */
  lemma ReencodingKeepsDevices(ws: seq<bv32>)
    ensures var fs := FieldsOf(Decoded(ReadAll(ws)).devices);
      && (forall i :: 0 <= i < |fs| ==> Encodable(fs[i]))
      && FieldsOf(Decoded(ReadAll(Encode(fs))).devices) == fs
  {
    var words := ReadAll(ws);
    forall i | 0 <= i < |words| ensures ReadingFits(words[i].reading) {
      ReadingsFit(ws[i]);
    }
    RunStaysEncodable(words, |words|);
    RoundTrip(FieldsOf(Decoded(words).devices));
  }

  /** The round trip survives NOT_VALID words anywhere in the stream. */
  lemma RoundTripAmongInvalidWords(words: seq<Word>, fs: seq<Fields>)
    requires forall i :: 0 <= i < |fs| ==> Encodable(fs[i])
    requires Kept(words) == ReadAll(Encode(fs))
    ensures FieldsOf(Decoded(words).devices) == fs && Decoded(words).incomplete == None
  {
    var a, b := Decoded(words).devices, Decoded(Kept(words)).devices;
    InvalidWordsDoNotMatter(words);
    RoundTrip(fs);
    forall i | 0 <= i < |a| ensures a[i].fields == fs[i] {
      assert Nameless(a[i]).fields == Nameless(b[i]).fields;
      assert FieldsOf(b)[i] == fs[i];
    }
  }

  // ---------------------------------------------------------------- identities

  ghost function Identities(devices: seq<Device>): (ids: seq<Identity>)
    ensures |ids| == |devices|
  {
    seq(|devices|, i requires 0 <= i < |devices| => IdentityOf(devices[i].fields))
  }

  lemma FieldsFixIdentities(a: seq<Device>, b: seq<Device>)
    requires FieldsOf(a) == FieldsOf(b)
    ensures Identities(a) == Identities(b)
  {
    assert |a| == |FieldsOf(a)| == |FieldsOf(b)| == |b|;
    forall i | 0 <= i < |a| ensures Identities(a)[i] == Identities(b)[i] {
      assert FieldsOf(a)[i] == a[i].fields && FieldsOf(b)[i] == b[i].fields;
    }
  }

  /** Which engines and instances a stream names, and with which warnings, depends neither on
      its NOT_VALID words nor on how the devices are spread over words: deleting the former
      and encoding the devices afresh both keep every identity. */
  lemma IdentitiesSurvive(ws: seq<bv32>)
    ensures var devices := Decoded(ReadAll(ws)).devices;
      && Identities(Decoded(Kept(ReadAll(ws))).devices) == Identities(devices)
      && Identities(Decoded(ReadAll(Encode(FieldsOf(devices)))).devices) == Identities(devices)
  {
    var words := ReadAll(ws);
    var a, b := Decoded(words).devices, Decoded(Kept(words)).devices;
    InvalidWordsDoNotMatter(words);
    forall i | 0 <= i < |a| ensures FieldsOf(a)[i] == FieldsOf(b)[i] {
      assert Nameless(a[i]).fields == Nameless(b[i]).fields;
    }
    FieldsFixIdentities(a, b);
    ReencodingKeepsDevices(ws);
    FieldsFixIdentities(Decoded(ReadAll(Encode(FieldsOf(a)))).devices, a);
  }

  /** A device named by the last type word of its record: its engine is the table's, and a
      fixed instance of the table overrides, with a warning, what the data words say. */
  lemma LastTypeWordNames(words: seq<Word>, groups: seq<seq<Item>>, rest: seq<Item>, k: nat, i: nat)
    requires IsSplit(LiveItems(words, |words|), groups, rest) && k < |groups|
    requires LastAt(Words(groups[k]), IsType, i) && EngineTypes(Words(groups[k])[i].reading.code).Some?
    ensures var d := Decoded(words).devices;
      && k < |d|
      && var named := EngineTypes(Words(groups[k])[i].reading.code).value;
         var id := IdentityOf(d[k].fields);
         var source := d[k].fields.sourceInstance;
         && id.engine == named.engine
         && (named.fixed.Some? ==> id.instance == named.fixed && (id.warning <==> source != 0))
         && (named.fixed.None? ==> id.instance == Some(source) && !id.warning)
  {
    var ws := Words(groups[k]);
    DevicesAreTheSplit(words, groups, rest);
    LastIsLast(ws, IsType);
    var j :| LastAt(ws, IsType, j) && ws[j] == Last(ws, IsType).value;
    assert i == j;
  }
}
