/** Assembling capture runs from the prefixed lines of a kernel log. */
module StageParsing {
  import opened Basics
  import opened StageRecords

  datatype Kind = InBegin | InStage | InValue | InMissed | NoMarker

  /** A line after its marker and fields were read; `None` stands for fields that fail to
      parse.  A BEGIN line leaves zero to two complaints of its own. */
  datatype Line =
    | Foreign                               // no capture prefix
    | Armed
    | Begin(complaints: nat)
    | StageLine(stage: Option<(int, Name)>)
    | ValueLine(value: Option<(int, Reading)>)
    | MissedLine(missed: Option<nat>)
    | End
    | OtherMarker

  datatype Run = Run(
    stages: seq<Stage>, orphans: seq<(int, Reading)>, missed: seq<nat>, unparsed: seq<Kind>,
    rawLines: nat, complete: bool)

  function NewRun(complaints: nat): Run {
    Run([], [], [], seq(complaints, _ => InBegin), 1, false)
  }

  /** Places of the stages carrying a sequence number. */
  function Candidates(stages: seq<Stage>, n: int): set<nat> {
    set i | 0 <= i < |stages| && stages[i].seqNo == n
  }

  function Attach(stages: seq<Stage>, i: nat, r: Reading): seq<Stage>
    requires i < |stages|
  {
    stages[i := stages[i].(values := stages[i].values + [r])]
  }

  function Attached(stages: seq<Stage>): nat {
    if stages == [] then 0 else Attached(stages[..|stages| - 1]) + |stages[|stages| - 1].values|
  }

  function Complaints(unparsed: seq<Kind>): nat {
    if unparsed == [] then 0
    else Complaints(unparsed[..|unparsed| - 1]) + if unparsed[|unparsed| - 1].InBegin? then 0 else 1
  }

  /** Every raw line of a run is accounted for exactly once. */
  predicate Conserved(r: Run) {
    r.rawLines == 1 + |r.stages| + Attached(r.stages) + |r.orphans| + |r.missed| + Complaints(r.unparsed)
                  + if r.complete then 1 else 0
  }

  lemma {:induction false} BeginComplaintsCountNothing(n: nat)
    ensures Complaints(seq(n, _ => InBegin)) == 0
    decreases n
  {
    if n > 0 {
      assert seq(n, _ => InBegin)[..n - 1] == seq(n - 1, _ => InBegin);
      BeginComplaintsCountNothing(n - 1);
    }
  }

  lemma {:induction false} AttachCounts(stages: seq<Stage>, i: nat, r: Reading)
    requires i < |stages|
    ensures Attached(Attach(stages, i, r)) == Attached(stages) + 1
    decreases |stages|
  {
    var n := |stages| - 1;
    if i < n {
      AttachCounts(stages[..n], i, r);
      assert Attach(stages, i, r)[..n] == Attach(stages[..n], i, r);
    } else {
      assert Attach(stages, i, r)[..n] == stages[..n];
    }
  }

  /** Lines that go into the open run. */
  predicate Ordinary(line: Line) {
    line.StageLine? || line.ValueLine? || line.MissedLine? || line.End? || line.OtherMarker?
  }

  /** The first stage with a sequence number. */
  function PlaceOf(stages: seq<Stage>, n: int): (i: nat)
    requires exists k :: 0 <= k < |stages| && stages[k].seqNo == n
    ensures i < |stages| && stages[i].seqNo == n
  {
    if stages[0].seqNo == n then 0 else 1 + PlaceOf(stages[1..], n)
  }

  /** Adds one line to the open run. */
  function Add(r: Run, line: Line): (r': Run)
    requires Ordinary(line)
    ensures r'.rawLines == r.rawLines + 1 && r'.complete == (r.complete || line.End?)
  {
    var r1 := r.(rawLines := r.rawLines + 1);
    match line
    case StageLine(None) => r1.(unparsed := r.unparsed + [InStage])
    case StageLine(Some((n, name))) => r1.(stages := r.stages + [Stage(n, name, [])])
    case ValueLine(None) => r1.(unparsed := r.unparsed + [InValue])
    case ValueLine(Some((n, reading))) =>
      if |Candidates(r.stages, n)| == 1 then
        OneCandidate(r.stages, n);
        r1.(stages := Attach(r.stages, PlaceOf(r.stages, n), reading))
      else r1.(orphans := r.orphans + [(n, reading)])
    case MissedLine(None) => r1.(unparsed := r.unparsed + [InMissed])
    case MissedLine(Some(n)) => r1.(missed := r.missed + [n])
    case End => r1.(complete := true)
    case _ => r1.(unparsed := r.unparsed + [NoMarker])
  }

  lemma OneCandidate(stages: seq<Stage>, n: int)
    requires |Candidates(stages, n)| == 1
    ensures exists k :: 0 <= k < |stages| && stages[k].seqNo == n
  {
    var k :| k in Candidates(stages, n);
  }

  lemma ComplaintConserves(r: Run, kind: Kind)
    requires Conserved(r) && !kind.InBegin?
    ensures Conserved(r.(rawLines := r.rawLines + 1, unparsed := r.unparsed + [kind]))
  {
    assert (r.unparsed + [kind])[..|r.unparsed|] == r.unparsed;
  }

  lemma StageConserves(r: Run, s: Stage)
    requires Conserved(r) && s.values == []
    ensures Conserved(r.(rawLines := r.rawLines + 1, stages := r.stages + [s]))
  {
    assert (r.stages + [s])[..|r.stages|] == r.stages;
  }

  lemma AttachConserves(r: Run, i: nat, x: Reading)
    requires Conserved(r) && i < |r.stages|
    ensures Conserved(r.(rawLines := r.rawLines + 1, stages := Attach(r.stages, i, x)))
  {
    AttachCounts(r.stages, i, x);
  }

  lemma ValueConserves(r: Run, n: int, x: Reading)
    requires Conserved(r) && !r.complete
    ensures Conserved(Add(r, ValueLine(Some((n, x)))))
  {
    if |Candidates(r.stages, n)| == 1 {
      OneCandidate(r.stages, n);
      AttachConserves(r, PlaceOf(r.stages, n), x);
    }
  }

  /** One line is one more in exactly one place. */
  lemma AddConserves(r: Run, line: Line)
    requires Conserved(r) && !r.complete && Ordinary(line)
    ensures Conserved(Add(r, line))
  {
    match line
    case StageLine(None) => ComplaintConserves(r, InStage);
    case StageLine(Some((n, name))) => StageConserves(r, Stage(n, name, []));
    case ValueLine(None) => ComplaintConserves(r, InValue);
    case ValueLine(Some((n, x))) => ValueConserves(r, n, x);
    case MissedLine(None) => ComplaintConserves(r, InMissed);
    case MissedLine(Some(n)) =>
    case End =>
    case OtherMarker => ComplaintConserves(r, NoMarker);
  }

  // ---- the lines of each run ----

  /** A capture cut into runs: finished blocks, and the block of the open run, if any.  A
      block is a BEGIN line and the lines of its run. */
  datatype Blocks = Blocks(done: seq<seq<Line>>, open: seq<Line>)

  function CutStep(b: Blocks, line: Line): Blocks {
    match line
    case Foreign => b
    case Armed => b
    case Begin(_) => Blocks(if b.open == [] then b.done else b.done + [b.open], [line])
    case End => if b.open == [] then b else Blocks(b.done + [b.open + [line]], [])
    case _ => if b.open == [] then b else b.(open := b.open + [line])
  }

  function Cut(lines: seq<Line>): Blocks {
    if lines == [] then Blocks([], []) else CutStep(Cut(lines[..|lines| - 1]), lines[|lines| - 1])
  }

  function AllBlocks(lines: seq<Line>): seq<seq<Line>> {
    var b := Cut(lines);
    if b.open == [] then b.done else b.done + [b.open]
  }

  /** A BEGIN line, ordinary lines, and END at most at the end. */
  ghost predicate IsBlock(block: seq<Line>) {
    && block != [] && block[0].Begin?
    && (forall i :: 1 <= i < |block| ==> Ordinary(block[i]))
    && (forall i :: 1 <= i < |block| - 1 ==> !block[i].End?)
  }

  ghost predicate WellCut(b: Blocks) {
    && (forall i :: 0 <= i < |b.done| ==> IsBlock(b.done[i]))
    && (b.open != [] ==> IsBlock(b.open) && !b.open[|b.open| - 1].End?)
  }

  lemma {:induction false} CutIsWellCut(lines: seq<Line>)
    ensures WellCut(Cut(lines))
  {
    if lines != [] { CutIsWellCut(lines[..|lines| - 1]); }
  }

  /** What a run's block makes of it. */
  function Replay(block: seq<Line>): Run
    requires block != [] && block[0].Begin? && forall i :: 1 <= i < |block| ==> Ordinary(block[i])
  {
    if |block| == 1 then NewRun(block[0].complaints) else Add(Replay(block[..|block| - 1]), block[|block| - 1])
  }

  lemma ReplayMore(block: seq<Line>, line: Line)
    requires IsBlock(block) && Ordinary(line)
    ensures Replay(block + [line]) == Add(Replay(block), line)
  {
    assert (block + [line])[..|block|] == block;
  }

  /** Every line of a block is accounted for in its run. */
  lemma {:induction false} ReplayConserves(block: seq<Line>)
    requires IsBlock(block)
    ensures Conserved(Replay(block)) && Replay(block).rawLines == |block|
    ensures Replay(block).complete <==> |block| > 1 && block[|block| - 1].End?
    decreases |block|
  {
    if |block| == 1 {
      BeginComplaintsCountNothing(block[0].complaints);
    } else {
      var n := |block| - 1;
      ReplayConserves(block[..n]);
      AddConserves(Replay(block[..n]), block[n]);
    }
  }

  // ---- what each line became ----

  datatype Head = Head(seqNo: int, name: Name)

  function Heads(stages: seq<Stage>): (hs: seq<Head>)
    ensures |hs| == |stages|
  {
    seq(|stages|, i requires 0 <= i < |stages| => Head(stages[i].seqNo, stages[i].name))
  }

  /** The well-formed STAGE lines of a block, in order. */
  function StageLines(block: seq<Line>): seq<Head> {
    if block == [] then [] else
    StageLines(block[..|block| - 1]) +
    match block[|block| - 1]
    case StageLine(Some((n, name))) => [Head(n, name)]
    case _ => []
  }

  function MissedLines(block: seq<Line>): seq<nat> {
    if block == [] then [] else
    MissedLines(block[..|block| - 1]) + match block[|block| - 1] case MissedLine(Some(n)) => [n] case _ => []
  }

  /** A value with the sequence number it was sent for. */
  type Sent = (int, Reading)

  /** How often a value occurs among the well-formed VALUE lines of a block. */
  function TimesSent(block: seq<Line>, v: Sent): nat {
    if block == [] then 0 else TimesSent(block[..|block| - 1], v) + One(block[|block| - 1] == ValueLine(Some(v)))
  }

  /** How often it occurs in a list of readings sent for sequence number n. */
  function TimesUnder(n: int, values: seq<Reading>, v: Sent): nat {
    if values == [] then 0 else TimesUnder(n, values[..|values| - 1], v) + One((n, values[|values| - 1]) == v)
  }

  function TimesPlaced(stages: seq<Stage>, v: Sent): nat {
    if stages == [] then 0 else
    TimesPlaced(stages[..|stages| - 1], v) + TimesUnder(stages[|stages| - 1].seqNo, stages[|stages| - 1].values, v)
  }

  function TimesOrphaned(orphans: seq<Sent>, v: Sent): nat {
    if orphans == [] then 0 else TimesOrphaned(orphans[..|orphans| - 1], v) + One(orphans[|orphans| - 1] == v)
  }

  lemma UnderMore(n: int, values: seq<Reading>, r: Reading, v: Sent)
    ensures TimesUnder(n, values + [r], v) == TimesUnder(n, values, v) + One((n, r) == v)
  {
    assert (values + [r])[..|values|] == values;
  }

  lemma PlacedMore(stages: seq<Stage>, s: Stage, v: Sent)
    ensures TimesPlaced(stages + [s], v) == TimesPlaced(stages, v) + TimesUnder(s.seqNo, s.values, v)
  {
    assert (stages + [s])[..|stages|] == stages;
  }

  lemma {:induction false} AttachPlaces(stages: seq<Stage>, i: nat, r: Reading, v: Sent)
    requires i < |stages|
    ensures TimesPlaced(Attach(stages, i, r), v) == TimesPlaced(stages, v) + One((stages[i].seqNo, r) == v)
    decreases |stages|
  {
    var before, last := stages[..|stages| - 1], stages[|stages| - 1];
    if i < |before| {
      AttachPlaces(before, i, r, v);
      assert Attach(stages, i, r)[..|before|] == Attach(before, i, r);
    } else {
      UnderMore(last.seqNo, last.values, r, v);
      assert Attach(stages, i, r)[..|before|] == before;
    }
  }

  lemma AttachKeepsHeads(stages: seq<Stage>, i: nat, r: Reading)
    requires i < |stages|
    ensures Heads(Attach(stages, i, r)) == Heads(stages)
  {}

  /** Exactly one stage has this sequence number. */
  predicate Unique(stages: seq<Stage>, n: int) {
    exists i :: 0 <= i < |stages| && OnlyAt(stages, n, i)
  }

  predicate OnlyAt(stages: seq<Stage>, n: int, i: nat)
    requires i < |stages|
  {
    stages[i].seqNo == n && forall j :: 0 <= j < |stages| && stages[j].seqNo == n ==> j == i
  }

  lemma OneCandidateIsUnique(stages: seq<Stage>, n: int)
    ensures |Candidates(stages, n)| == 1 <==> Unique(stages, n)
  {
    var c := Candidates(stages, n);
    if |c| == 1 {
      var i :| i in c;
      forall j | 0 <= j < |stages| && stages[j].seqNo == n ensures j == i {
        assert j in c;
        SingletonHasOne(c, i, j);
      }
      assert OnlyAt(stages, n, i);
    }
    if Unique(stages, n) {
      var i :| 0 <= i < |stages| && OnlyAt(stages, n, i);
      assert c == {i};
    }
  }

  lemma SingletonHasOne(c: set<nat>, i: nat, j: nat)
    requires |c| == 1 && i in c && j in c
    ensures i == j
  {
    SubsetIsSmaller({i, j}, c);
  }

  lemma ValueAttaches(r: Run, n: int, x: Reading, v: Sent)
    ensures var r' := Add(r, ValueLine(Some((n, x))));
            && Heads(r'.stages) == Heads(r.stages)
            && if |Candidates(r.stages, n)| == 1
               then r'.orphans == r.orphans && TimesPlaced(r'.stages, v) == TimesPlaced(r.stages, v) + One((n, x) == v)
               else r'.orphans == r.orphans + [(n, x)] && r'.stages == r.stages
  {
    if |Candidates(r.stages, n)| == 1 {
      OneCandidate(r.stages, n);
      AttachPlaces(r.stages, PlaceOf(r.stages, n), x, v);
      AttachKeepsHeads(r.stages, PlaceOf(r.stages, n), x);
    }
  }

  /** A value line goes to a stage exactly when one stage so far has its sequence number, and
      to the orphans otherwise. */
  lemma ValueGoesToItsStage(r: Run, n: int, x: Reading, v: Sent)
    ensures var r' := Add(r, ValueLine(Some((n, x))));
            && (Unique(r.stages, n) ==>
                  r'.orphans == r.orphans && TimesPlaced(r'.stages, v) == TimesPlaced(r.stages, v) + One((n, x) == v))
            && (!Unique(r.stages, n) ==> r'.orphans == r.orphans + [(n, x)] && r'.stages == r.stages)
  {
    OneCandidateIsUnique(r.stages, n);
    ValueAttaches(r, n, x, v);
  }

  function TimesHeld(r: Run, v: Sent): nat { TimesPlaced(r.stages, v) + TimesOrphaned(r.orphans, v) }

  lemma OrphanMore(orphans: seq<Sent>, x: Sent, v: Sent)
    ensures TimesOrphaned(orphans + [x], v) == TimesOrphaned(orphans, v) + One(x == v)
  {
    assert (orphans + [x])[..|orphans|] == orphans;
  }

  lemma ValueHeld(r: Run, n: int, x: Reading, v: Sent)
    ensures TimesHeld(Add(r, ValueLine(Some((n, x)))), v) == TimesHeld(r, v) + One((n, x) == v)
  {
    ValueAttaches(r, n, x, v);
    OrphanMore(r.orphans, (n, x), v);
  }

  lemma StageHeld(r: Run, n: int, name: Name, v: Sent)
    ensures TimesHeld(Add(r, StageLine(Some((n, name)))), v) == TimesHeld(r, v)
  {
    PlacedMore(r.stages, Stage(n, name, []), v);
  }

  lemma AddHeld(r: Run, line: Line, v: Sent)
    requires Ordinary(line)
    ensures TimesHeld(Add(r, line), v) == TimesHeld(r, v) + One(line == ValueLine(Some(v)))
  {
    match line
    case StageLine(Some((n, name))) => StageHeld(r, n, name, v);
    case ValueLine(Some((n, x))) => ValueHeld(r, n, x, v);
    case _ =>
  }

  lemma AddHeads(r: Run, line: Line)
    requires Ordinary(line)
    ensures Heads(Add(r, line).stages) ==
            Heads(r.stages) + match line case StageLine(Some((n, name))) => [Head(n, name)] case _ => []
    ensures Add(r, line).missed == r.missed + match line case MissedLine(Some(n)) => [n] case _ => []
  {
    match line
    case StageLine(Some((n, name))) =>
    case ValueLine(Some((n, x))) => ValueAttaches(r, n, x, (n, x));
    case _ =>
  }

  /** Every well-formed VALUE line is in exactly one place: an orphan, or under a stage of its
      own sequence number. */
  lemma {:induction false} ReplayHoldsValues(block: seq<Line>, v: Sent)
    requires IsBlock(block)
    ensures TimesHeld(Replay(block), v) == TimesSent(block, v)
    decreases |block|
  {
    var n := |block| - 1;
    if n == 0 {
      assert block[..0] == [];
    } else {
      ReplayHoldsValues(block[..n], v);
      AddHeld(Replay(block[..n]), block[n], v);
    }
  }

  /** The stages of a run are the well-formed STAGE lines of its block, in order, and its
      missed counters the well-formed MISSED lines. */
  lemma {:induction false} ReplayHoldsStages(block: seq<Line>)
    requires IsBlock(block)
    ensures Heads(Replay(block).stages) == StageLines(block) && Replay(block).missed == MissedLines(block)
    decreases |block|
  {
    var n := |block| - 1;
    if n == 0 {
      assert block[..0] == [];
    } else {
      ReplayHoldsStages(block[..n]);
      AddHeads(Replay(block[..n]), block[n]);
    }
  }

  ghost predicate Holds(r: Run, block: seq<Line>) {
    && Heads(r.stages) == StageLines(block)
    && r.missed == MissedLines(block)
    && forall v: Sent :: TimesHeld(r, v) == TimesSent(block, v)
  }

  lemma ReplayHolds(block: seq<Line>)
    requires IsBlock(block)
    ensures Holds(Replay(block), block)
  {
    ReplayHoldsStages(block);
    forall v: Sent ensures TimesHeld(Replay(block), v) == TimesSent(block, v) { ReplayHoldsValues(block, v); }
  }

  // ---- no owned line is lost ----

  /** Lines that belong to some run: prefixed, not ARMED, and not outside every run. */
  function Owned(lines: seq<Line>): (r: (seq<Line>, bool)) {
    if lines == [] then ([], false) else
    var (owned, open) := Owned(lines[..|lines| - 1]);
    var line := lines[|lines| - 1];
    match line
    case Foreign => (owned, open)
    case Armed => (owned, open)
    case Begin(_) => (owned + [line], true)
    case End => if open then (owned + [line], false) else (owned, false)
    case _ => if open then (owned + [line], true) else (owned, false)
  }

  lemma Regroup(a: seq<Line>, b: seq<Line>, line: Line)
    ensures a + (b + [line]) == (a + b) + [line]
  {}

  lemma CutStepOwns(b: Blocks, line: Line, owned: seq<Line>)
    requires Concat(b.done) + b.open == owned
    ensures var b' := CutStep(b, line);
            Concat(b'.done) + b'.open ==
            owned + if line.Begin? || (Ordinary(line) && b.open != []) then [line] else []
  {
    if line.Begin? {
      ConcatOfAppend(b.done, b.open);
    } else if Ordinary(line) && b.open != [] {
      Regroup(Concat(b.done), b.open, line);
      if line.End? {
        ConcatOfAppend(b.done, b.open + [line]);
        assert CutStep(b, line) == Blocks(b.done + [b.open + [line]], []);
      }
    } else {
      assert CutStep(b, line) == b;
    }
  }

  lemma {:induction false} CutOwns(lines: seq<Line>)
    ensures Concat(Cut(lines).done) + Cut(lines).open == Owned(lines).0
    ensures Cut(lines).open != [] <==> Owned(lines).1
  {
    if lines != [] {
      var before := lines[..|lines| - 1];
      CutOwns(before);
      CutStepOwns(Cut(before), lines[|lines| - 1], Owned(before).0);
    }
  }

  /** The blocks are runs of lines and, put together, exactly the owned lines. */
  lemma BlocksAreTheOwnedLines(lines: seq<Line>)
    ensures Concat(AllBlocks(lines)) == Owned(lines).0
    ensures forall i :: 0 <= i < |AllBlocks(lines)| ==> IsBlock(AllBlocks(lines)[i])
  {
    CutOwns(lines);
    CutIsWellCut(lines);
    Gathered(Cut(lines), AllBlocks(lines));
  }

  lemma Gathered(b: Blocks, all: seq<seq<Line>>)
    requires WellCut(b) && all == if b.open == [] then b.done else b.done + [b.open]
    ensures Concat(all) == Concat(b.done) + b.open
    ensures forall i :: 0 <= i < |all| ==> IsBlock(all[i])
  {
    ConcatOfAppend(b.done, b.open);
  }

  ghost predicate Replayed(runs: seq<Run>, blocks: seq<seq<Line>>) {
    |runs| == |blocks| && forall i :: 0 <= i < |runs| ==> RunOf(runs[i], blocks[i])
  }

  /** The run a block makes: the replay of its lines, complete with respect to what they say. */
  ghost predicate RunOf(r: Run, block: seq<Line>) {
    && IsBlock(block) && r == Replay(block) && Conserved(r) && r.rawLines == |block| && Holds(r, block)
    && (r.complete <==> |block| > 1 && block[|block| - 1].End?)
  }

  lemma BlockMakesRun(block: seq<Line>)
    requires IsBlock(block)
    ensures RunOf(Replay(block), block)
  {
    ReplayConserves(block);
    ReplayHolds(block);
  }

  lemma ReplayedMore(runs: seq<Run>, blocks: seq<seq<Line>>, block: seq<Line>)
    requires Replayed(runs, blocks) && IsBlock(block)
    ensures Replayed(runs + [Replay(block)], blocks + [block])
  {
    BlockMakesRun(block);
  }

  /** `parse_capture`: there is one run per block of lines, in order; each conserves its
      lines and holds what they say; the selected run is the last one whose END was seen. */
  method ParseCapture(lines: seq<Line>) returns (runs: seq<Run>, selected: Option<nat>)
    ensures Replayed(runs, AllBlocks(lines))
    ensures selected.None? <==> forall i :: 0 <= i < |runs| ==> !runs[i].complete
    ensures selected.Some? ==> selected.value < |runs| && runs[selected.value].complete &&
                               forall i :: selected.value < i < |runs| ==> !runs[i].complete
  {
    runs := [];
    var current: Option<Run> := None;
    for k := 0 to |lines|
      invariant Replayed(runs, Cut(lines[..k]).done)
      invariant current.Some? <==> Cut(lines[..k]).open != []
      invariant current.Some? ==> IsBlock(Cut(lines[..k]).open) && current.value == Replay(Cut(lines[..k]).open)
    {
      assert lines[..k + 1][..k] == lines[..k];
      CutIsWellCut(lines[..k]);
      ghost var b := Cut(lines[..k]);
      var line := lines[k];
      if line.Foreign? || line.Armed? {
      } else if line.Begin? {
        if current.Some? {
          ReplayedMore(runs, b.done, b.open);
          runs := runs + [current.value];
        }
        current := Some(NewRun(line.complaints));
      } else if current.Some? {
        ReplayMore(b.open, line);
        var r := Add(current.value, line);
        if line.End? {
          ReplayedMore(runs, b.done, b.open + [line]);
          runs, current := runs + [r], None;
        } else {
          current := Some(r);
        }
      }
    }
    assert lines[..|lines|] == lines;
    if current.Some? {
      ReplayedMore(runs, Cut(lines).done, Cut(lines).open);
      runs := runs + [current.value];
    }
    selected := SelectRun(runs);
  }

  /** The last run whose END was seen. */
  method SelectRun(runs: seq<Run>) returns (selected: Option<nat>)
    ensures selected.None? <==> forall i :: 0 <= i < |runs| ==> !runs[i].complete
    ensures selected.Some? ==> selected.value < |runs| && runs[selected.value].complete &&
                               forall i :: selected.value < i < |runs| ==> !runs[i].complete
  {
    selected := None;
    for i := 0 to |runs|
      invariant selected.None? <==> forall k :: 0 <= k < i ==> !runs[k].complete
      invariant selected.Some? ==> selected.value < i && runs[selected.value].complete &&
                                   forall k :: selected.value < k < i ==> !runs[k].complete
    {
      if runs[i].complete { selected := Some(i); }
    }
  }
}
