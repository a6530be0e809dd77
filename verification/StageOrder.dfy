/** Stage records of a lifecycle capture. */
module StageRecords {
  import opened Basics

  datatype Name =
    | NvidiaBaseline | PostEntry | PostReturn | MaskReturn | ResetReturn
    | OneinitEntry | OneinitReturn | CtxctlEntry | CtxctlReturn
    | Unknown(text: string)

  datatype Reading = Reading(reg: nat, value: nat)

  /** One STAGE record with the VALUE records attached to it. */
  datatype Stage = Stage(seqNo: int, name: Name, values: seq<Reading>)

  const CORE_SEQUENCE: seq<Name> :=
    [NvidiaBaseline, PostEntry, PostReturn, MaskReturn, ResetReturn, OneinitEntry, OneinitReturn, CtxctlEntry, CtxctlReturn]

  const NONRESET_SEQUENCE: seq<Name> :=
    [NvidiaBaseline, PostEntry, PostReturn, OneinitEntry, OneinitReturn, CtxctlEntry, CtxctlReturn]

  predicate IsReset(n: Name) { n.MaskReturn? || n.ResetReturn? }

  /** Sequence numbers count the stages from 0. */
  predicate Contiguous(stages: seq<Stage>) {
    forall i :: 0 <= i < |stages| ==> stages[i].seqNo == i
  }

  function Filter(stages: seq<Stage>, keep: Stage -> bool): (r: seq<Stage>)
  {
    if stages == [] then []
    else Filter(stages[..|stages| - 1], keep) +
         if keep(stages[|stages| - 1]) then [stages[|stages| - 1]] else []
  }

  /** A stable sort by sequence number has one possible result. */
  function Insert(s: Stage, sorted: seq<Stage>): seq<Stage> {
    if sorted == [] || s.seqNo >= sorted[|sorted| - 1].seqNo then sorted + [s]
    else Insert(s, sorted[..|sorted| - 1]) + [sorted[|sorted| - 1]]
  }

  function Sort(stages: seq<Stage>): seq<Stage> {
    if stages == [] then [] else Insert(stages[|stages| - 1], Sort(stages[..|stages| - 1]))
  }

  predicate Increasing(stages: seq<Stage>) {
    forall i, j :: 0 <= i < j < |stages| ==> stages[i].seqNo < stages[j].seqNo
  }

  predicate NonDecreasing(stages: seq<Stage>) {
    forall i, j :: 0 <= i < j < |stages| ==> stages[i].seqNo <= stages[j].seqNo
  }

  // ---- filtering ----

  lemma {:induction false} FilterMembers(stages: seq<Stage>, keep: Stage -> bool)
    ensures forall s :: s in Filter(stages, keep) <==> s in stages && keep(s)
  {
    if stages != [] {
      var last := stages[|stages| - 1];
      FilterMembers(stages[..|stages| - 1], keep);
      assert stages == stages[..|stages| - 1] + [last];
    }
  }

  lemma {:induction false} FilterIncreasing(stages: seq<Stage>, keep: Stage -> bool)
    requires Increasing(stages)
    ensures Increasing(Filter(stages, keep))
  {
    if stages != [] {
      var init, last := stages[..|stages| - 1], stages[|stages| - 1];
      FilterIncreasing(init, keep);
      FilterMembers(init, keep);
      assert forall s :: s in init ==> s.seqNo < last.seqNo;
      assert forall k :: 0 <= k < |Filter(init, keep)| ==> Filter(init, keep)[k] in init;
    }
  }

  /** Increasing sequences with the same members are equal. */
  lemma {:induction false} IncreasingUnique(a: seq<Stage>, b: seq<Stage>)
    requires Increasing(a) && Increasing(b) && forall s :: s in a <==> s in b
    ensures a == b
  {
    if a == [] {
      assert forall i :: 0 <= i < |b| ==> b[i] in a;
    } else {
      assert a[|a| - 1] in a;
      assert b != [];
      var x, y := a[|a| - 1], b[|b| - 1];
      assert y in b;
      assert x == y;
      var a', b' := a[..|a| - 1], b[..|b| - 1];
      forall s ensures s in a' <==> s in b' {
        if s in a' { assert s in a && s != x; }
        if s in b' { assert s in b && s != y; }
      }
      IncreasingUnique(a', b');
    }
  }

  lemma {:induction false} InsertAdds(s: Stage, sorted: seq<Stage>)
    ensures multiset(Insert(s, sorted)) == multiset(sorted) + multiset{s}
  {
    if sorted != [] {
      var init, last := sorted[..|sorted| - 1], sorted[|sorted| - 1];
      InsertAdds(s, init);
      assert sorted == init + [last];
    }
  }

  ghost predicate UpTo(stages: seq<Stage>, top: int) { forall k :: 0 <= k < |stages| ==> stages[k].seqNo <= top }

  lemma {:induction false} InsertUpTo(s: Stage, sorted: seq<Stage>, top: int)
    requires UpTo(sorted, top) && s.seqNo <= top
    ensures UpTo(Insert(s, sorted), top)
  {
    if sorted != [] { InsertUpTo(s, sorted[..|sorted| - 1], top); }
  }

  lemma {:induction false} InsertSorts(s: Stage, sorted: seq<Stage>)
    requires NonDecreasing(sorted)
    ensures NonDecreasing(Insert(s, sorted))
  {
    if sorted != [] && s.seqNo < sorted[|sorted| - 1].seqNo {
      var init, last := sorted[..|sorted| - 1], sorted[|sorted| - 1];
      InsertSorts(s, init);
      InsertUpTo(s, init, last.seqNo);
    }
  }

  lemma {:induction false} SortSorts(stages: seq<Stage>)
    ensures NonDecreasing(Sort(stages)) && multiset(Sort(stages)) == multiset(stages)
  {
    if stages != [] {
      var init, last := stages[..|stages| - 1], stages[|stages| - 1];
      SortSorts(init);
      InsertSorts(last, Sort(init));
      InsertAdds(last, Sort(init));
      assert stages == init + [last];
    }
  }

  /** Sorting finds any increasing arrangement of the same records. */
  lemma SortFinds(stages: seq<Stage>, increasing: seq<Stage>)
    requires Increasing(increasing) && multiset(stages) == multiset(increasing)
    ensures Sort(stages) == increasing
  {
    SortSorts(stages);
    var sorted := Sort(stages);
    NoTies(sorted, increasing);
    forall s ensures s in sorted <==> s in increasing {
      assert s in sorted <==> s in multiset(sorted);
      assert s in increasing <==> s in multiset(increasing);
    }
    IncreasingUnique(sorted, increasing);
  }

  lemma NoTies(sorted: seq<Stage>, increasing: seq<Stage>)
    requires NonDecreasing(sorted) && Increasing(increasing) && multiset(sorted) == multiset(increasing)
    ensures Increasing(sorted)
  {
    forall i, j | 0 <= i < j < |sorted| ensures sorted[i].seqNo < sorted[j].seqNo {
      assert sorted[i] in multiset(sorted) && sorted[j] in multiset(sorted);
      assert sorted[i] in increasing && sorted[j] in increasing;
      if sorted[i].seqNo == sorted[j].seqNo {
        assert sorted[i] == sorted[j];
        RepeatedCountsTwice(sorted, i, j);
        OnceInMultiset(increasing, sorted[i]);
        assert false;
      }
    }
  }

  lemma {:induction false} OnceInMultiset(s: seq<Stage>, x: Stage)
    requires Increasing(s)
    ensures multiset(s)[x] <= 1
  {
    if s != [] {
      var init, last := s[..|s| - 1], s[|s| - 1];
      OnceInMultiset(init, x);
      assert s == init + [last];
      assert forall k :: 0 <= k < |init| ==> init[k].seqNo < last.seqNo;
      assert x == last ==> x !in init;
    }
  }
}

/** The presence, order and reset-classification checks of the capture validator. */
module StageOrder {
  import opened Basics
  import opened StageRecords

  datatype Error =
    | MissingStage(name: Name) | DuplicateStage(name: Name)
    | AmbiguousInitialReset | InitialResetWindowUnavailable
    | UnclassifiedResetEvents | StageOrderError

  datatype Pair = Pair(mask: int, reset: int)

  function Matches(stages: seq<Stage>, name: Name): seq<Stage> {
    Filter(stages, (s: Stage) => s.name == name)
  }

  function Between(stages: seq<Stage>, name: Name, low: int, high: int): seq<Stage> {
    Filter(stages, (s: Stage) => s.name == name && low < s.seqNo < high)
  }

  function After(stages: seq<Stage>, name: Name, low: int): seq<Stage> {
    Filter(stages, (s: Stage) => s.name == name && s.seqNo > low)
  }

  predicate Single(stages: seq<Stage>, name: Name) { |Matches(stages, name)| == 1 }

  /** Missing and duplicate errors of the first n non-reset names, and the records found
      exactly once. */
  function Presence(stages: seq<Stage>, n: nat): (seq<Error>, seq<Stage>)
    requires n <= |NONRESET_SEQUENCE|
  {
    if n == 0 then ([], []) else
    var (errors, found) := Presence(stages, n - 1);
    var name := NONRESET_SEQUENCE[n - 1];
    var matches := Matches(stages, name);
    if matches == [] then (errors + [MissingStage(name)], found)
    else if |matches| > 1 then (errors + [DuplicateStage(name)], found)
    else (errors, found + [matches[0]])
  }

  function AllPresence(stages: seq<Stage>): (seq<Error>, seq<Stage>) { Presence(stages, |NONRESET_SEQUENCE|) }

  predicate WindowKnown(stages: seq<Stage>) { Single(stages, PostReturn) && Single(stages, OneinitEntry) }

  function WindowMasks(stages: seq<Stage>): seq<Stage>
    requires WindowKnown(stages)
  {
    Between(stages, MaskReturn, Matches(stages, PostReturn)[0].seqNo, Matches(stages, OneinitEntry)[0].seqNo)
  }

  function WindowResets(stages: seq<Stage>): seq<Stage>
    requires WindowKnown(stages)
  {
    Between(stages, ResetReturn, Matches(stages, PostReturn)[0].seqNo, Matches(stages, OneinitEntry)[0].seqNo)
  }

  predicate HasInitialPair(stages: seq<Stage>) {
    WindowKnown(stages) && |WindowMasks(stages)| == 1 && |WindowResets(stages)| == 1 &&
    WindowMasks(stages)[0].seqNo + 1 == WindowResets(stages)[0].seqNo
  }

  function Trailing(stages: seq<Stage>): seq<Stage> {
    if !Single(stages, CtxctlReturn) then [] else
    var low := Matches(stages, CtxctlReturn)[0].seqNo;
    Sort(After(stages, MaskReturn, low) + After(stages, ResetReturn, low))
  }

  predicate PairAt(trailing: seq<Stage>, cursor: nat) {
    cursor + 1 < |trailing| && trailing[cursor].name.MaskReturn? && trailing[cursor + 1].name.ResetReturn? &&
    trailing[cursor].seqNo + 1 == trailing[cursor + 1].seqNo
  }

  /** The pair scan from `cursor` on: pairs found and sequence numbers left over. */
  function Scan(trailing: seq<Stage>, cursor: nat): (seq<Pair>, set<int>)
    requires cursor <= |trailing|
    decreases |trailing| - cursor
  {
    if cursor == |trailing| then ([], {})
    else if PairAt(trailing, cursor) then
      var (pairs, left) := Scan(trailing, cursor + 2);
      ([Pair(trailing[cursor].seqNo, trailing[cursor + 1].seqNo)] + pairs, left)
    else if cursor + 1 < |trailing| then
      var (pairs, left) := Scan(trailing, cursor + 2);
      (pairs, {trailing[cursor].seqNo, trailing[cursor + 1].seqNo} + left)
    else ([], {trailing[cursor].seqNo})
  }

  function PairSeqs(pairs: seq<Pair>): set<int> {
    (set p | p in pairs :: p.mask) + (set p | p in pairs :: p.reset)
  }

  function ResetSeqs(stages: seq<Stage>): set<int> {
    set s | s in stages && IsReset(s.name) :: s.seqNo
  }

  /** The initial mask and reset records, when the window holds exactly one adjacent pair. */
  function Window(stages: seq<Stage>): (w: seq<Stage>)
    ensures |w| == 0 || |w| == 2
  {
    if HasInitialPair(stages) then [WindowMasks(stages)[0], WindowResets(stages)[0]] else []
  }

  function SeqNos(stages: seq<Stage>): set<int> { set s | s in stages :: s.seqNo }

  function Unclassified(stages: seq<Stage>): set<int> {
    var scan := Scan(Trailing(stages), 0);
    (ResetSeqs(stages) - (SeqNos(Window(stages)) + PairSeqs(scan.0))) + scan.1
  }

  function Found(stages: seq<Stage>): seq<Stage> {
    AllPresence(stages).1 + Window(stages)
  }

  function Names(stages: seq<Stage>): (names: seq<Name>)
    ensures |names| == |stages|
    ensures forall i :: 0 <= i < |stages| ==> names[i] == stages[i].name
  {
    seq(|stages|, i requires 0 <= i < |stages| => stages[i].name)
  }

  function WindowError(stages: seq<Stage>): seq<Error> {
    if !WindowKnown(stages) then [InitialResetWindowUnavailable]
    else if !HasInitialPair(stages) then [AmbiguousInitialReset] else []
  }

  function ClassError(unclassified: set<int>): seq<Error> {
    if unclassified != {} then [UnclassifiedResetEvents] else []
  }

  function OrderError(found: seq<Stage>): seq<Error> {
    if |found| == |CORE_SEQUENCE| && Names(Sort(found)) != CORE_SEQUENCE then [StageOrderError] else []
  }

  function Errors(stages: seq<Stage>): seq<Error> {
    AllPresence(stages).0 + WindowError(stages) + ClassError(Unclassified(stages)) + OrderError(Found(stages))
  }

  /** The checks as the validator performs them. */
  method CheckOrder(stages: seq<Stage>) returns (errors: seq<Error>, initial: Option<Pair>, pairs: seq<Pair>, unclassified: set<int>)
    ensures errors == Errors(stages)
    ensures initial == var w := Window(stages); if w == [] then None else Some(Pair(w[0].seqNo, w[1].seqNo))
    ensures pairs == Scan(Trailing(stages), 0).0 && unclassified == Unclassified(stages)
  {
    var found: seq<Stage>;
    errors, found := CheckPresence(stages);
    var windowErrors, window := CheckWindow(stages);
    initial := if window == [] then None else Some(Pair(window[0].seqNo, window[1].seqNo));
    errors, found := errors + windowErrors, found + window;
    assert found == Found(stages);
    var left: set<int>;
    pairs, left := ScanPairs(Trailing(stages));
    unclassified := (ResetSeqs(stages) - (SeqNos(window) + PairSeqs(pairs))) + left;
    var classErrors := if unclassified != {} then [UnclassifiedResetEvents] else [];
    var orderErrors := CheckSorted(found);
    errors := errors + classErrors + orderErrors;
  }

  method CheckSorted(found: seq<Stage>) returns (errors: seq<Error>)
    ensures errors == OrderError(found)
  {
    if |found| == |CORE_SEQUENCE| && Names(Sort(found)) != CORE_SEQUENCE {
      return [StageOrderError];
    }
    return [];
  }

  method CheckPresence(stages: seq<Stage>) returns (errors: seq<Error>, found: seq<Stage>)
    ensures errors == AllPresence(stages).0 && found == AllPresence(stages).1
  {
    errors, found := [], [];
    for n := 0 to |NONRESET_SEQUENCE|
      invariant errors == Presence(stages, n).0 && found == Presence(stages, n).1
    {
      var matches := Matches(stages, NONRESET_SEQUENCE[n]);
      if |matches| == 0 {
        errors := errors + [MissingStage(NONRESET_SEQUENCE[n])];
      } else if |matches| > 1 {
        errors := errors + [DuplicateStage(NONRESET_SEQUENCE[n])];
      } else {
        found := found + [matches[0]];
      }
    }
  }

  method CheckWindow(stages: seq<Stage>) returns (errors: seq<Error>, window: seq<Stage>)
    ensures errors == WindowError(stages)
    ensures window == Window(stages)
  {
    if !Single(stages, PostReturn) || !Single(stages, OneinitEntry) {
      return [InitialResetWindowUnavailable], [];
    }
    var low, high := Matches(stages, PostReturn)[0].seqNo, Matches(stages, OneinitEntry)[0].seqNo;
    var masks, resets := Between(stages, MaskReturn, low, high), Between(stages, ResetReturn, low, high);
    if |masks| != 1 || |resets| != 1 || masks[0].seqNo + 1 != resets[0].seqNo {
      return [AmbiguousInitialReset], [];
    }
    return [], [masks[0], resets[0]];
  }

  method ScanPairs(trailing: seq<Stage>) returns (pairs: seq<Pair>, left: set<int>)
    ensures pairs == Scan(trailing, 0).0 && left == Scan(trailing, 0).1
  {
    pairs, left := [], {};
    var cursor := 0;
    while cursor < |trailing|
      invariant cursor <= |trailing|
      invariant pairs + Scan(trailing, cursor).0 == Scan(trailing, 0).0
      invariant left + Scan(trailing, cursor).1 == Scan(trailing, 0).1
    {
      if cursor + 1 < |trailing| && trailing[cursor].name.MaskReturn? && trailing[cursor + 1].name.ResetReturn? &&
         trailing[cursor].seqNo + 1 == trailing[cursor + 1].seqNo
      {
        pairs := pairs + [Pair(trailing[cursor].seqNo, trailing[cursor + 1].seqNo)];
        cursor := cursor + 2;
      } else if cursor + 1 < |trailing| {
        left := left + {trailing[cursor].seqNo, trailing[cursor + 1].seqNo};
        cursor := cursor + 2;
      } else {
        left := left + {trailing[cursor].seqNo};
        cursor := cursor + 1;
      }
    }
  }
}
