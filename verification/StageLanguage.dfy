/** The regular language behind the order checks: on contiguously numbered runs they pass
    exactly when the known names spell the core sequence followed by (mask, reset) pairs,
    each pair adjacent. */
module StageLanguage {
  import opened StageRecords
  import opened StageOrder

  function KnownStages(stages: seq<Stage>): seq<Stage> {
    Filter(stages, (s: Stage) => !s.name.Unknown?)
  }

  function PairNames(k: nat): seq<Name> {
    if k == 0 then [] else PairNames(k - 1) + [MaskReturn, ResetReturn]
  }

  /** The known names, read in order, are the core sequence and then k reset pairs. */
  ghost predicate Spells(stages: seq<Stage>) {
    exists k: nat :: Names(KnownStages(stages)) == CORE_SEQUENCE + PairNames(k)
  }

  /** Nothing, not even an unknown record, separates a mask from its reset. */
  predicate PairsAdjacent(stages: seq<Stage>) {
    forall i :: 0 <= i < |stages| && stages[i].name.MaskReturn? ==>
      i + 1 < |stages| && stages[i + 1].name.ResetReturn?
  }

  // ---- contiguous numbering ----

  lemma ByNumber(stages: seq<Stage>, s: Stage)
    requires Contiguous(stages) && s in stages
    ensures 0 <= s.seqNo < |stages| && stages[s.seqNo] == s
  {}

  lemma {:induction false} PairNamesAt(k: nat, i: nat)
    requires i < 2 * k
    ensures |PairNames(k)| == 2 * k
    ensures PairNames(k)[i] == if i % 2 == 0 then MaskReturn else ResetReturn
    decreases k
  {
    if k == 1 {
      assert PairNames(0) == [];
    } else {
      PairNamesAt(k - 1, if i < 2 * (k - 1) then i else 0);
    }
  }

  lemma PairNamesLength(k: nat)
    ensures |PairNames(k)| == 2 * k
  {
    if k > 0 { PairNamesAt(k, 0); }
  }

  lemma {:induction false} SplitFilter(stages: seq<Stage>, a: Stage -> bool, b: Stage -> bool, c: Stage -> bool)
    requires forall s :: c(s) <==> a(s) || b(s)
    requires forall s :: !(a(s) && b(s))
    ensures multiset(Filter(stages, a) + Filter(stages, b)) == multiset(Filter(stages, c))
  {
    if stages != [] {
      SplitFilter(stages[..|stages| - 1], a, b, c);
    }
  }

  function ResetsAfter(stages: seq<Stage>, low: int): seq<Stage> {
    Filter(stages, (s: Stage) => IsReset(s.name) && s.seqNo > low)
  }

  /** On contiguous runs the sorted trailing records are simply the later reset records. */
  lemma TrailingIsFilter(stages: seq<Stage>)
    requires Contiguous(stages) && Single(stages, CtxctlReturn)
    ensures Trailing(stages) == ResetsAfter(stages, Matches(stages, CtxctlReturn)[0].seqNo)
    ensures Increasing(Trailing(stages))
  {
    var low := Matches(stages, CtxctlReturn)[0].seqNo;
    SplitFilter(stages, (s: Stage) => s.name == MaskReturn && s.seqNo > low,
                (s: Stage) => s.name == ResetReturn && s.seqNo > low,
                (s: Stage) => IsReset(s.name) && s.seqNo > low);
    FilterIncreasing(stages, (s: Stage) => IsReset(s.name) && s.seqNo > low);
    SortFinds(After(stages, MaskReturn, low) + After(stages, ResetReturn, low), ResetsAfter(stages, low));
  }

  predicate Paired(t: seq<Stage>, from: nat) {
    |t| % 2 == 0 && forall c :: from <= c < |t| && c % 2 == 0 ==> PairAt(t, c)
  }

  /** The scan leaves nothing over exactly when every even place starts a pair. */
  lemma {:induction false} ScanIsExact(t: seq<Stage>, cursor: nat)
    requires cursor <= |t| && cursor % 2 == 0
    ensures Scan(t, cursor).1 == {} <==> Paired(t, cursor)
    decreases |t| - cursor
  {
    if cursor + 1 < |t| {
      ScanIsExact(t, cursor + 2);
      assert Paired(t, cursor) <==> PairAt(t, cursor) && Paired(t, cursor + 2);
    }
  }

  /** And the pairs then cover exactly the scanned records. */
  lemma {:induction false} ScanCovers(t: seq<Stage>, cursor: nat)
    requires cursor <= |t| && cursor % 2 == 0 && Paired(t, cursor)
    ensures PairSeqs(Scan(t, cursor).0) == SeqNos(t[cursor..])
    decreases |t| - cursor
  {
    if cursor < |t| {
      assert PairAt(t, cursor);
      ScanCovers(t, cursor + 2);
      ScanPairSeqs(t, cursor);
      assert t[cursor..] == [t[cursor], t[cursor + 1]] + t[cursor + 2..];
      SeqNosOfTwo(t[cursor], t[cursor + 1], t[cursor + 2..]);
    }
  }

  lemma SeqNosOfTwo(a: Stage, b: Stage, rest: seq<Stage>)
    ensures SeqNos([a, b] + rest) == {a.seqNo, b.seqNo} + SeqNos(rest)
  {
    var all := [a, b] + rest;
    assert a in all && b in all && forall s :: s in rest ==> s in all;
    assert forall s :: s in all ==> s == a || s == b || s in rest;
  }

  lemma ScanPairSeqs(t: seq<Stage>, cursor: nat)
    requires cursor + 1 < |t| && PairAt(t, cursor)
    ensures PairSeqs(Scan(t, cursor).0) ==
            {t[cursor].seqNo, t[cursor + 1].seqNo} + PairSeqs(Scan(t, cursor + 2).0)
  {
    var p := Pair(t[cursor].seqNo, t[cursor + 1].seqNo);
    var rest := Scan(t, cursor + 2).0;
    assert Scan(t, cursor).0 == [p] + rest;
    forall x | x in {p.mask, p.reset} + PairSeqs(rest) ensures x in PairSeqs([p] + rest) {
      if x in PairSeqs(rest) {
        var q :| q in rest && (q.mask == x || q.reset == x);
        assert q in [p] + rest;
      } else {
        assert p in [p] + rest;
      }
    }
  }

  // ---- what an error-free run looks like ----

  /** base[k] is the only record named NONRESET_SEQUENCE[k], for each of the first n. */
  ghost predicate Bases(stages: seq<Stage>, base: seq<Stage>) {
    |base| <= 7 && forall k :: 0 <= k < |base| ==> Matches(stages, NONRESET_SEQUENCE[k]) == [base[k]]
  }

  lemma PresenceBefore(stages: seq<Stage>, n: nat) returns (match1: Stage)
    requires 0 < n <= |NONRESET_SEQUENCE| && Presence(stages, n).0 == []
    ensures Presence(stages, n - 1).0 == [] && Matches(stages, NONRESET_SEQUENCE[n - 1]) == [match1]
    ensures Presence(stages, n).1 == Presence(stages, n - 1).1 + [match1]
  {
    var matches := Matches(stages, NONRESET_SEQUENCE[n - 1]);
    assert |matches| == 1;
    match1 := matches[0];
  }

  lemma BasesGrow(stages: seq<Stage>, base: seq<Stage>, next: Stage)
    requires Bases(stages, base) && |base| < 7 && Matches(stages, NONRESET_SEQUENCE[|base|]) == [next]
    ensures Bases(stages, base + [next])
  {}

  lemma {:induction false} PresenceMeans(stages: seq<Stage>, n: nat)
    requires n <= |NONRESET_SEQUENCE| && Presence(stages, n).0 == []
    ensures |Presence(stages, n).1| == n && Bases(stages, Presence(stages, n).1)
    decreases n
  {
    if n > 0 {
      var next := PresenceBefore(stages, n);
      PresenceMeans(stages, n - 1);
      BasesGrow(stages, Presence(stages, n - 1).1, next);
    }
  }

  lemma {:induction false} PresenceHolds(stages: seq<Stage>, base: seq<Stage>)
    requires Bases(stages, base)
    ensures Presence(stages, |base|).0 == [] && Presence(stages, |base|).1 == base
    decreases |base|
  {
    if base != [] {
      var n := |base|;
      PresenceHolds(stages, base[..n - 1]);
      assert Matches(stages, NONRESET_SEQUENCE[n - 1]) == [base[n - 1]];
      assert base == base[..n - 1] + [base[n - 1]];
    }
  }

  lemma SingleMember(stages: seq<Stage>, name: Name, m: Stage)
    requires Matches(stages, name) == [m]
    ensures m in stages && m.name == name && forall s :: s in stages && s.name == name ==> s == m
  {
    FilterMembers(stages, (s: Stage) => s.name == name);
    assert forall s :: s in stages && s.name == name ==> s in [m];
    assert m in [m];
  }

  lemma SingleFromMember(stages: seq<Stage>, name: Name, m: Stage)
    requires Contiguous(stages) && m in stages && m.name == name
    requires forall s :: s in stages && s.name == name ==> s == m
    ensures Matches(stages, name) == [m]
  {
    FilterMembers(stages, (s: Stage) => s.name == name);
    FilterIncreasing(stages, (s: Stage) => s.name == name);
    IncreasingUnique(Matches(stages, name), [m]);
  }

  lemma WindowMembers(stages: seq<Stage>)
    requires HasInitialPair(stages)
    ensures var w := Window(stages);
            && w[0] in stages && w[0].name == MaskReturn && w[1] in stages && w[1].name == ResetReturn
            && w[0].seqNo + 1 == w[1].seqNo
  {
    var low, high := Matches(stages, PostReturn)[0].seqNo, Matches(stages, OneinitEntry)[0].seqNo;
    FilterMembers(stages, (s: Stage) => s.name == MaskReturn && low < s.seqNo < high);
    FilterMembers(stages, (s: Stage) => s.name == ResetReturn && low < s.seqNo < high);
    assert WindowMasks(stages)[0] in WindowMasks(stages);
    assert WindowResets(stages)[0] in WindowResets(stages);
  }

  /** What the checks establish when they raise no error. */
  ghost predicate Accepted(stages: seq<Stage>) {
    && AllPresence(stages).0 == [] && HasInitialPair(stages)
    && Unclassified(stages) == {} && Names(Sort(Found(stages))) == CORE_SEQUENCE
  }

  lemma NoErrorsMeansAccepted(stages: seq<Stage>)
    ensures Errors(stages) == [] <==> Accepted(stages)
  {
    if AllPresence(stages).0 == [] && HasInitialPair(stages) {
      PresenceMeans(stages, 7);
      assert |Found(stages)| == 9;
    }
  }

  // ---- errors absent implies the language ----

  /** The records of an accepted run, without reference to how they were found: the seven
      single ones, the initial pair, and the reset records after the last stage. */
  ghost predicate Records(stages: seq<Stage>, base: seq<Stage>, mask: Stage, reset: Stage, t: seq<Stage>) {
    && |base| == 7 && (forall k :: 0 <= k < 7 ==> base[k] in stages && base[k].name == NONRESET_SEQUENCE[k])
    && (forall k, s :: 0 <= k < 7 && s in stages && s.name == NONRESET_SEQUENCE[k] ==> s == base[k])
    && mask in stages && mask.name == MaskReturn && reset in stages && reset.name == ResetReturn
    && mask.seqNo + 1 == reset.seqNo
    && Increasing(t) && Paired(t, 0)
    && (forall s :: s in t ==> s in stages && IsReset(s.name) && s.seqNo > base[6].seqNo)
    && (forall s :: s in stages && IsReset(s.name) ==> s == mask || s == reset || s in t)
  }

  lemma BaseMembers(stages: seq<Stage>, base: seq<Stage>)
    requires Bases(stages, base) && |base| == 7
    ensures forall k :: 0 <= k < 7 ==> base[k] in stages && base[k].name == NONRESET_SEQUENCE[k]
    ensures forall k, s :: 0 <= k < 7 && s in stages && s.name == NONRESET_SEQUENCE[k] ==> s == base[k]
  {
    forall k | 0 <= k < 7
      ensures base[k] in stages && base[k].name == NONRESET_SEQUENCE[k] &&
              forall s :: s in stages && s.name == NONRESET_SEQUENCE[k] ==> s == base[k]
    {
      SingleMember(stages, NONRESET_SEQUENCE[k], base[k]);
    }
  }

  lemma TrailingMembers(stages: seq<Stage>, last: Stage)
    requires Contiguous(stages) && Matches(stages, CtxctlReturn) == [last]
    ensures var t := Trailing(stages);
            Increasing(t) && forall s :: s in t <==> s in stages && IsReset(s.name) && s.seqNo > last.seqNo
  {
    TrailingIsFilter(stages);
    FilterMembers(stages, (s: Stage) => IsReset(s.name) && s.seqNo > last.seqNo);
  }

  lemma SameNumber(stages: seq<Stage>, a: Stage, b: Stage)
    requires Contiguous(stages) && a in stages && b in stages && a.seqNo == b.seqNo
    ensures a == b
  {
    ByNumber(stages, a);
    ByNumber(stages, b);
  }

  lemma ResetsCovered(stages: seq<Stage>, mask: Stage, reset: Stage, t: seq<Stage>, s: Stage)
    requires Contiguous(stages) && mask in stages && reset in stages && (forall x :: x in t ==> x in stages)
    requires Window(stages) == [mask, reset] && Trailing(stages) == t && Unclassified(stages) == {}
    requires s in stages && IsReset(s.name)
    ensures s == mask || s == reset || s in t
  {
    var scan := Scan(t, 0);
    assert Unclassified(stages) == (ResetSeqs(stages) - (SeqNos([mask, reset]) + PairSeqs(scan.0))) + scan.1;
    assert forall x :: x in scan.1 ==> x in Unclassified(stages);
    ScanIsExact(t, 0);
    ScanCovers(t, 0);
    assert t[0..] == t;
    assert s.seqNo in ResetSeqs(stages) && s.seqNo !in Unclassified(stages);
    assert s.seqNo in SeqNos([mask, reset]) + SeqNos(t);
    var x :| (x in [mask, reset] || x in t) && x.seqNo == s.seqNo;
    SameNumber(stages, s, x);
  }

  lemma AcceptedRecords(stages: seq<Stage>) returns (base: seq<Stage>, mask: Stage, reset: Stage, t: seq<Stage>)
    requires Contiguous(stages) && Accepted(stages)
    ensures Records(stages, base, mask, reset, t)
    ensures Names(Sort(base + [mask, reset])) == CORE_SEQUENCE
  {
    base := AllPresence(stages).1;
    PresenceMeans(stages, 7);
    BaseMembers(stages, base);
    WindowMembers(stages);
    mask, reset := Window(stages)[0], Window(stages)[1];
    assert Window(stages) == [mask, reset];
    t := Trailing(stages);
    assert Matches(stages, NONRESET_SEQUENCE[6]) == [base[6]];
    TrailingMembers(stages, base[6]);
    assert Scan(t, 0).1 == {};
    ScanIsExact(t, 0);
    forall s | s in stages && IsReset(s.name) ensures s == mask || s == reset || s in t {
      ResetsCovered(stages, mask, reset, t, s);
    }
    assert Found(stages) == base + [mask, reset];
  }

  /** Sorted by number, the nine core records come in core order. */
  lemma CoreRecords(stages: seq<Stage>, base: seq<Stage>, mask: Stage, reset: Stage, t: seq<Stage>)
    returns (core: seq<Stage>)
    requires Contiguous(stages) && Records(stages, base, mask, reset, t)
    requires Names(Sort(base + [mask, reset])) == CORE_SEQUENCE
    ensures |core| == 9 && Names(core) == CORE_SEQUENCE && Increasing(core)
    ensures forall s :: s in core <==> s in base + [mask, reset]
    ensures core[8] == base[6] && core[3] == mask && core[4] == reset
  {
    var found := base + [mask, reset];
    core := Sort(found);
    SortSorts(found);
    SameMembers(core, found);
    assert |Names(core)| == 9;
    assert forall s :: s in base ==> s in stages;
    CoreIncreasing(stages, core);
    CoreByName(core, base, mask, reset);
  }

  lemma SameMembers(a: seq<Stage>, b: seq<Stage>)
    requires multiset(a) == multiset(b)
    ensures forall s :: s in a <==> s in b
  {
    forall s ensures s in a <==> s in b {
      assert s in a <==> s in multiset(a);
      assert s in b <==> s in multiset(b);
    }
  }

  lemma CoreByName(core: seq<Stage>, base: seq<Stage>, mask: Stage, reset: Stage)
    requires |base| == 7 && (forall k :: 0 <= k < 7 ==> base[k].name == NONRESET_SEQUENCE[k])
    requires mask.name == MaskReturn && reset.name == ResetReturn
    requires Names(core) == CORE_SEQUENCE && |core| == 9 && forall s :: s in core ==> s in base + [mask, reset]
    ensures core[8] == base[6] && core[3] == mask && core[4] == reset
  {
    assert Names(core)[8] == CtxctlReturn && Names(core)[3] == MaskReturn && Names(core)[4] == ResetReturn;
    assert core[8] in core && core[3] in core && core[4] in core;
    BaseByName(base, core[8], mask, reset);
    BaseByName(base, core[3], mask, reset);
    BaseByName(base, core[4], mask, reset);
  }

  lemma BaseByName(base: seq<Stage>, s: Stage, mask: Stage, reset: Stage)
    requires |base| == 7 && (forall k :: 0 <= k < 7 ==> base[k].name == NONRESET_SEQUENCE[k])
    requires mask.name == MaskReturn && reset.name == ResetReturn && s in base + [mask, reset]
    ensures s.name == MaskReturn ==> s == mask
    ensures s.name == ResetReturn ==> s == reset
    ensures s.name == CtxctlReturn ==> s == base[6]
  {
    if s in base {
      var k :| 0 <= k < 7 && base[k] == s;
    }
  }

  lemma CoreIncreasing(stages: seq<Stage>, core: seq<Stage>)
    requires Contiguous(stages) && NonDecreasing(core) && Names(core) == CORE_SEQUENCE
    requires forall s :: s in core ==> s in stages
    ensures Increasing(core)
  {
    forall i, j | 0 <= i < j < |core| ensures core[i].seqNo < core[j].seqNo {
      assert core[i] in core && core[j] in core;
      assert Names(core)[i] == CORE_SEQUENCE[i] && Names(core)[j] == CORE_SEQUENCE[j];
      NonresetDiffer(i, j);
      if core[i].seqNo == core[j].seqNo { SameNumber(stages, core[i], core[j]); }
    }
  }

  /** The known records of an accepted run: the core ones, then the trailing ones. */
  lemma KnownAreCoreThenTrailing(
    stages: seq<Stage>, base: seq<Stage>, mask: Stage, reset: Stage, t: seq<Stage>, core: seq<Stage>)
    requires Contiguous(stages) && Records(stages, base, mask, reset, t)
    requires |core| == 9 && Increasing(core) && core[8] == base[6]
    requires forall s :: s in core <==> s in base + [mask, reset]
    ensures KnownStages(stages) == core + t
  {
    FilterMembers(stages, (s: Stage) => !s.name.Unknown?);
    FilterIncreasing(stages, (s: Stage) => !s.name.Unknown?);
    forall s ensures s in core + t <==> s in stages && !s.name.Unknown? {
      KnownIff(stages, base, mask, reset, t, s);
    }
    forall i, j | 0 <= i < 9 && 0 <= j < |t| ensures core[i].seqNo < t[j].seqNo {
      assert t[j] in t;
    }
    assert Increasing(core + t);
    IncreasingUnique(KnownStages(stages), core + t);
  }

  lemma NonresetPlace(name: Name) returns (k: nat)
    requires !name.Unknown? && !IsReset(name)
    ensures k < 7 && NONRESET_SEQUENCE[k] == name
  {
    match name
    case NvidiaBaseline => k := 0;
    case PostEntry => k := 1;
    case PostReturn => k := 2;
    case OneinitEntry => k := 3;
    case OneinitReturn => k := 4;
    case CtxctlEntry => k := 5;
    case CtxctlReturn => k := 6;
  }

  lemma KnownIff(stages: seq<Stage>, base: seq<Stage>, mask: Stage, reset: Stage, t: seq<Stage>, s: Stage)
    requires Records(stages, base, mask, reset, t)
    ensures s in base + [mask, reset] || s in t <==> s in stages && !s.name.Unknown?
  {
    if s in stages && !s.name.Unknown? && !IsReset(s.name) {
      var k := NonresetPlace(s.name);
      assert base[k] in base;
    }
    if s in base {
      var k :| 0 <= k < 7 && base[k] == s;
    }
  }

  lemma {:induction false} PairedNames(t: seq<Stage>)
    requires Paired(t, 0)
    ensures Names(t) == PairNames(|t| / 2)
    decreases |t|
  {
    if t != [] {
      var init := t[..|t| - 2];
      assert Paired(init, 0) by {
        forall c | 0 <= c < |init| && c % 2 == 0 ensures PairAt(init, c) { assert PairAt(t, c); }
      }
      PairedNames(init);
      assert PairAt(t, |t| - 2);
      assert Names(t) == Names(init) + [MaskReturn, ResetReturn];
    }
  }

  lemma MaskIsFollowed(
    stages: seq<Stage>, base: seq<Stage>, mask: Stage, reset: Stage, t: seq<Stage>, i: nat)
    requires Contiguous(stages) && Records(stages, base, mask, reset, t)
    requires i < |stages| && stages[i].name.MaskReturn?
    ensures i + 1 < |stages| && stages[i + 1].name.ResetReturn?
  {
    var s := stages[i];
    if s == mask {
      ByNumber(stages, reset);
    } else {
      assert s in t;
      var c :| 0 <= c < |t| && t[c] == s;
      assert c % 2 == 1 ==> PairAt(t, c - 1);
      assert PairAt(t, c);
      assert t[c + 1] in t;
      ByNumber(stages, t[c + 1]);
    }
  }

  lemma CoreThenPairsSpell(stages: seq<Stage>, core: seq<Stage>, t: seq<Stage>)
    requires KnownStages(stages) == core + t && Names(core) == CORE_SEQUENCE && Paired(t, 0)
    ensures Spells(stages)
  {
    PairedNames(t);
    assert Names(core + t) == Names(core) + Names(t);
  }

  lemma AcceptedIsSpelled(stages: seq<Stage>)
    requires Contiguous(stages) && Accepted(stages)
    ensures Spells(stages) && PairsAdjacent(stages)
  {
    var base, mask, reset, t := AcceptedRecords(stages);
    var core := CoreRecords(stages, base, mask, reset, t);
    KnownAreCoreThenTrailing(stages, base, mask, reset, t, core);
    CoreThenPairsSpell(stages, core, t);
    forall i | 0 <= i < |stages| && stages[i].name.MaskReturn?
      ensures i + 1 < |stages| && stages[i + 1].name.ResetReturn?
    {
      MaskIsFollowed(stages, base, mask, reset, t, i);
    }
  }

  // ---- the language implies no errors ----

  /** What spelling the language says about the known records by place. */
  lemma SpelledPlaces(stages: seq<Stage>, k: nat)
    requires Names(KnownStages(stages)) == CORE_SEQUENCE + PairNames(k)
    ensures var known := KnownStages(stages);
            && |known| == 9 + 2 * k
            && (forall i :: 0 <= i < 9 ==> known[i].name == CORE_SEQUENCE[i])
            && (forall i :: 9 <= i < |known| ==> known[i].name == if i % 2 == 1 then MaskReturn else ResetReturn)
  {
    var known := KnownStages(stages);
    PairNamesLength(k);
    forall i | 9 <= i < |known| ensures known[i].name == if i % 2 == 1 then MaskReturn else ResetReturn {
      PairNamesAt(k, i - 9);
      assert Names(known)[i] == PairNames(k)[i - 9];
    }
    forall i | 0 <= i < 9 ensures known[i].name == CORE_SEQUENCE[i] {
      assert Names(known)[i] == CORE_SEQUENCE[i];
    }
  }

  ghost predicate Placed(stages: seq<Stage>, known: seq<Stage>) {
    && known == KnownStages(stages) && Increasing(known) && |known| >= 9 && |known| % 2 == 1
    && (forall s :: s in known <==> s in stages && !s.name.Unknown?)
    && (forall i :: 0 <= i < 9 ==> known[i].name == CORE_SEQUENCE[i])
    && (forall i :: 9 <= i < |known| ==> known[i].name == if i % 2 == 1 then MaskReturn else ResetReturn)
  }

  lemma CorePlaceIsSingle(stages: seq<Stage>, known: seq<Stage>, i: nat)
    requires Contiguous(stages) && Placed(stages, known) && i < 9 && i != 3 && i != 4
    ensures Matches(stages, CORE_SEQUENCE[i]) == [known[i]]
  {
    assert known[i] in known;
    forall s | s in stages && s.name == CORE_SEQUENCE[i] ensures s == known[i] {
      assert s in known;
      var j :| 0 <= j < |known| && known[j] == s;
      if j < 9 && j != i { NonresetDiffer(i, j); }
    }
    SingleFromMember(stages, CORE_SEQUENCE[i], known[i]);
  }

  lemma NonresetDiffer(i: nat, j: nat)
    requires i < 9 && j < 9 && i != j
    ensures CORE_SEQUENCE[i] != CORE_SEQUENCE[j]
  {}

  /** Adjacent pairs in the run are neighbours among the known records. */
  lemma MaskThenReset(stages: seq<Stage>, known: seq<Stage>, i: nat)
    requires Contiguous(stages) && Placed(stages, known) && PairsAdjacent(stages)
    requires i + 1 < |known| && known[i].name == MaskReturn
    ensures known[i].seqNo + 1 == known[i + 1].seqNo
  {
    assert known[i] in known;
    ByNumber(stages, known[i]);
    var next := stages[known[i].seqNo + 1];
    assert next in known;
    var j :| 0 <= j < |known| && known[j] == next;
    assert j > i;
    assert known[i].seqNo < known[i + 1].seqNo;
  }

  lemma WindowHolds(stages: seq<Stage>, known: seq<Stage>)
    requires Contiguous(stages) && Placed(stages, known) && PairsAdjacent(stages)
    ensures HasInitialPair(stages) && Window(stages) == [known[3], known[4]]
  {
    CorePlaceIsSingle(stages, known, 2);
    CorePlaceIsSingle(stages, known, 5);
    MaskThenReset(stages, known, 3);
    var low, high := known[2].seqNo, known[5].seqNo;
    InWindow(stages, known, MaskReturn, 3);
    InWindow(stages, known, ResetReturn, 4);
  }

  lemma InWindow(stages: seq<Stage>, known: seq<Stage>, name: Name, i: nat)
    requires Contiguous(stages) && Placed(stages, known)
    requires (i == 3 && name == MaskReturn) || (i == 4 && name == ResetReturn)
    ensures Between(stages, name, known[2].seqNo, known[5].seqNo) == [known[i]]
  {
    var low, high := known[2].seqNo, known[5].seqNo;
    FilterMembers(stages, (s: Stage) => s.name == name && low < s.seqNo < high);
    FilterIncreasing(stages, (s: Stage) => s.name == name && low < s.seqNo < high);
    forall s ensures s in stages && s.name == name && low < s.seqNo < high <==> s in [known[i]] {
      OnlyInWindow(stages, known, name, i, s);
    }
    IncreasingUnique(Between(stages, name, low, high), [known[i]]);
  }

  lemma OnlyInWindow(stages: seq<Stage>, known: seq<Stage>, name: Name, i: nat, s: Stage)
    requires Placed(stages, known)
    requires (i == 3 && name == MaskReturn) || (i == 4 && name == ResetReturn)
    ensures s in stages && s.name == name && known[2].seqNo < s.seqNo < known[5].seqNo <==> s == known[i]
  {
    assert known[i] in known;
    if s in stages && s.name == name && known[2].seqNo < s.seqNo < known[5].seqNo {
      assert s in known;
      var j :| 0 <= j < |known| && known[j] == s;
      assert 2 < j < 5;
    }
  }

  lemma AfterCore(stages: seq<Stage>, known: seq<Stage>, s: Stage)
    requires Placed(stages, known)
    ensures s in known && s.seqNo > known[8].seqNo <==> s in stages && IsReset(s.name) && s.seqNo > known[8].seqNo
  {
    if s in known && s.seqNo > known[8].seqNo {
      var j :| 0 <= j < |known| && known[j] == s;
      assert j > 8;
    }
  }

  lemma TrailingHolds(stages: seq<Stage>, known: seq<Stage>)
    requires Contiguous(stages) && Placed(stages, known)
    ensures Trailing(stages) == known[9..]
  {
    CorePlaceIsSingle(stages, known, 8);
    TrailingMembers(stages, known[8]);
    SameTail(stages, known, Trailing(stages));
  }

  lemma SameTail(stages: seq<Stage>, known: seq<Stage>, t: seq<Stage>)
    requires Placed(stages, known) && Increasing(t)
    requires forall s :: s in t <==> s in stages && IsReset(s.name) && s.seqNo > known[8].seqNo
    ensures t == known[9..]
  {
    TailMembers(known);
    forall s ensures s in t <==> s in known[9..] {
      AfterCore(stages, known, s);
    }
    IncreasingUnique(t, known[9..]);
  }

  lemma TailMembers(known: seq<Stage>)
    requires |known| >= 9 && Increasing(known)
    ensures forall s :: s in known[9..] <==> s in known && s.seqNo > known[8].seqNo
  {
    forall s | s in known && s.seqNo > known[8].seqNo ensures s in known[9..] {
      var j :| 0 <= j < |known| && known[j] == s;
      assert j > 8;
      assert known[9..][j - 9] == s;
    }
    forall s | s in known[9..] ensures s in known && s.seqNo > known[8].seqNo {
      var j :| 0 <= j < |known[9..]| && known[9..][j] == s;
      assert known[j + 9] == s;
    }
  }

  lemma TrailingPaired(stages: seq<Stage>, known: seq<Stage>)
    requires Contiguous(stages) && Placed(stages, known) && PairsAdjacent(stages)
    ensures Paired(known[9..], 0)
  {
    var t := known[9..];
    forall c | 0 <= c < |t| && c % 2 == 0 ensures PairAt(t, c) {
      assert known[c + 9].name == MaskReturn && known[c + 10].name == ResetReturn;
      MaskThenReset(stages, known, c + 9);
    }
  }

  lemma NothingUnclassified(stages: seq<Stage>, known: seq<Stage>)
    requires Contiguous(stages) && Placed(stages, known) && PairsAdjacent(stages)
    ensures Unclassified(stages) == {}
  {
    WindowHolds(stages, known);
    TrailingHolds(stages, known);
    TrailingPaired(stages, known);
    var t := known[9..];
    ScanIsExact(t, 0);
    ScanCovers(t, 0);
    assert t[0..] == t;
    forall x | x in ResetSeqs(stages) ensures x in SeqNos([known[3], known[4]]) + SeqNos(t) {
      var s :| s in stages && IsReset(s.name) && s.seqNo == x;
      ResetPlace(stages, known, s);
    }
  }

  lemma ResetPlace(stages: seq<Stage>, known: seq<Stage>, s: Stage)
    requires Placed(stages, known) && s in stages && IsReset(s.name)
    ensures s in [known[3], known[4]] || s in known[9..]
  {
    assert s in known;
    var j :| 0 <= j < |known| && known[j] == s;
    if j >= 9 { assert known[9..][j - 9] == s; }
    else { assert s.name == CORE_SEQUENCE[j]; assert j == 3 || j == 4; }
  }

  lemma OrderHolds(stages: seq<Stage>, known: seq<Stage>)
    requires Contiguous(stages) && Placed(stages, known) && Window(stages) == [known[3], known[4]]
    ensures AllPresence(stages).0 == [] && Names(Sort(Found(stages))) == CORE_SEQUENCE
  {
    var base := [known[0], known[1], known[2], known[5], known[6], known[7], known[8]];
    forall k | 0 <= k < 7 ensures Matches(stages, NONRESET_SEQUENCE[k]) == [base[k]] {
      CorePlaceIsSingle(stages, known, if k < 3 then k else k + 2);
    }
    PresenceHolds(stages, base);
    CoreSorts(known);
  }

  lemma CoreSorts(known: seq<Stage>)
    requires |known| >= 9 && Increasing(known) && forall i :: 0 <= i < 9 ==> known[i].name == CORE_SEQUENCE[i]
    ensures var base := [known[0], known[1], known[2], known[5], known[6], known[7], known[8]];
            Names(Sort(base + [known[3], known[4]])) == CORE_SEQUENCE
  {
    var found := [known[0], known[1], known[2], known[5], known[6], known[7], known[8]] + [known[3], known[4]];
    assert found == known[..3] + known[5..9] + known[3..5];
    MovedPair(known);
    SortFinds(found, known[..9]);
  }

  lemma MovedPair(known: seq<Stage>)
    requires |known| >= 9
    ensures multiset(known[..3] + known[5..9] + known[3..5]) == multiset(known[..9])
  {
    assert known[..9] == known[..3] + known[3..5] + known[5..9];
  }

  lemma SpelledIsAccepted(stages: seq<Stage>)
    requires Contiguous(stages) && Spells(stages) && PairsAdjacent(stages)
    ensures Accepted(stages)
  {
    var k: nat :| Names(KnownStages(stages)) == CORE_SEQUENCE + PairNames(k);
    SpelledPlaces(stages, k);
    var known := KnownStages(stages);
    FilterMembers(stages, (s: Stage) => !s.name.Unknown?);
    FilterIncreasing(stages, (s: Stage) => !s.name.Unknown?);
    assert Placed(stages, known);
    WindowHolds(stages, known);
    NothingUnclassified(stages, known);
    OrderHolds(stages, known);
  }

  /** On contiguously numbered runs, the presence, order and reset-classification checks
      raise no error exactly when the known names spell the core sequence followed by reset
      pairs and every pair is adjacent. */
  lemma ChecksAcceptTheLanguage(stages: seq<Stage>)
    requires Contiguous(stages)
    ensures Errors(stages) == [] <==> Spells(stages) && PairsAdjacent(stages)
  {
    NoErrorsMeansAccepted(stages);
    if Accepted(stages) { AcceptedIsSpelled(stages); }
    if Spells(stages) && PairsAdjacent(stages) { SpelledIsAccepted(stages); }
  }
}
