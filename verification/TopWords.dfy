/** A stream of entries in which some close a group. */
module Splitting {
  import opened Basics

  datatype Entry<T> = Entry(index: nat, word: T, closes: bool)

  ghost predicate Continues<T>(items: seq<Entry<T>>) { forall i :: 0 <= i < |items| ==> !items[i].closes }

  /** Only the last entry closes. */
  ghost predicate IsGroup<T>(g: seq<Entry<T>>)
  {
    g != [] && g[|g| - 1].closes && Continues(g[..|g| - 1])
  }

  /** The stream split after each closing entry, and the unfinished rest. */
  ghost predicate IsSplit<T>(items: seq<Entry<T>>, groups: seq<seq<Entry<T>>>, rest: seq<Entry<T>>)
  {
    && items == Concat(groups) + rest
    && (forall g <- groups :: IsGroup(g))
    && Continues(rest)
  }

  datatype Split<T> = Split(groups: seq<seq<Entry<T>>>, rest: seq<Entry<T>>)

  ghost function Extend<T>(c: Split<T>, x: Entry<T>): Split<T>
  {
    if x.closes then Split(c.groups + [c.rest + [x]], []) else Split(c.groups, c.rest + [x])
  }

  ghost function Cut<T>(items: seq<Entry<T>>): Split<T>
  {
    if items == [] then Split([], []) else Extend(Cut(items[..|items| - 1]), items[|items| - 1])
  }

  lemma CutOfAppend<T>(items: seq<Entry<T>>, x: Entry<T>)
    ensures Cut(items + [x]) == Extend(Cut(items), x)
  {
    assert (items + [x])[..|items|] == items;
  }

  lemma {:induction false} CutSplits<T>(items: seq<Entry<T>>)
    ensures IsSplit(items, Cut(items).groups, Cut(items).rest)
  {
    if items != [] {
      var n := |items| - 1;
      var c := Cut(items[..n]);
      CutSplits(items[..n]);
      assert items == items[..n] + [items[n]];
      if items[n].closes {
        var g := c.rest + [items[n]];
        assert g[..|c.rest|] == c.rest;
        ConcatOfAppend(c.groups, g);
      }
    }
  }

  lemma {:induction false} CutOfRest<T>(items: seq<Entry<T>>, rest: seq<Entry<T>>)
    requires Continues(rest)
    ensures Cut(items + rest) == Split(Cut(items).groups, Cut(items).rest + rest)
  {
    if rest == [] {
      assert items + rest == items;
    } else {
      var pre, x := rest[..|rest| - 1], rest[|rest| - 1];
      CutOfRest(items, pre);
      CutOfContinuing(items, pre, x);
      assert rest == pre + [x];
    }
  }

  lemma CutOfContinuing<T>(items: seq<Entry<T>>, pre: seq<Entry<T>>, x: Entry<T>)
    requires !x.closes && Cut(items + pre) == Split(Cut(items).groups, Cut(items).rest + pre)
    ensures Cut(items + (pre + [x])) == Split(Cut(items).groups, Cut(items).rest + (pre + [x]))
  {
    CutOfAppend(items + pre, x);
    Regroup(items, pre, x);
    Regroup(Cut(items).rest, pre, x);
  }

  lemma Regroup<T>(a: seq<Entry<T>>, b: seq<Entry<T>>, x: Entry<T>)
    ensures (a + b) + [x] == a + (b + [x])
  {}

  lemma CutOfGroup<T>(items: seq<Entry<T>>, g: seq<Entry<T>>)
    requires IsGroup(g) && Cut(items).rest == []
    ensures Cut(items + g) == Split(Cut(items).groups + [g], [])
  {
    var pre, x := g[..|g| - 1], g[|g| - 1];
    assert g == pre + [x];
    CutOfRest(items, pre);
    assert [] + pre == pre;
    CutOfClosing(items, pre, x);
  }

  lemma CutOfClosing<T>(items: seq<Entry<T>>, pre: seq<Entry<T>>, x: Entry<T>)
    requires x.closes && Cut(items + pre).rest == pre
    ensures Cut(items + (pre + [x])) == Split(Cut(items + pre).groups + [pre + [x]], [])
  {
    CutOfAppend(items + pre, x);
    Regroup(items, pre, x);
  }

  lemma {:induction false} CutOfGroups<T>(groups: seq<seq<Entry<T>>>)
    requires forall g <- groups :: IsGroup(g)
    ensures Cut(Concat(groups)) == Split(groups, [])
  {
    if groups != [] {
      var n := |groups| - 1;
      CutOfGroups(groups[..n]);
      CutOfGroup(Concat(groups[..n]), groups[n]);
      assert groups == groups[..n] + [groups[n]];
    }
  }

  /** A stream has exactly one split. */
  lemma SplitIsUnique<T>(items: seq<Entry<T>>, groups: seq<seq<Entry<T>>>, rest: seq<Entry<T>>)
    ensures IsSplit(items, groups, rest) <==> Cut(items) == Split(groups, rest)
  {
    CutSplits(items);
    if IsSplit(items, groups, rest) {
      CutOfGroups(groups);
      CutOfRest(Concat(groups), rest);
      assert Cut(Concat(groups)).rest + rest == rest;
    }
  }
}

/** The bit layout of a GV100 TOP word. */
module TopWords {
  import opened Basics

  /** What bits 0-1 select, with the fields of that kind; an absent field's flag is clear. */
  datatype Reading =
    | NotValid
    | Data(sourceInstance: bv32, address: bv32, fault: Option<bv32>)
    | Enum(engine: Option<bv32>, runlist: Option<bv32>, interrupt: Option<bv32>, reset: Option<bv32>)
    | EngineType(code: bv32)

  /** A word as the decoder sees it; it closes its record when bit 31 is clear. */
  datatype Word = Word(raw: bv32, reading: Reading, closes: bool)

  function Flagged(w: bv32, flag: bv32, field: bv32): Option<bv32>
  {
    if w & flag != 0 then Some(field) else None
  }

  function ReadingOf(w: bv32): Reading
  {
    if w & 3 == 0 then NotValid
    else if w & 3 == 1 then
      Data((w & 0x3C00_0000) >> 26, w & 0x00FF_F000, Flagged(w, 4, (w & 0x3F8) >> 3))
    else if w & 3 == 2 then
      Enum(Flagged(w, 0x20, (w & 0x3C00_0000) >> 26),
           Flagged(w, 0x10, (w & 0x01E0_0000) >> 21),
           Flagged(w, 8, (w & 0x000F_8000) >> 15),
           Flagged(w, 4, (w & 0x3E00) >> 9))
    else EngineType((w & 0x7FFF_FFFC) >> 2)
  }

  function Read(w: bv32): Word { Word(w, ReadingOf(w), w & 0x8000_0000 == 0) }

  function ReadAll(ws: seq<bv32>): (words: seq<Word>)
    ensures |words| == |ws|
    ensures forall i :: 0 <= i < |ws| ==> words[i] == Read(ws[i])
  {
    seq(|ws|, i requires 0 <= i < |ws| => Read(ws[i]))
  }

  // ---------------------------------------------------------------- field widths

  ghost predicate Fits(f: Option<bv32>, bound: bv32) { f.Some? ==> f.value < bound }

  ghost predicate ReadingFits(r: Reading)
  {
    match r
    case NotValid => true
    case Data(instance, address, fault) =>
      instance < 16 && address & 0x00FF_F000 == address && Fits(fault, 128)
    case Enum(engine, runlist, interrupt, reset) =>
      Fits(engine, 16) && Fits(runlist, 16) && Fits(interrupt, 32) && Fits(reset, 32)
    case EngineType(code) => code < 0x2000_0000
  }

  lemma ReadingsFit(w: bv32)
    ensures ReadingFits(ReadingOf(w))
  {}

  // ---------------------------------------------------------------- making words

  function Bits(f: Option<bv32>, shift: bv32, flag: bv32): bv32
    requires shift < 32
  {
    if f.Some? then (f.value << shift) | flag else 0
  }

  function Top(continues: bool): bv32 { if continues then 0x8000_0000 else 0 }

  function Pack(e: bv32, r: bv32, i: bv32, s: bv32, top: bv32): bv32 { 2 | e | r | i | s | top }

  /** The word that reads as `r`. */
  function Make(r: Reading, continues: bool): bv32
  {
    match r
    case NotValid => 0
    case Data(instance, address, fault) => 1 | (instance << 26) | address | Bits(fault, 3, 4) | Top(continues)
    case Enum(engine, runlist, interrupt, reset) =>
      Pack(Bits(engine, 26, 0x20), Bits(runlist, 21, 0x10), Bits(interrupt, 15, 8), Bits(reset, 9, 4), Top(continues))
    case EngineType(code) => 3 | (code << 2) | Top(continues)
  }

  /** Four fields and their flags occupy separate bits of an ENUM word. */
  lemma EnumBitsAreSeparate(e: bv32, r: bv32, i: bv32, s: bv32, top: bv32)
    requires e & 0x3C00_0020 == e && r & 0x01E0_0010 == r && i & 0x000F_8008 == i && s & 0x3E04 == s
    requires top & 0x8000_0000 == top
    ensures var w := Pack(e, r, i, s, top);
      CarriesBits(e, r, i, s, w) && w & 3 == 2 && w & 0x8000_0000 == top
  {}

  ghost predicate CarriesBits(e: bv32, r: bv32, i: bv32, s: bv32, w: bv32)
  {
    && w & 0x3C00_0000 == e & 0x3C00_0000 && w & 0x20 == e & 0x20
    && w & 0x01E0_0000 == r & 0x01E0_0000 && w & 0x10 == r & 0x10
    && w & 0x000F_8000 == i & 0x000F_8000 && w & 8 == i & 8
    && w & 0x3E00 == s & 0x3E00 && w & 4 == s & 4
  }

  lemma EngineReads(f: Option<bv32>, w: bv32)
    requires Fits(f, 16)
    requires var b := Bits(f, 26, 0x20); w & 0x3C00_0000 == b & 0x3C00_0000 && w & 0x20 == b & 0x20
    ensures f == if w & 0x20 != 0 then Some((w & 0x3C00_0000) >> 26) else None
  {}

  lemma RunlistReads(f: Option<bv32>, w: bv32)
    requires Fits(f, 16)
    requires var b := Bits(f, 21, 0x10); w & 0x01E0_0000 == b & 0x01E0_0000 && w & 0x10 == b & 0x10
    ensures f == if w & 0x10 != 0 then Some((w & 0x01E0_0000) >> 21) else None
  {}

  lemma InterruptReads(f: Option<bv32>, w: bv32)
    requires Fits(f, 32)
    requires var b := Bits(f, 15, 8); w & 0x000F_8000 == b & 0x000F_8000 && w & 8 == b & 8
    ensures f == if w & 8 != 0 then Some((w & 0x000F_8000) >> 15) else None
  {}

  lemma ResetReads(f: Option<bv32>, w: bv32)
    requires Fits(f, 32)
    requires var b := Bits(f, 9, 4); w & 0x3E00 == b & 0x3E00 && w & 4 == b & 4
    ensures f == if w & 4 != 0 then Some((w & 0x3E00) >> 9) else None
  {}

  lemma EnumBitsInPlace(r: Reading)
    requires ReadingFits(r) && r.Enum?
    ensures var b := Bits(r.engine, 26, 0x20); b & 0x3C00_0020 == b
    ensures var b := Bits(r.runlist, 21, 0x10); b & 0x01E0_0010 == b
    ensures var b := Bits(r.interrupt, 15, 8); b & 0x000F_8008 == b
    ensures var b := Bits(r.reset, 9, 4); b & 0x3E04 == b
  {}

  lemma EnumSeparates(f: Reading, continues: bool, e: bv32, r: bv32, i: bv32, s: bv32)
    requires ReadingFits(f) && f.Enum?
    requires e == Bits(f.engine, 26, 0x20) && r == Bits(f.runlist, 21, 0x10)
    requires i == Bits(f.interrupt, 15, 8) && s == Bits(f.reset, 9, 4)
    ensures var w := Make(f, continues);
      CarriesBits(e, r, i, s, w) && w & 3 == 2 && (w & 0x8000_0000 == 0 <==> !continues)
  {
    EnumBitsInPlace(f);
    if continues {
      EnumBitsAreSeparate(e, r, i, s, 0x8000_0000);
    } else {
      EnumBitsAreSeparate(e, r, i, s, 0);
    }
  }

  lemma CarriedBitsRead(f: Reading, w: bv32)
    requires ReadingFits(f) && f.Enum? && w & 3 == 2
    requires CarriesBits(Bits(f.engine, 26, 0x20), Bits(f.runlist, 21, 0x10), Bits(f.interrupt, 15, 8),
                         Bits(f.reset, 9, 4), w)
    ensures ReadingOf(w) == f
  {
    EngineReads(f.engine, w);
    RunlistReads(f.runlist, w);
    InterruptReads(f.interrupt, w);
    ResetReads(f.reset, w);
  }

  lemma EnumReads(f: Reading, continues: bool)
    requires ReadingFits(f) && f.Enum?
    ensures ReadingOf(Make(f, continues)) == f
    ensures (Make(f, continues) & 0x8000_0000 == 0) <==> !continues
  {
    EnumSeparates(f, continues, Bits(f.engine, 26, 0x20), Bits(f.runlist, 21, 0x10), Bits(f.interrupt, 15, 8),
                  Bits(f.reset, 9, 4));
    CarriedBitsRead(f, Make(f, continues));
  }

  /** Every reading within its field widths is what some word reads as. */
  lemma MakeReads(r: Reading, continues: bool)
    requires ReadingFits(r) && !r.NotValid?
    ensures ReadingOf(Make(r, continues)) == r
    ensures (Make(r, continues) & 0x8000_0000 == 0) <==> !continues
  {
    match r
    case Data(instance, address, fault) =>
    case Enum(engine, runlist, interrupt, reset) => EnumReads(r, continues);
    case EngineType(code) =>
  }
}
