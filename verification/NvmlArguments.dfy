/** Command-line lookup of the NVML tool: `flags` accepts the shape of the arguments, `val`
    looks single options up afterwards.  Together they agree with one left-to-right parse. */
module NvmlArguments {
  import opened Basics

  datatype Lookup = Ok(value: Option<string>) | Err

  predicate Dashed(s: string) { |s| >= 2 && s[0] == '-' && s[1] == '-' }

  /** Starts with two dashes. */
  lemma DashedIsPrefix(s: string)
    ensures Dashed(s) <==> "--" <= s
  {
    if "--" <= s { assert s[..2] == "--"; }
  }

  /** `val` from some argument on, with what was found so far. */
  function Val(a: seq<string>, option: string, found: Option<string>): Lookup {
    if a == [] then Ok(found)
    else if a[0] == option then
      if found.Some? || |a| < 2 || Dashed(a[1]) then Err else Val(a[1..], option, Some(a[1]))
    else Val(a[1..], option, found)
  }

  method LookUp(a: seq<string>, option: string) returns (r: Lookup)
    ensures r == Val(a, option, None)
    ensures r.Ok? && r.value.Some? ==> !("--" <= r.value.value)
  {
    var found: Option<string> := None;
    for i := 0 to |a|
      invariant Val(a[i..], option, found) == Val(a, option, None)
      invariant found.Some? ==> !("--" <= found.value)
    {
      assert a[i..][1..] == a[i + 1..];
      if a[i] == option {
        if found.Some? { return Err; }
        if i + 1 >= |a| { return Err; }
        if Dashed(a[i + 1]) { return Err; }
        DashedIsPrefix(a[i + 1]);
        found := Some(a[i + 1]);
      }
    }
    return Ok(found);
  }

  /** One left-to-right parse of the arguments after the command. */
  datatype Item = Valued(option: string, value: string) | Flag(name: string)

  function Parse(rest: seq<string>, values: set<string>, bools: set<string>): Option<seq<Item>> {
    if rest == [] then Some([])
    else if rest[0] in values then
      if |rest| < 2 then None else
      match Parse(rest[2..], values, bools)
      case None => None
      case Some(items) => Some([Valued(rest[0], rest[1])] + items)
    else if rest[0] in bools then
      match Parse(rest[1..], values, bools)
      case None => None
      case Some(items) => Some([Flag(rest[0])] + items)
    else None
  }

  /** `flags`: only known options and booleans, and every option has some value. */
  method CheckFlags(a: seq<string>, values: set<string>, bools: set<string>) returns (ok: bool)
    requires |a| >= 2
    ensures ok <==> Parse(a[2..], values, bools).Some?
  {
    var need := false;
    ghost var all := a[2..];
    for i := 2 to |a|
      invariant need ==> i > 2 && a[i - 1] in values
      invariant need ==> (Parse(all, values, bools).Some? <==> Parse(a[i - 1..], values, bools).Some?)
      invariant !need ==> (Parse(all, values, bools).Some? <==> Parse(a[i..], values, bools).Some?)
    {
      if need {
        need := false;
        assert a[i - 1..][2..] == a[i + 1..];
      } else if a[i] in values {
        need := true;
      } else if a[i] !in bools {
        return false;
      } else {
        assert a[i..][1..] == a[i + 1..];
      }
    }
    return !need;
  }

  // ---- the agreement ----

  /** Option and boolean names all start with dashes and are kept apart. */
  predicate Vocabulary(values: set<string>, bools: set<string>) {
    values !! bools && forall x :: x in values + bools ==> Dashed(x)
  }

  /** At most one value per option, and no value that looks like an option. */
  predicate Clear(items: seq<Item>) {
    && (forall i :: 0 <= i < |items| && items[i].Valued? ==> !Dashed(items[i].value))
    && (forall i, j :: 0 <= i < j < |items| && items[i].Valued? && items[j].Valued? ==>
          items[i].option != items[j].option)
  }

  function ValueIn(items: seq<Item>, option: string): Option<string> {
    if items == [] then None
    else if items[0].Valued? && items[0].option == option then Some(items[0].value)
    else ValueIn(items[1..], option)
  }

  /** Does every option lookup over these arguments succeed, starting from nothing found? */
  predicate LookupsSucceed(a: seq<string>, values: set<string>) {
    forall o :: o in values ==> Val(a, o, None).Ok?
  }

  lemma {:induction false} AbsentOption(rest: seq<string>, o: string, found: Option<string>)
    requires Val(rest, o, found).Ok? && found.Some?
    ensures o !in rest && Val(rest, o, found) == Ok(found)
  {
    if rest != [] {
      AbsentOption(rest[1..], o, found);
      assert rest == [rest[0]] + rest[1..];
    }
  }

  lemma {:induction false} AbsentStays(rest: seq<string>, o: string, found: Option<string>)
    requires o !in rest
    ensures Val(rest, o, found) == Ok(found)
  {
    if rest != [] { AbsentStays(rest[1..], o, found); }
  }

  lemma StepOver(rest: seq<string>, o: string)
    requires |rest| >= 1 && rest[0] != o
    ensures Val(rest, o, None) == Val(rest[1..], o, None)
  {}

  lemma StepOverTwo(rest: seq<string>, o: string)
    requires |rest| >= 2 && rest[0] != o && rest[1] != o
    ensures Val(rest, o, None) == Val(rest[2..], o, None)
  {
    assert rest[1..][1..] == rest[2..];
  }

  /** Items of a parse name words of the arguments. */
  lemma {:induction false} ItemsAreWords(rest: seq<string>, values: set<string>, bools: set<string>, items: seq<Item>)
    requires Parse(rest, values, bools) == Some(items)
    ensures forall i :: 0 <= i < |items| && items[i].Valued? ==> items[i].option in values && items[i].option in rest
    ensures forall i :: 0 <= i < |items| && items[i].Flag? ==> items[i].name in bools && items[i].name in rest
  {
    if rest == [] {
    } else if rest[0] in values {
      var tail := Parse(rest[2..], values, bools).value;
      assert items == [Valued(rest[0], rest[1])] + tail;
      ItemsAreWords(rest[2..], values, bools, tail);
      assert rest == [rest[0], rest[1]] + rest[2..];
    } else {
      var tail := Parse(rest[1..], values, bools).value;
      assert items == [Flag(rest[0])] + tail;
      ItemsAreWords(rest[1..], values, bools, tail);
      assert rest == [rest[0]] + rest[1..];
    }
  }

  /** In a clear parse every dashed word is an option or a flag of its own. */
  lemma {:induction false} DashedAreItems(
    rest: seq<string>, values: set<string>, bools: set<string>, items: seq<Item>, x: string)
    requires Parse(rest, values, bools) == Some(items) && Clear(items) && x in rest && Dashed(x)
    ensures (x in bools && Flag(x) in items) || (x in values && ValueIn(items, x).Some?)
  {
    if rest[0] in values {
      var tail := Parse(rest[2..], values, bools).value;
      assert items == [Valued(rest[0], rest[1])] + tail && items[1..] == tail;
      ClearTail(items);
      assert !Dashed(rest[1]) by { assert items[0].Valued?; }
      assert rest == [rest[0], rest[1]] + rest[2..];
      if x != rest[0] { DashedAreItems(rest[2..], values, bools, tail, x); }
    } else {
      var tail := Parse(rest[1..], values, bools).value;
      assert items == [Flag(rest[0])] + tail && items[1..] == tail;
      ClearTail(items);
      assert rest == [rest[0]] + rest[1..];
      if x != rest[0] { DashedAreItems(rest[1..], values, bools, tail, x); }
    }
  }

  lemma ClearTail(items: seq<Item>)
    requires Clear(items) && items != []
    ensures Clear(items[1..])
  {
    var tail := items[1..];
    forall i, j | 0 <= i < j < |tail| && tail[i].Valued? && tail[j].Valued? ensures tail[i].option != tail[j].option {
      assert items[i + 1].option != items[j + 1].option;
    }
  }

  /** An item in front keeps a list clear when its value is plain and its option is new. */
  lemma ClearCons(option: string, value: string, tail: seq<Item>)
    requires Clear(tail) && !Dashed(value)
    requires forall j :: 0 <= j < |tail| && tail[j].Valued? ==> tail[j].option != option
    ensures Clear([Valued(option, value)] + tail)
  {}

  lemma ClearFlag(name: string, tail: seq<Item>)
    requires Clear(tail)
    ensures Clear([Flag(name)] + tail)
  {}

  /** Successful lookups make the parse clear and return its values. */
  lemma {:induction false} LookupsReadTheParse(
    rest: seq<string>, values: set<string>, bools: set<string>, items: seq<Item>)
    requires Vocabulary(values, bools) && Parse(rest, values, bools) == Some(items) && LookupsSucceed(rest, values)
    ensures Clear(items)
    ensures forall o :: o in values ==> Val(rest, o, None) == Ok(ValueIn(items, o))
  {
    if rest == [] {
    } else if rest[0] in values {
      var o0, v0 := rest[0], rest[1];
      var tail := Parse(rest[2..], values, bools).value;
      assert items == [Valued(o0, v0)] + tail && items[1..] == tail;
      assert Val(rest, o0, None).Ok?;
      assert !Dashed(v0);
      AbsentOption(rest[1..], o0, Some(v0));
      assert rest[1..] == [v0] + rest[2..];
      AbsentStays(rest[2..], o0, None);
      forall o | o in values ensures Val(rest[2..], o, None).Ok? && (o != o0 ==> Val(rest, o, None) == Val(rest[2..], o, None)) {
        if o != o0 { StepOverTwo(rest, o); assert Val(rest, o, None).Ok?; }
      }
      LookupsReadTheParse(rest[2..], values, bools, tail);
      ItemsAreWords(rest[2..], values, bools, tail);
      ClearCons(o0, v0, tail);
    } else {
      var tail := Parse(rest[1..], values, bools).value;
      assert items == [Flag(rest[0])] + tail && items[1..] == tail;
      forall o | o in values ensures Val(rest, o, None) == Val(rest[1..], o, None) { StepOver(rest, o); }
      assert LookupsSucceed(rest[1..], values) by {
        forall o | o in values ensures Val(rest[1..], o, None).Ok? { assert Val(rest, o, None).Ok?; }
      }
      LookupsReadTheParse(rest[1..], values, bools, tail);
      ClearFlag(rest[0], tail);
    }
  }

  /** A clear parse makes every lookup succeed. */
  lemma {:induction false} ClearParseIsReadable(
    rest: seq<string>, values: set<string>, bools: set<string>, items: seq<Item>)
    requires Vocabulary(values, bools) && Parse(rest, values, bools) == Some(items) && Clear(items)
    ensures LookupsSucceed(rest, values)
  {
    if rest == [] {
    } else if rest[0] in values {
      var o0, v0 := rest[0], rest[1];
      var tail := Parse(rest[2..], values, bools).value;
      assert items == [Valued(o0, v0)] + tail && items[1..] == tail;
      assert !Dashed(v0) by { assert items[0].Valued?; }
      ClearTail(items);
      ClearParseIsReadable(rest[2..], values, bools, tail);
      LookupsReadTheParse(rest[2..], values, bools, tail);
      OptionNotAgain(rest[2..], values, bools, tail, o0, v0);
      forall o | o in values ensures Val(rest, o, None).Ok? {
        if o == o0 {
          assert rest[1..] == [v0] + rest[2..];
          AbsentStays(rest[1..], o0, Some(v0));
        } else {
          StepOverTwo(rest, o);
        }
      }
    } else {
      var tail := Parse(rest[1..], values, bools).value;
      assert items == [Flag(rest[0])] + tail && items[1..] == tail;
      ClearTail(items);
      ClearParseIsReadable(rest[1..], values, bools, tail);
      forall o | o in values ensures Val(rest, o, None).Ok? { StepOver(rest, o); }
    }
  }

  lemma OptionNotAgain(
    rest: seq<string>, values: set<string>, bools: set<string>, tail: seq<Item>, o: string, v: string)
    requires Vocabulary(values, bools) && Parse(rest, values, bools) == Some(tail)
    requires o in values && Clear([Valued(o, v)] + tail)
    ensures o !in rest
  {
    var items := [Valued(o, v)] + tail;
    ClearTail(items);
    assert items[1..] == tail;
    forall j | 0 <= j < |tail| && tail[j].Valued? ensures tail[j].option != o {
      assert items[0].option != items[j + 1].option;
    }
    if o in rest {
      DashedAreItems(rest, values, bools, tail, o);
      var j := ValuePlace(tail, o);
      assert false;
    }
  }

  lemma {:induction false} ValuePlace(items: seq<Item>, o: string) returns (j: nat)
    requires ValueIn(items, o).Some?
    ensures j < |items| && items[j] == Valued(o, ValueIn(items, o).value)
  {
    if items[0].Valued? && items[0].option == o { j := 0; } else {
      j := ValuePlace(items[1..], o);
      j := j + 1;
    }
  }

  /** What `tune`, `profile` and `reset` require of their arguments before anything else. */
  predicate Accepts(a: seq<string>, values: set<string>, bools: set<string>)
    requires |a| >= 2
  {
    Parse(a[2..], values, bools).Some? && LookupsSucceed(a, values)
  }

  /** The two passes accept exactly the arguments whose one parse is clear: each option at
      most once and no option word taken as a value.  Each lookup then returns the value of
      its unique option, and each boolean, `--apply` among them, is seen exactly when the
      parse has it as a flag of its own. */
  lemma TwoPassesAreOneParse(a: seq<string>, values: set<string>, bools: set<string>)
    requires |a| >= 2 && !Dashed(a[0]) && !Dashed(a[1]) && Vocabulary(values, bools)
    ensures Accepts(a, values, bools) <==>
            Parse(a[2..], values, bools).Some? && Clear(Parse(a[2..], values, bools).value)
    ensures Accepts(a, values, bools) ==>
            var items := Parse(a[2..], values, bools).value;
            && (forall o :: o in values ==> Val(a, o, None) == Ok(ValueIn(items, o)))
            && (forall b :: b in bools ==> (b in a <==> Flag(b) in items))
  {
    var rest := a[2..];
    forall o | o in values ensures Val(a, o, None) == Val(rest, o, None) { StepOverTwo(a, o); }
    if Parse(rest, values, bools).Some? {
      var items := Parse(rest, values, bools).value;
      if LookupsSucceed(a, values) {
        assert LookupsSucceed(rest, values) by {
          forall o | o in values ensures Val(rest, o, None).Ok? { assert Val(a, o, None).Ok?; }
        }
        LookupsReadTheParse(rest, values, bools, items);
        ItemsAreWords(rest, values, bools, items);
        assert a == [a[0], a[1]] + rest;
        forall b | b in bools ensures b in a <==> Flag(b) in items {
          assert Dashed(b);
          if b in a { DashedAreItems(rest, values, bools, items, b); }
          if Flag(b) in items { var i :| 0 <= i < |items| && items[i] == Flag(b); }
        }
      }
      if Clear(items) {
        ClearParseIsReadable(rest, values, bools, items);
        forall o | o in values ensures Val(a, o, None).Ok? { assert Val(rest, o, None).Ok?; }
      }
    }
  }
}
