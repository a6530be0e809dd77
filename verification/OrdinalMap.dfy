/** Relating CUDA ordinals to NVML indices through the PCI order of the devices. */
module OrdinalMap {
  import opened Basics

  const MAX_GPUS: nat := 16

  /** A parsed bus id; `unit` is the PCI function number. */
  datatype Pci = Pci(domain: nat, bus: nat, device: nat, unit: nat)

  // ---------------------------------------------------------------- the comparator

  function CompareNumbers(x: nat, y: nat): int { if x < y then -1 else if x > y then 1 else 0 }

  function ComparePci(l: Pci, r: Pci): int
  {
    if l.domain != r.domain then CompareNumbers(l.domain, r.domain)
    else if l.bus != r.bus then CompareNumbers(l.bus, r.bus)
    else if l.device != r.device then CompareNumbers(l.device, r.device)
    else CompareNumbers(l.unit, r.unit)
  }

  /** The comparator over device indices; None is a bus id that does not parse. */
  function Compare(ids: seq<Option<Pci>>, l: nat, r: nat): int
    requires l < |ids| && r < |ids|
  {
    if ids[l].None? then 1
    else if ids[r].None? then -1
    else ComparePci(ids[l].value, ids[r].value)
  }

  predicate AllParse(ids: seq<Option<Pci>>) { forall i :: 0 <= i < |ids| ==> ids[i].Some? }

  predicate Leq(ids: seq<Option<Pci>>, l: nat, r: nat)
  {
    l < |ids| && r < |ids| && Compare(ids, l, r) <= 0
  }

  predicate Less(ids: seq<Option<Pci>>, l: nat, r: nat)
  {
    l < |ids| && r < |ids| && Compare(ids, l, r) < 0
  }

  /** The comparator is consistent exactly on lists that parse, which is why they are checked first. */
  lemma ComparatorIsConsistent(ids: seq<Option<Pci>>)
    ensures AllParse(ids) <==>
      forall l: nat, r: nat :: l < |ids| && r < |ids| ==> Compare(ids, l, r) == -Compare(ids, r, l)
  {
    if !AllParse(ids) {
      var i :| 0 <= i < |ids| && ids[i].None?;
      assert Compare(ids, i, i) == 1;
    }
  }

  /** a comes before b: some component is smaller and the components before it, in the order
      domain, bus, device, function, are equal. */
  predicate Before(a: Pci, b: Pci)
  {
    || a.domain < b.domain
    || (a.domain == b.domain && a.bus < b.bus)
    || (a.domain == b.domain && a.bus == b.bus && a.device < b.device)
    || (a.domain == b.domain && a.bus == b.bus && a.device == b.device && a.unit < b.unit)
  }

  /** The comparator decides that order. */
  lemma ComparatorDecidesBefore(ids: seq<Option<Pci>>, l: nat, r: nat)
    requires AllParse(ids) && l < |ids| && r < |ids|
    ensures Less(ids, l, r) <==> Before(ids[l].value, ids[r].value)
    ensures Leq(ids, l, r) <==> !Before(ids[r].value, ids[l].value)
    ensures Compare(ids, l, r) == 0 <==> ids[l] == ids[r]
  {}

  lemma LeqIsTransitive(ids: seq<Option<Pci>>, a: nat, b: nat, c: nat)
    requires AllParse(ids) && Leq(ids, a, b) && Leq(ids, b, c)
    ensures Leq(ids, a, c)
  {}

  // ---------------------------------------------------------------- the order

  predicate IsSorted(ids: seq<Option<Pci>>, s: seq<nat>)
  {
    forall p, q :: 0 <= p < q < |s| ==> Leq(ids, s[p], s[q])
  }

  function UpTo(n: nat): seq<nat> { seq(n, i => i) }

  /** Every device once, in PCI order. */
  ghost predicate IsPciOrder(ids: seq<Option<Pci>>, s: seq<nat>)
  {
    multiset(s) == multiset(UpTo(|ids|)) && IsSorted(ids, s)
  }

  ghost predicate InRange(s: seq<nat>, n: nat) { forall i :: 0 <= i < |s| ==> s[i] < n }

  /** Among the first n, all but the element under way are in order. */
  ghost predicate SortedExcept(ids: seq<Option<Pci>>, s: seq<nat>, n: nat, j: nat)
    requires n <= |s|
  {
    forall p, q :: 0 <= p < q < n && q != j ==> Leq(ids, s[p], s[q])
  }

  ghost function Swapped(s: seq<nat>, j: nat): seq<nat>
    requires 0 < j < |s|
  {
    s[j := s[j - 1]][j - 1 := s[j]]
  }

  lemma SwapKeeps(ids: seq<Option<Pci>>, s: seq<nat>, n: nat, j: nat)
    requires AllParse(ids) && InRange(s, |ids|) && n <= |s|
    requires 0 < j < n && SortedExcept(ids, s, n, j) && Compare(ids, s[j - 1], s[j]) > 0
    ensures SortedExcept(ids, Swapped(s, j), n, j - 1)
    ensures multiset(Swapped(s, j)) == multiset(s) && InRange(Swapped(s, j), |ids|)
  {
    var t := Swapped(s, j);
    forall p, q | 0 <= p < q < n && q != j - 1 ensures Leq(ids, t[p], t[q]) {
      if q == j {
        assert p < j - 1 ==> Leq(ids, s[p], s[j - 1]);
      } else if q > j {
        assert Leq(ids, s[p], s[q]) && Leq(ids, s[j], s[q]) && Leq(ids, s[j - 1], s[q]);
      }
    }
  }

  lemma PlacedIsSorted(ids: seq<Option<Pci>>, s: seq<nat>, n: nat, j: nat)
    requires AllParse(ids) && InRange(s, |ids|)
    requires j < n <= |s| && SortedExcept(ids, s, n, j) && (j > 0 ==> Compare(ids, s[j - 1], s[j]) <= 0)
    ensures IsSorted(ids, s[..n])
  {
    forall p, q | 0 <= p < q < n ensures Leq(ids, s[p], s[q]) {
      if q == j && p < j - 1 {
        LeqIsTransitive(ids, s[p], s[j - 1], s[j]);
      }
    }
  }

  method SwapDown(order: array<nat>, j: nat)
    requires 0 < j < order.Length
    modifies order
    ensures order[..] == Swapped(old(order[..]), j)
  {
    order[j - 1], order[j] := order[j], order[j - 1];
  }

  /** Moves element i down to its place among the first i + 1. */
  method Place(ids: seq<Option<Pci>>, order: array<nat>, i: nat)
    requires i < order.Length && AllParse(ids) && InRange(order[..], |ids|) && IsSorted(ids, order[..i])
    modifies order
    ensures multiset(order[..]) == multiset(old(order[..])) && InRange(order[..], |ids|)
    ensures IsSorted(ids, order[..i + 1])
  {
    var j: nat := i;
    assert order[..i] == order[..][..i];
    while j > 0 && Compare(ids, order[..][j - 1], order[..][j]) > 0
      invariant j <= i && InRange(order[..], |ids|)
      invariant multiset(order[..]) == multiset(old(order[..]))
      invariant SortedExcept(ids, order[..], i + 1, j)
    {
      SwapKeeps(ids, order[..], i + 1, j);
      SwapDown(order, j);
      j := j - 1;
    }
    PlacedIsSorted(ids, order[..], i + 1, j);
    assert order[..][..i + 1] == order[..i + 1];
  }

  /** What qsort_r promises here: the same indices, in comparator order. */
  method SortByPci(ids: seq<Option<Pci>>, order: array<nat>)
    requires AllParse(ids) && InRange(order[..], |ids|)
    modifies order
    ensures multiset(order[..]) == multiset(old(order[..])) && IsSorted(ids, order[..])
  {
    for i := 0 to order.Length
      invariant multiset(order[..]) == multiset(old(order[..])) && InRange(order[..], |ids|)
      invariant IsSorted(ids, order[..i])
    {
      Place(ids, order, i);
    }
    assert order[..order.Length] == order[..];
  }

  // ---------------------------------------------------------------- ranks

  ghost function Devices(s: seq<nat>, n: nat): set<nat>
    requires n <= |s|
  {
    set i: nat | i < n :: s[i]
  }

  ghost predicate NoRepeat(s: seq<nat>) { forall i, j :: 0 <= i < j < |s| ==> s[i] != s[j] }

  lemma {:induction false} DevicesCount(s: seq<nat>, n: nat)
    requires n <= |s| && NoRepeat(s)
    ensures |Devices(s, n)| == n
  {
    if n > 0 {
      DevicesCount(s, n - 1);
      assert Devices(s, n) == Devices(s, n - 1) + {s[n - 1]};
    }
  }

  lemma {:induction false} UpToCounts(n: nat, x: nat)
    ensures multiset(UpTo(n))[x] == if x < n then 1 else 0
  {
    if n > 0 {
      UpToCounts(n - 1, x);
      assert UpTo(n) == UpTo(n - 1) + [n - 1];
    }
  }

  /** The order holds every device index once. */
  lemma OrderIsPermutation(ids: seq<Option<Pci>>, s: seq<nat>)
    requires IsPciOrder(ids, s)
    ensures |s| == |ids| && NoRepeat(s) && InRange(s, |ids|) && forall x: nat :: x < |ids| ==> x in s
  {
    assert |s| == |multiset(s)| && |UpTo(|ids|)| == |multiset(UpTo(|ids|))|;
    forall i, j | 0 <= i < j < |s| ensures s[i] != s[j] {
      UpToCounts(|ids|, s[i]);
      if s[i] == s[j] { RepeatedCountsTwice(s, i, j); }
    }
    forall i | 0 <= i < |s| ensures s[i] < |ids| {
      assert s[i] in multiset(s);
      UpToCounts(|ids|, s[i]);
    }
    forall x: nat | x < |ids| ensures x in s {
      UpToCounts(|ids|, x);
      assert x in multiset(s);
    }
  }

  /** Devices whose bus id comes before that of device m. */
  ghost function DevicesBefore(ids: seq<Option<Pci>>, m: nat): set<nat>
    requires AllParse(ids) && m < |ids|
  {
    set x: nat | x < |ids| && Before(ids[x].value, ids[m].value)
  }

  /** Devices whose bus id does not come after it. */
  ghost function DevicesUpTo(ids: seq<Option<Pci>>, m: nat): set<nat>
    requires AllParse(ids) && m < |ids|
  {
    set x: nat | x < |ids| && !Before(ids[m].value, ids[x].value)
  }

  /** Nothing later in the order comes before something earlier. */
  lemma SortedIsInOrder(ids: seq<Option<Pci>>, s: seq<nat>)
    requires AllParse(ids) && InRange(s, |ids|)
    ensures IsSorted(ids, s) <==>
      forall p, q :: 0 <= p < q < |s| ==> !Before(ids[s[q]].value, ids[s[p]].value)
  {
    forall p, q | 0 <= p < q < |s| ensures Leq(ids, s[p], s[q]) <==> !Before(ids[s[q]].value, ids[s[p]].value) {
      ComparatorDecidesBefore(ids, s[p], s[q]);
    }
    if forall p, q :: 0 <= p < q < |s| ==> !Before(ids[s[q]].value, ids[s[p]].value) {
      forall p, q | 0 <= p < q < |s| ensures Leq(ids, s[p], s[q]) {
        assert !Before(ids[s[q]].value, ids[s[p]].value);
      }
    }
  }

  lemma BeforeStandEarlier(ids: seq<Option<Pci>>, s: seq<nat>, r: nat)
    requires AllParse(ids) && IsPciOrder(ids, s) && r < |s| && InRange(s, |ids|)
    ensures DevicesBefore(ids, s[r]) <= Devices(s, r)
  {
    OrderIsPermutation(ids, s);
    SortedIsInOrder(ids, s);
    assert forall q :: r < q < |s| ==> !Before(ids[s[q]].value, ids[s[r]].value);
    forall x | x in DevicesBefore(ids, s[r]) ensures x in Devices(s, r) {
      assert x in s;
      var q :| 0 <= q < |s| && s[q] == x;
    }
  }

  lemma EarlierAreUpTo(ids: seq<Option<Pci>>, s: seq<nat>, r: nat)
    requires AllParse(ids) && IsPciOrder(ids, s) && r < |s| && InRange(s, |ids|)
    ensures Devices(s, r + 1) <= DevicesUpTo(ids, s[r])
  {
    OrderIsPermutation(ids, s);
    SortedIsInOrder(ids, s);
    forall x | x in Devices(s, r + 1) ensures x in DevicesUpTo(ids, s[r]) {
      var q: nat :| q < r + 1 && s[q] == x;
      assert q < r ==> !Before(ids[s[r]].value, ids[s[q]].value);
    }
  }

  /** The device at position r has at most r devices before it and more than r up to it: r is its
      rank in (domain, bus, device, function) order. */
  lemma PositionIsRank(ids: seq<Option<Pci>>, s: seq<nat>, r: nat)
    requires AllParse(ids) && IsPciOrder(ids, s) && r < |s|
    ensures s[r] < |ids| && |DevicesBefore(ids, s[r])| <= r < |DevicesUpTo(ids, s[r])|
  {
    OrderIsPermutation(ids, s);
    DevicesCount(s, r);
    DevicesCount(s, r + 1);
    BeforeStandEarlier(ids, s, r);
    EarlierAreUpTo(ids, s, r);
    SubsetIsSmaller(DevicesBefore(ids, s[r]), Devices(s, r));
    SubsetIsSmaller(Devices(s, r + 1), DevicesUpTo(ids, s[r]));
  }

  /** Where bus ids differ, the rank is exact. */
  lemma DistinctIdsFixTheRank(ids: seq<Option<Pci>>, s: seq<nat>, r: nat)
    requires AllParse(ids) && IsPciOrder(ids, s) && r < |s|
    requires forall i, j :: 0 <= i < j < |ids| ==> ids[i] != ids[j]
    ensures s[r] < |ids| && |DevicesBefore(ids, s[r])| == r
  {
    PositionIsRank(ids, s, r);
    OrderIsPermutation(ids, s);
    var m := s[r];
    forall x: nat | x < |ids| && !Before(ids[m].value, ids[x].value) && x != m
      ensures Before(ids[x].value, ids[m].value)
    {
      assert ids[x] != ids[m];
    }
    assert DevicesUpTo(ids, m) == DevicesBefore(ids, m) + {m};
  }

  /** And the order is the only one, whichever algorithm sorts. */
  lemma DistinctIdsFixTheOrder(ids: seq<Option<Pci>>, s: seq<nat>, t: seq<nat>)
    requires AllParse(ids) && IsPciOrder(ids, s) && IsPciOrder(ids, t)
    requires forall i, j :: 0 <= i < j < |ids| ==> ids[i] != ids[j]
    ensures s == t
  {
    OrderIsPermutation(ids, s);
    OrderIsPermutation(ids, t);
    forall r | 0 <= r < |s| ensures s[r] == t[r] {
      assert s[r] in t;
      var q :| 0 <= q < |t| && t[q] == s[r];
      DistinctIdsFixTheRank(ids, s, r);
      DistinctIdsFixTheRank(ids, t, q);
    }
  }

  // ---------------------------------------------------------------- the map

  /** The visibility list: absent or empty, or its comma-separated tokens, None where a token is not
      a number. `leadingComma` says that the text before the first token is not empty. */
  datatype Visible = NoFilter | Filter(leadingComma: bool, tokens: seq<Option<int>>)

  predicate GoodToken(t: Option<int>, n: nat) { t.Some? && 0 <= t.value < n }

  ghost predicate Distinct(tokens: seq<Option<int>>)
  {
    forall i, j :: 0 <= i < j < |tokens| ==> tokens[i] != tokens[j]
  }

  /** The lists that are mapped. */
  ghost predicate Mappable(tokens: seq<Option<int>>, leadingComma: bool, n: nat, capacity: nat)
  {
    && !leadingComma && 0 < |tokens| <= capacity
    && (forall i :: 0 <= i < |tokens| ==> GoodToken(tokens[i], n))
    && Distinct(tokens)
  }

  ghost predicate Mapped(out: seq<int>, tokens: seq<Option<int>>, order: seq<nat>)
  {
    && |out| == |tokens|
    && forall i :: 0 <= i < |tokens| ==> GoodToken(tokens[i], |order|) && out[i] == order[tokens[i].value]
  }

  method MapTokens(tokens: seq<Option<int>>, leadingComma: bool, order: seq<nat>, out: array<int>, capacity: nat)
    returns (count: nat)
    requires NoRepeat(order) && capacity <= out.Length
    modifies out
    ensures count > 0 <==> Mappable(tokens, leadingComma, |order|, capacity)
    ensures count > 0 ==> count == |tokens| && Mapped(out[..count], tokens, order)
  {
    count := 0;
    for t := 0 to |tokens|
      invariant count == t <= capacity && (t > 0 ==> !leadingComma)
      invariant Mapped(out[..t], tokens[..t], order) && Distinct(tokens[..t])
    {
      if count >= capacity {
        count := 0;
        break;
      }
      if tokens[t].None? || tokens[t].value < 0 || tokens[t].value >= |order| {
        assert !GoodToken(tokens[t], |order|);
        count := 0;
        break;
      }
      var index := order[tokens[t].value];
      var i := 0;
      while i < count
        invariant 0 <= i <= count == t
        invariant forall k :: 0 <= k < i ==> out[k] != index
      {
        if out[i] == index {
          assert tokens[..t][i] == tokens[i] && tokens[i] == tokens[t];
          count := 0;
          break;
        }
        i := i + 1;
      }
      if count == 0 && !(t == 0 && !leadingComma) {
        break;
      }
      out[count] := index;
      count := count + 1;
    }
    assert tokens[..|tokens|] == tokens;
  }

  /** The ordinals a process sees: all of them, or those of its list. */
  ghost function Ordinals(visible: Visible, n: nat): (tokens: seq<Option<int>>)
  {
    if visible.NoFilter? then seq(n, i => Some(i)) else visible.tokens
  }

  ghost predicate Accepts(ids: seq<Option<Pci>>, byBusId: bool, visible: Visible, capacity: nat)
  {
    && 0 < |ids| <= MAX_GPUS && byBusId && AllParse(ids)
    && Mappable(Ordinals(visible, |ids|), visible.Filter? && visible.leadingComma, |ids|, capacity)
  }

  /** Injective into the device indices. */
  ghost predicate IntoDevices(out: seq<int>, n: nat)
  {
    && (forall i :: 0 <= i < |out| ==> 0 <= out[i] < n)
    && (forall i, j :: 0 <= i < j < |out| ==> out[i] != out[j])
  }

  /** A map through an order without repeats is injective into the device indices. */
  lemma MapIsInjective(out: seq<int>, tokens: seq<Option<int>>, order: seq<nat>, n: nat)
    requires Mapped(out, tokens, order) && Distinct(tokens) && NoRepeat(order) && InRange(order, n)
    ensures IntoDevices(out, n)
  {
    forall i, j | 0 <= i < j < |out| ensures out[i] != out[j] {
      var a, b := tokens[i].value, tokens[j].value;
      assert a != b && order[a] != order[b];
    }
  }

  method AllInOrder(order: array<nat>, out: array<int>)
    requires order.Length <= out.Length
    modifies out
    ensures out[..order.Length] == order[..]
  {
    for i := 0 to order.Length
      invariant out[..i] == order[..i]
    {
      out[i] := order[i];
    }
  }

  /** The device indices in PCI order, unless a bus id does not parse. */
  method PciOrder(ids: seq<Option<Pci>>) returns (parsed: bool, order: array<nat>)
    ensures fresh(order)
    ensures parsed <==> AllParse(ids)
    ensures parsed ==> IsPciOrder(ids, order[..])
  {
    order := new nat[|ids|];
    for i := 0 to |ids|
      invariant forall k :: 0 <= k < i ==> ids[k].Some?
      invariant forall k :: 0 <= k < i ==> order[k] == k
    {
      if ids[i].None? {
        return false, order;
      }
      order[i] := i;
    }
    assert order[..] == UpTo(|ids|);
    SortByPci(ids, order);
    parsed := true;
  }

  /** The map, or 0. `byBusId` says that the device order was found and is PCI_BUS_ID. */
  method CudaVisibleOrdinalMap(ids: seq<Option<Pci>>, byBusId: bool, visible: Visible, out: array<int>, capacity: nat)
    returns (count: nat, ghost order: seq<nat>)
    requires capacity <= out.Length
    modifies out
    ensures count > 0 <==> Accepts(ids, byBusId, visible, capacity)
    ensures count > 0 ==>
      && IsPciOrder(ids, order)
      && count == |Ordinals(visible, |ids|)| <= out.Length
      && Mapped(out[..count], Ordinals(visible, |ids|), order)
      && IntoDevices(out[..count], |ids|)
  {
    order := [];
    if |ids| == 0 || capacity == 0 || |ids| > MAX_GPUS || !byBusId {
      return 0, order;
    }
    var parsed, pciOrder := PciOrder(ids);
    if !parsed {
      return 0, order;
    }
    order := pciOrder[..];
    OrderIsPermutation(ids, order);
    ghost var ordinals := Ordinals(visible, |ids|);
    if visible.NoFilter? {
      AllOrdinals(|ids|, capacity);
      if |ids| > capacity {
        return 0, order;
      }
      AllInOrder(pciOrder, out);
      count := |ids|;
      assert Mapped(out[..count], ordinals, order);
    } else {
      count := MapTokens(visible.tokens, visible.leadingComma, pciOrder[..], out, capacity);
    }
    if count > 0 {
      MapIsInjective(out[..count], ordinals, order, |ids|);
    }
  }

  lemma AllOrdinals(n: nat, capacity: nat)
    requires n > 0
    ensures Mappable(Ordinals(NoFilter, n), false, n, capacity) <==> n <= capacity
  {}

  /** Each listed ordinal goes to a device of that rank. */
  lemma MapGoesByRank(ids: seq<Option<Pci>>, out: seq<int>, tokens: seq<Option<int>>, order: seq<nat>, i: nat)
    requires AllParse(ids) && IsPciOrder(ids, order) && Mapped(out, tokens, order) && i < |tokens|
    ensures GoodToken(tokens[i], |ids|) && 0 <= out[i] < |ids|
    ensures |DevicesBefore(ids, out[i])| <= tokens[i].value < |DevicesUpTo(ids, out[i])|
  {
    OrderIsPermutation(ids, order);
    PositionIsRank(ids, order, tokens[i].value);
  }

  /** Without a filter the map is the PCI order itself. */
  lemma NoFilterIsTheOrder(out: seq<int>, order: seq<nat>, n: nat)
    requires |order| == n && Mapped(out, Ordinals(NoFilter, n), order)
    ensures out == order
  {
    forall i | 0 <= i < n ensures out[i] == order[i] {
      assert Ordinals(NoFilter, n)[i].value == i;
    }
  }
}
