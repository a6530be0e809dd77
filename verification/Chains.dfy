/** Linked lists held in untrusted bytes: from every address there is a next one, and address 0
    ends the list. */
module Chains {
  import opened Basics

  /** The k-th address of the list. */
  function Entry(start: nat, next: nat -> nat, k: nat): nat
  {
    if k == 0 then start else Follow(next, Entry(start, next, k - 1))
  }

  function Follow(next: nat -> nat, at: nat): nat { if at == 0 then 0 else next(at) }

  /** The k-th entry is one that is looked for. */
  predicate HitAt(start: nat, next: nat -> nat, wanted: nat -> bool, k: nat)
  {
    Entry(start, next, k) != 0 && wanted(Entry(start, next, k))
  }

  ghost predicate OnList(start: nat, next: nat -> nat, wanted: nat -> bool)
  {
    exists k: nat :: HitAt(start, next, wanted, k)
  }

  ghost predicate FirstHit(start: nat, next: nat -> nat, wanted: nat -> bool, k: nat)
  {
    HitAt(start, next, wanted, k) && forall j :: 0 <= j < k ==> !HitAt(start, next, wanted, j)
  }

  /** Entries before the k-th, as a walk collects them. */
  function Visited(start: nat, next: nat -> nat, k: nat): set<nat>
  {
    if k == 0 then {} else Visited(start, next, k - 1) + {Entry(start, next, k - 1)}
  }

  lemma {:induction false} VisitedHas(start: nat, next: nat -> nat, n: nat, j: nat)
    requires j < n
    ensures Entry(start, next, j) in Visited(start, next, n)
    decreases n
  {
    if j < n - 1 { VisitedHas(start, next, n - 1, j); }
  }

  lemma {:induction false} VisitedFrom(start: nat, next: nat -> nat, n: nat, x: nat) returns (j: nat)
    requires x in Visited(start, next, n)
    ensures j < n && Entry(start, next, j) == x
    decreases n
  {
    if x == Entry(start, next, n - 1) { j := n - 1; } else { j := VisitedFrom(start, next, n - 1, x); }
  }

  /** Once an entry repeats, the list never leaves the entries already visited. */
  lemma {:induction false} Repeats(start: nat, next: nat -> nat, n: nat, k: nat)
    requires Entry(start, next, n) in Visited(start, next, n)
    ensures Entry(start, next, k) in Visited(start, next, n)
    decreases k
  {
    if k < n {
      VisitedHas(start, next, n, k);
    } else if k > n {
      Repeats(start, next, n, k - 1);
      var j := VisitedFrom(start, next, n, Entry(start, next, k - 1));
      assert Entry(start, next, k) == Entry(start, next, j + 1);
      if j + 1 < n { VisitedHas(start, next, n, j + 1); }
    }
  }

  lemma {:induction false} EndsAtZero(start: nat, next: nat -> nat, n: nat, k: nat)
    requires Entry(start, next, n) == 0 && n <= k
    ensures Entry(start, next, k) == 0
    decreases k
  {
    if n < k { EndsAtZero(start, next, n, k - 1); }
  }

  /** A walk that stopped at 0 or at a repeated entry missed nothing. */
  lemma NothingLeft(start: nat, next: nat -> nat, wanted: nat -> bool, n: nat)
    requires Entry(start, next, n) == 0 || Entry(start, next, n) in Visited(start, next, n)
    requires forall j :: 0 <= j < n ==> !HitAt(start, next, wanted, j)
    ensures !OnList(start, next, wanted)
  {
    forall k: nat ensures !HitAt(start, next, wanted, k) {
      if k >= n {
        if Entry(start, next, n) == 0 {
          EndsAtZero(start, next, n, k);
        } else {
          Repeats(start, next, n, k);
          var j := VisitedFrom(start, next, n, Entry(start, next, k));
          assert !HitAt(start, next, wanted, j);
        }
      }
    }
  }

  lemma {:induction false} FirstOf(start: nat, next: nat -> nat, wanted: nat -> bool, k: nat) returns (first: nat)
    requires HitAt(start, next, wanted, k)
    ensures first <= k && FirstHit(start, next, wanted, first)
    decreases k
  {
    if j :| 0 <= j < k && HitAt(start, next, wanted, j) {
      first := FirstOf(start, next, wanted, j);
    } else {
      first := k;
    }
  }

  lemma NewEntry(start: nat, next: nat -> nat, wanted: nat -> bool, k: nat, n: nat)
    requires FirstHit(start, next, wanted, k) && n <= k
    ensures Entry(start, next, n) != 0 && Entry(start, next, n) !in Visited(start, next, n)
  {
    if Entry(start, next, n) == 0 { EndsAtZero(start, next, n, k); assert false; }
    if Entry(start, next, n) in Visited(start, next, n) {
      Repeats(start, next, n, k);
      var j := VisitedFrom(start, next, n, Entry(start, next, k));
      assert HitAt(start, next, wanted, j);
      assert false;
    }
  }

  /** Entries up to a first hit are all different. */
  lemma {:induction false} DistinctBefore(start: nat, next: nat -> nat, wanted: nat -> bool, k: nat, n: nat)
    requires FirstHit(start, next, wanted, k) && n <= k + 1
    ensures |Visited(start, next, n)| == n && 0 !in Visited(start, next, n)
    decreases n
  {
    if n > 0 {
      DistinctBefore(start, next, wanted, k, n - 1);
      NewEntry(start, next, wanted, k, n - 1);
    }
  }

  function Rung(low: nat, width: nat, i: nat): nat { low + width * i }

  lemma {:induction false} FewRungs(s: set<nat>, low: nat, width: nat, n: nat)
    requires forall x :: x in s ==> exists i :: 0 <= i < n && x == Rung(low, width, i)
    ensures |s| <= n
    decreases n
  {
    if n == 0 {
      assert s == {};
    } else {
      var last := Rung(low, width, n - 1);
      forall x | x in s - {last} ensures exists i :: 0 <= i < n - 1 && x == Rung(low, width, i) {
        var i :| 0 <= i < n && x == Rung(low, width, i);
      }
      FewRungs(s - {last}, low, width, n - 1);
      SubsetIsSmaller(s, (s - {last}) + {last});
    }
  }

  /** The pigeonhole: when only n addresses are possible, a first hit is among the first n. */
  lemma FirstHitIsEarly(start: nat, next: nat -> nat, wanted: nat -> bool, k: nat, low: nat, width: nat, n: nat)
    requires FirstHit(start, next, wanted, k)
    requires forall j: nat :: Entry(start, next, j) == 0 ||
               exists i :: 0 <= i < n && Entry(start, next, j) == Rung(low, width, i)
    ensures k < n
  {
    DistinctBefore(start, next, wanted, k, k + 1);
    var seen := Visited(start, next, k + 1);
    forall x | x in seen ensures exists i :: 0 <= i < n && x == Rung(low, width, i) {
      var j := VisitedFrom(start, next, k + 1, x);
    }
    FewRungs(seen, low, width, n);
  }
}
