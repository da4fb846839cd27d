/**
 What PromotionRun retention promises, stated over the set of terminal runs of one
 Promotion and without sorting, buckets or cursors.

 A run is above its outcome's floor when at least `floor` runs of the same outcome are newer.
 A purge order is a sequence that could be extended to a complete deletion order: above-floor
 runs first, globally oldest first; then, below the floors, oldest creation time first and
 never a newer run of an outcome before an older one.
 */
module RetentionSpec {
  import opened RunPhase
  import opened Text

  datatype Run = Run(name: string, created: int, phase: Phase)

  /** Creation time ascending, ties broken by name. */
  predicate Older(a: Run, b: Run) {
    a.created < b.created || (a.created == b.created && LexLess(a.name, b.name))
  }

  /** Object names are unique among the runs of one list. */
  ghost predicate UniqueNames(runs: set<Run>) {
    forall a, b :: a in runs && b in runs && a.name == b.name ==> a == b
  }

  function Elems<T>(v: seq<T>): set<T> { set r | r in v }

  ghost predicate NoDuplicates<T>(v: seq<T>) {
    forall i, j :: 0 <= i < j < |v| ==> v[i] != v[j]
  }

  function Bucket(runs: set<Run>, p: Phase): set<Run> {
    set r | r in runs && r.phase == p
  }

  function Newer(runs: set<Run>, r: Run): set<Run> {
    set s | s in runs && s.phase == r.phase && Older(r, s)
  }

  predicate AboveFloor(runs: set<Run>, floor: nat, r: Run) {
    |Newer(runs, r)| >= floor
  }

  /** Within the floors only creation time orders runs of different outcomes. */
  predicate BeforeInFloor(a: Run, b: Run) {
    a.created < b.created || (a.phase == b.phase && Older(a, b))
  }

  /** `a` has to be deleted before `b` is. */
  predicate Precedes(runs: set<Run>, floor: nat, a: Run, b: Run) {
    var aboveA, aboveB := AboveFloor(runs, floor, a), AboveFloor(runs, floor, b);
    (aboveA && !aboveB) || (aboveA && aboveB && Older(a, b)) || (!aboveA && !aboveB && BeforeInFloor(a, b))
  }

  ghost predicate PurgeOrder(runs: set<Run>, floor: nat, v: seq<Run>) {
    && NoDuplicates(v)
    && Elems(v) <= runs
    && forall i, s :: 0 <= i < |v| && s in runs && s !in v[..i] ==> !Precedes(runs, floor, s, v[i])
  }

  /** A set of `k` runs that some purge order could delete first. */
  ghost predicate IsVictimSet(runs: set<Run>, floor: nat, k: nat, victims: set<Run>) {
    && victims <= runs
    && |victims| == k
    && forall a, b :: a in victims && b in runs - victims ==> !Precedes(runs, floor, b, a)
  }

  function Max0(n: int): nat { if n > 0 then n else 0 }

  function Min(a: int, b: int): int { if a <= b then a else b }

  lemma OlderTotal(a: Run, b: Run)
    ensures a.name != b.name ==> Older(a, b) || Older(b, a)
    ensures !(Older(a, b) && Older(b, a))
    ensures !Older(a, a)
  {
    LexTotal(a.name, b.name);
    LexTotal(a.name, a.name);
  }

  lemma OlderTransitive(a: Run, b: Run, c: Run)
    requires Older(a, b) && Older(b, c)
    ensures Older(a, c)
  {
    if a.created == b.created == c.created {
      LexTransitive(a.name, b.name, c.name);
    }
  }

  lemma {:induction false} NoDuplicatesCardinality<T>(v: seq<T>)
    requires NoDuplicates(v)
    ensures |Elems(v)| == |v|
  {
    if v != [] {
      hide Elems;
      NoDuplicatesCardinality(v[..|v| - 1]);
      ElemsLast(v);
    }
  }

  lemma ElemsLast<T>(v: seq<T>)
    requires NoDuplicates(v) && v != []
    ensures Elems(v) == Elems(v[..|v| - 1]) + {v[|v| - 1]} && v[|v| - 1] !in Elems(v[..|v| - 1])
  {
  }

  lemma SubsetCardinality<T>(a: set<T>, b: set<T>)
    requires a <= b
    ensures |a| <= |b|
  {
    assert b == a + (b - a);
  }

  /** Being above the floor is inherited by every older run of the same outcome. */
  lemma AboveFloorDownward(runs: set<Run>, floor: nat, a: Run, b: Run)
    requires AboveFloor(runs, floor, b) && a.phase == b.phase && Older(a, b)
    ensures AboveFloor(runs, floor, a)
  {
    forall s | s in Newer(runs, b)
      ensures s in Newer(runs, a)
    {
      OlderTransitive(a, b, s);
    }
    SubsetCardinality(Newer(runs, b), Newer(runs, a));
  }

  /** Same outcome: the deletion order is exactly the age order. */
  lemma PrecedesWithinOutcome(runs: set<Run>, floor: nat, a: Run, b: Run)
    requires a.phase == b.phase && Older(a, b)
    ensures Precedes(runs, floor, a, b)
  {
    if AboveFloor(runs, floor, b) {
      AboveFloorDownward(runs, floor, a, b);
    }
  }

  /** The runs of a purge order form a legal victim set. */
  lemma PurgeOrderIsVictimSet(runs: set<Run>, floor: nat, v: seq<Run>)
    requires PurgeOrder(runs, floor, v)
    ensures IsVictimSet(runs, floor, |v|, Elems(v))
  {
    NoDuplicatesCardinality(v);
    forall a, b | a in Elems(v) && b in runs - Elems(v)
      ensures !Precedes(runs, floor, b, a)
    {
      var i :| 0 <= i < |v| && v[i] == a;
      assert b !in v[..i];
    }
  }

  /** Every purge-order prefix removes the oldest runs of each outcome: no survivor is older
      than a deleted run of the same outcome. */
  lemma SurvivorsAreNewer(runs: set<Run>, floor: nat, k: nat, victims: set<Run>, gone: Run, kept: Run)
    requires UniqueNames(runs) && IsVictimSet(runs, floor, k, victims)
    requires gone in victims && kept in runs - victims && gone.phase == kept.phase
    ensures Older(gone, kept)
  {
    OlderTotal(gone, kept);
    if Older(kept, gone) {
      PrecedesWithinOutcome(runs, floor, kept, gone);
    }
  }

  // ---- The floors --------------------------------------------------------------------------

  function WithinFloor(runs: set<Run>, floor: nat, p: Phase): set<Run> {
    set r | r in Bucket(runs, p) && !AboveFloor(runs, floor, r)
  }

  lemma {:induction false} OldestOf(runs: set<Run>) returns (r: Run)
    requires runs != {} && UniqueNames(runs)
    ensures r in runs && forall s :: s in runs && s != r ==> Older(r, s)
  {
    var x :| x in runs;
    if runs == {x} {
      r := x;
    } else {
      var rest := OldestOf(runs - {x});
      OlderTotal(x, rest);
      if Older(x, rest) {
        r := x;
        forall s | s in runs && s != r
          ensures Older(r, s)
        {
          if s != rest { OlderTransitive(x, rest, s); }
        }
      } else {
        r := rest;
      }
    }
  }

  /** Exactly min(size, floor) runs of an outcome lie within its floor. */
  lemma {:induction false} WithinFloorSize(runs: set<Run>, floor: nat, p: Phase)
    requires UniqueNames(runs)
    ensures |WithinFloor(runs, floor, p)| == Min(|Bucket(runs, p)|, floor)
    decreases |Bucket(runs, p)|
  {
    var b := Bucket(runs, p);
    if b == {} {
      assert WithinFloor(runs, floor, p) == {};
    } else {
      var r := OldestOf(b);
      var rest := runs - {r};
      assert Bucket(rest, p) == b - {r};
      WithinFloorSize(rest, floor, p);
      OlderTotal(r, r);
      assert Newer(runs, r) == b - {r};
      forall s | s in b - {r}
        ensures Newer(runs, s) == Newer(rest, s)
      {
        OlderTotal(r, s);
      }
      if |b| - 1 >= floor {
        assert WithinFloor(runs, floor, p) == WithinFloor(rest, floor, p);
      } else {
        assert WithinFloor(runs, floor, p) == WithinFloor(rest, floor, p) + {r};
      }
    }
  }

  function FloorDemand(runs: set<Run>, floor: nat): nat {
    Max0(Min(|Bucket(runs, Complete)|, floor)) + Max0(Min(|Bucket(runs, Failed)|, floor))
    + Max0(Min(|Bucket(runs, Superseded)|, floor))
  }

  ghost predicate AllTerminal(runs: set<Run>) {
    forall r :: r in runs ==> IsTerminal(r.phase)
  }

  lemma FloorDemandCounts(runs: set<Run>, floor: nat)
    requires UniqueNames(runs) && AllTerminal(runs)
    ensures |set r | r in runs && !AboveFloor(runs, floor, r)| == FloorDemand(runs, floor)
  {
    var c, f, s := WithinFloor(runs, floor, Complete), WithinFloor(runs, floor, Failed),
        WithinFloor(runs, floor, Superseded);
    WithinFloorSize(runs, floor, Complete);
    WithinFloorSize(runs, floor, Failed);
    WithinFloorSize(runs, floor, Superseded);
    WithinFloorSplit(runs, floor);
    DisjointSum(c, f, s);
  }

  lemma WithinFloorSplit(runs: set<Run>, floor: nat)
    requires AllTerminal(runs)
    ensures var c, f, s := WithinFloor(runs, floor, Complete), WithinFloor(runs, floor, Failed),
              WithinFloor(runs, floor, Superseded);
            c !! f && c !! s && f !! s && (set r | r in runs && !AboveFloor(runs, floor, r)) == c + f + s
  {
  }

  lemma DisjointSum<T>(a: set<T>, b: set<T>, c: set<T>)
    requires a !! b && a !! c && b !! c
    ensures |a + b + c| == |a| + |b| + |c|
  {
  }

  ghost predicate KeepsFloor(runs: set<Run>, floor: nat, victims: set<Run>, p: Phase) {
    |Bucket(runs - victims, p)| >= Min(|Bucket(runs, p)|, floor)
  }

  /** An outcome keeps its floor exactly when no run within the floor is deleted. */
  lemma KeepsFloorIff(runs: set<Run>, floor: nat, k: nat, victims: set<Run>, p: Phase)
    requires UniqueNames(runs) && IsVictimSet(runs, floor, k, victims)
    ensures KeepsFloor(runs, floor, victims, p) <==> WithinFloor(runs, floor, p) !! victims
  {
    WithinFloorSize(runs, floor, p);
    var within, kept := WithinFloor(runs, floor, p), Bucket(runs - victims, p);
    if within !! victims {
      assert within <= kept;
      SubsetCardinality(within, kept);
    } else {
      var r :| r in within && r in victims;
      forall s | s in kept
        ensures s in within - {r}
      {
        SurvivorsAreNewer(runs, floor, k, victims, r, s);
        if AboveFloor(runs, floor, s) { AboveFloorDownward(runs, floor, r, s); }
      }
      SubsetCardinality(kept, within - {r});
    }
  }

  /** Every outcome keeps min(size, floor) runs exactly when those floors together fit what is
      left: the guard of the second pass. */
  lemma FloorsKeptIff(runs: set<Run>, floor: nat, k: nat, victims: set<Run>)
    requires UniqueNames(runs) && AllTerminal(runs) && IsVictimSet(runs, floor, k, victims)
    ensures (forall p :: IsTerminal(p) ==> KeepsFloor(runs, floor, victims, p))
            <==> FloorDemand(runs, floor) <= |runs| - k
  {
    var within := set r | r in runs && !AboveFloor(runs, floor, r);
    FloorDemandCounts(runs, floor);
    assert |runs - victims| == |runs| - k;
    if within <= runs - victims {
      SubsetCardinality(within, runs - victims);
      forall p | IsTerminal(p)
        ensures KeepsFloor(runs, floor, victims, p)
      {
        KeepsFloorIff(runs, floor, k, victims, p);
      }
    } else {
      var r :| r in within && r !in runs - victims;
      assert r in victims;
      KeepsFloorIff(runs, floor, k, victims, r.phase);
      assert r in WithinFloor(runs, floor, r.phase);
      forall s | s in runs - victims
        ensures s in within - {r}
      {
        assert !Precedes(runs, floor, s, r);
      }
      SubsetCardinality(runs - victims, within - {r});
      assert !KeepsFloor(runs, floor, victims, r.phase);
    }
  }

  // ---- Determinism -------------------------------------------------------------------------

  /** A tie that the code breaks by map iteration order: a deleted and a surviving run of
      different outcomes, both within their floors, with equal creation times. */
  ghost predicate BoundaryTie(runs: set<Run>, floor: nat, victims: set<Run>) {
    exists a, b :: a in victims && b in runs - victims && a.phase != b.phase && a.created == b.created
                   && !AboveFloor(runs, floor, a) && !AboveFloor(runs, floor, b)
  }

  /** Two runs that neither precedes are equal or tied across outcomes. */
  lemma Incomparable(runs: set<Run>, floor: nat, a: Run, b: Run)
    requires UniqueNames(runs) && a in runs && b in runs && a != b
    requires !Precedes(runs, floor, a, b) && !Precedes(runs, floor, b, a)
    ensures a.phase != b.phase && a.created == b.created
    ensures !AboveFloor(runs, floor, a) && !AboveFloor(runs, floor, b)
  {
    OlderTotal(a, b);
  }

  /** The runs that go before every within-floor run created at `t`. */
  function Ahead(runs: set<Run>, floor: nat, t: int): set<Run> {
    set r | r in runs && (AboveFloor(runs, floor, r) || r.created < t)
  }

  /** The within-floor runs created at `t`. */
  function Tied(runs: set<Run>, floor: nat, t: int): set<Run> {
    set r | r in runs && !AboveFloor(runs, floor, r) && r.created == t
  }

  /** Cutting after `k` runs falls strictly inside a group of within-floor runs of one creation time
      and at least two outcomes. */
  ghost predicate TieAtCut(runs: set<Run>, floor: nat, k: nat) {
    exists t :: SplitsTie(runs, floor, k, t)
  }

  ghost predicate SplitsTie(runs: set<Run>, floor: nat, k: nat, t: int) {
    && |Ahead(runs, floor, t)| < k < |Ahead(runs, floor, t)| + |Tied(runs, floor, t)|
    && exists a, b :: a in Tied(runs, floor, t) && b in Tied(runs, floor, t) && a.phase != b.phase
  }

  /** Whether a tie straddles the cut depends on the runs, the floor and the number deleted, not on
      which victim set was taken. */
  lemma TieIsInTheInput(runs: set<Run>, floor: nat, k: nat, victims: set<Run>)
    requires IsVictimSet(runs, floor, k, victims)
    ensures BoundaryTie(runs, floor, victims) <==> TieAtCut(runs, floor, k)
  {
    if BoundaryTie(runs, floor, victims) {
      var a, b :| a in victims && b in runs - victims && a.phase != b.phase && a.created == b.created
                  && !AboveFloor(runs, floor, a) && !AboveFloor(runs, floor, b);
      BoundarySplits(runs, floor, k, victims, a, b);
      assert SplitsTie(runs, floor, k, a.created);
    }
    if TieAtCut(runs, floor, k) {
      var t :| SplitsTie(runs, floor, k, t);
      var a, b := SplitHasBoth(runs, floor, k, victims, t);
      var c :| c in Tied(runs, floor, t) && c.phase != a.phase;
      assert a.phase == b.phase ==> c.phase != b.phase;
    }
  }

  lemma BoundarySplits(runs: set<Run>, floor: nat, k: nat, victims: set<Run>, a: Run, b: Run)
    requires IsVictimSet(runs, floor, k, victims)
    requires a in victims && b in runs - victims && a.created == b.created
    requires !AboveFloor(runs, floor, a) && !AboveFloor(runs, floor, b)
    ensures var t := a.created; |Ahead(runs, floor, t)| < k < |Ahead(runs, floor, t)| + |Tied(runs, floor, t)|
  {
    var ahead, tied := Ahead(runs, floor, a.created), Tied(runs, floor, a.created);
    forall r | r in ahead
      ensures r in victims - {a}
    {
      assert r in runs - victims ==> !Precedes(runs, floor, r, a);
    }
    SubsetCardinality(ahead, victims - {a});
    forall v | v in victims
      ensures v in ahead + (tied - {b})
    {
      assert !Precedes(runs, floor, b, v);
    }
    SubsetCardinality(victims, ahead + (tied - {b}));
  }

  /** A cut inside a tied group deletes some of it and keeps some of it. */
  lemma SplitHasBoth(runs: set<Run>, floor: nat, k: nat, victims: set<Run>, t: int) returns (a: Run, b: Run)
    requires IsVictimSet(runs, floor, k, victims)
    requires |Ahead(runs, floor, t)| < k < |Ahead(runs, floor, t)| + |Tied(runs, floor, t)|
    ensures a in Tied(runs, floor, t) && a in victims && b in Tied(runs, floor, t) && b !in victims
  {
    var ahead, tied := Ahead(runs, floor, t), Tied(runs, floor, t);
    if tied <= victims {
      var x :| x in tied;
      forall y | y in ahead + tied
        ensures y in victims
      {
        assert y in runs - victims ==> !Precedes(runs, floor, y, x);
      }
      SubsetCardinality(ahead + tied, victims);
      assert false;
    }
    if tied !! victims {
      var x :| x in tied;
      forall v | v in victims
        ensures v in ahead
      {
        assert !Precedes(runs, floor, x, v);
      }
      SubsetCardinality(victims, ahead);
      assert false;
    }
    a :| a in tied && a in victims;
    b :| b in tied && b !in victims;
  }

  /** Without a tie at the cut only one set can be deleted. */
  lemma NoTieOneSet(runs: set<Run>, floor: nat, k: nat, v: set<Run>, w: set<Run>)
    requires UniqueNames(runs) && IsVictimSet(runs, floor, k, v) && IsVictimSet(runs, floor, k, w)
    requires !TieAtCut(runs, floor, k)
    ensures v == w
  {
    if w != v {
      DifferInBoth(w, v);
      var a, b :| a in v - w && b in w - v;
      Incomparable(runs, floor, a, b);
      TieIsInTheInput(runs, floor, k, v);
      assert false;
    }
  }

  lemma SubsetOfSameSize<T>(a: set<T>, b: set<T>)
    requires |a| == |b| && a <= b
    ensures a == b
  {
    assert b == a + (b - a);
  }

  lemma DifferInBoth<T>(a: set<T>, b: set<T>)
    requires |a| == |b| && a != b
    ensures a - b != {} && b - a != {}
  {
    if a <= b {
      SubsetOfSameSize(a, b);
    } else if b <= a {
      SubsetOfSameSize(b, a);
    } else {
      var x, y :| x in a && x !in b && y in b && y !in a;
      assert x in a - b && y in b - a;
    }
  }

  // ---- Batches compose ---------------------------------------------------------------------

  /** Deleting the head of a purge order changes no remaining run's rank. */
  lemma HeadKeepsRanks(runs: set<Run>, floor: nat, head: set<Run>, r: Run)
    requires UniqueNames(runs) && head <= runs
    requires forall a, b :: a in head && b in runs - head ==> !Precedes(runs, floor, b, a)
    requires r in runs - head
    ensures AboveFloor(runs - head, floor, r) == AboveFloor(runs, floor, r)
  {
    forall s | s in Newer(runs, r)
      ensures s !in head
    {
      if s in head { PrecedesWithinOutcome(runs, floor, r, s); }
    }
    assert Newer(runs - head, r) == Newer(runs, r);
  }

  lemma PurgeOrderPrefix(runs: set<Run>, floor: nat, v: seq<Run>, c: nat)
    requires PurgeOrder(runs, floor, v) && c <= |v|
    ensures PurgeOrder(runs, floor, v[..c])
  {
    forall i, s | 0 <= i < c && s in runs && s !in v[..c][..i]
      ensures !Precedes(runs, floor, s, v[i])
    {
      assert v[..c][..i] == v[..i];
    }
  }

  lemma ConcatNoDuplicates<T>(a: seq<T>, b: seq<T>)
    requires NoDuplicates(a) && NoDuplicates(b) && Elems(a) !! Elems(b)
    ensures NoDuplicates(a + b)
  {
    var all := a + b;
    forall i, j | 0 <= i < j < |all|
      ensures all[i] != all[j]
    {
      if i < |a| <= j {
        assert all[i] in Elems(a) && all[j] in Elems(b);
      }
    }
  }

  /** A batch followed by a purge order of what is left is a purge order of the whole. */
  lemma BatchesCompose(runs: set<Run>, floor: nat, head: seq<Run>, w: seq<Run>)
    requires UniqueNames(runs) && PurgeOrder(runs, floor, head)
    requires PurgeOrder(runs - Elems(head), floor, w)
    ensures PurgeOrder(runs, floor, head + w)
  {
    hide Precedes, UniqueNames, IsVictimSet, NoDuplicates, Elems;
    PurgeOrderIsVictimSet(runs, floor, head);
    ElemsConcat(head, w);
    ConcatNoDuplicates(head, w);
    forall i, s | 0 <= i < |head + w| && s in runs && s !in (head + w)[..i]
      ensures !Precedes(runs, floor, s, (head + w)[i])
    {
      PrefixOfConcat(head, w, i);
      if i < |head| {
        HeadInOrder(runs, floor, head, i, s);
      } else {
        TailInOrder(runs, floor, head, w, i - |head|, s);
      }
    }
  }

  lemma ElemsConcat<T>(a: seq<T>, b: seq<T>)
    ensures Elems(a + b) == Elems(a) + Elems(b)
  {
  }

  lemma HeadInOrder(runs: set<Run>, floor: nat, head: seq<Run>, i: nat, s: Run)
    requires PurgeOrder(runs, floor, head) && i < |head| && s in runs && s !in head[..i]
    ensures !Precedes(runs, floor, s, head[i])
  {
  }

  lemma PrefixOfConcat<T>(a: seq<T>, b: seq<T>, i: nat)
    requires i <= |a + b|
    ensures (a + b)[..i] == if i <= |a| then a[..i] else a + b[..i - |a|]
    ensures i == |a| ==> (a + b)[..i] == a + b[..0]
  {
  }

  lemma TailInOrder(runs: set<Run>, floor: nat, head: seq<Run>, w: seq<Run>, i: nat, s: Run)
    requires UniqueNames(runs) && IsVictimSet(runs, floor, |head|, Elems(head))
    requires PurgeOrder(runs - Elems(head), floor, w)
    requires i < |w| && s in runs && s !in head && s !in w[..i]
    ensures !Precedes(runs, floor, s, w[i])
  {
    assert w[i] in Elems(w);
    HeadKeepsRanks(runs, floor, Elems(head), s);
    HeadKeepsRanks(runs, floor, Elems(head), w[i]);
    assert !Precedes(runs - Elems(head), floor, s, w[i]);
  }

  lemma SubsetRemoval<T>(a: set<T>, b: set<T>)
    requires b <= a
    ensures |a - b| == |a| - |b|
  {
  }
}
