/**
 How the selector breaks ties: within the floors it takes equal creation times in the iteration order of
 the bucket map. Its victims are determined by the runs alone exactly when the cut splits no such tie.
 */
module RetentionTies {
  import Text
  import opened RunPhase
  import opened RetentionSpec
  import opened Retention

  function Position(order: seq<Phase>, p: Phase): nat {
    if order == [] then 0 else if p in order[..|order| - 1] then Position(order[..|order| - 1], p) else |order| - 1
  }

  /** The order in which the second pass takes runs. */
  predicate Earlier(order: seq<Phase>, a: Run, b: Run) {
    || a.created < b.created
    || (a.created == b.created && Position(order, a.phase) < Position(order, b.phase))
    || (a.phase == b.phase && Older(a, b))
  }

  lemma {:induction false} PositionBound(order: seq<Phase>, p: Phase)
    requires order != []
    ensures Position(order, p) < |order|
    ensures p in order ==> order[Position(order, p)] == p
  {
    if p in order[..|order| - 1] {
      PositionBound(order[..|order| - 1], p);
    }
  }

  /** Among equal heads the one first in map order is taken. */
  lemma {:induction false} OldestHeadFirst(buckets: Buckets, order: seq<Phase>, p: Phase)
    requires NoDuplicates(order) && p in order && Get(buckets, p) != []
    ensures var c := OldestHead(buckets, order);
            && c.Chosen? && c.phase in order
            && Get(buckets, c.phase)[0].created <= Get(buckets, p)[0].created
            && (c.phase != p && Get(buckets, c.phase)[0].created == Get(buckets, p)[0].created
                ==> Position(order, c.phase) < Position(order, p))
  {
    var front, last := order[..|order| - 1], order[|order| - 1];
    OldestHeadFound(buckets, order, p);
    if p in front {
      OldestHeadFirst(buckets, front, p);
    } else if OldestHead(buckets, front).Chosen? {
      OldestHeadInOrder(buckets, front);
      PositionBound(front, OldestHead(buckets, front).phase);
    }
  }

  lemma HeadEarliest(buckets: Buckets, order: seq<Phase>, c: Phase, b: Run)
    requires ValidBuckets(buckets) && IsOrder(order) && OldestHead(buckets, order) == Chosen(c)
    requires b in All(buckets) && b != Get(buckets, c)[0]
    ensures Earlier(order, Get(buckets, c)[0], b)
  {
    hide OldestHead;
    var bucket := Get(buckets, b.phase);
    assert ValidBucket(bucket, b.phase) && b in bucket;
    assert b.phase in Elems(order);
    OldestHeadFirst(buckets, order, b.phase);
    assert c in Elems(order);
    assert ValidBucket(Get(buckets, c), c) && Get(buckets, c)[0] in Get(buckets, c);
    var i :| 0 <= i < |bucket| && bucket[i] == b;
    assert i > 0 ==> Older(bucket[0], bucket[i]);
  }

  /** The merge takes an initial segment of its order. */
  lemma {:induction false} MergeFollows(buckets: Buckets, order: seq<Phase>, k: nat, a: Run, b: Run)
    requires ValidBuckets(buckets) && IsOrder(order)
    requires a in Merge(buckets, order, k) && b in All(buckets) && b !in Merge(buckets, order, k)
    ensures Earlier(order, a, b)
    decreases k
  {
    hide ValidBuckets, IsOrder, Earlier, Advance, OldestHead;
    var c := OldestHead(buckets, order).phase;
    var first := Get(buckets, c)[0];
    OldestHeadInOrder(buckets, order);
    OrderTerminal(order, c);
    if a == first {
      HeadEarliest(buckets, order, c, b);
    } else {
      AdvanceRemoves(buckets, c);
      MergeFollows(Advance(buckets, c), order, k - 1, a, b);
    }
  }

  lemma OrderTerminal(order: seq<Phase>, p: Phase)
    requires IsOrder(order) && p in order
    ensures IsTerminal(p)
  {
    assert p in Elems(order);
  }

  /** A deleted and a surviving run within their floors are in the order of the second pass. */
  lemma SelectionFollows(cfg: Config, runs: seq<Run>, collect: seq<Phase>, merge: seq<Phase>, a: Run, b: Run)
    requires DistinctNames(runs) && IsOrder(collect) && IsOrder(merge)
    requires a in Selection(cfg, runs, collect, merge) && b in TerminalRuns(runs)
    requires b !in Selection(cfg, runs, collect, merge)
    requires !AboveFloor(TerminalRuns(runs), cfg.Floor(), a) && !AboveFloor(TerminalRuns(runs), cfg.Floor(), b)
    ensures Earlier(merge, a, b)
  {
    hide PurgeOrder, AboveFloor, SortRuns, Candidates, Ascending, IsOrder, DistinctNames, Merge, ValidBuckets, All,
         Remainders, NoDuplicates, Earlier, Excess;
    var pool := SortRuns(Candidates(runs, cfg.Floor(), collect));
    PoolOrder(runs, cfg.Floor(), collect);
    assert a in pool ==> a in Elems(pool);
    assert a !in pool;
    assert Excess(cfg, runs) > |pool|;
    RemaindersHold(runs, cfg.Floor());
    MergeFollows(Remainders(runs, cfg.Floor()), merge, Excess(cfg, runs) - |pool|, a, b);
  }

  function Reversed(order: seq<Phase>): seq<Phase>
    requires |order| == 3
  {
    [order[2], order[1], order[0]]
  }

  lemma ReversedIsOrder(order: seq<Phase>)
    requires IsOrder(order)
    ensures IsOrder(Reversed(order))
  {
    var r := Reversed(order);
    assert r[0] == order[2] && r[1] == order[1] && r[2] == order[0];
    forall p ensures p in r <==> p in order {
    }
  }

  lemma PositionIs(order: seq<Phase>, i: nat)
    requires NoDuplicates(order) && i < |order|
    ensures Position(order, order[i]) == i
  {
    PositionBound(order, order[i]);
  }

  /** Two outcomes come in opposite order in a map order and its reverse. */
  lemma ReversedPositions(order: seq<Phase>, p: Phase, q: Phase)
    requires IsOrder(order) && p in order && q in order
    requires Position(order, p) < Position(order, q)
    ensures Position(Reversed(order), q) < Position(Reversed(order), p)
  {
    hide Position;
    var r := Reversed(order);
    ReversedIsOrder(order);
    var i :| 0 <= i < 3 && order[i] == p;
    var j :| 0 <= j < 3 && order[j] == q;
    PositionIs(order, i);
    PositionIs(order, j);
    assert r[2 - i] == p && r[2 - j] == q;
    PositionIs(r, 2 - i);
    PositionIs(r, 2 - j);
  }

  /** The same runs, in any list order. */
  ghost predicate SameRuns(runs: seq<Run>, other: seq<Run>) {
    DistinctNames(other) && Elems(other) == Elems(runs)
  }

  lemma SameCounts(cfg: Config, runs: seq<Run>, other: seq<Run>)
    requires DistinctNames(runs) && SameRuns(runs, other)
    ensures TerminalRuns(other) == TerminalRuns(runs) && |other| == |runs|
    ensures Budget(cfg, other) == Budget(cfg, runs) && Excess(cfg, other) == Excess(cfg, runs)
  {
    NoDuplicatesCardinality(runs);
    NoDuplicatesCardinality(other);
    forall r ensures r in runs <==> r in other {
      assert r in Elems(runs) <==> r in Elems(other);
    }
    assert TerminalRuns(other) == TerminalRuns(runs);
  }

  /** The victims are a set some purge order deletes first. */
  lemma SelectionIsVictimSet(cfg: Config, runs: seq<Run>, collect: seq<Phase>, merge: seq<Phase>)
    requires DistinctNames(runs) && IsOrder(collect) && IsOrder(merge)
    ensures IsVictimSet(TerminalRuns(runs), cfg.Floor(), Excess(cfg, runs), Elems(Selection(cfg, runs, collect, merge)))
  {
    SelectionIsPurgeOrder(cfg, runs, collect, merge);
    PurgeOrderIsVictimSet(TerminalRuns(runs), cfg.Floor(), Selection(cfg, runs, collect, merge));
  }

  /** Every list order and every pair of map orders select the same runs. */
  ghost predicate Determined(cfg: Config, runs: seq<Run>) {
    forall other, collect, merge, collect', merge' ::
      SameRuns(runs, other) && IsOrder(collect) && IsOrder(merge) && IsOrder(collect') && IsOrder(merge')
      ==> Elems(Selection(cfg, other, collect, merge)) == Elems(Selection(cfg, runs, collect', merge'))
  }

  /** A tie at the cut is broken one way by a map order and the other way by its reverse. */
  lemma TieBreaksBothWays(cfg: Config, runs: seq<Run>, collect: seq<Phase>, merge: seq<Phase>)
    requires DistinctNames(runs) && IsOrder(collect) && IsOrder(merge)
    requires TieAtCut(TerminalRuns(runs), cfg.Floor(), Excess(cfg, runs))
    ensures IsOrder(Reversed(merge))
    ensures Elems(Selection(cfg, runs, collect, merge)) != Elems(Selection(cfg, runs, collect, Reversed(merge)))
  {
    hide Selection, AboveFloor, TieAtCut, IsVictimSet, Excess, TerminalRuns, Position, DistinctNames;
    ReversedIsOrder(merge);
    var all, floor := TerminalRuns(runs), cfg.Floor();
    var v, w := Selection(cfg, runs, collect, merge), Selection(cfg, runs, collect, Reversed(merge));
    SelectionIsVictimSet(cfg, runs, collect, merge);
    TieIsInTheInput(all, floor, Excess(cfg, runs), Elems(v));
    var a, b :| a in Elems(v) && b in all - Elems(v) && a.phase != b.phase && a.created == b.created
                && !AboveFloor(all, floor, a) && !AboveFloor(all, floor, b);
    SelectionFollows(cfg, runs, collect, merge, a, b);
    if Elems(v) == Elems(w) {
      assert a in Elems(w) && b !in Elems(w);
      SelectionFollows(cfg, runs, collect, Reversed(merge), a, b);
      VictimsTerminal(cfg, runs, collect, merge, a);
      assert IsTerminal(b.phase) by { TerminalPhase(runs, b); }
      assert a.phase in Elems(merge) && b.phase in Elems(merge);
      ReversedPositions(merge, a.phase, b.phase);
      assert false;
    }
  }

  lemma TerminalPhase(runs: seq<Run>, r: Run)
    requires r in TerminalRuns(runs)
    ensures IsTerminal(r.phase)
  {
  }

  lemma VictimsTerminal(cfg: Config, runs: seq<Run>, collect: seq<Phase>, merge: seq<Phase>, a: Run)
    requires DistinctNames(runs) && IsOrder(collect) && IsOrder(merge) && a in Selection(cfg, runs, collect, merge)
    ensures a in TerminalRuns(runs) && IsTerminal(a.phase)
  {
    SelectionIsPurgeOrder(cfg, runs, collect, merge);
    assert a in Elems(Selection(cfg, runs, collect, merge));
  }

  /** The set of deleted runs is the same for every list order and every map iteration order exactly when
      the number to delete does not fall inside a group of within-floor runs of one creation time and
      several outcomes. */
  lemma SelectionDeterminedIff(cfg: Config, runs: seq<Run>)
    requires DistinctNames(runs)
    ensures Determined(cfg, runs) <==> !TieAtCut(TerminalRuns(runs), cfg.Floor(), Excess(cfg, runs))
  {
    hide Selection, TieAtCut, IsVictimSet, Excess, IsOrder, DistinctNames;
    if TieAtCut(TerminalRuns(runs), cfg.Floor(), Excess(cfg, runs)) {
      var m := [Complete, Failed, Superseded];
      SomeOrder();
      TieBreaksBothWays(cfg, runs, m, m);
      assert SameRuns(runs, runs);
    } else {
      forall other, collect, merge, collect', merge'
        | SameRuns(runs, other) && IsOrder(collect) && IsOrder(merge) && IsOrder(collect') && IsOrder(merge')
        ensures Elems(Selection(cfg, other, collect, merge)) == Elems(Selection(cfg, runs, collect', merge'))
      {
        SameCounts(cfg, runs, other);
        SelectionIsVictimSet(cfg, other, collect, merge);
        SelectionIsVictimSet(cfg, runs, collect', merge');
        DistinctNamesUnique(runs);
        NoTieOneSet(TerminalRuns(runs), cfg.Floor(), Excess(cfg, runs),
                    Elems(Selection(cfg, other, collect, merge)), Elems(Selection(cfg, runs, collect', merge')));
      }
    }
  }

  lemma SomeOrder()
    ensures IsOrder([Complete, Failed, Superseded])
  {
    var m := [Complete, Failed, Superseded];
    assert m[0] == Complete && m[1] == Failed && m[2] == Superseded;
  }

  /** Every selection deletes the oldest runs of each outcome. */
  lemma SelectionKeepsNewest(cfg: Config, runs: seq<Run>, collect: seq<Phase>, merge: seq<Phase>, gone: Run, kept: Run)
    requires DistinctNames(runs) && IsOrder(collect) && IsOrder(merge)
    requires gone in Selection(cfg, runs, collect, merge)
    requires kept in TerminalRuns(runs) && kept !in Selection(cfg, runs, collect, merge) && gone.phase == kept.phase
    ensures gone.created <= kept.created
    ensures gone.created == kept.created ==>
              exists k :: 0 <= k <= |gone.name| && k < |kept.name| && gone.name[..k] == kept.name[..k]
                          && (k == |gone.name| || gone.name[k] < kept.name[k])
  {
    hide Selection, IsVictimSet, Excess, IsOrder;
    SelectionIsVictimSet(cfg, runs, collect, merge);
    DistinctNamesUnique(runs);
    SurvivorsAreNewer(TerminalRuns(runs), cfg.Floor(), Excess(cfg, runs), Elems(Selection(cfg, runs, collect, merge)),
        gone, kept);
    Text.LexLessIff(gone.name, kept.name);
  }

  /** A selection leaves every outcome min(size, floor) runs exactly when those floors together fit the
      budget, or nothing has to go. */
  lemma SelectionKeepsFloorsIff(cfg: Config, runs: seq<Run>, collect: seq<Phase>, merge: seq<Phase>)
    requires DistinctNames(runs) && IsOrder(collect) && IsOrder(merge)
    ensures (forall p :: IsTerminal(p) ==>
               KeepsFloor(TerminalRuns(runs), cfg.Floor(), Elems(Selection(cfg, runs, collect, merge)), p))
            <==> FloorDemand(TerminalRuns(runs), cfg.Floor()) <= Budget(cfg, runs) || Excess(cfg, runs) == 0
  {
    hide Selection, IsOrder, Budget, KeepsFloor, IsVictimSet;
    var all, floor := TerminalRuns(runs), cfg.Floor();
    SelectionIsVictimSet(cfg, runs, collect, merge);
    DistinctNamesUnique(runs);
    FloorsKeptIff(all, floor, Excess(cfg, runs), Elems(Selection(cfg, runs, collect, merge)));
    FloorDemandCounts(all, floor);
    SubsetCardinality((set r | r in all && !AboveFloor(all, floor, r)), all);
  }
}
