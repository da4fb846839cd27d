/**
 Draining across reconciles, over sets of terminal runs: each pass selects what exceeds the budget and
 deletes at most `cap` runs from the front of its selection, skipping those it is forbidden to delete.
 */
module RetentionDrainSpec {
  import opened RunPhase
  import opened RetentionSpec

  /** One pass: the forbidden runs of the batch stay. */
  ghost predicate DrainPass(before: set<Run>, after: set<Run>, floor: nat, budget: nat, cap: nat, forbidden: set<Run>) {
    exists v :: Batched(before, after, floor, budget, cap, forbidden, v)
  }

  ghost predicate Batched(before: set<Run>, after: set<Run>, floor: nat, budget: nat, cap: nat, forbidden: set<Run>,
                          v: seq<Run>) {
    && PurgeOrder(before, floor, v) && |v| == Max0(|before| - budget)
    && after == before - (Elems(v[..Min(cap, |v|)]) - forbidden)
  }

  ghost predicate DrainTrace(states: seq<set<Run>>, floor: nat, budget: nat, cap: nat, forbidden: set<Run>) {
    && |states| >= 1
    && forall i :: 0 <= i < |states| - 1 ==> DrainPass(states[i], states[i + 1], floor, budget, cap, forbidden)
  }

  /** A pass deletes the unforbidden part of a legal batch of min(cap, excess) runs. */
  lemma PassHead(before: set<Run>, after: set<Run>, floor: nat, budget: nat, cap: nat, forbidden: set<Run>)
    returns (head: seq<Run>)
    requires DrainPass(before, after, floor, budget, cap, forbidden)
    ensures PurgeOrder(before, floor, head) && |head| == Min(cap, Max0(|before| - budget))
    ensures after == before - (Elems(head) - forbidden)
    ensures IsVictimSet(before, floor, |head|, Elems(head))
  {
    var v :| Batched(before, after, floor, budget, cap, forbidden, v);
    head := v[..Min(cap, |v|)];
    PurgeOrderPrefix(before, floor, v, |head|);
    PurgeOrderIsVictimSet(before, floor, head);
  }

  lemma TraceTail(states: seq<set<Run>>, floor: nat, budget: nat, cap: nat, forbidden: set<Run>)
    requires DrainTrace(states, floor, budget, cap, forbidden) && |states| > 1
    ensures DrainTrace(states[1..], floor, budget, cap, forbidden)
    ensures DrainPass(states[0], states[1], floor, budget, cap, forbidden)
  {
  }

  lemma UniqueSubset(a: set<Run>, b: set<Run>)
    requires UniqueNames(a) && b <= a
    ensures UniqueNames(b)
  {
  }

  // ---- All deletes succeed ------------------------------------------------------------------

  lemma PassCount(n: nat, cap: nat, excess: nat)
    requires n > 0
    ensures Min(cap, excess) + Min((n - 1) * cap, excess - Min(cap, excess)) == Min(n * cap, excess)
  {
  }

  lemma EmptyOrder(runs: set<Run>, floor: nat)
    ensures PurgeOrder(runs, floor, [])
  {
  }

  lemma RemoveTwice<T>(a: set<T>, x: seq<T>, y: seq<T>)
    ensures a - Elems(x + y) == a - Elems(x) - Elems(y)
  {
  }

  lemma HeadRemoved(before: set<Run>, floor: nat, head: seq<Run>)
    requires PurgeOrder(before, floor, head)
    ensures Elems(head) - {} == Elems(head) <= before && |before - Elems(head)| == |before| - |head|
  {
    NoDuplicatesCardinality(head);
    SubsetRemoval(before, Elems(head));
  }

  /** After n passes exactly min(n * cap, excess) runs are gone, and no run went before one that had to
      precede it, wherever the cuts fall and however map order changes between passes. */
  lemma {:induction false} DrainIsPurgeOrder(states: seq<set<Run>>, floor: nat, budget: nat, cap: nat)
    returns (w: seq<Run>)
    requires DrainTrace(states, floor, budget, cap, {}) && UniqueNames(states[0])
    ensures PurgeOrder(states[0], floor, w)
    ensures |w| == Min((|states| - 1) * cap, Max0(|states[0]| - budget))
    ensures states[|states| - 1] == states[0] - Elems(w)
    decreases |states|
  {
    hide DrainPass, PurgeOrder, UniqueNames;
    if |states| == 1 {
      w := [];
      EmptyOrder(states[0], floor);
    } else {
      hide Elems, DrainTrace;
      TraceTail(states, floor, budget, cap, {});
      var rest := states[1..];
      var head := PassHead(states[0], states[1], floor, budget, cap, {});
      HeadRemoved(states[0], floor, head);
      UniqueSubset(states[0], states[1]);
      var tail := DrainIsPurgeOrder(rest, floor, budget, cap);
      BatchesCompose(states[0], floor, head, tail);
      w := head + tail;
      RemoveTwice(states[0], head, tail);
      var n, excess := |states| - 1, Max0(|states[0]| - budget);
      assert Max0(|states[1]| - budget) == excess - |head| && |rest| - 1 == n - 1;
      assert |tail| == Min((n - 1) * cap, excess - Min(cap, excess));
      PassCount(n, cap, excess);
    }
  }

  /** Enough capped passes end within the budget; without a tie at the cut they delete exactly the one
      set a single unbounded pass can delete. */
  lemma DrainConfluent(states: seq<set<Run>>, floor: nat, budget: nat, cap: nat, victims: set<Run>)
    requires DrainTrace(states, floor, budget, cap, {}) && UniqueNames(states[0])
    requires var k := Max0(|states[0]| - budget);
             IsVictimSet(states[0], floor, k, victims) && (|states| - 1) * cap >= k
    ensures IsVictimSet(states[0], floor, |victims|, states[0] - states[|states| - 1])
    ensures !TieAtCut(states[0], floor, |victims|) ==> states[|states| - 1] == states[0] - victims
    ensures |states[|states| - 1]| <= budget && states[|states| - 1] <= states[0]
  {
    hide DrainPass, UniqueNames, TieAtCut;
    var w := DrainIsPurgeOrder(states, floor, budget, cap);
    PurgeOrderIsVictimSet(states[0], floor, w);
    HeadRemoved(states[0], floor, w);
    var end := states[|states| - 1];
    assert states[0] - end == Elems(w);
    if !TieAtCut(states[0], floor, |victims|) {
      NoTieOneSet(states[0], floor, |victims|, victims, Elems(w));
    }
  }

  // ---- Forbidden deletes --------------------------------------------------------------------

  /** What a drain without a tie at its cut can have reached: every survivor of the one unbounded pass is
      still there. */
  ghost predicate Underway(all: set<Run>, floor: nat, k: nat, victims: set<Run>, now: set<Run>) {
    && UniqueNames(all) && IsVictimSet(all, floor, k, victims) && !TieAtCut(all, floor, k)
    && all - victims <= now <= all
  }

  lemma RanksOnlyDrop(all: set<Run>, floor: nat, now: set<Run>, r: Run)
    requires now <= all && AboveFloor(now, floor, r)
    ensures AboveFloor(all, floor, r)
  {
    SubsetCardinality(Newer(now, r), Newer(all, r));
  }

  /** An above-floor run stays above while the runs within its outcome's floor stay. */
  lemma RankKept(all: set<Run>, floor: nat, now: set<Run>, f: Run)
    requires UniqueNames(all) && now <= all && f in all && AboveFloor(all, floor, f)
    requires WithinFloor(all, floor, f.phase) <= now
    ensures AboveFloor(now, floor, f)
  {
    var within, bucket := WithinFloor(all, floor, f.phase), Bucket(all, f.phase);
    WithinFloorSize(all, floor, f.phase);
    OlderTotal(f, f);
    assert Newer(all, f) <= bucket - {f};
    SubsetCardinality(Newer(all, f), bucket);
    forall w | w in within
      ensures w in Newer(now, f)
    {
      WithinIsNewer(all, floor, f, w);
    }
    SubsetCardinality(within, Newer(now, f));
  }

  lemma WithinIsNewer(all: set<Run>, floor: nat, f: Run, w: Run)
    requires UniqueNames(all) && f in all && AboveFloor(all, floor, f) && w in WithinFloor(all, floor, f.phase)
    ensures Older(f, w)
  {
    OlderTotal(f, w);
    if Older(w, f) {
      AboveFloorDownward(all, floor, w, f);
    }
  }

  /** A victim that could not be deleted keeps its place ahead of every survivor, even when its own rank
      drops because newer victims of its outcome are gone. */
  lemma VictimStaysAhead(all: set<Run>, floor: nat, k: nat, victims: set<Run>, now: set<Run>, f: Run, x: Run)
    requires Underway(all, floor, k, victims, now)
    requires f in victims && f in now && x in all - victims
    ensures Precedes(now, floor, f, x)
  {
    hide TieAtCut;
    assert !Precedes(all, floor, x, f);
    OlderTotal(f, x);
    if AboveFloor(now, floor, x) {
      RanksOnlyDrop(all, floor, now, x);
    }
    if AboveFloor(all, floor, x) {
      SurvivorAbove(all, floor, k, victims, now, f, x);
    } else if !AboveFloor(now, floor, f) {
      if f.phase == x.phase {
        SurvivorsAreNewer(all, floor, k, victims, f, x);
      } else {
        VictimOlder(all, floor, k, victims, now, f, x);
      }
    }
  }

  lemma SurvivorAbove(all: set<Run>, floor: nat, k: nat, victims: set<Run>, now: set<Run>, f: Run, x: Run)
    requires Underway(all, floor, k, victims, now)
    requires f in victims && f in now && x in all - victims && AboveFloor(all, floor, x)
    ensures AboveFloor(all, floor, f) && AboveFloor(now, floor, f)
  {
    hide TieAtCut;
    assert !Precedes(all, floor, x, f);
    forall w | w in WithinFloor(all, floor, f.phase)
      ensures w in now
    {
      assert w in victims ==> !Precedes(all, floor, x, w);
    }
    RankKept(all, floor, now, f);
  }

  lemma VictimOlder(all: set<Run>, floor: nat, k: nat, victims: set<Run>, now: set<Run>, f: Run, x: Run)
    requires Underway(all, floor, k, victims, now)
    requires f in victims && f in now && x in all - victims && f.phase != x.phase
    requires !AboveFloor(all, floor, x) && !AboveFloor(now, floor, f)
    ensures f.created < x.created
  {
    TieIsInTheInput(all, floor, k, victims);
    var g := f;
    if AboveFloor(all, floor, f) {
      if WithinFloor(all, floor, f.phase) <= now {
        RankKept(all, floor, now, f);
      }
      g :| g in WithinFloor(all, floor, f.phase) && g !in now;
      WithinIsNewer(all, floor, f, g);
    }
    assert g in victims && !Precedes(all, floor, x, g);
    assert g.created != x.created;
  }

  /** Every pass of such a drain selects exactly the victims that are left. */
  lemma SelectsVictimsLeft(all: set<Run>, floor: nat, k: nat, victims: set<Run>, now: set<Run>, w: set<Run>, n: nat)
    requires Underway(all, floor, k, victims, now)
    requires IsVictimSet(now, floor, n, w) && n <= |victims * now|
    ensures w <= victims
  {
    hide TieAtCut, Precedes;
    if !(w <= victims) {
      var b :| b in w && b !in victims;
      if victims * now <= w {
        SubsetCardinality(victims * now, w - {b});
        assert false;
      }
      var a :| a in victims * now && a !in w;
      VictimStaysAhead(all, floor, k, victims, now, a, b);
      assert false;
    }
  }

  lemma VictimsLeft(all: set<Run>, floor: nat, budget: nat, k: nat, victims: set<Run>, now: set<Run>)
    requires Underway(all, floor, k, victims, now) && k == Max0(|all| - budget)
    ensures |victims * now| == Max0(|now| - budget)
  {
    hide TieAtCut, UniqueNames;
    SubsetRemoval(all, victims);
    assert now == (all - victims) + (victims * now);
    if k == 0 {
      assert victims == {};
    }
  }

  /** One pass of a drain without a tie: it deletes victims only, and a forbidden victim stays. */
  lemma {:induction false} UnderwayStep(all: set<Run>, floor: nat, budget: nat, cap: nat, forbidden: set<Run>, k: nat,
                                        victims: set<Run>,
                     before: set<Run>, after: set<Run>) returns (batch: set<Run>)
    requires Underway(all, floor, k, victims, before) && k == Max0(|all| - budget)
    requires DrainPass(before, after, floor, budget, cap, forbidden)
    ensures batch <= victims * before && |batch| == Min(cap, |victims * before|)
    ensures after == before - (batch - forbidden) && Underway(all, floor, k, victims, after)
  {
    hide TieAtCut, UniqueNames, DrainPass;
    var head := PassHead(before, after, floor, budget, cap, forbidden);
    VictimsLeft(all, floor, budget, k, victims, before);
    batch := Elems(head);
    SelectsVictimsLeft(all, floor, k, victims, before, batch, |head|);
  }

  /** Over every drain without a tie, whatever is forbidden: survivors of the one unbounded pass are never
      deleted, and forbidden victims stay. */
  lemma {:induction false} DrainStaysUnderway(states: seq<set<Run>>, floor: nat, budget: nat, cap: nat,
                                              forbidden: set<Run>, victims: set<Run>, i: nat)
    requires DrainTrace(states, floor, budget, cap, forbidden) && UniqueNames(states[0]) && i < |states|
    requires var k := Max0(|states[0]| - budget);
             IsVictimSet(states[0], floor, k, victims) && !TieAtCut(states[0], floor, k)
    ensures Underway(states[0], floor, |victims|, victims, states[i])
    ensures victims * forbidden <= states[i]
  {
    if i > 0 {
      hide TieAtCut, UniqueNames, DrainPass;
      DrainStaysUnderway(states, floor, budget, cap, forbidden, victims, i - 1);
      assert DrainPass(states[i - 1], states[i - 1 + 1], floor, budget, cap, forbidden);
      var batch := UnderwayStep(states[0], floor, budget, cap, forbidden, |victims|, victims, states[i - 1], states[i]);
    }
  }

  /** With fewer forbidden victims than a pass may delete, every pass deletes a victim until only the
      forbidden ones are left. */
  lemma {:induction false} DrainsRest(states: seq<set<Run>>, floor: nat, budget: nat, cap: nat, forbidden: set<Run>,
                                      victims: set<Run>, i: nat)
    requires DrainTrace(states, floor, budget, cap, forbidden) && UniqueNames(states[0]) && i < |states|
    requires var k := Max0(|states[0]| - budget);
             IsVictimSet(states[0], floor, k, victims) && !TieAtCut(states[0], floor, k)
    requires |victims * forbidden| < cap
    ensures |(victims - forbidden) * states[i]| <= Max0(|victims - forbidden| - i)
  {
    hide TieAtCut, UniqueNames, DrainPass;
    if i == 0 {
      assert (victims - forbidden) * states[0] == victims - forbidden;
    } else {
      DrainsRest(states, floor, budget, cap, forbidden, victims, i - 1);
      DrainStaysUnderway(states, floor, budget, cap, forbidden, victims, i - 1);
      assert DrainPass(states[i - 1], states[i - 1 + 1], floor, budget, cap, forbidden);
      var batch := UnderwayStep(states[0], floor, budget, cap, forbidden, |victims|, victims, states[i - 1], states[i]);
      BatchHelps(victims, forbidden, cap, states[i - 1], states[i], batch);
    }
  }

  lemma BatchHelps(victims: set<Run>, forbidden: set<Run>, cap: nat, before: set<Run>, after: set<Run>, batch: set<Run>)
    requires batch <= victims * before && |batch| == Min(cap, |victims * before|)
    requires after == before - (batch - forbidden) && |victims * forbidden| < cap
    ensures var left, now := (victims - forbidden) * before, (victims - forbidden) * after;
            now <= left && (left != {} ==> |now| < |left|)
  {
    var left, now := (victims - forbidden) * before, (victims - forbidden) * after;
    if left != {} && batch <= forbidden {
      SubsetCardinality(batch, victims * forbidden);
      SubsetOfSameSize(batch, victims * before);
      assert false;
    }
    if left != {} {
      var r :| r in batch && r !in forbidden;
      assert r in left && r !in now;
      SubsetCardinality(now, left - {r});
    }
  }

  /** A drain whose batch is all forbidden, and cut off without a tie, never changes again. */
  lemma {:induction false} StuckStays(states: seq<set<Run>>, floor: nat, budget: nat, cap: nat, forbidden: set<Run>,
                                      batch: set<Run>, i: nat)
    requires DrainTrace(states, floor, budget, cap, forbidden) && UniqueNames(states[0]) && i < |states|
    requires var n := Min(cap, Max0(|states[0]| - budget));
             0 <= n && IsVictimSet(states[0], floor, n, batch) && !TieAtCut(states[0], floor, n)
    requires batch <= forbidden
    ensures states[i] == states[0]
  {
    if i > 0 {
      hide TieAtCut, UniqueNames, DrainPass, IsVictimSet, PurgeOrder;
      StuckStays(states, floor, budget, cap, forbidden, batch, i - 1);
      assert DrainPass(states[i - 1], states[i - 1 + 1], floor, budget, cap, forbidden);
      var head := PassHead(states[i - 1], states[i], floor, budget, cap, forbidden);
      NoTieOneSet(states[0], floor, |head|, batch, Elems(head));
    }
  }
}
