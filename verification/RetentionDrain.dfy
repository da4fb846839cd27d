/**
 Runs of the garbage collector: reconcile after reconcile over the child runs of one Promotion, with map
 orders that may change each time and a fixed set of runs whose deletes are forbidden.
 */
module RetentionDrain {
  import opened RunPhase
  import opened RetentionSpec
  import opened Retention
  import opened RetentionController
  import opened RetentionTies
  import opened RetentionDrainSpec

  function Batch(cfg: Config, runs: seq<Run>, collect: seq<Phase>, merge: seq<Phase>): seq<Run> {
    var v := Selection(cfg, runs, collect, merge);
    v[..Min(cfg.Deletes(), |v|)]
  }

  /** One reconcile: it deletes its batch except the forbidden runs. */
  ghost predicate Reconciled(cfg: Config, forbidden: set<Run>, before: seq<Run>, after: seq<Run>) {
    DistinctNames(after) && exists collect, merge :: SelectedAway(cfg, forbidden, before, after, collect, merge)
  }

  ghost predicate SelectedAway(cfg: Config, forbidden: set<Run>, before: seq<Run>, after: seq<Run>, collect: seq<Phase>,
                               merge: seq<Phase>) {
    && IsOrder(collect) && IsOrder(merge)
    && Elems(after) == Elems(before) - (Elems(Batch(cfg, before, collect, merge)) - forbidden)
  }

  ghost predicate ReconcileRun(cfg: Config, forbidden: set<Run>, lists: seq<seq<Run>>) {
    && lists != [] && DistinctNames(lists[0])
    && forall i :: 0 <= i < |lists| - 1 ==> Reconciled(cfg, forbidden, lists[i], lists[i + 1])
  }

  /** What the delete loop removes when exactly the forbidden runs are refused. */
  lemma {:induction false} ForbiddenStay(batch: seq<Run>, results: seq<DeleteResult>, forbidden: set<Run>)
    requires |results| >= |batch|
    requires forall i :: 0 <= i < |batch| ==> !results[i].Refused? && (results[i].Forbidden? <==> batch[i] in forbidden)
    ensures Elems(Removed(batch, results)) == Elems(batch) - forbidden
  {
    if batch != [] {
      var front, last := batch[..|batch| - 1], batch[|batch| - 1];
      ForbiddenStay(front, results, forbidden);
      assert batch == front + [last];
      var kept := if last in forbidden then [] else [last];
      assert Removed(batch, results) == Removed(front, results) + kept;
      assert Elems(Removed(front, results) + kept) == Elems(Removed(front, results)) + Elems(kept);
    }
  }

  ghost function TerminalStates(lists: seq<seq<Run>>): seq<set<Run>> {
    seq(|lists|, i requires 0 <= i < |lists| => TerminalRuns(lists[i]))
  }

  lemma BatchFacts(cfg: Config, runs: seq<Run>, collect: seq<Phase>, merge: seq<Phase>)
    requires DistinctNames(runs) && IsOrder(collect) && IsOrder(merge)
    ensures var batch := Batch(cfg, runs, collect, merge);
            && Elems(batch) <= TerminalRuns(runs) && |batch| == Min(cfg.Deletes(), Excess(cfg, runs))
            && IsVictimSet(TerminalRuns(runs), cfg.Floor(), |batch|, Elems(batch))
  {
    hide Selection, IsVictimSet, Excess, IsOrder, DistinctNames;
    SelectionIsPurgeOrder(cfg, runs, collect, merge);
    var v := Selection(cfg, runs, collect, merge);
    PurgeOrderPrefix(TerminalRuns(runs), cfg.Floor(), v, Min(cfg.Deletes(), |v|));
    PurgeOrderIsVictimSet(TerminalRuns(runs), cfg.Floor(), Batch(cfg, runs, collect, merge));
  }

  /** A reconcile is one drain pass over the terminal runs; active runs stay, so the budget of the next
      pass is the same. */
  lemma ReconcileIsDrainPass(cfg: Config, forbidden: set<Run>, before: seq<Run>, after: seq<Run>)
    requires DistinctNames(before) && Reconciled(cfg, forbidden, before, after)
    ensures DrainPass(TerminalRuns(before), TerminalRuns(after), cfg.Floor(), Budget(cfg, before), cfg.Deletes(),
              forbidden)
    ensures DistinctNames(after) && Budget(cfg, after) == Budget(cfg, before)
    ensures Elems(after) - TerminalRuns(after) == Elems(before) - TerminalRuns(before)
  {
    hide Selection, IsVictimSet, IsOrder, DistinctNames, PurgeOrder, Budget, TerminalRuns, Elems;
    var collect, merge :| SelectedAway(cfg, forbidden, before, after, collect, merge);
    SelectionIsPurgeOrder(cfg, before, collect, merge);
    BatchFacts(cfg, before, collect, merge);
    var v, gone := Selection(cfg, before, collect, merge), Elems(Batch(cfg, before, collect, merge)) - forbidden;
    Shrink(cfg, before, after, gone);
    assert Batched(TerminalRuns(before), TerminalRuns(after), cfg.Floor(), Budget(cfg, before), cfg.Deletes(),
        forbidden, v);
  }

  /** Deleting terminal runs changes neither the active ones nor the budget. */
  lemma Shrink(cfg: Config, before: seq<Run>, after: seq<Run>, gone: set<Run>)
    requires DistinctNames(before) && DistinctNames(after)
    requires gone <= TerminalRuns(before) && Elems(after) == Elems(before) - gone
    ensures TerminalRuns(after) == TerminalRuns(before) - gone
    ensures Elems(after) - TerminalRuns(after) == Elems(before) - TerminalRuns(before)
    ensures Budget(cfg, after) == Budget(cfg, before)
  {
    forall r
      ensures r in TerminalRuns(after) <==> r in TerminalRuns(before) - gone
    {
      assert r in after <==> r in Elems(after);
      assert r in before <==> r in Elems(before);
    }
    TerminalWithin(before);
    NoDuplicatesCardinality(before);
    NoDuplicatesCardinality(after);
    SubsetRemoval(Elems(before), gone);
    SubsetRemoval(TerminalRuns(before), gone);
  }

  lemma TerminalWithin(runs: seq<Run>)
    ensures TerminalRuns(runs) <= Elems(runs)
  {
  }

  /** A run of reconciles is a drain of its terminal runs, and every list keeps the active ones. */
  lemma {:induction false} RunIsDrainTrace(cfg: Config, forbidden: set<Run>, lists: seq<seq<Run>>)
    requires ReconcileRun(cfg, forbidden, lists)
    ensures DrainTrace(TerminalStates(lists), cfg.Floor(), Budget(cfg, lists[0]), cfg.Deletes(), forbidden)
    ensures forall i :: 0 <= i < |lists| ==>
              && DistinctNames(lists[i]) && Budget(cfg, lists[i]) == Budget(cfg, lists[0])
              && Elems(lists[i]) - TerminalRuns(lists[i]) == Elems(lists[0]) - TerminalRuns(lists[0])
  {
    hide DrainPass, Budget, TerminalRuns, Elems, Reconciled, DistinctNames;
    if |lists| > 1 {
      var n := |lists| - 1;
      RunIsDrainTrace(cfg, forbidden, lists[..n]);
      assert lists[..n][n - 1] == lists[n - 1];
      assert Reconciled(cfg, forbidden, lists[n - 1], lists[n - 1 + 1]);
      ReconcileIsDrainPass(cfg, forbidden, lists[n - 1], lists[n]);
      var states := TerminalStates(lists);
      forall i | 0 <= i < |states| - 1
        ensures DrainPass(states[i], states[i + 1], cfg.Floor(), Budget(cfg, lists[0]), cfg.Deletes(), forbidden)
      {
        if i < n - 1 {
          var front := TerminalStates(lists[..n]);
          assert front[i] == states[i] && front[i + 1] == states[i + 1];
        }
      }
      forall i | 0 <= i < |lists|
        ensures DistinctNames(lists[i]) && Budget(cfg, lists[i]) == Budget(cfg, lists[0])
        ensures Elems(lists[i]) - TerminalRuns(lists[i]) == Elems(lists[0]) - TerminalRuns(lists[0])
      {
        if i < n { assert lists[..n][i] == lists[i]; }
      }
    }
  }

  lemma Rejoin(a: seq<Run>, b: seq<Run>, gone: set<Run>)
    requires gone <= TerminalRuns(a) && TerminalRuns(b) == TerminalRuns(a) - gone
    requires Elems(b) - TerminalRuns(b) == Elems(a) - TerminalRuns(a)
    ensures Elems(b) == Elems(a) - gone
  {
    hide TerminalRuns, Elems;
    TerminalWithin(a);
    TerminalWithin(b);
    var x, t, y, u := Elems(a), TerminalRuns(a), Elems(b), TerminalRuns(b);
    assert y == (y - u) + u && x == (x - t) + t;
  }

  // ---- All deletes succeed ------------------------------------------------------------------

  /** A run of successful reconciles from `runs` that is long enough for the excess. */
  ghost predicate FullDrain(cfg: Config, runs: seq<Run>, lists: seq<seq<Run>>) {
    ReconcileRun(cfg, {}, lists) && lists[0] == runs && (|lists| - 1) * cfg.Deletes() >= Excess(cfg, runs)
  }

  /** Enough successful capped reconciles leave no excess and every active run, and no run is deleted
      while one that has to precede it stays; without a tie at the cut they leave exactly what one
      unbounded selection from the first list leaves. */
  lemma ReconcilesConfluent(cfg: Config, lists: seq<seq<Run>>, collect: seq<Phase>, merge: seq<Phase>)
    requires lists != [] && FullDrain(cfg, lists[0], lists) && IsOrder(collect) && IsOrder(merge)
    ensures var all, end, victims := TerminalRuns(lists[0]), lists[|lists| - 1],
              Elems(Selection(cfg, lists[0], collect, merge));
            && Excess(cfg, end) == 0 && TerminalRuns(end) <= all
            && IsVictimSet(all, cfg.Floor(), Excess(cfg, lists[0]), all - TerminalRuns(end))
            && Elems(end) - TerminalRuns(end) == Elems(lists[0]) - all
            && (!TieAtCut(all, cfg.Floor(), Excess(cfg, lists[0])) ==> Elems(end) == Elems(lists[0]) - victims)
  {
    hide Budget, Selection, TieAtCut, PurgeOrder, DrainTrace, Elems, TerminalRuns, Reconciled;
    RunIsDrainTrace(cfg, {}, lists);
    SelectionIsVictimSet(cfg, lists[0], collect, merge);
    DistinctNamesUnique(lists[0]);
    var end, victims := lists[|lists| - 1], Elems(Selection(cfg, lists[0], collect, merge));
    DrainConfluent(TerminalStates(lists), cfg.Floor(), Budget(cfg, lists[0]), cfg.Deletes(), victims);
    if TerminalRuns(end) == TerminalRuns(lists[0]) - victims {
      Rejoin(lists[0], end, victims);
    }
  }

  function ActiveRuns(runs: seq<Run>): set<Run> {
    set r | r in runs && r.phase != Complete && r.phase != Failed && r.phase != Superseded
  }

  /** What a full drain leaves: every active run and, with them, as many runs as the cap admits. */
  lemma DrainedWithinCap(cfg: Config, lists: seq<seq<Run>>)
    requires lists != [] && FullDrain(cfg, lists[0], lists)
    ensures var cap := if cfg.maxRetained > 0 then cfg.maxRetained else 50;
            var start, end, active := lists[0], lists[|lists| - 1], |ActiveRuns(lists[0])|;
            && ActiveRuns(end) == ActiveRuns(start) && Elems(end) <= Elems(start)
            && |end| == (if |start| <= cap then |start| else if active <= cap then cap else active)
  {
    hide Excess, Budget, Reconciled, DrainTrace, IsOrder, DistinctNames, TieAtCut, Selection, ActiveRuns, Elems,
         TerminalRuns;
    var start, end := lists[0], lists[|lists| - 1];
    var order := [Complete, Failed, Superseded];
    KnownOrder(order);
    ReconcilesConfluent(cfg, lists, order, order);
    RunIsDrainTrace(cfg, {}, lists);
    DrainCounts(cfg, start, end);
  }

  lemma DrainCounts(cfg: Config, start: seq<Run>, end: seq<Run>)
    requires DistinctNames(start) && DistinctNames(end)
    requires Elems(end) - TerminalRuns(end) == Elems(start) - TerminalRuns(start)
    requires var t, u := TerminalRuns(start), TerminalRuns(end); u <= t && |t - u| == Excess(cfg, start)
    ensures var cap, active := if cfg.maxRetained > 0 then cfg.maxRetained else 50, |ActiveRuns(start)|;
            && ActiveRuns(end) == ActiveRuns(start) && Elems(end) <= Elems(start)
            && |end| == (if |start| <= cap then |start| else if active <= cap then cap else active)
  {
    hide Excess, TerminalRuns, Elems, ActiveRuns, DistinctNames;
    var t, u := TerminalRuns(start), TerminalRuns(end);
    ActiveCount(start);
    ActiveCount(end);
    SubsetRemoval(t, u);
    SubsetRemoval(t, t - u);
    ExcessIs(cfg, start);
    assert Elems(end) == ActiveRuns(end) + u;
  }

  lemma KnownOrder(order: seq<Phase>)
    requires order == [Complete, Failed, Superseded]
    ensures IsOrder(order)
  {
    assert order[0] == Complete && order[1] == Failed && order[2] == Superseded;
  }

  lemma ActiveCount(runs: seq<Run>)
    requires DistinctNames(runs)
    ensures Elems(runs) - TerminalRuns(runs) == ActiveRuns(runs) && TerminalRuns(runs) <= Elems(runs)
    ensures |runs| == |ActiveRuns(runs)| + |TerminalRuns(runs)|
  {
    DistinctNamesUnique(runs);
    NoDuplicatesCardinality(runs);
    assert Elems(runs) == ActiveRuns(runs) + TerminalRuns(runs);
  }

  /** The drain deletes what one unbounded selection deletes, whatever the map orders of either, exactly
      when no tie straddles the cut. */
  lemma ReconcilesConfluentIff(cfg: Config, runs: seq<Run>)
    requires DistinctNames(runs)
    ensures (forall lists, collect, merge :: FullDrain(cfg, runs, lists) && IsOrder(collect) && IsOrder(merge) ==>
               Elems(lists[|lists| - 1]) == Elems(runs) - Elems(Selection(cfg, runs, collect, merge)))
            <==> !TieAtCut(TerminalRuns(runs), cfg.Floor(), Excess(cfg, runs))
  {
    hide Selection, TieAtCut, IsVictimSet, Excess, IsOrder, DistinctNames, TerminalRuns;
    if TieAtCut(TerminalRuns(runs), cfg.Floor(), Excess(cfg, runs)) {
      var lists, collect, merge := TieDisagrees(cfg, runs);
    } else {
      forall lists, collect, merge | FullDrain(cfg, runs, lists) && IsOrder(collect) && IsOrder(merge)
        ensures Elems(lists[|lists| - 1]) == Elems(runs) - Elems(Selection(cfg, runs, collect, merge))
      {
        ReconcilesConfluent(cfg, lists, collect, merge);
      }
    }
  }

  /** With a tie at the cut some full drain and some selection disagree. */
  lemma TieDisagrees(cfg: Config, runs: seq<Run>) returns (lists: seq<seq<Run>>, collect: seq<Phase>, merge: seq<Phase>)
    requires DistinctNames(runs) && TieAtCut(TerminalRuns(runs), cfg.Floor(), Excess(cfg, runs))
    ensures FullDrain(cfg, runs, lists) && IsOrder(collect) && IsOrder(merge)
    ensures Elems(lists[|lists| - 1]) != Elems(runs) - Elems(Selection(cfg, runs, collect, merge))
  {
    hide Selection, TieAtCut, Excess, IsOrder, DistinctNames, TerminalRuns, Elems, Reconciled;
    var n, d := Excess(cfg, runs), cfg.Deletes();
    lists := SomeDrain(cfg, {}, runs, n);
    assert n * d >= n by { AtLeast(n, d); }
    collect := [Complete, Failed, Superseded];
    merge := collect;
    SomeOrder();
    TieBreaksBothWays(cfg, runs, collect, merge);
    SelectionWithin(cfg, runs, collect, merge);
    SelectionWithin(cfg, runs, collect, Reversed(merge));
    DifferentRests(Elems(runs), Elems(Selection(cfg, runs, collect, merge)),
        Elems(Selection(cfg, runs, collect, Reversed(merge))));
    if Elems(lists[|lists| - 1]) == Elems(runs) - Elems(Selection(cfg, runs, collect, merge)) {
      merge := Reversed(merge);
    }
  }

  lemma AtLeast(n: nat, d: nat)
    requires d > 0
    ensures n * d >= n
  {
  }

  lemma SelectionWithin(cfg: Config, runs: seq<Run>, collect: seq<Phase>, merge: seq<Phase>)
    requires DistinctNames(runs) && IsOrder(collect) && IsOrder(merge)
    ensures Elems(Selection(cfg, runs, collect, merge)) <= Elems(runs)
  {
    SelectionIsVictimSet(cfg, runs, collect, merge);
    TerminalWithin(runs);
  }

  lemma DifferentRests<T>(all: set<T>, a: set<T>, b: set<T>)
    requires a <= all && b <= all && a != b
    ensures all - a != all - b
  {
    assert a == all - (all - a) && b == all - (all - b);
  }

  /** From every list there is a run of any number of reconciles. */
  lemma {:induction false} SomeDrain(cfg: Config, forbidden: set<Run>, runs: seq<Run>, n: nat)
    returns (lists: seq<seq<Run>>)
    requires DistinctNames(runs)
    ensures ReconcileRun(cfg, forbidden, lists) && lists[0] == runs && |lists| == n + 1
    decreases n
  {
    if n == 0 {
      lists := [runs];
    } else {
      hide DistinctNames, Selection, IsOrder;
      var m := [Complete, Failed, Superseded];
      SomeOrder();
      var after := Deleting(runs, Elems(Batch(cfg, runs, m, m)) - forbidden);
      assert SelectedAway(cfg, forbidden, runs, after, m, m);
      var rest := SomeDrain(cfg, forbidden, after, n - 1);
      lists := [runs] + rest;
      forall i | 0 <= i < |lists| - 1
        ensures Reconciled(cfg, forbidden, lists[i], lists[i + 1])
      {
        if i > 0 { assert lists[i] == rest[i - 1] && lists[i + 1] == rest[i - 1 + 1]; }
      }
    }
  }

  lemma {:induction false} Deleting(runs: seq<Run>, gone: set<Run>) returns (after: seq<Run>)
    requires DistinctNames(runs)
    ensures DistinctNames(after) && Elems(after) == Elems(runs) - gone
  {
    after := [];
    if runs != [] {
      var front, last := runs[..|runs| - 1], runs[|runs| - 1];
      after := Deleting(front, gone);
      forall i | 0 <= i < |after| ensures after[i].name != last.name {
        assert after[i] in Elems(after);
      }
      assert Elems(runs) == Elems(front) + {last};
      if last !in gone {
        assert Elems(after + [last]) == Elems(after) + {last};
        after := after + [last];
      }
    }
  }

  // ---- Forbidden deletes --------------------------------------------------------------------

  /** Without a tie, enough reconciles reach the cap exactly when none of the victims of one unbounded
      selection is forbidden. */
  lemma DrainEndsIff(cfg: Config, forbidden: set<Run>, lists: seq<seq<Run>>, collect: seq<Phase>, merge: seq<Phase>)
    requires ReconcileRun(cfg, forbidden, lists) && IsOrder(collect) && IsOrder(merge)
    requires (|lists| - 1) * cfg.Deletes() >= Excess(cfg, lists[0])
    requires !TieAtCut(TerminalRuns(lists[0]), cfg.Floor(), Excess(cfg, lists[0]))
    ensures Excess(cfg, lists[|lists| - 1]) == 0 <==> Elems(Selection(cfg, lists[0], collect, merge)) !! forbidden
    ensures Elems(Selection(cfg, lists[0], collect, merge)) !! forbidden ==>
              Elems(lists[|lists| - 1]) == Elems(lists[0]) - Elems(Selection(cfg, lists[0], collect, merge))
  {
    hide Selection, TieAtCut, IsOrder, DistinctNames, Elems;
    var victims := Elems(Selection(cfg, lists[0], collect, merge));
    if victims !! forbidden {
      UnforbiddenRun(cfg, forbidden, lists, collect, merge);
      ReconcilesConfluent(cfg, lists, collect, merge);
    } else {
      ForbiddenVictimsStay(cfg, forbidden, lists, collect, merge, |lists| - 1);
      var r :| r in victims && r in forbidden;
      assert r in victims * forbidden;
    }
  }

  /** In every list of every run without a tie, all survivors of the unbounded selection and all forbidden
      victims are still there: the excess never falls below the number of forbidden victims. */
  lemma ForbiddenVictimsStay(cfg: Config, forbidden: set<Run>, lists: seq<seq<Run>>, collect: seq<Phase>,
                             merge: seq<Phase>, i: nat)
    requires ReconcileRun(cfg, forbidden, lists) && IsOrder(collect) && IsOrder(merge) && i < |lists|
    requires !TieAtCut(TerminalRuns(lists[0]), cfg.Floor(), Excess(cfg, lists[0]))
    ensures var all, victims := TerminalRuns(lists[0]), Elems(Selection(cfg, lists[0], collect, merge));
            && all - victims <= TerminalRuns(lists[i]) <= all && victims * forbidden <= TerminalRuns(lists[i])
            && |victims * forbidden| <= Excess(cfg, lists[i])
  {
    hide Selection, TieAtCut, IsOrder, DistinctNames, Elems, Budget, TerminalRuns, DrainTrace, Reconciled;
    RunIsDrainTrace(cfg, forbidden, lists);
    SelectionIsVictimSet(cfg, lists[0], collect, merge);
    DistinctNamesUnique(lists[0]);
    var victims := Elems(Selection(cfg, lists[0], collect, merge));
    var states := TerminalStates(lists);
    DrainStaysUnderway(states, cfg.Floor(), Budget(cfg, lists[0]), cfg.Deletes(), forbidden, victims, i);
    VictimsLeft(states[0], cfg.Floor(), Budget(cfg, lists[0]), |victims|, victims, states[i]);
    SubsetCardinality(victims * forbidden, victims * states[i]);
  }

  /** A run whose forbidden deletes are never due is a run of successful reconciles. */
  lemma UnforbiddenRun(cfg: Config, forbidden: set<Run>, lists: seq<seq<Run>>, collect: seq<Phase>, merge: seq<Phase>)
    requires ReconcileRun(cfg, forbidden, lists) && IsOrder(collect) && IsOrder(merge)
    requires !TieAtCut(TerminalRuns(lists[0]), cfg.Floor(), Excess(cfg, lists[0]))
    requires Elems(Selection(cfg, lists[0], collect, merge)) !! forbidden
    ensures ReconcileRun(cfg, {}, lists)
  {
    hide Selection, TieAtCut, IsOrder, DistinctNames, Elems, Budget, TerminalRuns, Reconciled, IsVictimSet;
    forall i | 0 <= i < |lists| - 1
      ensures Reconciled(cfg, {}, lists[i], lists[i + 1])
    {
      BatchOfVictims(cfg, forbidden, lists, collect, merge, i);
    }
  }

  lemma BatchOfVictims(cfg: Config, forbidden: set<Run>, lists: seq<seq<Run>>, collect: seq<Phase>, merge: seq<Phase>,
                       i: nat)
    requires ReconcileRun(cfg, forbidden, lists) && IsOrder(collect) && IsOrder(merge) && i < |lists| - 1
    requires !TieAtCut(TerminalRuns(lists[0]), cfg.Floor(), Excess(cfg, lists[0]))
    requires Elems(Selection(cfg, lists[0], collect, merge)) !! forbidden
    ensures Reconciled(cfg, {}, lists[i], lists[i + 1])
  {
    hide Selection, TieAtCut, IsOrder, DistinctNames, Elems, Budget, TerminalRuns, DrainTrace;
    RunIsDrainTrace(cfg, forbidden, lists);
    SelectionIsVictimSet(cfg, lists[0], collect, merge);
    DistinctNamesUnique(lists[0]);
    var victims, states := Elems(Selection(cfg, lists[0], collect, merge)), TerminalStates(lists);
    DrainStaysUnderway(states, cfg.Floor(), Budget(cfg, lists[0]), cfg.Deletes(), forbidden, victims, i);
    VictimsLeft(states[0], cfg.Floor(), Budget(cfg, lists[0]), |victims|, victims, states[i]);
    assert Reconciled(cfg, forbidden, lists[i], lists[i + 1]);
    var c, m :| SelectedAway(cfg, forbidden, lists[i], lists[i + 1], c, m);
    BatchFacts(cfg, lists[i], c, m);
    var batch := Batch(cfg, lists[i], c, m);
    SelectsVictimsLeft(states[0], cfg.Floor(), |victims|, victims, states[i], Elems(batch), |batch|);
    assert Elems(batch) - forbidden == Elems(batch) - {};
    assert SelectedAway(cfg, {}, lists[i], lists[i + 1], c, m);
  }

  /** With fewer forbidden victims than a reconcile may delete, the drain deletes every other victim and
      exactly the forbidden ones stay in excess. */
  lemma DrainLeavesForbidden(cfg: Config, forbidden: set<Run>, lists: seq<seq<Run>>, collect: seq<Phase>,
                             merge: seq<Phase>)
    requires ReconcileRun(cfg, forbidden, lists) && IsOrder(collect) && IsOrder(merge)
    requires !TieAtCut(TerminalRuns(lists[0]), cfg.Floor(), Excess(cfg, lists[0]))
    requires var victims := Elems(Selection(cfg, lists[0], collect, merge));
             |victims * forbidden| < cfg.Deletes() && |lists| > |victims - forbidden|
    ensures Elems(lists[|lists| - 1]) == Elems(lists[0]) - (Elems(Selection(cfg, lists[0], collect, merge)) - forbidden)
  {
    hide Selection, TieAtCut, IsOrder, DistinctNames, Elems, Budget, TerminalRuns, DrainTrace, Reconciled;
    RunIsDrainTrace(cfg, forbidden, lists);
    SelectionIsVictimSet(cfg, lists[0], collect, merge);
    DistinctNamesUnique(lists[0]);
    var victims, states, n := Elems(Selection(cfg, lists[0], collect, merge)), TerminalStates(lists), |lists| - 1;
    DrainsRest(states, cfg.Floor(), Budget(cfg, lists[0]), cfg.Deletes(), forbidden, victims, n);
    ForbiddenVictimsStay(cfg, forbidden, lists, collect, merge, n);
    assert (victims - forbidden) * states[n] == {};
    LeftOver(states[0], victims, forbidden, states[n]);
    Rejoin(lists[0], lists[n], victims - forbidden);
  }

  lemma LeftOver<T>(all: set<T>, victims: set<T>, forbidden: set<T>, now: set<T>)
    requires victims <= all && all - victims <= now <= all && victims * forbidden <= now
    requires (victims - forbidden) * now == {}
    ensures now == all - (victims - forbidden)
  {
    forall r ensures r in now <==> r in all - (victims - forbidden) {
      assert r in now && r in victims - forbidden ==> r in (victims - forbidden) * now;
    }
  }

  /** A reconcile whose batch is cut off without a tie is repeated forever, deleting nothing, exactly when
      its whole batch is forbidden. */
  lemma StuckForeverIff(cfg: Config, forbidden: set<Run>, lists: seq<seq<Run>>, collect: seq<Phase>, merge: seq<Phase>)
    requires ReconcileRun(cfg, forbidden, lists) && |lists| > 1 && IsOrder(collect) && IsOrder(merge)
    requires !TieAtCut(TerminalRuns(lists[0]), cfg.Floor(), Min(cfg.Deletes(), Excess(cfg, lists[0])))
    ensures (forall i :: 0 <= i < |lists| ==> Elems(lists[i]) == Elems(lists[0]))
            <==> Elems(Batch(cfg, lists[0], collect, merge)) <= forbidden
    ensures Elems(lists[1]) == Elems(lists[0]) ==> forall i :: 0 <= i < |lists| ==> Elems(lists[i]) == Elems(lists[0])
  {
    hide Selection, TieAtCut, IsOrder, DistinctNames, Elems, Budget, TerminalRuns, DrainTrace, IsVictimSet, Batch;
    RunIsDrainTrace(cfg, forbidden, lists);
    DistinctNamesUnique(lists[0]);
    BatchFacts(cfg, lists[0], collect, merge);
    var batch := Elems(Batch(cfg, lists[0], collect, merge));
    if batch <= forbidden {
      forall i | 0 <= i < |lists|
        ensures Elems(lists[i]) == Elems(lists[0])
      {
        StuckStays(TerminalStates(lists), cfg.Floor(), Budget(cfg, lists[0]), cfg.Deletes(), forbidden, batch, i);
        Rejoin(lists[0], lists[i], {});
      }
    } else {
      assert Reconciled(cfg, forbidden, lists[0], lists[0 + 1]);
      var c, m :| SelectedAway(cfg, forbidden, lists[0], lists[1], c, m);
      BatchFacts(cfg, lists[0], c, m);
      NoTieOneSet(TerminalRuns(lists[0]), cfg.Floor(), Min(cfg.Deletes(), Excess(cfg, lists[0])), batch,
          Elems(Batch(cfg, lists[0], c, m)));
      TerminalWithin(lists[0]);
      var r :| r in batch && r !in forbidden;
      assert r in Elems(lists[0]) && r !in Elems(lists[1]);
    }
  }

  /** Three Complete runs, room for one, one delete per reconcile, and the oldest run forbidden: no
      reconcile ever deletes anything, though the second-oldest run is due and could go. */
  lemma StarvingRun(lists: seq<seq<Run>>)
    requires var a, b, c := Run("a", 1, Complete), Run("b", 2, Complete), Run("c", 3, Complete);
             ReconcileRun(Config(1, 1, 1), {a}, lists) && lists[0] == [a, b, c]
    ensures var a, b, c := Run("a", 1, Complete), Run("b", 2, Complete), Run("c", 3, Complete);
            && Elems(lists[|lists| - 1]) == {a, b, c} && Excess(Config(1, 1, 1), lists[|lists| - 1]) == 2
            && IsVictimSet({a, b, c}, 1, 2, {a, b}) && !TieAtCut({a, b, c}, 1, 2)
  {
    hide DrainTrace, Reconciled, Precedes, AboveFloor, Selection, TieAtCut;
    var a, b, c := Run("a", 1, Complete), Run("b", 2, Complete), Run("c", 3, Complete);
    var cfg, all, n := Config(1, 1, 1), {a, b, c}, |lists| - 1;
    RunIsDrainTrace(cfg, {a}, lists);
    assert TerminalRuns(lists[0]) == all by {
      assert lists[0][0] == a && lists[0][1] == b && lists[0][2] == c;
    }
    assert Elems(lists[0]) == all by {
      assert lists[0][0] == a && lists[0][1] == b && lists[0][2] == c;
    }
    assert |all| == 3;
    ThreeInOrder(a, b, c);
    DistinctNamesUnique(lists[0]);
    StuckStays(TerminalStates(lists), 1, 1, 1, {a}, {a}, n);
    Rejoin(lists[0], lists[n], {});
    NoDuplicatesCardinality(lists[n]) by { DistinctNamesUnique(lists[n]); }
  }

  lemma ThreeInOrder(a: Run, b: Run, c: Run)
    requires a.phase == b.phase == c.phase && a.created < b.created < c.created
    ensures IsVictimSet({a, b, c}, 1, 1, {a}) && IsVictimSet({a, b, c}, 1, 2, {a, b})
    ensures !TieAtCut({a, b, c}, 1, 1) && !TieAtCut({a, b, c}, 1, 2)
  {
    hide AboveFloor;
    PrecedesWithinOutcome({a, b, c}, 1, a, b);
    PrecedesWithinOutcome({a, b, c}, 1, a, c);
    PrecedesWithinOutcome({a, b, c}, 1, b, c);
  }
}
