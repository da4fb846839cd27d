/**
 When bootstrap resources outlive the finalizer that guards them. Every prefix of a run is guarded exactly
 when no reconcile of a Cluster without `spec.bootstrap` takes the finalizer off existing resources, and
 none creates resources from a copy older than the last removal of the finalizer before that is undone.
 */
module BootstrapLeaks {
  import opened BootstrapTeardown

  /** Whatever exists is guarded by the finalizer of a Cluster that exists. */
  predicate Guarded(s: State)
    requires |s.versions| > 0
  {
    s.resources != {} ==> s.Current().present && s.Current().finalizer
  }

  /** The next call removes the finalizer, added and not removed since, from existing resources, because
      the copy it works on is live and has no bootstrap slot. */
  predicate BareClear(s: State)
    requires s.seen < |s.versions|
  {
    && s.todo != [] && s.todo[0].ClearFinalizer? && s.resources != {}
    && !s.Copy().deleting && !s.Copy().hasBootstrap && s.clearedAt < s.addedAt
  }

  /** The next call creates a resource from a copy older than the last removal of the finalizer, and nobody
      has added it again. */
  predicate StaleEnsure(s: State) {
    s.todo != [] && s.todo[0].Ensure? && s.seen < s.clearedAt && s.addedAt < s.clearedAt
  }

  /** The next call takes the last guard away, or does without it. */
  predicate Breach(s: State)
    requires |s.versions| > 0 && s.seen < |s.versions|
  {
    && s.todo != []
    && (if s.Current().present && s.Current().finalizer
        then s.todo[0].ClearFinalizer? && s.resources != {} && !s.Copy().deleting
        else s.todo[0].Ensure?)
  }

  function StateAt(mode: Mode, s: State, events: seq<Event>, n: nat): State
    requires |s.versions| > 0 && n <= |events|
  {
    Run(mode, s, events[..n])
  }

  ghost predicate GuardedThroughout(mode: Mode, s: State, events: seq<Event>)
    requires |s.versions| > 0
  {
    forall n :: 0 <= n <= |events| ==> Guarded(StateAt(mode, s, events, n))
  }

  lemma {:induction false} RunConcat(mode: Mode, s: State, a: seq<Event>, b: seq<Event>)
    requires |s.versions| > 0
    ensures Run(mode, s, a + b) == Run(mode, Run(mode, s, a), b)
    decreases |a|
  {
    if a == [] {
      assert a + b == b;
    } else {
      assert (a + b)[1..] == a[1..] + b;
      RunConcat(mode, Apply(mode, s, a[0]), a[1..], b);
    }
  }

  lemma RunOne(mode: Mode, s: State, e: Event)
    requires |s.versions| > 0
    ensures Run(mode, s, [e]) == Apply(mode, s, e)
  {
  }

  lemma NextState(mode: Mode, s: State, events: seq<Event>, n: nat)
    requires |s.versions| > 0 && n < |events|
    ensures StateAt(mode, s, events, n + 1) == Apply(mode, StateAt(mode, s, events, n), events[n])
  {
    hide Run, Apply;
    assert events[..n + 1] == events[..n] + [events[n]];
    RunConcat(mode, s, events[..n], [events[n]]);
    RunOne(mode, StateAt(mode, s, events, n), events[n]);
  }

  // ---- What every run keeps, whatever is read or edited -------------------------------------------

  /** A reconcile either creates and removes resources, or changes the finalizer as its last call; the
      cleanup of a deletion covers everything that exists. */
  predicate PlanInv(s: State) {
    && |s.versions| > 0 && s.seen < |s.versions|
    && (forall i :: 0 <= i < |s.todo| - 1 ==> s.todo[i].Ensure? || s.todo[i].Remove?)
    && (forall x :: x in s.todo && x.Ensure? ==> s.Copy().present && !s.Copy().deleting && s.Copy().finalizer)
    && (AddFinalizer in s.todo ==> !s.Copy().finalizer)
    && (ClearFinalizer in s.todo ==>
          && s.Copy().finalizer && (if s.Copy().deleting then CleanupCovers(s) else !s.Copy().hasBootstrap)
          && forall x :: x in s.todo ==> !x.Ensure?)
  }

  lemma BeginPlan(s: State, version: nat, work: Work)
    requires PlanInv(s) && s.todo == [] && version < |s.versions|
    ensures PlanInv(s.(todo := Plan(s.versions[version], work), seen := version))
  {
    CleanupRemovesAll();
  }

  lemma StepPlan(mode: Mode, s: State, e: Event)
    requires PlanInv(s)
    ensures PlanInv(Apply(mode, s, e))
  {
    match e {
      case Begin(version, work) =>
        if s.todo == [] && version < |s.versions| && (mode.monotoneReads ==> version >= s.seen) {
          BeginPlan(s, version, work);
        }
      case Call =>
      case Crash =>
      case UserDelete =>
      case UserEdit(_, _, _, _) =>
    }
  }

  /** One step keeps the guard unless it is one of the two breaches. */
  lemma StepGuarded(mode: Mode, s: State, e: Event)
    requires PlanInv(s) && Guarded(s)
    requires e == Call ==> !Breach(s)
    ensures Guarded(Apply(mode, s, e))
  {
    hide Plan;
  }

  /** A breach leaves something unguarded at once. */
  lemma BreachLeaks(mode: Mode, s: State)
    requires PlanInv(s) && Breach(s)
    ensures !Guarded(Apply(mode, s, Call))
  {
    if s.todo[0].Ensure? {
      assert s.todo[0].r in Apply(mode, s, Call).resources;
    }
  }

  ghost predicate BreachAt(mode: Mode, s: State, events: seq<Event>, n: nat)
    requires |s.versions| > 0 && n < |events|
  {
    var now := StateAt(mode, s, events, n);
    && events[n] == Call && now.seen < |now.versions| && Breach(now)
  }

  lemma {:induction false} PlanKept(mode: Mode, s: State, events: seq<Event>, n: nat)
    requires Initial(s) && n <= |events|
    ensures PlanInv(StateAt(mode, s, events, n))
  {
    hide Apply, PlanInv;
    if n == 0 {
      InitialPlan(mode, s, events);
    } else {
      PlanKept(mode, s, events, n - 1);
      NextState(mode, s, events, n - 1);
      StepPlan(mode, StateAt(mode, s, events, n - 1), events[n - 1]);
    }
  }

  lemma InitialPlan(mode: Mode, s: State, events: seq<Event>)
    requires Initial(s)
    ensures StateAt(mode, s, events, 0) == s && PlanInv(s) && Guarded(s)
  {
  }

  lemma {:induction false} GuardKept(mode: Mode, s: State, events: seq<Event>, n: nat)
    requires Initial(s) && n <= |events| && forall i :: 0 <= i < |events| ==> !BreachAt(mode, s, events, i)
    ensures Guarded(StateAt(mode, s, events, n))
  {
    hide Apply, PlanInv, Guarded, Breach;
    if n == 0 {
      InitialPlan(mode, s, events);
    } else {
      GuardKept(mode, s, events, n - 1);
      PlanKept(mode, s, events, n - 1);
      NextState(mode, s, events, n - 1);
      var now := StateAt(mode, s, events, n - 1);
      assert now.seen < |now.versions| by { SeenExists(now); }
      assert !BreachAt(mode, s, events, n - 1);
      StepGuarded(mode, now, events[n - 1]);
    }
  }

  lemma SeenExists(s: State)
    requires PlanInv(s)
    ensures s.seen < |s.versions|
  {
  }

  /** The cleanup of a deletion and everything users do are never to blame. */
  lemma GuardedIffNoBreach(mode: Mode, s: State, events: seq<Event>)
    requires Initial(s)
    ensures GuardedThroughout(mode, s, events) <==> forall n :: 0 <= n < |events| ==> !BreachAt(mode, s, events, n)
  {
    hide Apply, PlanInv, Guarded, Breach;
    if forall n :: 0 <= n < |events| ==> !BreachAt(mode, s, events, n) {
      forall n | 0 <= n <= |events|
        ensures Guarded(StateAt(mode, s, events, n))
      {
        GuardKept(mode, s, events, n);
      }
    } else {
      var n :| 0 <= n < |events| && BreachAt(mode, s, events, n);
      PlanKept(mode, s, events, n);
      NextState(mode, s, events, n);
      BreachLeaks(mode, StateAt(mode, s, events, n));
      assert !Guarded(StateAt(mode, s, events, n + 1));
    }
  }

  // ---- The exact condition in every mode --------------------------------------------------------------

  /** The Cluster has the finalizer exactly when it was added after it was last removed, and a copy that has
      it and is not older than the removal shows that it was. */
  ghost predicate FinalizerInv(s: State) {
    && PlanInv(s) && s.addedAt < |s.versions| && s.clearedAt < |s.versions|
    && (s.addedAt == s.clearedAt ==> s.addedAt == 0)
    && (s.Current().finalizer <==> s.clearedAt < s.addedAt)
    && (s.Current().finalizer ==> s.Current().present)
    && (forall i :: s.clearedAt <= i < |s.versions| && s.versions[i].finalizer ==> s.clearedAt < s.addedAt)
  }

  lemma StepFinalizer(mode: Mode, s: State, e: Event)
    requires FinalizerInv(s)
    ensures FinalizerInv(Apply(mode, s, e))
  {
    hide PlanInv, Plan;
    StepPlan(mode, s, e);
    PlanUse(s);
  }

  lemma {:induction false} FinalizerKept(mode: Mode, s: State, events: seq<Event>, n: nat)
    requires Initial(s) && n <= |events|
    ensures FinalizerInv(StateAt(mode, s, events, n))
  {
    if n == 0 {
      InitialPlan(mode, s, events);
    } else {
      hide Apply, FinalizerInv;
      FinalizerKept(mode, s, events, n - 1);
      NextState(mode, s, events, n - 1);
      StepFinalizer(mode, StateAt(mode, s, events, n - 1), events[n - 1]);
    }
  }

  lemma BreachIff(s: State)
    requires FinalizerInv(s)
    ensures |s.versions| > 0 && s.seen < |s.versions|
    ensures Breach(s) <==> BareClear(s) || StaleEnsure(s)
  {
    hide PlanInv;
    PlanUse(s);
    if s.todo != [] {
      assert s.todo[0] in s.todo;
    }
  }

  /** The run's next call is one of the two that leak. */
  ghost predicate LeakAt(mode: Mode, s: State, events: seq<Event>, n: nat)
    requires |s.versions| > 0 && n < |events|
  {
    var now := StateAt(mode, s, events, n);
    && events[n] == Call && now.seen < |now.versions| && (BareClear(now) || StaleEnsure(now))
  }

  /** Whatever is read and edited, a run is guarded throughout exactly when no reconcile of a live Cluster
      without bootstrap slot takes the finalizer off existing resources, and none creates a resource from a
      copy older than the last removal of the finalizer while that has not been undone. */
  lemma GuardedIff(mode: Mode, s: State, events: seq<Event>)
    requires Initial(s)
    ensures GuardedThroughout(mode, s, events) <==> forall n :: 0 <= n < |events| ==> !LeakAt(mode, s, events, n)
  {
    hide Apply, FinalizerInv, GuardedThroughout, BareClear, StaleEnsure, Breach;
    GuardedIffNoBreach(mode, s, events);
    forall n | 0 <= n < |events|
      ensures LeakAt(mode, s, events, n) <==> BreachAt(mode, s, events, n)
    {
      FinalizerKept(mode, s, events, n);
      BreachIff(StateAt(mode, s, events, n));
    }
  }

  // ---- With one of the assumptions ----------------------------------------------------------------------

  /** Reads that do not go back: since its last removal the finalizer is only ever added, and what the
      reconciler may still read from before that removal carries it. */
  ghost predicate MonotoneInv(s: State) {
    && PlanInv(s) && s.clearedAt < |s.versions|
    && (forall i, j :: s.clearedAt <= i <= j < |s.versions| && s.versions[i].finalizer ==> s.versions[j].finalizer)
    && (forall i :: s.clearedAt <= i < |s.versions| && s.versions[i].finalizer ==> s.versions[i].present)
    && (forall i :: s.seen <= i < s.clearedAt ==> s.versions[i].finalizer)
    && (s.Current().finalizer ==> s.seen >= s.clearedAt)
  }

  /** A slot that is kept: deletion is final, and only deletion removes the finalizer. */
  ghost predicate KeptInv(s: State) {
    PlanInv(s) && KeptVersions(s) && (ClearFinalizer in s.todo ==> s.Copy().deleting)
  }

  ghost predicate KeptVersions(s: State) {
    && s.clearedAt < |s.versions|
    && (forall i :: 0 <= i < |s.versions| ==> s.versions[i].hasBootstrap)
    && (forall i, j :: 0 <= i <= j < |s.versions| && s.versions[i].deleting ==> s.versions[j].deleting)
    && (!s.Cleared() ==> forall i, j :: 0 <= i <= j < |s.versions| && s.versions[i].finalizer ==>
         s.versions[j].finalizer)
    && (!s.Cleared() ==> forall i :: 0 <= i < |s.versions| && s.versions[i].finalizer ==> s.versions[i].present)
    && (s.Cleared() ==> forall i :: s.clearedAt <= i < |s.versions| ==>
         s.versions[i].deleting && !s.versions[i].finalizer)
  }

  lemma KeptAppend(s: State, c: Object)
    requires KeptVersions(s) && c.hasBootstrap && (s.Current().deleting ==> c.deleting)
    requires if s.Cleared() then !c.finalizer
               else (s.Current().finalizer ==> c.finalizer) && (c.finalizer ==> c.present)
    ensures KeptVersions(s.(versions := s.versions + [c]))
  {
  }

  lemma StepMonotone(mode: Mode, s: State, e: Event)
    requires mode.monotoneReads && MonotoneInv(s)
    ensures MonotoneInv(Apply(mode, s, e))
  {
    hide PlanInv, Plan;
    StepPlan(mode, s, e);
    PlanUse(s);
  }

  lemma ClearPlanned(c: Object, work: Work)
    ensures ClearFinalizer in Plan(c, work) ==> c.deleting || !c.hasBootstrap
  {
  }

  lemma StepKept(mode: Mode, s: State, e: Event)
    requires mode.keepsBootstrap && KeptInv(s)
    ensures KeptInv(Apply(mode, s, e))
  {
    hide PlanInv, Plan, KeptVersions;
    StepPlan(mode, s, e);
    PlanUse(s);
    assert s.clearedAt < |s.versions| && s.Current().hasBootstrap by { CurrentKept(s); }
    match e {
      case Begin(version, work) =>
        if version < |s.versions| {
          ClearPlanned(s.versions[version], work);
          SlotThere(s, version);
        }
        KeptSame(s, Apply(mode, s, e));
      case Call =>
        if s.todo != [] { CallKept(s); }
      case Crash =>
        KeptSame(s, Apply(mode, s, e));
      case UserDelete =>
        CurrentKept(s);
        if s.Current().present { KeptAppend(s, Settle(s.Current().(deleting := true))); }
      case UserEdit(suspended, hasBootstrap, expired, other) =>
        CurrentKept(s);
        var c := s.Current().(suspended := suspended, hasBootstrap := hasBootstrap, expired := expired,
            otherFinalizers := other);
        if s.Current().present && hasBootstrap { KeptAppend(s, Settle(c)); }
    }
  }

  lemma CallKept(s: State)
    requires KeptInv(s) && s.todo != []
    ensures var next := Perform(s, s.todo[0], s.todo[1..]);
            KeptVersions(next) && (ClearFinalizer in next.todo ==> ClearFinalizer in s.todo) && next.seen == s.seen
  {
    hide PlanInv, KeptVersions;
    PlanUse(s);
    CurrentKept(s);
    assert s.todo[0] in s.todo;
    assert forall x :: x in s.todo[1..] ==> x in s.todo;
    var c := s.Current();
    if s.todo[0].AddFinalizer? && c.present && !c.deleting && !c.finalizer {
      KeptAppend(s, c.(finalizer := true));
      KeptSame(s.(versions := s.versions + [c.(finalizer := true)]), Perform(s, s.todo[0], s.todo[1..]));
    } else if s.todo[0].ClearFinalizer? && c.present && c.finalizer {
      assert c.deleting by { DeletionFinal(s); }
      KeptClear(s, Settle(c.(finalizer := false)));
      KeptSame(s.(versions := s.versions + [Settle(c.(finalizer := false))], clearedAt := |s.versions|),
          Perform(s, s.todo[0], s.todo[1..]));
    } else {
      KeptSame(s, Perform(s, s.todo[0], s.todo[1..]));
    }
  }

  lemma DeletionFinal(s: State)
    requires KeptVersions(s) && s.seen < |s.versions| && s.Copy().deleting
    ensures s.Current().deleting
  {
  }

  lemma KeptClear(s: State, c: Object)
    requires KeptVersions(s) && c.hasBootstrap && c.deleting && !c.finalizer
    ensures KeptVersions(s.(versions := s.versions + [c], clearedAt := |s.versions|))
  {
  }

  lemma CurrentKept(s: State)
    requires KeptVersions(s)
    ensures s.clearedAt < |s.versions| && s.Current().hasBootstrap
    ensures s.Cleared() ==> s.Current().deleting && !s.Current().finalizer
    ensures !s.Cleared() && s.Current().finalizer ==> s.Current().present
  {
  }

  lemma SlotThere(s: State, version: nat)
    requires KeptVersions(s) && version < |s.versions|
    ensures s.versions[version].hasBootstrap
  {
  }

  lemma KeptSame(s: State, b: State)
    requires KeptVersions(s) && b.versions == s.versions && b.clearedAt == s.clearedAt
    ensures KeptVersions(b)
  {
  }

  lemma PlanUse(s: State)
    requires PlanInv(s)
    ensures |s.versions| > 0 && s.seen < |s.versions|
    ensures forall x :: x in s.todo && x.Ensure? ==> s.Copy().present && !s.Copy().deleting && s.Copy().finalizer
    ensures AddFinalizer in s.todo ==> !s.Copy().finalizer
    ensures ClearFinalizer in s.todo ==> s.Copy().finalizer && (s.Copy().deleting || !s.Copy().hasBootstrap)
  {
  }

  lemma StaleIsNotUndone(s: State)
    requires FinalizerInv(s) && (MonotoneInv(s) || KeptInv(s))
    ensures s.todo != [] && s.todo[0].Ensure? && s.seen < s.clearedAt ==> s.addedAt < s.clearedAt
  {
    hide PlanInv;
    PlanUse(s);
    if s.todo != [] && s.todo[0].Ensure? {
      assert s.todo[0] in s.todo;
    }
  }

  lemma {:induction false} StaleKept(mode: Mode, s: State, events: seq<Event>, n: nat)
    requires Initial(s) && n <= |events| && (mode.monotoneReads || mode.keepsBootstrap)
    ensures mode.monotoneReads ==> MonotoneInv(StateAt(mode, s, events, n))
    ensures mode.keepsBootstrap ==> KeptInv(StateAt(mode, s, events, n))
  {
    if n == 0 {
      InitialPlan(mode, s, events);
    } else {
      hide Apply, MonotoneInv, KeptInv;
      StaleKept(mode, s, events, n - 1);
      NextState(mode, s, events, n - 1);
      var now := StateAt(mode, s, events, n - 1);
      if mode.monotoneReads { StepMonotone(mode, now, events[n - 1]); }
      if mode.keepsBootstrap { StepKept(mode, now, events[n - 1]); }
    }
  }

  /** With either assumption every creation from a copy older than the last removal of the finalizer leaks:
      nobody has added it again by then. */
  lemma StaleCreationLeaks(mode: Mode, s: State, events: seq<Event>, n: nat)
    requires Initial(s) && n < |events| && (mode.monotoneReads || mode.keepsBootstrap)
    ensures var now := StateAt(mode, s, events, n);
            now.todo != [] && now.todo[0].Ensure? ==> (StaleEnsure(now) <==> now.seen < now.clearedAt)
  {
    hide Apply, FinalizerInv, MonotoneInv, KeptInv;
    FinalizerKept(mode, s, events, n);
    StaleKept(mode, s, events, n);
    StaleIsNotUndone(StateAt(mode, s, events, n));
  }

  /** While the slot is kept no reconcile clears the finalizer bare: only a stale creation can leak, and it
      does so exactly when it happens after the one removal of the finalizer. */
  lemma KeptSlotLeaksIff(mode: Mode, s: State, events: seq<Event>)
    requires Initial(s) && mode.keepsBootstrap
    ensures GuardedThroughout(mode, s, events) <==>
            forall n :: 0 <= n < |events| && events[n] == Call && StateAt(mode, s, events, n).Cleared() ==>
                          var todo := StateAt(mode, s, events, n).todo; todo == [] || !todo[0].Ensure?
  {
    hide Apply, GuardedThroughout;
    GuardedIff(mode, s, events);
    forall n | 0 <= n < |events|
      ensures LeakAt(mode, s, events, n) <==>
              events[n] == Call && var now := StateAt(mode, s, events, n);
                  now.Cleared() && now.todo != [] && now.todo[0].Ensure?
    {
      StaleKept(mode, s, events, n);
      StaleCreationLeaks(mode, s, events, n);
      var now := StateAt(mode, s, events, n);
      assert now.todo != [] ==> now.todo[0] in now.todo;
    }
  }

  // ---- Concrete leaks ------------------------------------------------------------------------------

  const NEW_CLUSTER := State([Object(true, false, false, false, false, true, false)], {}, [], 0, 0, 0)

  /** Two more calls of a cleanup that has nothing left to remove. */
  lemma TwoRemoves(mode: Mode, s: State, x: Resource, y: Resource, rest: seq<Call>)
    requires |s.versions| > 0 && s.todo == [Remove(x), Remove(y)] + rest && s.resources == {}
    ensures Run(mode, s, [Call, Call]) == s.(todo := rest)
  {
  }

  const REGISTER_AND_DELETE: seq<Event> := [Begin(0, NoWork), Call, UserDelete, Begin(2, NoWork)]
  const PAIR: seq<Event> := [Call, Call]

  /** Finalizer added, deletion requested, and the cleanup run to its last call. */
  lemma DeletedCluster(mode: Mode) returns (gone: State)
    ensures gone == Run(mode, NEW_CLUSTER, REGISTER_AND_DELETE + (PAIR + (PAIR + (PAIR + [Call]))))
    ensures !gone.Current().present && gone.todo == [] && gone.resources == {} && |gone.versions| == 4
    ensures var c := gone.versions[1];
            c.present && !c.deleting && c.finalizer && !c.suspended && c.hasBootstrap && !c.expired
  {
    var s := NEW_CLUSTER;
    var s1 := Apply(mode, s, Begin(0, NoWork));
    var s2 := Apply(mode, s1, Call);
    var s3 := Apply(mode, s2, UserDelete);
    var d := Apply(mode, s3, Begin(2, NoWork));
    assert REGISTER_AND_DELETE[1..][1..][1..] == [Begin(2, NoWork)];
    RunOne(mode, s3, Begin(2, NoWork));
    FullCleanup(mode, d);
    RunConcat(mode, s, REGISTER_AND_DELETE, PAIR + (PAIR + (PAIR + [Call])));
    gone := Apply(mode, d.(todo := [ClearFinalizer]), Call);
  }

  lemma FullCleanup(mode: Mode, d: State)
    requires |d.versions| > 0 && d.todo == FULL_CLEANUP && d.resources == {}
    ensures Run(mode, d, PAIR + (PAIR + (PAIR + [Call]))) == Apply(mode, d.(todo := [ClearFinalizer]), Call)
  {
    hide Run, Apply;
    var d1, d2, d3 := d.(todo := FULL_CLEANUP[2..]), d.(todo := FULL_CLEANUP[4..]), d.(todo := [ClearFinalizer]);
    TwoRemoves(mode, d, KubeconfigSecret, ServiceAccount, d1.todo);
    TwoRemoves(mode, d1, BootstrapBinding, BootstrapRole, d2.todo);
    TwoRemoves(mode, d2, ClusterBinding, ClusterRole, [ClearFinalizer]);
    RunOne(mode, d3, Call);
    RunConcat(mode, d2, PAIR, [Call]);
    RunConcat(mode, d1, PAIR, PAIR + [Call]);
    RunConcat(mode, d, PAIR, PAIR + (PAIR + [Call]));
  }

  /** A read older than the deletion already acted upon recreates RBAC for a Cluster that is gone. */
  lemma StaleReadLeaks()
    ensures Initial(NEW_CLUSTER)
    ensures var end := Run(Mode(false, true), NEW_CLUSTER,
                           REGISTER_AND_DELETE + (PAIR + (PAIR + (PAIR + [Call]))) + [Begin(1, RegisterCluster), Call]);
            !end.Current().present && end.resources != {}
  {
    var mode := Mode(false, true);
    var gone := DeletedCluster(mode);
    var stale := Apply(mode, gone, Begin(1, RegisterCluster));
    var leaked := Apply(mode, stale, Call);
    assert ClusterRole in leaked.resources;
    assert [Begin(1, RegisterCluster), Call][1..] == [Call];
    RunOne(mode, stale, Call);
    RunConcat(mode, NEW_CLUSTER, REGISTER_AND_DELETE + (PAIR + (PAIR + (PAIR + [Call]))),
        [Begin(1, RegisterCluster), Call]);
  }

  /** Clearing `spec.bootstrap` on a registered cluster drops the finalizer and leaves its RBAC. */
  lemma ClearedBootstrapLeaks()
    ensures var end := Run(Mode(true, false), NEW_CLUSTER,
                           [Begin(0, NoWork), Call, Begin(1, RegisterCluster), Call]
                           + [Crash, UserEdit(false, false, false, false), Begin(2, NoWork), Call]);
            end.Current().present && !end.Current().finalizer && end.resources != {}
  {
    var mode := Mode(true, false);
    var s := NEW_CLUSTER;
    var a := [Begin(0, NoWork), Call, Begin(1, RegisterCluster), Call];
    var b := [Crash, UserEdit(false, false, false, false), Begin(2, NoWork), Call];
    var s1 := Apply(mode, s, a[0]);
    var s2 := Apply(mode, s1, Call);
    var s3 := Apply(mode, s2, a[2]);
    var s4 := Apply(mode, s3, Call);
    assert a[1..][1..][1..] == [Call] && b[1..][1..][1..] == [Call];
    RunOne(mode, s3, Call);
    assert ClusterRole in s4.resources;
    var s5 := Apply(mode, s4, Crash);
    var s6 := Apply(mode, s5, b[1]);
    var s7 := Apply(mode, s6, b[2]);
    assert s7.todo == [ClearFinalizer];
    RunOne(mode, s7, Call);
    RunConcat(mode, s, a, b);
  }

  /** A slot cleared and restored while the finalizer is being removed: the next reconcile still sees the
      finalizer and creates RBAC without it, though nothing existed when it was removed. */
  lemma RestoredBootstrapLeaks()
    ensures var end := Run(Mode(true, false), NEW_CLUSTER,
                           [Begin(0, NoWork), Call, UserEdit(false, false, false, false), Begin(2, NoWork)]
                           + [UserEdit(false, true, false, false), Call, Begin(3, RegisterCluster), Call]);
            end.Current().present && !end.Current().finalizer && end.resources != {}
  {
    hide Run, Apply;
    var mode := Mode(true, false);
    var a := [Begin(0, NoWork), Call, UserEdit(false, false, false, false), Begin(2, NoWork)];
    var b := [UserEdit(false, true, false, false), Call, Begin(3, RegisterCluster), Call];
    SlotCleared();
    SlotRestored();
    RunConcat(mode, NEW_CLUSTER, a, b);
  }

  const LIVE := Object(true, false, true, false, false, true, false)
  const CLEARING := State([NEW_CLUSTER.Current(), LIVE, LIVE.(hasBootstrap := false)], {}, [ClearFinalizer], 2, 1, 0)

  lemma SlotCleared()
    ensures Run(Mode(true, false), NEW_CLUSTER,
                [Begin(0, NoWork), Call, UserEdit(false, false, false, false), Begin(2, NoWork)]) == CLEARING
  {
    var mode := Mode(true, false);
    var a := [Begin(0, NoWork), Call, UserEdit(false, false, false, false), Begin(2, NoWork)];
    var s2 := Apply(mode, Apply(mode, NEW_CLUSTER, a[0]), Call);
    var s3 := Apply(mode, s2, a[2]);
    assert a[1..][1..][1..] == [a[3]];
    RunOne(mode, s3, a[3]);
  }

  lemma SlotRestored()
    ensures var end := Run(Mode(true, false), CLEARING,
                           [UserEdit(false, true, false, false), Call, Begin(3, RegisterCluster), Call]);
            end.Current().present && !end.Current().finalizer && end.resources != {}
  {
    var mode := Mode(true, false);
    var b := [UserEdit(false, true, false, false), Call, Begin(3, RegisterCluster), Call];
    var s6 := Apply(mode, Apply(mode, CLEARING, b[0]), Call);
    var s7 := Apply(mode, s6, b[2]);
    assert b[1..][1..][1..] == [Call];
    RunOne(mode, s7, Call);
    assert ClusterRole in Apply(mode, s7, Call).resources;
  }
}
