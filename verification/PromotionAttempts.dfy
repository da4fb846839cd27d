/**
 The attempt lifecycle of one Promotion: a reconcile that finds no run for the current spec hash
 supersedes every non-terminal run it listed, cancels their targets, and stamps a run whose name is
 determined by promotion and hash. Every API write may be the last one before a crash.
 */
module PromotionAttempts {
  import opened RunPhase
  import opened Text

  const MAX_NAME := 63
  const HASH_LENGTH := 12

  /** A spec hash: twelve characters of a hex digest. */
  type Hash = h: string | |h| == HASH_LENGTH witness ['0', '0', '0', '0', '0', '0', '0', '0', '0', '0', '0', '0']

  datatype Run = Run(owner: string, hash: string, phase: Phase)

  datatype Target = Target(runRef: string, cluster: string, finished: bool, cancelled: bool)

  /** PromotionRuns and Targets by name, and each cluster's status.activePromotionRun. */
  datatype World = World(runs: map<string, Run>, targets: map<string, Target>, claims: map<string, string>)

  // ---- Run names --------------------------------------------------------------------------------

  function NameBase(promotion: string, suffixLength: nat): string
    requires suffixLength <= MAX_NAME
  {
    if |promotion| + suffixLength > MAX_NAME then TrimRight(promotion[..MAX_NAME - suffixLength]) else promotion
  }

  function AttemptName(promotion: string, hash: Hash): string {
    NameBase(promotion, HASH_LENGTH + 1) + "-" + hash
  }

  /** Run names fit a DNS label, and two of them are equal exactly when hash and shortened promotion
      name are: one name per hash of a promotion, but long promotion names may share it. */
  lemma AttemptNames(p: string, h: Hash, q: string, g: Hash)
    ensures |AttemptName(p, h)| <= 63
    ensures |p| <= 50 ==> AttemptName(p, h) == p + "-" + h
    ensures |p| > 50 ==>
              exists n :: && 0 <= n <= 50 && AttemptName(p, h) == p[..n] + "-" + h && (n > 0 ==> p[n - 1] != '-')
                          && forall k :: n <= k < 50 ==> p[k] == '-'
    ensures AttemptName(p, h) == AttemptName(q, g) <==>
              h == g && NameBase(p, HASH_LENGTH + 1) == NameBase(q, HASH_LENGTH + 1)
    ensures |p| <= 50 && |q| <= 50 && AttemptName(p, h) == AttemptName(q, g) ==> p == q
  {
    var a, b := AttemptName(p, h), AttemptName(q, g);
    if |p| > 50 {
      TrimRightStops(p[..50]);
      var n := |TrimRight(p[..50])|;
      assert TrimRight(p[..50]) == p[..n] && a == p[..n] + "-" + h;
    }
    if a == b {
      assert h == a[|a| - HASH_LENGTH..] && g == b[|b| - HASH_LENGTH..];
      assert NameBase(p, HASH_LENGTH + 1) == a[..|a| - HASH_LENGTH - 1] == b[..|b| - HASH_LENGTH - 1];
    }
  }

  /** Two promotions that agree on their first fifty characters get the same run name for equal specs. */
  lemma LongNamesCollide(common: string, x: string, y: string, h: Hash)
    requires |common| == 50 && x != "" && y != "" && x != y
    ensures common + x != common + y && AttemptName(common + x, h) == AttemptName(common + y, h)
  {
  }

  // ---- One reconcile, with a crash after any number of writes --------------------------------------

  /** `fuel` API writes still happen before the process dies. */
  datatype Progress = Progress(w: World, fuel: nat, crashed: bool)

  function Write(p: Progress, w: World): Progress {
    if p.crashed then p else if p.fuel == 0 then p.(crashed := true) else Progress(w, p.fuel - 1, false)
  }

  predicate Cancellable(w: World, run: string, target: string) {
    target in w.targets && w.targets[target].runRef == run && !w.targets[target].finished
        && !w.targets[target].cancelled
  }

  function ClearClaim(p: Progress, run: string, cluster: string): Progress {
    if cluster == "" || cluster !in p.w.claims || p.w.claims[cluster] != run then p
    else Write(p, p.w.(claims := p.w.claims[cluster := ""]))
  }

  function CancelOne(p: Progress, run: string, target: string): Progress {
    if p.crashed || !Cancellable(p.w, run, target) then p
    else
      var t := p.w.targets[target];
      var patched := Write(p, p.w.(targets := p.w.targets[target := t.(cancelled := true)]));
      if patched.crashed then patched else ClearClaim(patched, run, t.cluster)
  }

  function CancelTargets(p: Progress, run: string, targets: seq<string>): Progress {
    if targets == [] then p else CancelOne(CancelTargets(p, run, targets[..|targets| - 1]), run, targets[|targets| - 1])
  }

  function SupersedeOne(p: Progress, run: string, targets: seq<string>): Progress {
    if p.crashed || run !in p.w.runs || IsTerminal(p.w.runs[run].phase) then p
    else
      var patched := Write(p, p.w.(runs := p.w.runs[run := p.w.runs[run].(phase := Superseded)]));
      if patched.crashed then patched else CancelTargets(patched, run, targets)
  }

  function SupersedeAll(p: Progress, listed: seq<string>, targets: seq<string>): Progress {
    if listed == [] then p
        else SupersedeOne(SupersedeAll(p, listed[..|listed| - 1], targets), listed[|listed| - 1], targets)
  }

  /** `stampAttempt`: create, or keep the run that already has the name. */
  function Stamp(p: Progress, promotion: string, hash: Hash): Progress {
    var name := AttemptName(promotion, hash);
    if p.crashed || name in p.w.runs then p else Write(p, p.w.(runs := p.w.runs[name := Run(promotion, hash, Unset)]))
  }

  predicate HasRunFor(w: World, listed: seq<string>, hash: Hash) {
    exists n :: n in listed && n in w.runs && w.runs[n].hash == hash
  }

  function Reconcile(p: Progress, promotion: string, hash: Hash, listed: seq<string>, targets: seq<string>): Progress {
    if p.crashed || HasRunFor(p.w, listed, hash) then p else Stamp(SupersedeAll(p, listed, targets), promotion, hash)
  }

  /** The hub objects the Promotion reconciler writes, and the writes left before it crashes. */
  class PromotionHub {
    var w: World
    var fuel: nat
    var crashed: bool

    function View(): Progress reads this { Progress(w, fuel, crashed) }

    method Put(next: World)
      modifies this
      ensures View() == Write(old(View()), next)
    {
      if crashed {
        return;
      }
      if fuel == 0 {
        crashed := true;
        return;
      }
      w, fuel := next, fuel - 1;
    }

    method CancelSupersededRunTargets(run: string, targets: seq<string>)
      modifies this
      ensures View() == CancelTargets(old(View()), run, targets)
    {
      for i := 0 to |targets|
        invariant View() == CancelTargets(old(View()), run, targets[..i])
      {
        assert targets[..i + 1][..i] == targets[..i];
        if crashed || !Cancellable(w, run, targets[i]) {
          continue;
        }
        var t := w.targets[targets[i]];
        Put(w.(targets := w.targets[targets[i] := t.(cancelled := true)]));
        if !crashed && t.cluster != "" && t.cluster in w.claims && w.claims[t.cluster] == run {
          Put(w.(claims := w.claims[t.cluster := ""]));
        }
      }
      assert targets[..|targets|] == targets;
    }

    method SupersedePrevious(listed: seq<string>, targets: seq<string>)
      modifies this
      ensures View() == SupersedeAll(old(View()), listed, targets)
    {
      for i := 0 to |listed|
        invariant View() == SupersedeAll(old(View()), listed[..i], targets)
      {
        assert listed[..i + 1][..i] == listed[..i];
        var run := listed[i];
        if crashed || run !in w.runs || IsTerminal(w.runs[run].phase) {
          continue;
        }
        Put(w.(runs := w.runs[run := w.runs[run].(phase := Superseded)]));
        if !crashed {
          CancelSupersededRunTargets(run, targets);
        }
      }
      assert listed[..|listed|] == listed;
    }

    method ReconcileAttempt(promotion: string, hash: Hash, listed: seq<string>, targets: seq<string>)
      modifies this
      ensures View() == Reconcile(old(View()), promotion, hash, listed, targets)
    {
      if crashed {
        return;
      }
      var found := false;
      for i := 0 to |listed|
        invariant w == old(w) && fuel == old(fuel) && !crashed
        invariant found <==> HasRunFor(w, listed[..i], hash)
      {
        assert listed[..i + 1] == listed[..i] + [listed[i]];
        if listed[i] in w.runs && w.runs[listed[i]].hash == hash {
          found := true;
        }
      }
      assert listed[..|listed|] == listed;
      if found {
        return;
      }
      SupersedePrevious(listed, targets);
      var name := AttemptName(promotion, hash);
      if !crashed && name !in w.runs {
        Put(w.(runs := w.runs[name := Run(promotion, hash, Unset)]));
      }
    }
  }

  // ---- What a reconcile leaves behind ---------------------------------------------------------------

  /** Runs change only by being superseded while non-terminal and listed. */
  ghost predicate OnlySuperseded(before: map<string, Run>, after: map<string, Run>, listed: seq<string>) {
    && after.Keys == before.Keys
    && forall n :: n in before ==>
                     after[n] == before[n] || (n in listed && !IsTerminal(before[n].phase)
                         && after[n] == before[n].(phase := Superseded))
  }

  lemma {:induction false} CancelKeepsRuns(p: Progress, run: string, targets: seq<string>)
    ensures CancelTargets(p, run, targets).w.runs == p.w.runs
    ensures p.crashed ==> CancelTargets(p, run, targets) == p
  {
    if targets != [] {
      CancelKeepsRuns(p, run, targets[..|targets| - 1]);
    }
  }

  lemma {:induction false} SupersedeRuns(p: Progress, listed: seq<string>, targets: seq<string>)
    ensures var q := SupersedeAll(p, listed, targets);
            && OnlySuperseded(p.w.runs, q.w.runs, listed)
            && (!q.crashed ==> !p.crashed && forall n :: n in listed && n in p.w.runs ==> IsTerminal(q.w.runs[n].phase))
  {
    if listed != [] {
      var front, run := listed[..|listed| - 1], listed[|listed| - 1];
      SupersedeRuns(p, front, targets);
      var mid := SupersedeAll(p, front, targets);
      if !mid.crashed && run in mid.w.runs && !IsTerminal(mid.w.runs[run].phase) {
        var patched := Write(mid, mid.w.(runs := mid.w.runs[run := mid.w.runs[run].(phase := Superseded)]));
        CancelKeepsRuns(patched, run, targets);
      }
    }
  }

  /** The list the reconcile works on is complete for this promotion. */
  ghost predicate FreshList(w: World, promotion: string, listed: seq<string>) {
    forall n :: n in listed <==> n in w.runs && w.runs[n].owner == promotion
  }

  /** The run of the current spec is the promotion's only non-terminal run. */
  ghost predicate OnlyCurrentRuns(runs: map<string, Run>, promotion: string, hash: Hash) {
    && (exists n :: n in runs && runs[n].owner == promotion && runs[n].hash == hash && !IsTerminal(runs[n].phase))
    && (forall n :: n in runs && runs[n].owner == promotion && !IsTerminal(runs[n].phase) ==> runs[n].hash == hash)
  }

  /** A completed stamping reconcile on a fresh list leaves the new run as the only non-terminal one
      exactly when no run, of another promotion, held its name already. */
  lemma StampLeavesOnlyCurrentIff(p: Progress, promotion: string, hash: Hash, listed: seq<string>, targets: seq<string>)
    requires FreshList(p.w, promotion, listed) && !HasRunFor(p.w, listed, hash)
    requires !p.crashed && !Reconcile(p, promotion, hash, listed, targets).crashed
    ensures var q := Reconcile(p, promotion, hash, listed, targets);
            OnlyCurrentRuns(q.w.runs, promotion, hash) <==> AttemptName(promotion, hash) !in p.w.runs
  {
    SupersedeRuns(p, listed, targets);
    var mid, q := SupersedeAll(p, listed, targets), Reconcile(p, promotion, hash, listed, targets);
    var name := AttemptName(promotion, hash);
    forall n | n in mid.w.runs && mid.w.runs[n].owner == promotion
      ensures IsTerminal(mid.w.runs[n].phase) && mid.w.runs[n].hash != hash
    {
      assert n in p.w.runs && n in listed;
    }
    if name !in p.w.runs {
      assert q.w.runs == mid.w.runs[name := Run(promotion, hash, Unset)];
      assert name in q.w.runs;
    }
  }

  /** Over all completed reconciles on a fresh list: the current spec's run is the only live one exactly
      when it was stamped under a free name, or already was. */
  lemma OnlyCurrentIff(p: Progress, promotion: string, hash: Hash, listed: seq<string>, targets: seq<string>)
    requires FreshList(p.w, promotion, listed) && !p.crashed && !Reconcile(p, promotion, hash, listed, targets).crashed
    ensures OnlyCurrentRuns(Reconcile(p, promotion, hash, listed, targets).w.runs, promotion, hash)
            <==> (!HasRunFor(p.w, listed, hash) && AttemptName(promotion, hash) !in p.w.runs)
                 || OnlyCurrentRuns(p.w.runs, promotion, hash)
  {
    if !HasRunFor(p.w, listed, hash) {
      StampLeavesOnlyCurrentIff(p, promotion, hash, listed, targets);
    }
  }

  /** Specs A, B and A again from a world without runs: after three completed reconciles on fresh lists B's
      run is live and A's, though current again, is superseded. */
  lemma RevertLosesCurrent(w: World, promotion: string, a: Hash, b: Hash, fuel: nat, list1: seq<string>,
                           list2: seq<string>,
                           list3: seq<string>, targets: seq<string>)
    requires a != b && w.runs == map[]
    requires var first := Reconcile(Progress(w, fuel, false), promotion, a, list1, targets);
             var second := Reconcile(Progress(first.w, fuel, false), promotion, b, list2, targets);
             && FreshList(w, promotion, list1) && FreshList(first.w, promotion, list2)
             && FreshList(second.w, promotion, list3)
             && !first.crashed && !second.crashed
    ensures var first := Reconcile(Progress(w, fuel, false), promotion, a, list1, targets);
            var second := Reconcile(Progress(first.w, fuel, false), promotion, b, list2, targets);
            var third := Reconcile(Progress(second.w, fuel, false), promotion, a, list3, targets);
            && third.w.runs == map[AttemptName(promotion, a) := Run(promotion, a, Superseded),
                                   AttemptName(promotion, b) := Run(promotion, b, Unset)]
            && !OnlyCurrentRuns(third.w.runs, promotion, a)
  {
    var p := Progress(w, fuel, false);
    AttemptNames(promotion, a, promotion, b);
    var nameA, nameB := AttemptName(promotion, a), AttemptName(promotion, b);
    SupersedeRuns(p, list1, targets);
    var first := Reconcile(p, promotion, a, list1, targets);
    assert first.w.runs == map[nameA := Run(promotion, a, Unset)];
    var p2 := Progress(first.w, fuel, false);
    assert nameA in list2 && !HasRunFor(first.w, list2, b);
    SupersedeRuns(p2, list2, targets);
    var second := Reconcile(p2, promotion, b, list2, targets);
    assert second.w.runs == map[nameA := Run(promotion, a, Superseded), nameB := Run(promotion, b, Unset)];
    assert HasRunFor(second.w, list3, a) by { assert nameA in list3; }
    assert nameB in second.w.runs && second.w.runs[nameB].hash != a;
  }

  // ---- Restart after a crash --------------------------------------------------------------------------

  lemma SupersededFixed(before: map<string, Run>, mid: map<string, Run>, direct: map<string, Run>,
                        again: map<string, Run>, listed: seq<string>)
    requires OnlySuperseded(before, mid, listed) && OnlySuperseded(before, direct, listed)
    requires OnlySuperseded(mid, again, listed)
    requires forall n :: n in listed && n in before ==> IsTerminal(direct[n].phase) && IsTerminal(again[n].phase)
    ensures again == direct
  {
  }

  /** Crash anywhere, read the list again, reconcile to the end: the runs are those of one reconcile
      that never crashed. */
  lemma RestartReachesSameRuns(p: Progress, fuel: nat, promotion: string, hash: Hash, listed: seq<string>,
                               targets: seq<string>,
                               relisted: seq<string>, retargets: seq<string>)
    requires FreshList(p.w, promotion, listed) && !p.crashed
    requires var crash := Reconcile(p, promotion, hash, listed, targets);
             && FreshList(crash.w, promotion, relisted)
             && !Reconcile(Progress(crash.w, fuel, false), promotion, hash, relisted, retargets).crashed
    requires !Reconcile(Progress(p.w, fuel, false), promotion, hash, listed, targets).crashed
    ensures var crash := Reconcile(p, promotion, hash, listed, targets);
            Reconcile(Progress(crash.w, fuel, false), promotion, hash, relisted, retargets).w.runs
            == Reconcile(Progress(p.w, fuel, false), promotion, hash, listed, targets).w.runs
  {
    var crash := Reconcile(p, promotion, hash, listed, targets);
    var whole := Reconcile(Progress(p.w, fuel, false), promotion, hash, listed, targets);
    if !HasRunFor(p.w, listed, hash) {
      SupersedeRuns(p, listed, targets);
      SupersedeRuns(Progress(p.w, fuel, false), listed, targets);
      var mid := SupersedeAll(p, listed, targets);
      var name := AttemptName(promotion, hash);
      if crash.w.runs == mid.w.runs {
        RestartBeforeStamp(p, mid.w, crash.w, fuel, promotion, hash, listed, targets, relisted, retargets);
      } else {
        assert crash.w.runs == mid.w.runs[name := Run(promotion, hash, Unset)] && name !in p.w.runs && !mid.crashed;
        assert name in relisted && HasRunFor(crash.w, relisted, hash);
        SupersededFixed(p.w.runs, mid.w.runs, SupersedeAll(Progress(p.w, fuel, false), listed, targets).w.runs,
            mid.w.runs, listed);
      }
    } else {
      assert crash == p;
      assert HasRunFor(p.w, relisted, hash) by {
        var n :| n in listed && n in p.w.runs && p.w.runs[n].hash == hash;
        assert n in relisted;
      }
    }
  }

  lemma RestartBeforeStamp(p: Progress, mid: World, crash: World, fuel: nat, promotion: string, hash: Hash,
                           listed: seq<string>, targets: seq<string>, relisted: seq<string>, retargets: seq<string>)
    requires FreshList(p.w, promotion, listed) && FreshList(crash, promotion, relisted) && !HasRunFor(p.w, listed, hash)
    requires crash.runs == mid.runs && OnlySuperseded(p.w.runs, mid.runs, listed)
    requires !Reconcile(Progress(crash, fuel, false), promotion, hash, relisted, retargets).crashed
    requires !Reconcile(Progress(p.w, fuel, false), promotion, hash, listed, targets).crashed
    ensures Reconcile(Progress(crash, fuel, false), promotion, hash, relisted, retargets).w.runs
            == Reconcile(Progress(p.w, fuel, false), promotion, hash, listed, targets).w.runs
  {
    SupersedeRuns(Progress(p.w, fuel, false), listed, targets);
    SupersedeRuns(Progress(crash, fuel, false), relisted, retargets);
    var direct := SupersedeAll(Progress(p.w, fuel, false), listed, targets).w.runs;
    var again := SupersedeAll(Progress(crash, fuel, false), relisted, retargets).w.runs;
    assert forall n :: n in relisted <==> n in listed;
    assert !HasRunFor(crash, relisted, hash);
    SupersededFixed(p.w.runs, mid.runs, direct, again, listed);
  }

  // ---- Targets of superseded runs ---------------------------------------------------------------------

  predicate OfSuperseded(w: World, t: Target) { t.runRef in w.runs && w.runs[t.runRef].phase == Superseded }

  /** A target's cluster is still claimed by its run; an empty claim is none. */
  predicate Holds(w: World, t: Target) {
    t.cluster != "" && t.cluster in w.claims && w.claims[t.cluster] == t.runRef != ""
  }

  /** Every unfinished target of a superseded run is cancelled and its cluster released. */
  ghost predicate Settled(w: World) {
    forall t :: t in w.targets && OfSuperseded(w, w.targets[t]) && !w.targets[t].finished ==>
                  w.targets[t].cancelled && !Holds(w, w.targets[t])
  }

  function Cancelled(t: Target): Target { if t.finished then t else t.(cancelled := true) }

  lemma {:induction false} CancelClosedForm(p: Progress, run: string, targets: seq<string>)
    requires !CancelTargets(p, run, targets).crashed
    ensures var q := CancelTargets(p, run, targets);
            && !p.crashed && q.w.targets.Keys == p.w.targets.Keys
            && forall t :: t in p.w.targets ==>
                 q.w.targets[t] == if t in targets && p.w.targets[t].runRef == run then Cancelled(p.w.targets[t])
                     else p.w.targets[t]
  {
    if targets != [] {
      CancelClosedForm(p, run, targets[..|targets| - 1]);
    }
  }

  /** The runs a superseding pass over `listed` moves. */
  predicate Moved(runs: map<string, Run>, listed: seq<string>, run: string) {
    run in listed && run in runs && !IsTerminal(runs[run].phase)
  }

  lemma {:induction false} SupersedeClosedForm(p: Progress, listed: seq<string>, targets: seq<string>)
    requires !SupersedeAll(p, listed, targets).crashed && forall t :: t in p.w.targets ==> t in targets
    ensures var q := SupersedeAll(p, listed, targets);
            && q.w.targets.Keys == p.w.targets.Keys
            && (forall t :: t in p.w.targets ==>
                 q.w.targets[t] == if Moved(p.w.runs, listed, p.w.targets[t].runRef) then Cancelled(p.w.targets[t])
                     else p.w.targets[t])
            && (forall n :: n in p.w.runs ==>
                 n in q.w.runs && q.w.runs[n].phase == if Moved(p.w.runs, listed, n) then Superseded
                     else p.w.runs[n].phase)
            && q.w.runs.Keys == p.w.runs.Keys
  {
    if listed == [] {
      NothingMoved(p.w.runs);
    } else {
      hide CancelTargets, IsTerminal, Moved;
      var front, run := listed[..|listed| - 1], listed[|listed| - 1];
      SupersedeClosedForm(p, front, targets);
      var mid := SupersedeAll(p, front, targets);
      MovedStep(p.w.runs, mid.w.runs, listed);
      if run in mid.w.runs && !IsTerminal(mid.w.runs[run].phase) {
        var patched := Write(mid, mid.w.(runs := mid.w.runs[run := mid.w.runs[run].(phase := Superseded)]));
        CancelKeepsRuns(patched, run, targets);
        CancelClosedForm(patched, run, targets);
      }
    }
  }

  /** Cancelling the targets of `run` releases a cluster when one of them still has to be cancelled there. */
  predicate Releases(w: World, targets: seq<string>, run: string, cluster: string) {
    cluster != "" && exists t :: t in targets && Cancellable(w, run, t) && w.targets[t].cluster == cluster
  }

  lemma {:induction false} CancelClaims(p: Progress, run: string, targets: seq<string>)
    requires !CancelTargets(p, run, targets).crashed
    ensures var q := CancelTargets(p, run, targets);
            && q.w.claims.Keys == p.w.claims.Keys
            && forall c :: c in p.w.claims ==>
                 q.w.claims[c] == if p.w.claims[c] == run && Releases(p.w, targets, run, c) then "" else p.w.claims[c]
  {
    if targets != [] {
      var front, t := targets[..|targets| - 1], targets[|targets| - 1];
      var mid := CancelTargets(p, run, front);
      CancelClaims(p, run, front);
      CancelClosedForm(p, run, front);
      ReleasesStep(p.w, targets, run);
      OneClaim(mid, run, t);
      assert CancelTargets(p, run, targets) == CancelOne(mid, run, t);
      hide CancelTargets, CancelOne, Releases;
      assert Cancellable(mid.w, run, t) ==> Cancellable(p.w, run, t);
      assert Cancellable(p.w, run, t) && t !in front ==> Cancellable(mid.w, run, t);
    }
  }

  lemma ReleasesStep(w: World, targets: seq<string>, run: string)
    requires targets != []
    ensures var front, t := targets[..|targets| - 1], targets[|targets| - 1];
            forall c :: Releases(w, targets, run, c) <==>
              Releases(w, front, run, c) || (c != "" && Cancellable(w, run, t) && w.targets[t].cluster == c)
  {
    assert targets == targets[..|targets| - 1] + [targets[|targets| - 1]];
  }

  lemma OneClaim(p: Progress, run: string, t: string)
    requires !CancelOne(p, run, t).crashed
    ensures var q := CancelOne(p, run, t);
            && q.w.claims.Keys == p.w.claims.Keys
            && forall c :: c in p.w.claims ==>
                 q.w.claims[c] == if p.w.claims[c] == run && c != "" && Cancellable(p.w, run, t)
                     && p.w.targets[t].cluster == c
                                  then "" else p.w.claims[c]
  {
  }

  /** A completed pass releases exactly the clusters claimed by a run it moved and in which it cancels a
      target of that run. */
  lemma {:induction false} SupersedeClaims(p: Progress, listed: seq<string>, targets: seq<string>)
    requires !SupersedeAll(p, listed, targets).crashed && forall t :: t in p.w.targets ==> t in targets
    ensures var q := SupersedeAll(p, listed, targets);
            && q.w.claims.Keys == p.w.claims.Keys
            && forall c :: c in p.w.claims ==>
                 q.w.claims[c] == if Moved(p.w.runs, listed, p.w.claims[c]) && Releases(p.w, targets, p.w.claims[c], c)
                                  then "" else p.w.claims[c]
  {
    if listed != [] {
      hide CancelTargets, IsTerminal, Releases, Moved;
      var front, run := listed[..|listed| - 1], listed[|listed| - 1];
      SupersedeClaims(p, front, targets);
      SupersedeClosedForm(p, front, targets);
      var mid := SupersedeAll(p, front, targets);
      MovedStep(p.w.runs, mid.w.runs, listed);
      if run in mid.w.runs && !IsTerminal(mid.w.runs[run].phase) {
        var patched := Write(mid, mid.w.(runs := mid.w.runs[run := mid.w.runs[run].(phase := Superseded)]));
        CancelClaims(patched, run, targets);
        forall c ensures Releases(patched.w, targets, run, c) == Releases(p.w, targets, run, c) {
          SameReleases(p.w, patched.w, targets, run, c);
        }
      }
    }
  }

  lemma NothingMoved(runs: map<string, Run>)
    ensures forall n :: !Moved(runs, [], n)
  {
  }

  lemma MovedStep(runs: map<string, Run>, mid: map<string, Run>, listed: seq<string>)
    requires listed != [] && mid.Keys == runs.Keys
    requires forall n :: n in runs ==> mid[n].phase == if Moved(runs, listed[..|listed| - 1], n) then Superseded
               else runs[n].phase
    ensures var front, run := listed[..|listed| - 1], listed[|listed| - 1];
            && (run in mid && !IsTerminal(mid[run].phase) ==> !Moved(runs, front, run))
            && forall n :: Moved(runs, listed, n) <==>
                 Moved(runs, front, n) || (n == run && run in mid && !IsTerminal(mid[run].phase))
  {
    assert listed == listed[..|listed| - 1] + [listed[|listed| - 1]];
  }

  lemma SameReleases(a: World, b: World, targets: seq<string>, run: string, c: string)
    requires a.targets.Keys == b.targets.Keys
    requires forall t :: t in a.targets && (a.targets[t].runRef == run || b.targets[t].runRef == run) ==>
               a.targets[t] == b.targets[t]
    ensures Releases(a, targets, run, c) == Releases(b, targets, run, c)
  {
  }

  /** No target of a run about to be superseded was cancelled before and left its cluster claimed, unless
      another target of that run in that cluster still has to be cancelled. */
  ghost predicate NoOrphanClaim(w: World, listed: seq<string>, targets: seq<string>) {
    forall t :: t in w.targets && Moved(w.runs, listed, w.targets[t].runRef) && Orphan(w, w.targets[t]) ==>
                  Releases(w, targets, w.targets[t].runRef, w.targets[t].cluster)
  }

  predicate Orphan(w: World, t: Target) { !t.finished && t.cancelled && Holds(w, t) }

  /** A completed stamping reconcile cancels the targets and releases the clusters of the runs it supersedes
      itself, and only of those: it ends settled exactly when it started settled and none of those runs has
      a target cancelled earlier that holds its cluster. A crash between a run's patch and its last target
      or claim is therefore never made good by a retry. */
  lemma SettledIff(p: Progress, promotion: string, hash: Hash, listed: seq<string>, targets: seq<string>)
    requires !HasRunFor(p.w, listed, hash) && !p.crashed && !Reconcile(p, promotion, hash, listed, targets).crashed
    requires forall t :: t in p.w.targets ==> t in targets
    ensures Settled(Reconcile(p, promotion, hash, listed, targets).w) <==>
              Settled(p.w) && NoOrphanClaim(p.w, listed, targets)
  {
    hide SupersedeAll, Settled, NoOrphanClaim;
    SupersedeClosedForm(p, listed, targets);
    SupersedeClaims(p, listed, targets);
    var mid, q := SupersedeAll(p, listed, targets), Reconcile(p, promotion, hash, listed, targets);
    assert q.w.targets == mid.w.targets && q.w.claims == mid.w.claims;
    SettledAfter(p.w, q.w, listed, targets);
  }

  ghost predicate Loose(w: World, t: Target) {
    OfSuperseded(w, t) && !t.finished && (!t.cancelled || Holds(w, t))
  }

  lemma SettledAfter(w: World, q: World, listed: seq<string>, targets: seq<string>)
    requires q.targets.Keys == w.targets.Keys && q.claims.Keys == w.claims.Keys
    requires forall t :: t in w.targets ==> t in targets
    requires forall t :: t in w.targets ==>
               q.targets[t] == if Moved(w.runs, listed, w.targets[t].runRef) then Cancelled(w.targets[t])
                   else w.targets[t]
    requires forall n :: n in w.runs ==>
               n in q.runs && q.runs[n].phase == if Moved(w.runs, listed, n) then Superseded else w.runs[n].phase
    requires forall n :: n in q.runs && n !in w.runs ==> q.runs[n].phase != Superseded
    requires forall c :: c in w.claims ==>
               q.claims[c] == if Moved(w.runs, listed, w.claims[c]) && Releases(w, targets, w.claims[c], c) then ""
                   else w.claims[c]
    ensures Settled(q) <==> Settled(w) && NoOrphanClaim(w, listed, targets)
  {
    forall t | t in w.targets
      ensures Loose(q, q.targets[t]) <==>
              Loose(w, w.targets[t]) || (Moved(w.runs, listed, w.targets[t].runRef) && Orphan(w, w.targets[t])
                                         && !Releases(w, targets, w.targets[t].runRef, w.targets[t].cluster))
    {
      OneTarget(w, q, listed, targets, t);
    }
    assert Settled(q) <==> forall t :: t in q.targets ==> !Loose(q, q.targets[t]);
    assert Settled(w) <==> forall t :: t in w.targets ==> !Loose(w, w.targets[t]);
  }

  lemma OneTarget(w: World, q: World, listed: seq<string>, targets: seq<string>, t: string)
    requires t in w.targets && t in q.targets && t in targets && q.claims.Keys == w.claims.Keys
    requires var r := w.targets[t].runRef; q.targets[t] == if Moved(w.runs, listed, r) then Cancelled(w.targets[t])
               else w.targets[t]
    requires forall n :: n in w.runs ==>
               n in q.runs && q.runs[n].phase == if Moved(w.runs, listed, n) then Superseded else w.runs[n].phase
    requires forall n :: n in q.runs && n !in w.runs ==> q.runs[n].phase != Superseded
    requires forall c :: c in w.claims ==>
               q.claims[c] == if Moved(w.runs, listed, w.claims[c]) && Releases(w, targets, w.claims[c], c) then ""
                   else w.claims[c]
    ensures Loose(q, q.targets[t]) <==>
            Loose(w, w.targets[t]) || (Moved(w.runs, listed, w.targets[t].runRef) && Orphan(w, w.targets[t])
                                       && !Releases(w, targets, w.targets[t].runRef, w.targets[t].cluster))
  {
    var x := w.targets[t];
    if Moved(w.runs, listed, x.runRef) && !x.finished && !x.cancelled && x.cluster != "" {
      assert Cancellable(w, x.runRef, t);
      assert Releases(w, targets, x.runRef, x.cluster);
    }
  }

  /** The world after stamping A, with one target and its claim. */
  function OneTargetWorld(promotion: string, a: Hash, cluster: string): World {
    var run := AttemptName(promotion, a);
    World(map[run := Run(promotion, a, Progressing)], map["t" := Target(run, cluster, false, false)],
        map[cluster := run])
  }

  /** Stamping B over A's live run with a crash after `writes` writes, and a retry that completes. */
  function CrashAndRetry(promotion: string, a: Hash, b: Hash, cluster: string, writes: nat): Progress {
    var list := [AttemptName(promotion, a)];
    var crash := Reconcile(Progress(OneTargetWorld(promotion, a, cluster), writes, false), promotion, b, list, ["t"]);
    Reconcile(Progress(crash.w, 9, false), promotion, b, list, ["t"])
  }

  /** A crash after A's run is superseded: the retry finishes, yet A's target runs on and holds its cluster.
      A crash one write later leaves the target cancelled and the cluster claimed for good. */
  lemma RetrySkipsTargets(promotion: string, a: Hash, b: Hash, cluster: string)
    requires a != b && cluster != ""
    ensures var end := CrashAndRetry(promotion, a, b, cluster, 1);
            !end.crashed && end.w.targets == OneTargetWorld(promotion, a, cluster).targets && !Settled(end.w)
    ensures var end := CrashAndRetry(promotion, a, b, cluster, 2);
            && !end.crashed && "t" in end.w.targets && end.w.targets["t"].cancelled
            && cluster in end.w.claims && end.w.claims[cluster] == AttemptName(promotion, a) && !Settled(end.w)
  {
    var run, w := AttemptName(promotion, a), OneTargetWorld(promotion, a, cluster);
    AttemptNames(promotion, a, promotion, b);
    var list, w1 := [run], w.(runs := w.runs[run := Run(promotion, a, Superseded)]);
    var w2 := w1.(targets := w1.targets["t" := Target(run, cluster, false, true)]);
    OneStep(promotion, a, b, cluster, 1);
    OneStep(promotion, a, b, cluster, 2);
    RetryDone(w1, promotion, a, b);
    RetryDone(w2, promotion, a, b);
    assert OfSuperseded(CrashAndRetry(promotion, a, b, cluster, 1).w, w1.targets["t"]);
    assert OfSuperseded(CrashAndRetry(promotion, a, b, cluster, 2).w, w2.targets["t"]);
  }

  /** The crashed reconcile: it stops with the run patched, and with two writes the target as well. */
  lemma OneStep(promotion: string, a: Hash, b: Hash, cluster: string, writes: nat)
    requires a != b && cluster != "" && 1 <= writes <= 2
    ensures var run, w := AttemptName(promotion, a), OneTargetWorld(promotion, a, cluster);
            var w1 := w.(runs := w.runs[run := Run(promotion, a, Superseded)]);
            Reconcile(Progress(w, writes, false), promotion, b, [run], ["t"])
            == Progress(if writes == 1 then w1
                else w1.(targets := w1.targets["t" := Target(run, cluster, false, true)]), 0, true)
  {
    var run, w := AttemptName(promotion, a), OneTargetWorld(promotion, a, cluster);
    var w1 := w.(runs := w.runs[run := Run(promotion, a, Superseded)]);
    var p, p1 := Progress(w, writes, false), Progress(w1, writes - 1, false);
    assert [run][..0] == [] && ["t"][..0] == [];
    assert !HasRunFor(w, [run], b);
    assert SupersedeAll(p, [], ["t"]) == p;
    assert CancelTargets(p1, run, []) == p1;
    assert CancelTargets(p1, run, ["t"]) == CancelOne(p1, run, "t");
    assert SupersedeAll(p, [run], ["t"]) == SupersedeOne(p, run, ["t"]);
  }

  lemma RetryDone(w: World, promotion: string, a: Hash, b: Hash)
    requires a != b && w.runs == map[AttemptName(promotion, a) := Run(promotion, a, Superseded)]
    ensures var end := Reconcile(Progress(w, 9, false), promotion, b, [AttemptName(promotion, a)], ["t"]);
            && !end.crashed && end.w.targets == w.targets && end.w.claims == w.claims
            && end.w.runs == w.runs[AttemptName(promotion, b) := Run(promotion, b, Unset)]
  {
    var run := AttemptName(promotion, a);
    AttemptNames(promotion, a, promotion, b);
    var p := Progress(w, 9, false);
    assert [run][..0] == [] && SupersedeAll(p, [], ["t"]) == p && SupersedeAll(p, [run], ["t"]) == p;
    assert !HasRunFor(w, [run], b);
  }

  // ---- One run per hash, whatever interleaves -----------------------------------------------------------

  /** The API writes that any number of reconcilers with stale lists, the run's own controller, other
      promotions and the garbage collector can land, in any order. */
  datatype Event =
    | PatchSuperseded(run: string)
    | CreateRun(hash: Hash)
    | Advance(run: string, phase: Phase)
    | Collect(run: string)
    | Foreign(run: string, value: Run)

  function Apply(promotion: string, runs: map<string, Run>, e: Event): map<string, Run> {
    match e
    case PatchSuperseded(n) => if n in runs then runs[n := runs[n].(phase := Superseded)] else runs
    case CreateRun(hash) =>
      var n := AttemptName(promotion, hash);
      if n in runs then runs else runs[n := Run(promotion, hash, Unset)]
    case Advance(n, phase) => if n in runs && !IsTerminal(runs[n].phase) then runs[n := runs[n].(phase := phase)]
        else runs
    case Collect(n) => if n in runs && IsTerminal(runs[n].phase) then runs - {n} else runs
    case Foreign(n, value) => if n !in runs && value.owner != promotion then runs[n := value] else runs
  }

  function History(promotion: string, runs: map<string, Run>, events: seq<Event>): map<string, Run> {
    if events == [] then runs
        else Apply(promotion, History(promotion, runs, events[..|events| - 1]), events[|events| - 1])
  }

  ghost predicate NamedByHash(promotion: string, runs: map<string, Run>) {
    forall n :: n in runs && runs[n].owner == promotion ==>
        |runs[n].hash| == HASH_LENGTH && n == AttemptName(promotion, runs[n].hash)
  }

  lemma {:induction false} HistoryNamed(promotion: string, runs: map<string, Run>, events: seq<Event>)
    requires NamedByHash(promotion, runs)
    ensures NamedByHash(promotion, History(promotion, runs, events))
  {
    if events != [] {
      HistoryNamed(promotion, runs, events[..|events| - 1]);
    }
  }

  lemma HistoryStep(promotion: string, runs: map<string, Run>, events: seq<Event>, e: Event)
    ensures History(promotion, runs, events + [e]) == Apply(promotion, History(promotion, runs, events), e)
  {
    assert (events + [e])[..|events|] == events;
  }

  lemma {:induction false} SupersedeHistory(p: Progress, promotion: string, listed: seq<string>, targets: seq<string>)
    returns (events: seq<Event>)
    ensures SupersedeAll(p, listed, targets).w.runs == History(promotion, p.w.runs, events)
    ensures forall e :: e in events ==> e.PatchSuperseded? && e.run in listed
  {
    events := [];
    if listed != [] {
      hide History, CancelTargets, IsTerminal;
      var front, run := listed[..|listed| - 1], listed[|listed| - 1];
      assert run in listed && forall n :: n in front ==> n in listed;
      events := SupersedeHistory(p, promotion, front, targets);
      var mid := SupersedeAll(p, front, targets);
      if !mid.crashed && mid.fuel > 0 && run in mid.w.runs && !IsTerminal(mid.w.runs[run].phase) {
        var patched := Write(mid, mid.w.(runs := mid.w.runs[run := mid.w.runs[run].(phase := Superseded)]));
        CancelKeepsRuns(patched, run, targets);
        HistoryStep(promotion, p.w.runs, events, PatchSuperseded(run));
        events := events + [PatchSuperseded(run)];
      }
    }
  }

  /** What a reconcile does to the runs, whatever list it works on and wherever it crashes, are such writes:
      listed runs superseded, then at most one run created, for its own hash. */
  lemma ReconcileIsHistory(p: Progress, promotion: string, hash: Hash, listed: seq<string>, targets: seq<string>)
    returns (events: seq<Event>)
    ensures Reconcile(p, promotion, hash, listed, targets).w.runs == History(promotion, p.w.runs, events)
    ensures forall i :: 0 <= i < |events| ==>
              (events[i].PatchSuperseded? && events[i].run in listed)
                || (events[i] == CreateRun(hash) && i == |events| - 1)
  {
    events := [];
    if !p.crashed && !HasRunFor(p.w, listed, hash) {
      events := SupersedeHistory(p, promotion, listed, targets);
      var mid := SupersedeAll(p, listed, targets);
      if !mid.crashed && mid.fuel > 0 {
        HistoryStep(promotion, p.w.runs, events, CreateRun(hash));
        events := events + [CreateRun(hash)];
      }
    }
  }

  /** At no time do two runs of one promotion carry the same spec hash. */
  lemma OneRunPerHash(promotion: string, events: seq<Event>, a: string, b: string)
    requires var runs := History(promotion, map[], events);
             a in runs && b in runs && runs[a].owner == promotion && runs[b].owner == promotion
                 && runs[a].hash == runs[b].hash
    ensures a == b
  {
    HistoryNamed(promotion, map[], events);
  }
}
