/**
 Crash recovery in the transition system of BootstrapProtocol: the passes of BootstrapRecovery are runs of
 it, so an interrupted binding is completed by finitely many reconciles, exactly as long as the bound CSR
 can still be listed.
 */
module BootstrapProgress {
  import opened Wrappers
  import opened BootstrapModel
  import opened BootstrapRecovery
  import opened BootstrapProtocol
  import opened BootstrapSafety
  import opened BootstrapReconcile

  // ---- A CSR that is no longer listable ----------------------------------------------------------------

  /** Pending, and labelled for something else. */
  ghost predicate Stranded(cfg: Config, s: State, name: string) {
    name in s.csrs && |s.csrs[name]| > 0 && var csr := s.csrs[name][|s.csrs[name]| - 1];
        !csr.Final() && !Listable(cfg, csr)
  }

  predicate Relabels(events: seq<Event>, name: string) {
    exists e :: e in events && e.Relabel? && e.name == name
  }

  /** What a scan step can do to the CSRs: deny the fresh, pending copy it looks at. */
  lemma ScanCsrs(cfg: Config, s: State, t: nat, fc: nat, todo: seq<CsrRef>)
    requires fc < |s.versions| && todo != [] && s.HasCsr(todo[0])
    ensures var r, next := todo[0], ScanHead(cfg, s, t, fc, todo);
            || next.csrs == s.csrs
            || (s.IsCurrent(r) && Ours(cfg, s.Copy(r).spec)
                && next.csrs == s.csrs[r.name := s.csrs[r.name] + [s.Copy(r).(denied := true)]])
  {
    hide Classify, Expired, Deny, AsksIdentity, FromBootstrapAccount, FromCluster;
    var r := todo[0];
    PurposeIff(cfg, s.Copy(r).spec, s.versions[fc].slot.used);
    DenyCsrs(s, t, r, Scanning(fc, todo[1..]));
    DenyCsrs(s, t, r, Idle);
  }

  lemma DenyCsrs(s: State, t: nat, r: CsrRef, next: Local)
    requires s.HasCsr(r)
    ensures Deny(s, t, r, next).csrs == if s.IsCurrent(r)
              then s.csrs[r.name := s.csrs[r.name] + [s.Copy(r).(denied := true)]] else s.csrs
  {
  }

  /** `csrs` are those of `s` with a verdict on the fresh, listable copy `r`. */
  predicate VerdictOn(cfg: Config, s: State, r: CsrRef, approve: bool, csrs: map<string, seq<Csr>>) {
    && s.HasCsr(r) && s.IsCurrent(r) && Listable(cfg, s.Copy(r)) && Ours(cfg, s.Copy(r).spec)
    && var csr := if approve then s.Copy(r).(approved := true) else s.Copy(r).(denied := true);
       csrs == s.csrs[r.name := s.csrs[r.name] + [csr]]
  }

  /** All that any event can do to the CSRs: submit one, relabel one, or give a verdict on one. */
  ghost predicate CsrEffect(cfg: Config, s: State, e: Event, csrs: map<string, seq<Csr>>) {
    || csrs == s.csrs
    || (e.CreateCsr? && e.name !in s.csrs && csrs == s.csrs[e.name := [Csr(e.spec, e.clusterLabel, false, false)]])
    || (e.Relabel? && Relabelled(s, e.name, e.clusterLabel, csrs))
    || exists r, approve :: VerdictOn(cfg, s, r, approve, csrs)
  }

  predicate Relabelled(s: State, name: string, clusterLabel: string, csrs: map<string, seq<Csr>>) {
    && name in s.csrs && |s.csrs[name]| > 0
    && var h := s.csrs[name]; csrs == s.csrs[name := h + [h[|h| - 1].(clusterLabel := clusterLabel)]]
  }

  lemma CsrsAfter(cfg: Config, s: State, e: Event)
    requires Inv(cfg, s)
    ensures CsrEffect(cfg, s, e, Apply(cfg, s, e).csrs)
  {
    hide Inv, MarkOnce, ScanHead, UpdateApproval, VerdictOn, Expired, AllowedPatch, AllListable;
    match e {
      case Scan(t) => ScanEffect(cfg, s, t);
      case Approve(t) => ApproveEffect(cfg, s, t);
      case TryMark(t, refetch) =>
        var l := s.At(t);
        if l.Marking? && l.fc < |s.versions| { MarkKeepsCsrs(s, t, l.fc, l.csr, l.attempt, refetch); }
      case _ =>
    }
  }

  lemma ScanEffect(cfg: Config, s: State, t: nat)
    requires Inv(cfg, s)
    ensures CsrEffect(cfg, s, Scan(t), Apply(cfg, s, Scan(t)).csrs)
  {
    hide Inv, ScanHead, AllListable;
    LocalAt(cfg, s, t);
    var l := s.At(t);
    if l.Scanning? && l.todo != [] {
      ListedIsListable(cfg, s, l.todo);
      ScanCsrs(cfg, s, t, l.fc, l.todo);
      var csrs := ScanHead(cfg, s, t, l.fc, l.todo).csrs;
      assert csrs == s.csrs || VerdictOn(cfg, s, l.todo[0], false, csrs);
    }
  }

  lemma ApproveEffect(cfg: Config, s: State, t: nat)
    requires Inv(cfg, s)
    ensures CsrEffect(cfg, s, Event.Approve(t), Apply(cfg, s, Event.Approve(t)).csrs)
  {
    hide Inv, Handling;
    LocalAt(cfg, s, t);
    var l := s.At(t);
    if l.Approving? {
      HandledIsListable(cfg, s, l.csr, l.kind);
      assert s.IsCurrent(l.csr) ==> VerdictOn(cfg, s, l.csr, true, Apply(cfg, s, Event.Approve(t)).csrs);
    }
  }

  /** Whatever has a verdict asked for this cluster's identity. */
  ghost predicate JudgesOurs(cfg: Config, s: State) {
    forall n, i :: n in s.csrs && 0 <= i < |s.csrs[n]| && s.csrs[n][i].Final() ==> Ours(cfg, s.csrs[n][i].spec)
  }

  lemma StepJudges(cfg: Config, s: State, e: Event)
    requires Inv(cfg, s) && JudgesOurs(cfg, s)
    ensures JudgesOurs(cfg, Apply(cfg, s, e))
  {
    hide Inv, Apply, Ours;
    CsrsAfter(cfg, s, e);
  }

  /** In every reachable state a CSR that was approved or denied, by any reconciler and from any copy, asked for
      this cluster's identity in the name of its bootstrap ServiceAccount or its own: no other CSR is judged. */
  lemma {:induction false} VerdictsAreOurs(cfg: Config, s: State, events: seq<Event>)
    requires Initial(s)
    ensures JudgesOurs(cfg, Run(cfg, s, events))
  {
    if events != [] {
      hide Apply, JudgesOurs, Inv;
      VerdictsAreOurs(cfg, s, events[..|events| - 1]);
      InitialInv(cfg, s);
      RunKeepsInv(cfg, s, events[..|events| - 1]);
      StepJudges(cfg, Run(cfg, s, events[..|events| - 1]), events[|events| - 1]);
    }
  }

  lemma StepStrands(cfg: Config, s: State, e: Event, name: string)
    requires Inv(cfg, s) && Stranded(cfg, s, name) && !(e.Relabel? && e.name == name)
    ensures Stranded(cfg, Apply(cfg, s, e), name)
  {
    hide Inv, Apply;
    CsrsAfter(cfg, s, e);
    var csrs := Apply(cfg, s, e).csrs;
  }

  lemma ListedIsListable(cfg: Config, s: State, todo: seq<CsrRef>)
    requires AllListable(cfg, s, todo) && todo != []
    ensures s.HasCsr(todo[0]) && Listable(cfg, s.Copy(todo[0]))
  {
    assert todo[0] in todo;
  }

  lemma HandledIsListable(cfg: Config, s: State, r: CsrRef, kind: Kind)
    requires |s.versions| > 0 && Handling(cfg, s, r, kind)
    ensures s.HasCsr(r) && Listable(cfg, s.Copy(r)) && Ours(cfg, s.Copy(r).spec)
  {
    PurposeIff(cfg, s.Copy(r).spec, true);
  }

  lemma MarkKeepsCsrs(s: State, t: nat, fc: nat, r: CsrRef, attempt: nat, refetch: nat)
    requires fc < |s.versions|
    ensures MarkOnce(s, t, fc, r, attempt, refetch).csrs == s.csrs
  {
  }

  /** Until somebody relabels it, a CSR labelled for something else never gets a verdict, whatever any
      reconciler with any copies does. */
  lemma {:induction false} StrandedForever(cfg: Config, s: State, events: seq<Event>, name: string)
    requires Inv(cfg, s) && Stranded(cfg, s, name) && !Relabels(events, name)
    ensures Stranded(cfg, Run(cfg, s, events), name)
  {
    if events != [] {
      hide Inv, Apply, Stranded;
      var front, e := events[..|events| - 1], events[|events| - 1];
      assert e in events && forall x :: x in front ==> x in events;
      StrandedForever(cfg, s, front, name);
      RunKeepsInv(cfg, s, front);
      StepStrands(cfg, Run(cfg, s, front), e, name);
    }
  }

  /** From any crash window of a live Cluster, every sequence of as many error-free reconciles as CSRs are
      waiting, by any reconcilers and over any lists that have the bound CSR, approves it and keeps the
      slot. */
  lemma RecoveryByAnyTurns(cfg: Config, s: State, turns: seq<Turn>)
    requires Resumable(cfg, s) && Interrupted(cfg, s.Current().slot, Latest(s)) && TakesTurns(cfg, s, turns)
    requires |turns| >= |Waiting(cfg, Latest(s))|
    requires forall i :: 0 <= i < |turns| ==> s.Current().slot.bound in turns[i].listed
    ensures var end := Run(cfg, s, Events(turns));
            end.versions == s.versions && Histories(end) && Recovered(s.Current().slot, Latest(end))
  {
    hide Inv, TakesTurns, Run, Passes;
    TurnsArePasses(cfg, s, turns);
    forall l | l in Lists(turns)
      ensures s.Current().slot.bound in l
    {
      var i :| 0 <= i < |turns| && Lists(turns)[i] == l;
    }
    CrashRecovery(cfg, ViewOf(s), Lists(turns));
  }

  /** Such a sequence exists from any crash window with a listable bound CSR: one idle reconciler suffices. */
  lemma {:induction false} SomeTurns(cfg: Config, s: State, t: nat, n: nat) returns (turns: seq<Turn>)
    requires Resumable(cfg, s) && s.At(t).Idle? && s.Current().slot.bound in Latest(s)
    requires Listable(cfg, Latest(s)[s.Current().slot.bound])
    ensures |turns| == n && TakesTurns(cfg, s, turns)
    ensures forall i :: 0 <= i < n ==> turns[i].t == t && s.Current().slot.bound in turns[i].listed
    ensures !Relabels(Events(turns), s.Current().slot.bound)
    decreases n
  {
    if n == 0 {
      turns := [];
    } else {
      hide Inv, Run, Process;
      var name := s.Current().slot.bound;
      var events := SomeReconcile(cfg, s, t, [name]);
      var mid := Run(cfg, s, events);
      ResumedIsPass(cfg, s, t, [name], events);
      ProcessKeepsLabels(cfg, false, ViewOf(s), [name]);
      var rest := SomeTurns(cfg, mid, t, n - 1);
      turns := [Turn(t, [name], events)] + rest;
      assert turns[1..] == rest;
      NoRelabelInside(cfg, s, t, [name], events, name);
    }
  }

  lemma NoRelabelInside(cfg: Config, s: State, t: nat, listed: seq<string>, events: seq<Event>, name: string)
    requires Reconciles(cfg, s, t, listed, events)
    ensures !Relabels(events, name)
  {
    assert events == [events[0], events[1]] + events[2..];
  }

  lemma SomeRecovery(cfg: Config, s: State) returns (events: seq<Event>)
    requires Resumable(cfg, s) && Interrupted(cfg, s.Current().slot, Latest(s))
    requires Listable(cfg, Latest(s)[s.Current().slot.bound])
    ensures Completes(cfg, s, events)
  {
    hide Inv, Run, TakesTurns, Waiting;
    var idle := s.With(0, Idle);
    PauseKeeps(cfg, s, 0, Idle);
    assert Latest(idle) == Latest(s);
    var turns := SomeTurns(cfg, idle, 0, |Waiting(cfg, Latest(s))|);
    RecoveryByAnyTurns(cfg, idle, turns);
    assert Apply(cfg, s, Crash(0)) == idle;
    RunThen(cfg, s, Crash(0), Events(turns));
    events := [Crash(0)] + Events(turns);
  }

  /** From any crash window of a live Cluster some continuation without relabelling approves the bound CSR
      exactly when that CSR can be listed now. */
  lemma RecoveryIff(cfg: Config, s: State)
    requires Resumable(cfg, s) && Interrupted(cfg, s.Current().slot, Latest(s))
    ensures (exists events :: Completes(cfg, s, events)) <==> Listable(cfg, Latest(s)[s.Current().slot.bound])
  {
    hide Inv, Run;
    var name := s.Current().slot.bound;
    if Listable(cfg, Latest(s)[name]) {
      var events := SomeRecovery(cfg, s);
    } else {
      forall events ensures !Completes(cfg, s, events) {
        if !Relabels(events, name) { StrandedForever(cfg, s, events, name); }
      }
    }
  }

  /** A continuation that approves the bound CSR without anybody relabelling it. */
  ghost predicate Completes(cfg: Config, s: State, events: seq<Event>)
    requires |s.versions| > 0
  {
    var name, end := s.Current().slot.bound, Run(cfg, s, events);
    !Relabels(events, name) && name in end.csrs && |end.csrs[name]| > 0 && end.csrs[name][|end.csrs[name]| - 1].approved
  }

  // ---- Reachable crash windows ---------------------------------------------------------------------

  /** Every version of a CSR carries the label it was created with. */
  ghost predicate LabelsKept(s: State) {
    forall n, i :: n in s.csrs && 0 <= i < |s.csrs[n]| ==> s.csrs[n][i].clusterLabel == s.csrs[n][0].clusterLabel
  }

  lemma StepKeepsLabels(cfg: Config, s: State, e: Event)
    requires Inv(cfg, s) && LabelsKept(s) && !e.Relabel?
    ensures LabelsKept(Apply(cfg, s, e))
  {
    hide Inv, Apply;
    CsrsAfter(cfg, s, e);
  }

  lemma {:induction false} RunKeepsLabels(cfg: Config, s: State, events: seq<Event>)
    requires Initial(s) && forall e :: e in events ==> !e.Relabel?
    ensures Inv(cfg, Run(cfg, s, events)) && LabelsKept(Run(cfg, s, events))
  {
    InitialInv(cfg, s);
    if events != [] {
      hide Inv, Apply, LabelsKept;
      var front, e := events[..|events| - 1], events[|events| - 1];
      assert e in events && forall x :: x in front ==> x in events;
      RunKeepsLabels(cfg, s, front);
      RunKeepsInv(cfg, s, events);
      StepKeepsLabels(cfg, Run(cfg, s, front), e);
    }
  }

  /** The bound CSR was listable when it was bound, in every reachable state. */
  lemma BoundWasListable(cfg: Config, s: State, events: seq<Event>)
    requires Initial(s)
    ensures var end := Run(cfg, s, events);
            |end.versions| > 0 && (end.Current().slot.used ==>
              end.Current().slot.bound in end.csrs && WasListable(cfg, end.csrs[end.Current().slot.bound]))
  {
    InitialInv(cfg, s);
    RunKeepsInv(cfg, s, events);
  }

  /** While nobody relabels CSRs the crash window can be left: in every reachable state of a live Cluster
      whose slot is used and whose bound CSR is pending, that CSR is among those every fresh list has. */
  lemma BoundIsListable(cfg: Config, s: State, before: seq<Event>)
    requires Initial(s) && forall e :: e in before ==> !e.Relabel?
    ensures var end := Run(cfg, s, before);
            && |end.versions| > 0 && Histories(end)
            && (end.Current().slot.used ==>
                  var name := end.Current().slot.bound; name in Latest(end) && Listable(cfg, Latest(end)[name]))
  {
    hide Run;
    RunKeepsLabels(cfg, s, before);
    BoundWasListable(cfg, s, before);
    var end := Run(cfg, s, before);
    HistoriesOf(cfg, end);
    if end.Current().slot.used {
      var h := end.csrs[end.Current().slot.bound];
      var i :| 0 <= i < |h| && Listable(cfg, h[i]);
      assert h[i].clusterLabel == h[0].clusterLabel == h[|h| - 1].clusterLabel;
    }
  }

  lemma HistoriesOf(cfg: Config, s: State)
    requires Inv(cfg, s)
    ensures |s.versions| > 0 && Histories(s) && (s.Current().slot.used ==> s.Current().slot.bound != "")
  {
    assert SlotKept(s.Current(), s.Current());
  }

  /** A list with every CSR that can be listed. */
  ghost predicate Complete(cfg: Config, csrs: Csrs, listed: seq<string>) {
    forall n :: n in csrs && Listable(cfg, csrs[n]) ==> n in listed
  }

  /** While nobody relabels CSRs recovery is unconditional: from every reachable state of a live Cluster
      whose slot is used and whose bound CSR is pending, every sequence of as many error-free reconciles as
      CSRs are waiting, by any reconcilers and over complete lists in any order, approves the bound CSR and
      keeps the slot. */
  lemma ReachableRecovery(cfg: Config, s: State, before: seq<Event>, turns: seq<Turn>)
    requires Initial(s) && forall e :: e in before ==> !e.Relabel?
    requires var end := Run(cfg, s, before);
             && BoundPending(end) && Histories(end) && Live(end.Current())
             && |turns| >= |Waiting(cfg, Latest(end))| && TakesTurns(cfg, end, turns)
             && forall i :: 0 <= i < |turns| ==> Complete(cfg, Latest(end), turns[i].listed)
    ensures var slot, after := Run(cfg, s, before).Current().slot, Run(cfg, s, before + Events(turns));
            Histories(after) && Recovered(slot, Latest(after)) && |after.versions| > 0 && after.Current().slot == slot
  {
    hide Run, TakesTurns, Interrupted, Inv;
    var end := Run(cfg, s, before);
    CrashWindow(cfg, s, before);
    BoundIsListable(cfg, s, before);
    RunKeepsLabels(cfg, s, before);
    HistoriesOf(cfg, end);
    RecoveryByAnyTurns(cfg, end, turns);
    RunConcat(cfg, s, before, Events(turns));
  }

  // ---- A relabelled CSR ------------------------------------------------------------------------------

  function BootstrapSpec(cfg: Config): CsrSpec {
    CsrSpec(CSR_SIGNER, Some(CertRequest(cfg.CommonName(), [CSR_ORGANIZATION], false)), [CLIENT_AUTH],
        cfg.BootstrapUser())
  }

  const NEW_CLUSTER :=
    State([Cluster(false, false, true, true, Some(10), Slot(false, "", ""), 0)], map[],
          false, false, false, false, 0, map[])

  const BIND_AND_CRASH: seq<Event> :=
    [List(0, [CsrRef("c", 0)]), Scan(0), UpsertRole(0, false), UpsertBinding(0, false), TryMark(0, 0), Crash(0)]

  /** A CSR bound by a reconcile that crashed, then labelled for another cluster, stays pending whatever
      happens until it is relabelled. */
  lemma RelabelStrands(cfg: Config, after: seq<Event>)
    requires !Relabels(after, "c")
    ensures Initial(NEW_CLUSTER)
    ensures var relabel := Relabel("c", cfg.cluster + "x");
            var run := [CreateCsr("c", BootstrapSpec(cfg), "")] + ([Begin(0, 0)] + (BIND_AND_CRASH + [relabel]));
            var end := Run(cfg, NEW_CLUSTER, run + after);
            && |end.versions| > 0 && end.Current().slot.used && end.Current().slot.bound == "c"
            && Stranded(cfg, end, "c")
  {
    hide Apply, Run, Inv, Stranded;
    var relabel := Relabel("c", cfg.cluster + "x");
    var run := [CreateCsr("c", BootstrapSpec(cfg), "")] + ([Begin(0, 0)] + (BIND_AND_CRASH + [relabel]));
    var listing := Submitted(cfg);
    var crashed := Bound(cfg, listing);
    var strandedAt := Apply(cfg, crashed, relabel);
    AfterRelabel(cfg, crashed);
    RunConcat(cfg, listing, BIND_AND_CRASH, [relabel]);
    RunOne(cfg, crashed, relabel);
    RunThen(cfg, Apply(cfg, NEW_CLUSTER, CreateCsr("c", BootstrapSpec(cfg), "")), Begin(0, 0),
        BIND_AND_CRASH + [relabel]);
    RunThen(cfg, NEW_CLUSTER, CreateCsr("c", BootstrapSpec(cfg), ""), [Begin(0, 0)] + (BIND_AND_CRASH + [relabel]));
    assert Run(cfg, NEW_CLUSTER, run) == strandedAt;
    InitialInv(cfg, NEW_CLUSTER);
    RunKeepsInv(cfg, NEW_CLUSTER, run);
    StrandedForever(cfg, strandedAt, after, "c");
    RunConcat(cfg, NEW_CLUSTER, run, after);
    SlotClaimedOnce(cfg, NEW_CLUSTER, run, after);
  }

  /** The CSR submitted, and a reconcile about to list it. */
  function Listed(cfg: Config): State {
    NEW_CLUSTER.(csrs := map["c" := [Csr(BootstrapSpec(cfg), "", false, false)]]).With(0, Listing(0))
  }

  lemma Submitted(cfg: Config) returns (listing: State)
    ensures listing == Apply(cfg, Apply(cfg, NEW_CLUSTER, CreateCsr("c", BootstrapSpec(cfg), "")), Begin(0, 0))
    ensures listing == Listed(cfg)
  {
    listing := Listed(cfg);
  }

  lemma IsBootstrap(cfg: Config)
    ensures Classify(cfg, BootstrapSpec(cfg), false) == Bootstrap
  {
    assert (CSR_CN_PREFIX + cfg.cluster)[..|CSR_CN_PREFIX|] == CSR_CN_PREFIX;
  }

  /** The reconcile up to its RBAC, and from there to the crash. */
  lemma Bound(cfg: Config, listing: State) returns (crashed: State)
    requires listing == Listed(cfg)
    ensures crashed == Run(cfg, listing, BIND_AND_CRASH)
    ensures |crashed.versions| > 0 && crashed.Current().slot.used && crashed.Current().slot.bound == "c"
    ensures crashed.csrs == listing.csrs
  {
    hide BootstrapSpec, Run, Apply;
    var s2 := Scanned(cfg, listing);
    crashed := Marked(cfg, s2);
    assert BIND_AND_CRASH == [List(0, [CsrRef("c", 0)]), Scan(0)] + [UpsertRole(0, false), UpsertBinding(0, false),
        TryMark(0, 0), Crash(0)];
    RunConcat(cfg, listing, [List(0, [CsrRef("c", 0)]), Scan(0)],
        [UpsertRole(0, false), UpsertBinding(0, false), TryMark(0, 0), Crash(0)]);
  }

  lemma Scanned(cfg: Config, listing: State) returns (s2: State)
    requires listing == Listed(cfg)
    ensures s2 == Run(cfg, listing, [List(0, [CsrRef("c", 0)]), Scan(0)])
    ensures s2.versions == NEW_CLUSTER.versions && s2.csrs == listing.csrs
    ensures s2.At(0) == EnsuringRole(0, CsrRef("c", 0), ForBootstrap)
  {
    hide BootstrapSpec, Classify, Run;
    IsBootstrap(cfg);
    var r := CsrRef("c", 0);
    var s1 := Apply(cfg, listing, List(0, [r]));
    assert s1 == listing.With(0, Scanning(0, [r]));
    s2 := Apply(cfg, s1, Scan(0));
    RunOne(cfg, s1, Scan(0));
    assert [List(0, [r]), Scan(0)] == [List(0, [r])] + [Scan(0)];
    RunThen(cfg, listing, List(0, [r]), [Scan(0)]);
  }

  lemma Marked(cfg: Config, s2: State) returns (crashed: State)
    requires s2.versions == NEW_CLUSTER.versions && s2.At(0) == EnsuringRole(0, CsrRef("c", 0), ForBootstrap)
    ensures crashed == Run(cfg, s2, [UpsertRole(0, false), UpsertBinding(0, false), TryMark(0, 0), Crash(0)])
    ensures |crashed.versions| > 0 && crashed.Current().slot.used && crashed.Current().slot.bound == "c"
    ensures crashed.csrs == s2.csrs
  {
    hide Run;
    var s3 := Apply(cfg, s2, UpsertRole(0, false));
    var s4 := Apply(cfg, s3, UpsertBinding(0, false));
    assert s4.At(0) == Marking(0, CsrRef("c", 0), 0) && s4.versions == s2.versions && s4.csrs == s2.csrs;
    var s5 := Apply(cfg, s4, TryMark(0, 0));
    crashed := Apply(cfg, s5, Crash(0));
    RunOne(cfg, s5, Crash(0));
    RunThen(cfg, s4, TryMark(0, 0), [Crash(0)]);
    RunThen(cfg, s3, UpsertBinding(0, false), [TryMark(0, 0)] + [Crash(0)]);
    RunThen(cfg, s2, UpsertRole(0, false), [UpsertBinding(0, false)] + ([TryMark(0, 0)] + [Crash(0)]));
    assert [UpsertRole(0, false), UpsertBinding(0, false), TryMark(0, 0), Crash(0)]
        == [UpsertRole(0, false)] + ([UpsertBinding(0, false)] + ([TryMark(0, 0)] + [Crash(0)]));
  }

  lemma AfterRelabel(cfg: Config, crashed: State)
    requires crashed.csrs == map["c" := [Csr(BootstrapSpec(cfg), "", false, false)]]
    requires |crashed.versions| > 0 && crashed.Current().slot.used && crashed.Current().slot.bound == "c"
    ensures var s := Apply(cfg, crashed, Relabel("c", cfg.cluster + "x"));
              Stranded(cfg, s, "c") && s.versions == crashed.versions
  {
  }
}
