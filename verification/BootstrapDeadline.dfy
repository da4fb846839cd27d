/**
 Why the slot is consumed, over every run: one reconciler took up the bound CSR while the copy of the
 Cluster it had read was live, unused and within its deadline, and worked on nothing else until then.
 */
module BootstrapDeadline {
  import opened Wrappers
  import opened BootstrapModel
  import opened BootstrapProtocol
  import opened BootstrapSafety

  /** The state before event `k` of a run. */
  function Before(cfg: Config, s: State, events: seq<Event>, k: nat): State
    requires k <= |events|
  {
    Run(cfg, s, events[..k])
  }

  /** Between the scan that took up bootstrap CSR `name` and the write that consumes the slot. */
  predicate WorksOn(l: Local, name: string) {
    match l
    case EnsuringRole(_, r, kind) => r.name == name && kind.ForBootstrap?
    case EnsuringBinding(_, r, kind) => r.name == name && kind.ForBootstrap?
    case Marking(_, r, _) => r.name == name
    case _ => false
  }

  /** Reconciler `t` is about to scan CSR `name` against a copy of the Cluster that is alive, not suspended,
      has a slot and its finalizer, and whose slot is unused at a time within its deadline. */
  predicate InTime(s: State, t: nat, name: string) {
    && s.At(t).Scanning? && s.At(t).fc < |s.versions|
    && s.At(t).todo != [] && s.At(t).todo[0].name == name
    && var c := s.versions[s.At(t).fc];
       && !c.deleting && !c.suspended && c.hasBootstrap && c.finalizer
       && !c.slot.used && c.expiresAt.Some? && s.now <= c.expiresAt.value
  }

  /** Event `j` is reconciler `t`'s scan of CSR `name`, in time, and up to the end of `events` it works on
      that CSR. */
  ghost predicate TakenUp(cfg: Config, s: State, events: seq<Event>, t: nat, name: string, j: nat) {
    && j < |events| && events[j] == Scan(t) && InTime(Before(cfg, s, events, j), t, name)
    && forall k :: j < k <= |events| ==> WorksOn(Before(cfg, s, events, k).At(t), name)
  }

  // ---- A scanned copy is live -------------------------------------------------------------------------

  predicate LiveCopy(s: State, l: Local) {
    l.Listing? || l.Scanning? ==>
      && l.fc < |s.versions|
      && var c := s.versions[l.fc];
         !c.deleting && !c.suspended && c.hasBootstrap && c.finalizer && c.expiresAt.Some?
  }

  lemma DenyMoves(s: State, t: nat, r: CsrRef, next: Local, u: nat)
    requires s.HasCsr(r)
    ensures var b := Deny(s, t, r, next);
            b.versions == s.versions && (b.At(u) == s.At(u) || (u == t && (b.At(u) == next || b.At(u).Idle?)))
  {
  }

  /** What a scan may leave reconciler `t` at: it takes up a bootstrap CSR only within the deadline. */
  predicate ScanLeaves(s: State, fc: nat, todo: seq<CsrRef>, next: Local)
    requires fc < |s.versions|
  {
    match next
    case Idle => true
    case Scanning(c, _) => c == fc
    case EnsuringRole(_, r, kind) =>
      && todo != [] && r == todo[0]
      && (kind.ForRenewal? || s.versions[fc].slot.used || s.versions[fc].expiresAt.None?
          || s.now <= s.versions[fc].expiresAt.value)
    case _ => false
  }

  lemma WithAt(s: State, t: nat, l: Local, u: nat)
    ensures s.With(t, l).At(u) == if u == t then l else s.At(u)
    ensures s.With(t, l).versions == s.versions
  {
  }

  /** The five ways a scan of the head can end. */
  lemma HeadCases(cfg: Config, s: State, t: nat, fc: nat, todo: seq<CsrRef>)
    requires fc < |s.versions| && todo != [] && s.HasCsr(todo[0])
    ensures var b, r, next := ScanHead(cfg, s, t, fc, todo), todo[0], Scanning(fc, todo[1..]);
            || b == Deny(s, t, r, next) || b == Deny(s, t, r, Idle) || b == s.With(t, next)
            || b == s.With(t, EnsuringRole(fc, r, ForRenewal))
            || (b == s.With(t, EnsuringRole(fc, r, ForBootstrap)) && !Expired(s.versions[fc], s.now))
  {
    hide Classify, Deny, Expired;
  }

  lemma HeadMoves(cfg: Config, s: State, t: nat, fc: nat, todo: seq<CsrRef>, u: nat)
    requires fc < |s.versions| && todo != [] && s.HasCsr(todo[0])
    ensures var b := ScanHead(cfg, s, t, fc, todo);
            b.versions == s.versions && (b.At(u) == s.At(u) || (u == t && ScanLeaves(s, fc, todo, b.At(u))))
  {
    hide ScanHead, Deny, State.With, State.At;
    var r, next := todo[0], Scanning(fc, todo[1..]);
    HeadCases(cfg, s, t, fc, todo);
    DenyMoves(s, t, r, next, u);
    DenyMoves(s, t, r, Idle, u);
    WithAt(s, t, next, u);
    WithAt(s, t, EnsuringRole(fc, r, ForRenewal), u);
    WithAt(s, t, EnsuringRole(fc, r, ForBootstrap), u);
  }

  lemma ScanMoves(cfg: Config, s: State, t: nat, u: nat)
    requires s.At(t).Scanning? && s.At(t).fc < |s.versions|
    ensures var l, b := s.At(t), Apply(cfg, s, Scan(t));
            b.versions == s.versions && (b.At(u) == s.At(u) || (u == t && ScanLeaves(s, l.fc, l.todo, b.At(u))))
  {
    hide ScanHead;
    var l := s.At(t);
    if l.todo != [] && s.HasCsr(l.todo[0]) { HeadMoves(cfg, s, t, l.fc, l.todo, u); }
  }

  /** The ways an attempt to mark the slot can end: it binds only the CSR it is for. */
  lemma TryCases(s: State, t: nat, fc: nat, r: CsrRef, attempt: nat, refetch: nat)
    requires fc < |s.versions|
    ensures var b := MarkOnce(s, t, fc, r, attempt, refetch);
            || b == s.With(t, Approving(r, ForBootstrap)) || b == s.With(t, Idle)
            || b == s.With(t, Marking(refetch, r, attempt + 1))
            || (MarkUsed(s.versions[fc], r.name).Some?
                && b == s.(versions := s.versions + [MarkUsed(s.versions[fc], r.name).value])
                        .With(t, Approving(r, ForBootstrap)))
  {
    hide MarkUsed, State.With;
  }

  lemma TryMoves(s: State, t: nat, fc: nat, r: CsrRef, attempt: nat, refetch: nat, u: nat)
    requires fc < |s.versions|
    ensures var b := MarkOnce(s, t, fc, r, attempt, refetch);
            && (b.versions == s.versions || (|b.versions| > 0 && b.Current().slot.bound == r.name))
            && (b.At(u) == s.At(u)
                || (u == t && (b.At(u).Idle? || b.At(u).Approving? || (b.At(u).Marking? && b.At(u).csr == r))))
  {
    hide MarkOnce, State.With;
    TryCases(s, t, fc, r, attempt, refetch);
    WithAt(s, t, Approving(r, ForBootstrap), u);
    WithAt(s, t, Idle, u);
    WithAt(s, t, Marking(refetch, r, attempt + 1), u);
    var marked := MarkUsed(s.versions[fc], r.name);
    if marked.Some? {
      WithAt(s.(versions := s.versions + [marked.value]), t, Approving(r, ForBootstrap), u);
    }
  }

  lemma MarkMoves(cfg: Config, s: State, t: nat, refetch: nat, u: nat)
    requires s.At(t).Marking? && s.At(t).fc < |s.versions|
    ensures var l, b := s.At(t), Apply(cfg, s, TryMark(t, refetch));
            && (b.versions == s.versions || (|b.versions| > 0 && b.Current().slot.bound == l.csr.name))
            && (b.At(u) == s.At(u)
                || (u == t && (b.At(u).Idle? || b.At(u).Approving? || (b.At(u).Marking? && b.At(u).csr == l.csr))))
  {
    hide MarkOnce;
    TryMoves(s, t, s.At(t).fc, s.At(t).csr, s.At(t).attempt, refetch, u);
  }

  /** Every other call moves its reconciler to the next one, or to idle. */
  predicate MovesOn(s: State, e: Event, l: Local, next: Local) {
    match next
    case Listing(fc) => e.Begin? && fc < |s.versions| && LiveCopy(s, next)
    case Scanning(fc, _) => l.Listing? && l.fc == fc
    case EnsuringBinding(_, r, kind) => l.EnsuringRole? && l.csr == r && l.kind == kind
    case Marking(_, r, _) => l.EnsuringBinding? && l.csr == r && l.kind == ForBootstrap
    case EnsuringRole(_, _, _) => false
    case _ => true
  }

  lemma StartMoves(cfg: Config, s: State, e: Event, u: nat)
    requires e.Begin? || e.List?
    ensures var b := Apply(cfg, s, e); b.At(u) == s.At(u) || MovesOn(s, e, s.At(u), b.At(u))
  {
    hide ScanHead, MarkOnce, AllowedPatch, AllListable, Expired;
  }

  lemma UpsertMoves(cfg: Config, s: State, e: Event, u: nat)
    requires e.UpsertRole? || e.UpsertBinding?
    ensures var b := Apply(cfg, s, e); b.At(u) == s.At(u) || MovesOn(s, e, s.At(u), b.At(u))
  {
    hide ScanHead, MarkOnce, AllowedPatch, AllListable, Expired;
  }

  lemma EndMoves(cfg: Config, s: State, e: Event, u: nat)
    requires e.Approve? || e.DeleteBinding? || e.DeleteRole? || e.Crash?
    ensures var b := Apply(cfg, s, e); b.At(u) == s.At(u) || MovesOn(s, e, s.At(u), b.At(u))
  {
    hide ScanHead, MarkOnce, AllowedPatch, AllListable, Expired;
  }

  lemma OtherMoves(cfg: Config, s: State, e: Event, u: nat)
    requires !e.Scan? && !e.TryMark?
    ensures var b := Apply(cfg, s, e); b.At(u) == s.At(u) || MovesOn(s, e, s.At(u), b.At(u))
  {
    if e.Begin? || e.List? {
      hide Apply, MovesOn;
      StartMoves(cfg, s, e, u);
    } else if e.UpsertRole? || e.UpsertBinding? {
      hide Apply, MovesOn;
      UpsertMoves(cfg, s, e, u);
    } else if e.Approve? || e.DeleteBinding? || e.DeleteRole? || e.Crash? {
      hide Apply, MovesOn;
      EndMoves(cfg, s, e, u);
    } else {
      hide ScanHead, MarkOnce, AllowedPatch, AllListable, Expired, UpdateApproval, State.With, MovesOn;
    }
  }

  lemma LiveCopyStep(cfg: Config, s: State, e: Event, t: nat)
    requires Grows(s, Apply(cfg, s, e)) && LiveCopy(s, s.At(t))
    ensures LiveCopy(Apply(cfg, s, e), Apply(cfg, s, e).At(t))
  {
    match e {
      case Scan(u) => if s.At(u).Scanning? && s.At(u).fc < |s.versions| { hide Apply; ScanMoves(cfg, s, u, t); }
      case TryMark(u, refetch) =>
        if s.At(u).Marking? && s.At(u).fc < |s.versions| { hide Apply; MarkMoves(cfg, s, u, refetch, t); }
      case _ =>
        hide Apply;
        OtherMoves(cfg, s, e, t);
    }
  }

  lemma {:induction false} ScansLiveCopy(cfg: Config, s: State, events: seq<Event>, t: nat)
    requires Initial(s)
    ensures var end := Run(cfg, s, events); LiveCopy(end, end.At(t))
  {
    if events != [] {
      hide Apply, LiveCopy, Grows, Inv;
      var front := events[..|events| - 1];
      ScansLiveCopy(cfg, s, front, t);
      InitialInv(cfg, s);
      RunKeepsInv(cfg, s, front);
      StepKeepsInv(cfg, Run(cfg, s, front), events[|events| - 1]);
      LiveCopyStep(cfg, Run(cfg, s, front), events[|events| - 1], t);
    }
  }

  // ---- One step ---------------------------------------------------------------------------------------

  lemma UnusedBefore(cfg: Config, s: State, e: Event)
    requires Inv(cfg, s)
    ensures |s.versions| > 0 && |Apply(cfg, s, e).versions| > 0
    ensures !Apply(cfg, s, e).Current().slot.used ==> !s.Current().slot.used
  {
    hide Apply;
    StepKeepsInv(cfg, s, e);
    CurrentKept(s, Apply(cfg, s, e));
  }

  /** Work on a CSR begins with a scan in time. */
  lemma WorkStep(cfg: Config, s: State, e: Event, t: nat, name: string)
    requires Inv(cfg, s) && LiveCopy(s, s.At(t)) && WorksOn(Apply(cfg, s, e).At(t), name)
    requires !s.Current().slot.used
    ensures WorksOn(s.At(t), name) || (e == Scan(t) && InTime(s, t, name))
  {
    hide Inv;
    match e {
      case Scan(u) =>
        if s.At(u).Scanning? && s.At(u).fc < |s.versions| {
          hide Apply;
          ScanMoves(cfg, s, u, t);
          CopyKept(cfg, s, s.At(u).fc);
        }
      case TryMark(u, refetch) =>
        if s.At(u).Marking? && s.At(u).fc < |s.versions| { hide Apply; MarkMoves(cfg, s, u, refetch, t); }
      case _ =>
        hide Apply;
        OtherMoves(cfg, s, e, t);
    }
  }

  /** Only the write that ends work on a CSR consumes the slot, and it binds that CSR. */
  lemma ClaimStep(cfg: Config, s: State, e: Event)
    requires Inv(cfg, s) && !s.Current().slot.used
    requires |Apply(cfg, s, e).versions| > 0 && Apply(cfg, s, e).Current().slot.used
    ensures e.TryMark? && WorksOn(s.At(e.t), Apply(cfg, s, e).Current().slot.bound)
  {
    hide Inv;
    match e {
      case Scan(u) =>
        if s.At(u).Scanning? && s.At(u).fc < |s.versions| { hide Apply; ScanMoves(cfg, s, u, u); }
      case TryMark(u, refetch) =>
        if s.At(u).Marking? && s.At(u).fc < |s.versions| { hide Apply; MarkMoves(cfg, s, u, refetch, u); }
      case _ =>
        hide ScanHead, MarkOnce, AllListable, Expired;
    }
  }

  // ---- Over every run ---------------------------------------------------------------------------------

  lemma TakenUpExtends(cfg: Config, s: State, events: seq<Event>, t: nat, name: string, j: nat)
    requires events != [] && TakenUp(cfg, s, events[..|events| - 1], t, name, j)
    requires WorksOn(Run(cfg, s, events).At(t), name)
    ensures TakenUp(cfg, s, events, t, name, j)
  {
    hide Run, InTime, WorksOn;
    var front := events[..|events| - 1];
    forall k | 0 <= k <= |front|
      ensures front[..k] == events[..k]
    {
    }
    assert Before(cfg, s, events, j) == Before(cfg, s, front, j);
    forall k | j < k <= |events|
      ensures WorksOn(Before(cfg, s, events, k).At(t), name)
    {
      if k == |events| {
        assert events[..k] == events;
      } else {
        assert Before(cfg, s, events, k) == Before(cfg, s, front, k);
      }
    }
  }

  lemma {:induction false} WorkBegan(cfg: Config, s: State, events: seq<Event>, t: nat, name: string)
    returns (j: nat)
    requires Initial(s) && |Run(cfg, s, events).versions| > 0
    requires !Run(cfg, s, events).Current().slot.used && WorksOn(Run(cfg, s, events).At(t), name)
    ensures TakenUp(cfg, s, events, t, name, j)
  {
    assert events != [];
    hide Apply, Inv, LiveCopy, WorksOn, InTime, TakenUp;
    var front, e := events[..|events| - 1], events[|events| - 1];
    var mid := Run(cfg, s, front);
    InitialInv(cfg, s);
    RunKeepsInv(cfg, s, front);
    ScansLiveCopy(cfg, s, front, t);
    UnusedBefore(cfg, mid, e);
    WorkStep(cfg, mid, e, t, name);
    if WorksOn(mid.At(t), name) {
      j := WorkBegan(cfg, s, front, t, name);
      TakenUpExtends(cfg, s, events, t, name, j);
    } else {
      j := |front|;
      ScanTakesUp(cfg, s, events, t, name);
    }
  }

  lemma ScanTakesUp(cfg: Config, s: State, events: seq<Event>, t: nat, name: string)
    requires events != [] && events[|events| - 1] == Scan(t)
    requires InTime(Run(cfg, s, events[..|events| - 1]), t, name) && WorksOn(Run(cfg, s, events).At(t), name)
    ensures TakenUp(cfg, s, events, t, name, |events| - 1)
  {
    hide Run, InTime, WorksOn;
    assert events[..|events|] == events;
  }

  /** A step of a run that consumes the slot is `markBootstrapUsed` of a reconciler whose scan took up that
      CSR when the clock had not passed the deadline of the copy it read. */
  lemma ClaimedInTime(cfg: Config, s: State, events: seq<Event>, n: nat) returns (j: nat)
    requires Initial(s) && n < |events|
    requires |Before(cfg, s, events, n).versions| > 0 && !Before(cfg, s, events, n).Current().slot.used
    requires |Before(cfg, s, events, n + 1).versions| > 0 && Before(cfg, s, events, n + 1).Current().slot.used
    ensures events[n].TryMark?
    ensures TakenUp(cfg, s, events[..n], events[n].t, Before(cfg, s, events, n + 1).Current().slot.bound, j)
  {
    hide Apply, Inv, WorksOn, TakenUp;
    InitialInv(cfg, s);
    RunKeepsInv(cfg, s, events[..n]);
    assert events[..n + 1][..n] == events[..n];
    ClaimStep(cfg, Before(cfg, s, events, n), events[n]);
    j := WorkBegan(cfg, s, events[..n], events[n].t, Before(cfg, s, events, n + 1).Current().slot.bound);
  }

  /** Some step consumed a slot that is used. */
  lemma {:induction false} ClaimExists(cfg: Config, s: State, events: seq<Event>) returns (n: nat)
    requires Initial(s) && |Run(cfg, s, events).versions| > 0 && Run(cfg, s, events).Current().slot.used
    ensures n < |events|
    ensures |Before(cfg, s, events, n).versions| > 0 && !Before(cfg, s, events, n).Current().slot.used
    ensures |Before(cfg, s, events, n + 1).versions| > 0 && Before(cfg, s, events, n + 1).Current().slot.used
    ensures Before(cfg, s, events, n + 1).Current().slot.bound == Run(cfg, s, events).Current().slot.bound
  {
    hide Apply, Inv;
    assert events != [];
    var front := events[..|events| - 1];
    InitialInv(cfg, s);
    RunKeepsInv(cfg, s, front);
    SlotClaimedOnce(cfg, s, front, [events[|events| - 1]]);
    assert front + [events[|events| - 1]] == events;
    if Run(cfg, s, front).Current().slot.used {
      n := ClaimExists(cfg, s, front);
      assert front[..n] == events[..n] && front[..n + 1] == events[..n + 1];
    } else {
      n := |front|;
      assert events[..n + 1] == events;
    }
  }

  /** In every reachable state an approved CSR of the bootstrap ServiceAccount was taken up in time. */
  lemma ApprovedInTime(cfg: Config, s: State, events: seq<Event>, name: string) returns (n: nat, j: nat)
    requires Initial(s) && BootstrapApproved(cfg, Run(cfg, s, events), name)
    ensures j < n < |events| && events[n].TryMark?
    ensures TakenUp(cfg, s, events[..n], events[n].t, name, j)
  {
    hide Apply, Inv, Run, TakenUp;
    ApprovedIsEntitled(cfg, s, events, name);
    assert "kapro-cluster:"[0] == 'k' && "system:serviceaccount:"[0] == 's';
    n := ClaimExists(cfg, s, events);
    j := ClaimedInTime(cfg, s, events, n);
    TakenUpWithin(cfg, s, events[..n], events[n].t, name, j);
  }

  lemma TakenUpWithin(cfg: Config, s: State, events: seq<Event>, t: nat, name: string, j: nat)
    requires TakenUp(cfg, s, events, t, name, j)
    ensures j < |events|
  {
  }

  // ---- Contention -------------------------------------------------------------------------------------

  /** Others' writes to the Cluster, one after the other. */
  predicate Patches(c: Cluster, patches: seq<Cluster>)
    decreases |patches|
  {
    patches == [] || (AllowedPatch(c, patches[0]) && Patches(patches[0], patches[1..]))
  }

  /** Each write beats one attempt of reconciler `t`, which then refetches the current version, `n`; one more
      attempt is left alone. */
  function Contended(t: nat, n: nat, patches: seq<Cluster>): seq<Event>
    decreases |patches|
  {
    if patches == [] then [TryMark(t, 0)]
    else [Patch(patches[0])] + ([TryMark(t, n)] + Contended(t, n + 1, patches[1..]))
  }

  /** One lost attempt on an unused slot, and one that is left alone. */
  lemma LostAttempt(cfg: Config, s: State, t: nat, c: Cluster)
    requires |s.versions| > 0 && AllowedPatch(s.Current(), c) && !s.Current().slot.used
    requires s.At(t).Marking? ==> s.At(t).fc == |s.versions| - 1
    requires s.At(t).Idle? || s.At(t).Marking?
    ensures var n := |s.versions|;
            var next := Apply(cfg, Apply(cfg, s, Patch(c)), TryMark(t, n));
            && |next.versions| == n + 1 && next.Current() == c && !c.slot.used
            && next.At(t) == if s.At(t).Marking? && s.At(t).attempt < 4
                             then Marking(n, s.At(t).csr, s.At(t).attempt + 1) else Idle
  {
    var n := |s.versions|;
    var patched := s.(versions := s.versions + [c]);
    assert Apply(cfg, s, Patch(c)) == patched && patched.At(t) == s.At(t);
    if s.At(t).Marking? {
      LosesRace(patched, t, s.At(t).fc, s.At(t).csr, s.At(t).attempt, n);
    }
  }

  lemma LosesRace(s: State, t: nat, fc: nat, r: CsrRef, attempt: nat, refetch: nat)
    requires fc < |s.versions| - 1 && refetch < |s.versions| && !s.versions[fc].slot.used
    ensures MarkOnce(s, t, fc, r, attempt, refetch)
            == s.With(t, if attempt < 4 then Marking(refetch, r, attempt + 1) else Idle)
  {
    hide State.With;
  }

  lemma FreeAttempt(cfg: Config, s: State, t: nat)
    requires |s.versions| > 0 && !s.Current().slot.used && (s.At(t).Idle? || s.At(t).Marking?)
    requires s.At(t).Marking? ==> s.At(t).fc == |s.versions| - 1
    ensures var next := Apply(cfg, s, TryMark(t, 0));
            && |next.versions| > 0 && (next.Current().slot.used <==> s.At(t).Marking?)
            && (s.At(t).Marking? ==> next.Current().slot.bound == s.At(t).csr.name)
  {
  }

  /** Other writers cost a reconciler the slot exactly when they beat five attempts in a row. */
  lemma {:induction false} ClaimSurvivesIff(cfg: Config, s: State, t: nat, patches: seq<Cluster>)
    requires |s.versions| > 0 && !s.Current().slot.used && Patches(s.Current(), patches)
    requires s.At(t).Idle? || (s.At(t).Marking? && s.At(t).fc == |s.versions| - 1 && s.At(t).attempt <= 4)
    ensures var end := Run(cfg, s, Contended(t, |s.versions|, patches));
            && |end.versions| > 0
            && (end.Current().slot.used <==> s.At(t).Marking? && s.At(t).attempt + |patches| <= 4)
            && (end.Current().slot.used ==> end.Current().slot.bound == s.At(t).csr.name)
    decreases |patches|
  {
    hide Apply, Run, AllowedPatch, State.With;
    if patches == [] {
      FreeAttempt(cfg, s, t);
      RunOne(cfg, s, TryMark(t, 0));
    } else {
      var n, c, later := |s.versions|, patches[0], patches[1..];
      assert patches == [c] + later;
      LostAttempt(cfg, s, t, c);
      LostThen(cfg, s, t, n, c, later);
      ClaimSurvivesIff(cfg, Apply(cfg, Apply(cfg, s, Patch(c)), TryMark(t, n)), t, later);
    }
  }

  lemma LostThen(cfg: Config, s: State, t: nat, n: nat, c: Cluster, later: seq<Cluster>)
    ensures Run(cfg, s, Contended(t, n, [c] + later))
            == Run(cfg, Apply(cfg, Apply(cfg, s, Patch(c)), TryMark(t, n)), Contended(t, n + 1, later))
  {
    hide Apply, Run;
    var rest := Contended(t, n + 1, later);
    assert ([c] + later)[1..] == later;
    RunThen(cfg, s, Patch(c), [TryMark(t, n)] + rest);
    RunThen(cfg, Apply(cfg, s, Patch(c)), TryMark(t, n), rest);
  }
}
