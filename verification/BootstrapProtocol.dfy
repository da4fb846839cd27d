/**
 The bootstrap protocol as a transition system: any number of reconcilers run the same program over
 one Cluster, its CSRs and its RBAC, each call interleaved with everybody else's. A reconciler may
 crash before any call; its Cluster and CSR copies may be any version that ever existed; other
 writers may bump the Cluster or relabel a CSR at any time.

 Assumed of the API server: `Status().Update` and `UpdateApproval` land only on the current
 resourceVersion; merge patches write only the fields that changed (so nobody but `markBootstrapUsed`
 writes used and boundCSRName); deletionTimestamp is never unset; CSR names are not reused; no other
 actor approves or denies these CSRs or removes the per-cluster RBAC.
 */
module BootstrapProtocol {
  import opened Wrappers
  import opened BootstrapModel
  import ConflictRetry

  datatype Kind = ForBootstrap | ForRenewal

  /** The CSR copy a reconciler works on: a name and the version that was listed. */
  datatype CsrRef = CsrRef(name: string, version: nat)

  /** Where one reconciler is. `fc` is the Cluster version its copy was read at. */
  datatype Local =
    | Idle
    | Listing(fc: nat)
    | Scanning(fc: nat, todo: seq<CsrRef>)
    | EnsuringRole(fc: nat, csr: CsrRef, kind: Kind)
    | EnsuringBinding(fc: nat, csr: CsrRef, kind: Kind)
    | Marking(fc: nat, csr: CsrRef, attempt: nat)
    | Approving(csr: CsrRef, kind: Kind)
    | DeletingBinding(fc: nat)
    | DeletingRole(fc: nat)

  /** `versions` of the Cluster and of every CSR, oldest first; the last is current. `roleEver` and
      `bindingEver` record that the RBAC object existed at some time, which is all a cached read tells. */
  datatype State = State(
    versions: seq<Cluster>, csrs: map<string, seq<Csr>>,
    role: bool, binding: bool, roleEver: bool, bindingEver: bool,
    now: int, locals: map<nat, Local>)
  {
    function At(t: nat): Local { if t in locals then locals[t] else Idle }

    function Current(): Cluster
      requires |versions| > 0
    {
      versions[|versions| - 1]
    }

    predicate HasCsr(r: CsrRef) { r.name in csrs && r.version < |csrs[r.name]| }

    function Copy(r: CsrRef): Csr
      requires HasCsr(r)
    {
      csrs[r.name][r.version]
    }

    predicate IsCurrent(r: CsrRef)
      requires HasCsr(r)
    {
      r.version == |csrs[r.name]| - 1
    }

    function With(t: nat, l: Local): State { this.(locals := locals[t := l]) }
  }

  datatype Event =
    | Begin(t: nat, fc: nat)
    | List(t: nat, listed: seq<CsrRef>)
    | Scan(t: nat)
    | UpsertRole(t: nat, seenExisting: bool)
    | UpsertBinding(t: nat, seenExisting: bool)
    | TryMark(t: nat, refetch: nat)
    | Approve(t: nat)
    | DeleteBinding(t: nat)
    | DeleteRole(t: nat)
    | Crash(t: nat)
    | RefreshRole
    | RefreshBinding
    | Patch(c: Cluster)
    | CreateCsr(name: string, spec: CsrSpec, clusterLabel: string)
    | Relabel(name: string, clusterLabel: string)
    | Tick(now: int)

  predicate AllListable(cfg: Config, s: State, refs: seq<CsrRef>) {
    forall r :: r in refs ==> s.HasCsr(r) && Listable(cfg, s.Copy(r))
  }

  /** `UpdateApproval`: lands only on the current version of the CSR. */
  function UpdateApproval(s: State, r: CsrRef, csr: Csr): State
    requires s.HasCsr(r)
  {
    if s.IsCurrent(r) then s.(csrs := s.csrs[r.name := s.csrs[r.name] + [csr]]) else s
  }

  /** `denyCSR` on a pending copy, then the next CSR or, when the update conflicts, the end. */
  function Deny(s: State, t: nat, r: CsrRef, next: Local): State
    requires s.HasCsr(r)
  {
    var denied := UpdateApproval(s, r, s.Copy(r).(denied := true));
    denied.With(t, if s.IsCurrent(r) then next else Idle)
  }

  /** One iteration of `processCSRsForCluster` on the head of the list. */
  function ScanHead(cfg: Config, s: State, t: nat, fc: nat, todo: seq<CsrRef>): State
    requires fc < |s.versions| && todo != [] && s.HasCsr(todo[0])
  {
    var r, slot := todo[0], s.versions[fc].slot;
    var csr := s.Copy(r);
    var next := Scanning(fc, todo[1..]);
    if csr.Final() then s.With(t, next)
    else
      match Classify(cfg, csr.spec, slot.used)
      case NoPurpose => s.With(t, next)
      case RenewalBeforeRegistration => Deny(s, t, r, next)
      case Renewal => s.With(t, EnsuringRole(fc, r, ForRenewal))
      case Bootstrap =>
        if slot.used && slot.bound != "" && slot.bound != r.name then Deny(s, t, r, next)
        else if Expired(s.versions[fc], s.now) then Deny(s, t, r, Idle)
        else if slot.used && slot.bound != r.name then Deny(s, t, r, Idle)
        else s.With(t, EnsuringRole(fc, r, ForBootstrap))
  }

  /** One attempt of `markBootstrapUsed`: skip when the copy shows this CSR bound, stop when it shows
      another, otherwise compare-and-swap and refetch on conflict. */
  function MarkOnce(s: State, t: nat, fc: nat, r: CsrRef, attempt: nat, refetch: nat): State
    requires fc < |s.versions|
  {
    var copy := s.versions[fc];
    if attempt == 0 && copy.slot.used && copy.slot.bound == r.name then s.With(t, Approving(r, ForBootstrap))
    else
      match MarkUsed(copy, r.name)
      case None => s.With(t, Idle)
      case Some(marked) =>
        if fc == |s.versions| - 1 then s.(versions := s.versions + [marked]).With(t, Approving(r, ForBootstrap))
        else if attempt + 1 < ConflictRetry.MAX_ATTEMPTS && refetch < |s.versions|
        then s.With(t, Marking(refetch, r, attempt + 1))
        else s.With(t, Idle)
  }

  /** A write by anybody else, or any other merge patch of this reconciler. */
  predicate AllowedPatch(now: Cluster, next: Cluster) {
    next.slot.used == now.slot.used && next.slot.bound == now.slot.bound && (now.deleting ==> next.deleting)
  }

  /** The effect of one event; an event that is not enabled changes nothing. The refresh events are the
      upserts of a reconcile that finds the cluster registered. */
  function Apply(cfg: Config, s: State, e: Event): State {
    match e
    case Begin(t, fc) =>
      if !(s.At(t).Idle? && fc < |s.versions|) then s
      else
        var c := s.versions[fc];
        if c.deleting then (if c.finalizer then s.With(t, DeletingBinding(fc)) else s)
        else if c.suspended || !c.hasBootstrap || !c.finalizer || c.expiresAt.None? || Expired(c, s.now) then s
        else s.With(t, Listing(fc))
    case List(t, listed) =>
      if s.At(t).Listing? && AllListable(cfg, s, listed) then s.With(t, Scanning(s.At(t).fc, listed)) else s
    case Scan(t) =>
      var l := s.At(t);
      if !(l.Scanning? && l.fc < |s.versions|) then s
      else if l.todo == [] then s.With(t, Idle)
      else if s.HasCsr(l.todo[0]) then ScanHead(cfg, s, t, l.fc, l.todo)
      else s
    case UpsertRole(t, seenExisting) =>
      var l := s.At(t);
      if !l.EnsuringRole? || (seenExisting && !s.roleEver) then s
      else
        (if seenExisting then s else s.(role := true, roleEver := true))
        .With(t, EnsuringBinding(l.fc, l.csr, l.kind))
    case UpsertBinding(t, seenExisting) =>
      var l := s.At(t);
      if !l.EnsuringBinding? || (seenExisting && !s.bindingEver) then s
      else
        (if seenExisting then s else s.(binding := true, bindingEver := true))
        .With(t, if l.kind.ForBootstrap? then Marking(l.fc, l.csr, 0) else Approving(l.csr, ForRenewal))
    case TryMark(t, refetch) =>
      var l := s.At(t);
      if l.Marking? && l.fc < |s.versions| then MarkOnce(s, t, l.fc, l.csr, l.attempt, refetch) else s
    case Approve(t) =>
      var l := s.At(t);
      if !(l.Approving? && s.HasCsr(l.csr)) then s
      else UpdateApproval(s, l.csr, s.Copy(l.csr).(approved := true)).With(t, Idle)
    case DeleteBinding(t) =>
      if s.At(t).DeletingBinding? then s.(binding := false).With(t, DeletingRole(s.At(t).fc)) else s
    case DeleteRole(t) =>
      if s.At(t).DeletingRole? then s.(role := false).With(t, Idle) else s
    case Crash(t) => s.With(t, Idle)
    case RefreshRole => s.(role := true, roleEver := true)
    case RefreshBinding => s.(binding := true, bindingEver := true)
    case Patch(c) =>
      if |s.versions| > 0 && AllowedPatch(s.Current(), c) then s.(versions := s.versions + [c]) else s
    case CreateCsr(name, spec, clusterLabel) =>
      if name != "" && name !in s.csrs then s.(csrs := s.csrs[name := [Csr(spec, clusterLabel, false, false)]]) else s
    case Relabel(name, clusterLabel) =>
      if !(name in s.csrs && |s.csrs[name]| > 0) then s
      else
        var h := s.csrs[name];
        s.(csrs := s.csrs[name := h + [h[|h| - 1].(clusterLabel := clusterLabel)]])
    case Tick(now) => if now >= s.now then s.(now := now) else s
  }

  function Run(cfg: Config, s: State, events: seq<Event>): State {
    if events == [] then s else Apply(cfg, Run(cfg, s, events[..|events| - 1]), events[|events| - 1])
  }

  /** A Cluster just created: unused slot, no CSRs, no RBAC, every reconciler idle. */
  predicate Initial(s: State) {
    && |s.versions| == 1 && s.versions[0].slot == Slot(false, "", "") && !s.versions[0].deleting
    && s.csrs == map[] && !s.role && !s.binding && !s.roleEver && !s.bindingEver && s.locals == map[]
  }

  // ---- The inductive invariant ----------------------------------------------------------------

  /** A consumed slot names a CSR and stays as it is; deletion is not undone. */
  predicate SlotKept(a: Cluster, b: Cluster) {
    && (a.slot.used ==> a.slot.bound != "" && b.slot.used && b.slot.bound == a.slot.bound)
    && (a.deleting ==> b.deleting)
  }

  ghost predicate VersionsInv(s: State) {
    && |s.versions| > 0
    && forall i, j :: 0 <= i <= j < |s.versions| ==> SlotKept(s.versions[i], s.versions[j])
  }

  /** A verdict, once given, is the only one and is never taken back. */
  predicate VerdictKept(a: Csr, b: Csr) {
    a.spec == b.spec && !(b.approved && b.denied) && (a.Final() ==> b.approved == a.approved && b.denied == a.denied)
  }

  ghost predicate CsrHistory(h: seq<Csr>) {
    |h| > 0 && forall i, j :: 0 <= i <= j < |h| ==> VerdictKept(h[i], h[j])
  }

  ghost predicate CsrsInv(s: State) {
    forall name :: name in s.csrs ==> name != "" && CsrHistory(s.csrs[name])
  }

  ghost predicate RbacInv(s: State)
    requires |s.versions| > 0
  {
    (s.roleEver ==> s.role || s.Current().deleting) && (s.bindingEver ==> s.binding || s.Current().deleting)
  }

  /** What an approval certifies about the slot and the RBAC. */
  predicate Entitled(cfg: Config, s: State, name: string, spec: CsrSpec, kind: Kind)
    requires |s.versions| > 0
  {
    && s.Current().slot.used
    && s.roleEver && s.bindingEver
    && (if kind.ForBootstrap? then Classify(cfg, spec, true) == Bootstrap && s.Current().slot.bound == name
        else Classify(cfg, spec, true) == Renewal)
  }

  ghost predicate ApprovalsInv(cfg: Config, s: State)
    requires |s.versions| > 0
  {
    forall name, i :: name in s.csrs && 0 <= i < |s.csrs[name]| && s.csrs[name][i].approved ==>
                        Entitled(cfg, s, name, s.csrs[name][i].spec, ForBootstrap)
                            || Entitled(cfg, s, name, s.csrs[name][i].spec, ForRenewal)
  }

  /** The copy a handler works on was pending when listed and has the purpose the handler is for. */
  predicate Handling(cfg: Config, s: State, r: CsrRef, kind: Kind)
    requires |s.versions| > 0
  {
    && s.HasCsr(r) && !s.Copy(r).Final() && Listable(cfg, s.Copy(r))
    && (if kind.ForBootstrap? then Classify(cfg, s.Copy(r).spec, true) == Bootstrap
        else Classify(cfg, s.Copy(r).spec, true) == Renewal && s.Current().slot.used)
  }

  predicate LocalInv(cfg: Config, s: State, l: Local)
    requires |s.versions| > 0
  {
    match l
    case Idle => true
    case Listing(fc) => fc < |s.versions|
    case Scanning(fc, todo) => fc < |s.versions| && AllListable(cfg, s, todo)
    case EnsuringRole(fc, r, kind) => fc < |s.versions| && Handling(cfg, s, r, kind)
    case EnsuringBinding(fc, r, kind) => fc < |s.versions| && Handling(cfg, s, r, kind) && s.roleEver
    case Marking(fc, r, attempt) => fc < |s.versions| && Handling(cfg, s, r, ForBootstrap) && s.roleEver
        && s.bindingEver
    case Approving(r, kind) => Handling(cfg, s, r, kind) && Entitled(cfg, s, r.name, s.Copy(r).spec, kind)
    case DeletingBinding(fc) => fc < |s.versions| && s.versions[fc].deleting
    case DeletingRole(fc) => fc < |s.versions| && s.versions[fc].deleting
  }

  ghost predicate LocalsInv(cfg: Config, s: State)
    requires |s.versions| > 0
  {
    forall t :: t in s.locals ==> LocalInv(cfg, s, s.locals[t])
  }

  /** The slot is bound to a CSR that exists, was submitted for bootstrap and was listable at some time. */
  predicate Bindable(cfg: Config, s: State, slot: Slot) {
    slot.used ==> && slot.bound in s.csrs && |s.csrs[slot.bound]| > 0
                  && Classify(cfg, s.csrs[slot.bound][0].spec, true) == Bootstrap
                  && WasListable(cfg, s.csrs[slot.bound])
  }

  predicate WasListable(cfg: Config, h: seq<Csr>) {
    exists i :: 0 <= i < |h| && Listable(cfg, h[i])
  }

  ghost predicate Inv(cfg: Config, s: State) {
    VersionsInv(s) && CsrsInv(s) && RbacInv(s) && ApprovalsInv(cfg, s) && LocalsInv(cfg, s)
        && Bindable(cfg, s, s.Current().slot)
  }

  // ---- Every step only adds ---------------------------------------------------------------------

  /** Histories grow, and what was once ensured stays recorded. */
  ghost predicate Grows(a: State, b: State) {
    && a.versions <= b.versions
    && (forall name :: name in a.csrs ==> name in b.csrs && a.csrs[name] <= b.csrs[name])
    && (a.roleEver ==> b.roleEver) && (a.bindingEver ==> b.bindingEver)
  }

  lemma CurrentKept(a: State, b: State)
    requires VersionsInv(a) && VersionsInv(b) && a.versions <= b.versions
    ensures SlotKept(a.Current(), b.Current())
  {
  }

  lemma LocalsStable(cfg: Config, a: State, b: State, t: nat, l: Local)
    requires VersionsInv(a) && VersionsInv(b) && Grows(a, b) && LocalsInv(cfg, a)
    requires b.locals == a.locals || (b.locals == a.locals[t := l] && LocalInv(cfg, b, l))
    ensures LocalsInv(cfg, b)
  {
  }

  /** Approvals already given stay justified when no new one is added. */
  lemma ApprovalsStable(cfg: Config, a: State, b: State)
    requires VersionsInv(a) && VersionsInv(b) && Grows(a, b) && ApprovalsInv(cfg, a)
    requires forall name, i :: name in b.csrs && 0 <= i < |b.csrs[name]| && b.csrs[name][i].approved ==>
                                 exists j :: name in a.csrs && 0 <= j < |a.csrs[name]|
                                     && a.csrs[name][j] == b.csrs[name][i]
    ensures ApprovalsInv(cfg, b)
  {
  }

  // ---- The four kinds of step -------------------------------------------------------------------

  /** A step that only moves one reconciler, the clock or the RBAC. */
  lemma MoveStep(cfg: Config, a: State, b: State, t: nat, l: Local)
    requires Inv(cfg, a) && b.versions == a.versions && b.csrs == a.csrs
    requires (a.roleEver ==> b.roleEver) && (a.bindingEver ==> b.bindingEver) && RbacInv(b)
    requires b.locals == a.locals || (b.locals == a.locals[t := l] && LocalInv(cfg, b, l))
    ensures Inv(cfg, b) && Grows(a, b)
  {
    LocalsStable(cfg, a, b, t, l);
    ApprovalsStable(cfg, a, b);
  }

  /** A step that appends a Cluster version which keeps a consumed slot. */
  lemma VersionStep(cfg: Config, a: State, b: State, c: Cluster, t: nat, l: Local)
    requires Inv(cfg, a) && b.versions == a.versions + [c] && b.csrs == a.csrs
    requires b.role == a.role && b.binding == a.binding && b.roleEver == a.roleEver && b.bindingEver == a.bindingEver
    requires SlotKept(a.Current(), c) && (c.slot.used ==> c.slot.bound != "") && Bindable(cfg, a, c.slot)
    requires b.locals == a.locals || (b.locals == a.locals[t := l] && LocalInv(cfg, b, l))
    ensures Inv(cfg, b) && Grows(a, b)
  {
    forall i, j | 0 <= i <= j < |b.versions|
      ensures SlotKept(b.versions[i], b.versions[j])
    {
      if j == |a.versions| && i < j {
        assert SlotKept(a.versions[i], a.Current());
      }
    }
    LocalsStable(cfg, a, b, t, l);
    ApprovalsStable(cfg, a, b);
  }

  lemma HistoryExtends(h: seq<Csr>, csr: Csr)
    requires CsrHistory(h) && VerdictKept(h[|h| - 1], csr) && VerdictKept(csr, csr)
    ensures CsrHistory(h + [csr])
  {
  }

  /** A step that appends a CSR version: a verdict on a pending copy, or no change of verdict. */
  lemma CsrStep(cfg: Config, a: State, b: State, name: string, csr: Csr, t: nat, l: Local)
    requires Inv(cfg, a) && b.versions == a.versions && name in a.csrs && b.csrs == a.csrs[name := a.csrs[name] + [csr]]
    requires b.role == a.role && b.binding == a.binding && b.roleEver == a.roleEver && b.bindingEver == a.bindingEver
    requires VerdictKept(a.csrs[name][|a.csrs[name]| - 1], csr) && VerdictKept(csr, csr)
    requires csr.approved ==>
               a.csrs[name][|a.csrs[name]| - 1].approved || Entitled(cfg, a, name, csr.spec, ForBootstrap)
                   || Entitled(cfg, a, name, csr.spec, ForRenewal)
    requires b.locals == a.locals || (b.locals == a.locals[t := l] && LocalInv(cfg, b, l))
    ensures Inv(cfg, b) && Grows(a, b)
  {
    HistoryExtends(a.csrs[name], csr);
    LocalsStable(cfg, a, b, t, l);
    forall n, i | n in b.csrs && 0 <= i < |b.csrs[n]| && b.csrs[n][i].approved
      ensures Entitled(cfg, b, n, b.csrs[n][i].spec, ForBootstrap) || Entitled(cfg, b, n, b.csrs[n][i].spec, ForRenewal)
    {
      if n != name || i < |a.csrs[n]| {
        assert a.csrs[n][i] == b.csrs[n][i];
      } else {
        assert a.csrs[name][|a.csrs[name]| - 1].spec == csr.spec;
      }
    }
  }

  /** A step that creates a CSR under a fresh name. */
  lemma CreateStep(cfg: Config, a: State, b: State, name: string, csr: Csr)
    requires Inv(cfg, a) && name != "" && name !in a.csrs
    requires !csr.Final() && b == a.(csrs := a.csrs[name := [csr]])
    ensures Inv(cfg, b) && Grows(a, b)
  {
    LocalsStable(cfg, a, b, 0, Idle);
    ApprovalsStable(cfg, a, b);
  }

  // ---- Every event keeps the invariant ------------------------------------------------------------

  /** One reconciler moves on, nothing else happens. */
  lemma PauseKeeps(cfg: Config, s: State, t: nat, l: Local)
    requires Inv(cfg, s) && LocalInv(cfg, s, l)
    ensures Inv(cfg, s.With(t, l)) && Grows(s, s.With(t, l))
  {
    MoveStep(cfg, s, s.With(t, l), t, l);
  }

  lemma GrowsSelf(s: State)
    ensures Grows(s, s)
  {
  }

  /** Facts about one reconciler's copies, read off the invariant. */
  lemma LocalAt(cfg: Config, s: State, t: nat)
    requires Inv(cfg, s)
    ensures |s.versions| > 0 && LocalInv(cfg, s, s.At(t))
  {
  }

  lemma CopyKept(cfg: Config, s: State, fc: nat)
    requires Inv(cfg, s) && fc < |s.versions|
    ensures SlotKept(s.versions[fc], s.Current())
  {
  }

  lemma DenyKeeps(cfg: Config, s: State, t: nat, r: CsrRef, next: Local)
    requires Inv(cfg, s) && s.HasCsr(r) && !s.Copy(r).Final()
    requires next.Idle? || (next.Scanning? && next.fc < |s.versions| && AllListable(cfg, s, next.todo))
    ensures Inv(cfg, Deny(s, t, r, next)) && Grows(s, Deny(s, t, r, next))
  {
    var b := Deny(s, t, r, next);
    if s.IsCurrent(r) {
      CsrStep(cfg, s, b, r.name, s.Copy(r).(denied := true), t, next);
    } else {
      MoveStep(cfg, s, b, t, Idle);
    }
  }

  lemma ScanKeeps(cfg: Config, s: State, t: nat, fc: nat, todo: seq<CsrRef>)
    requires Inv(cfg, s) && fc < |s.versions| && todo != [] && AllListable(cfg, s, todo)
    ensures Inv(cfg, ScanHead(cfg, s, t, fc, todo)) && Grows(s, ScanHead(cfg, s, t, fc, todo))
  {
    hide Inv, Grows, Deny, Classify;
    var r, slot := todo[0], s.versions[fc].slot;
    var csr := s.Copy(r);
    var next := Scanning(fc, todo[1..]);
    assert AllListable(cfg, s, todo[1..]);
    CopyKept(cfg, s, fc);
    PauseKeeps(cfg, s, t, next);
    if !csr.Final() {
      ClassifyBySubmitter(cfg, csr.spec, slot.used, true);
      DenyKeeps(cfg, s, t, r, next);
      DenyKeeps(cfg, s, t, r, Idle);
      if Classify(cfg, csr.spec, slot.used) == Renewal {
        PauseKeeps(cfg, s, t, EnsuringRole(fc, r, ForRenewal));
      } else if Classify(cfg, csr.spec, slot.used) == Bootstrap {
        PauseKeeps(cfg, s, t, EnsuringRole(fc, r, ForBootstrap));
      }
    }
  }

  lemma MarkKeeps(cfg: Config, s: State, t: nat, fc: nat, r: CsrRef, attempt: nat, refetch: nat)
    requires Inv(cfg, s) && LocalInv(cfg, s, Marking(fc, r, attempt))
    ensures Inv(cfg, MarkOnce(s, t, fc, r, attempt, refetch)) && Grows(s, MarkOnce(s, t, fc, r, attempt, refetch))
  {
    var b := MarkOnce(s, t, fc, r, attempt, refetch);
    var copy := s.versions[fc];
    CopyKept(cfg, s, fc);
    if attempt == 0 && copy.slot.used && copy.slot.bound == r.name {
      PauseKeeps(cfg, s, t, Approving(r, ForBootstrap));
    } else {
      match MarkUsed(copy, r.name) {
        case None => PauseKeeps(cfg, s, t, Idle);
        case Some(marked) =>
          if fc == |s.versions| - 1 {
            assert CsrHistory(s.csrs[r.name]) && VerdictKept(s.csrs[r.name][0], s.Copy(r));
            VersionStep(cfg, s, b, marked, t, Approving(r, ForBootstrap));
          } else if attempt + 1 < ConflictRetry.MAX_ATTEMPTS && refetch < |s.versions| {
            PauseKeeps(cfg, s, t, Marking(refetch, r, attempt + 1));
          } else {
            PauseKeeps(cfg, s, t, Idle);
          }
      }
    }
  }

  lemma ApproveKeeps(cfg: Config, s: State, t: nat, r: CsrRef, kind: Kind)
    requires Inv(cfg, s) && LocalInv(cfg, s, Approving(r, kind))
    ensures var b := UpdateApproval(s, r, s.Copy(r).(approved := true)).With(t, Idle);
            Inv(cfg, b) && Grows(s, b)
  {
    var b := UpdateApproval(s, r, s.Copy(r).(approved := true)).With(t, Idle);
    if s.IsCurrent(r) {
      CsrStep(cfg, s, b, r.name, s.Copy(r).(approved := true), t, Idle);
    } else {
      MoveStep(cfg, s, b, t, Idle);
    }
  }

  lemma UpsertRoleKeeps(cfg: Config, s: State, t: nat, seenExisting: bool, l: Local)
    requires Inv(cfg, s) && l.EnsuringRole? && LocalInv(cfg, s, l) && (seenExisting ==> s.roleEver)
    ensures var b := (if seenExisting then s
              else s.(role := true, roleEver := true)).With(t, EnsuringBinding(l.fc, l.csr, l.kind));
            Inv(cfg, b) && Grows(s, b)
  {
    var b := (if seenExisting then s
        else s.(role := true, roleEver := true)).With(t, EnsuringBinding(l.fc, l.csr, l.kind));
    MoveStep(cfg, s, b, t, EnsuringBinding(l.fc, l.csr, l.kind));
  }

  lemma UpsertBindingKeeps(cfg: Config, s: State, t: nat, seenExisting: bool, l: Local)
    requires Inv(cfg, s) && l.EnsuringBinding? && LocalInv(cfg, s, l) && (seenExisting ==> s.bindingEver)
    ensures var next := if l.kind.ForBootstrap? then Marking(l.fc, l.csr, 0) else Approving(l.csr, ForRenewal);
            var b := (if seenExisting then s else s.(binding := true, bindingEver := true)).With(t, next);
            Inv(cfg, b) && Grows(s, b)
  {
    var next := if l.kind.ForBootstrap? then Marking(l.fc, l.csr, 0) else Approving(l.csr, ForRenewal);
    var b := (if seenExisting then s else s.(binding := true, bindingEver := true)).With(t, next);
    MoveStep(cfg, s, b, t, next);
  }

  lemma DeleteKeeps(cfg: Config, s: State, t: nat, l: Local)
    requires Inv(cfg, s) && LocalInv(cfg, s, l)
    ensures l.DeletingBinding? ==> var b := s.(binding := false).With(t, DeletingRole(l.fc)); Inv(cfg, b) && Grows(s, b)
    ensures l.DeletingRole? ==> var b := s.(role := false).With(t, Idle); Inv(cfg, b) && Grows(s, b)
  {
    if l.DeletingBinding? {
      CopyKept(cfg, s, l.fc);
      MoveStep(cfg, s, s.(binding := false).With(t, DeletingRole(l.fc)), t, DeletingRole(l.fc));
    } else if l.DeletingRole? {
      CopyKept(cfg, s, l.fc);
      MoveStep(cfg, s, s.(role := false).With(t, Idle), t, Idle);
    }
  }

  lemma PatchKeeps(cfg: Config, s: State, c: Cluster)
    requires Inv(cfg, s) && AllowedPatch(s.Current(), c)
    ensures Inv(cfg, s.(versions := s.versions + [c])) && Grows(s, s.(versions := s.versions + [c]))
  {
    CopyKept(cfg, s, |s.versions| - 1);
    VersionStep(cfg, s, s.(versions := s.versions + [c]), c, 0, Idle);
  }

  lemma RelabelKeeps(cfg: Config, s: State, name: string, clusterLabel: string)
    requires Inv(cfg, s) && name in s.csrs
    ensures Inv(cfg, Apply(cfg, s, Relabel(name, clusterLabel))) && Grows(s, Apply(cfg, s, Relabel(name, clusterLabel)))
  {
    var h := s.csrs[name];
    assert CsrHistory(h) && VerdictKept(h[|h| - 1], h[|h| - 1]);
    CsrStep(cfg, s, Apply(cfg, s, Relabel(name, clusterLabel)), name, h[|h| - 1].(clusterLabel := clusterLabel), 0,
        Idle);
  }

  lemma TickKeeps(cfg: Config, s: State, now: int)
    requires Inv(cfg, s)
    ensures Inv(cfg, s.(now := now)) && Grows(s, s.(now := now))
  {
  }

  lemma RefreshKeeps(cfg: Config, s: State)
    requires Inv(cfg, s)
    ensures var b := s.(role := true, roleEver := true); Inv(cfg, b) && Grows(s, b)
    ensures var b := s.(binding := true, bindingEver := true); Inv(cfg, b) && Grows(s, b)
  {
    MoveStep(cfg, s, s.(role := true, roleEver := true), 0, Idle);
    MoveStep(cfg, s, s.(binding := true, bindingEver := true), 0, Idle);
  }

  /** A reconciler's step keeps the invariant. */
  lemma ReconcilerKeeps(cfg: Config, s: State, e: Event)
    requires Inv(cfg, s) && !e.RefreshRole? && !e.RefreshBinding? && !e.Patch? && !e.CreateCsr? && !e.Relabel?
    requires !e.Tick?
    ensures Inv(cfg, Apply(cfg, s, e)) && Grows(s, Apply(cfg, s, e))
  {
    hide Inv, Grows, ScanHead, MarkOnce, UpdateApproval, Expired;
    GrowsSelf(s);
    LocalAt(cfg, s, e.t);
    var l := s.At(e.t);
    match e {
      case Begin(t, fc) =>
        if fc < |s.versions| {
          PauseKeeps(cfg, s, t, Listing(fc));
          if s.versions[fc].deleting { PauseKeeps(cfg, s, t, DeletingBinding(fc)); }
        }
      case List(t, listed) =>
        if l.Listing? && AllListable(cfg, s, listed) { PauseKeeps(cfg, s, t, Scanning(l.fc, listed)); }
      case Scan(t) =>
        PauseKeeps(cfg, s, t, Idle);
        if l.Scanning? && l.todo != [] { ScanKeeps(cfg, s, t, l.fc, l.todo); }
      case UpsertRole(t, seenExisting) =>
        if l.EnsuringRole? && (seenExisting ==> s.roleEver) { UpsertRoleKeeps(cfg, s, t, seenExisting, l); }
      case UpsertBinding(t, seenExisting) =>
        if l.EnsuringBinding? && (seenExisting ==> s.bindingEver) { UpsertBindingKeeps(cfg, s, t, seenExisting, l); }
      case TryMark(t, refetch) =>
        if l.Marking? { MarkKeeps(cfg, s, t, l.fc, l.csr, l.attempt, refetch); }
      case Approve(t) =>
        if l.Approving? { ApproveKeeps(cfg, s, t, l.csr, l.kind); }
      case DeleteBinding(t) => DeleteKeeps(cfg, s, t, l);
      case DeleteRole(t) => DeleteKeeps(cfg, s, t, l);
      case Crash(t) => PauseKeeps(cfg, s, t, Idle);
      case _ =>
    }
  }

  /** Every event, enabled or not, keeps the invariant and loses no history. */
  lemma StepKeepsInv(cfg: Config, s: State, e: Event)
    requires Inv(cfg, s)
    ensures Inv(cfg, Apply(cfg, s, e)) && Grows(s, Apply(cfg, s, e))
  {
    hide Inv, Grows;
    GrowsSelf(s);
    match e {
      case Patch(c) =>
        if |s.versions| > 0 && AllowedPatch(s.Current(), c) { PatchKeeps(cfg, s, c); }
      case CreateCsr(name, spec, clusterLabel) =>
        if name != "" && name !in s.csrs {
          CreateStep(cfg, s, Apply(cfg, s, e), name, Csr(spec, clusterLabel, false, false));
        }
      case Relabel(name, clusterLabel) =>
        if name in s.csrs { RelabelKeeps(cfg, s, name, clusterLabel); }
      case Tick(now) => TickKeeps(cfg, s, now);
      case RefreshRole => RefreshKeeps(cfg, s);
      case RefreshBinding => RefreshKeeps(cfg, s);
      case _ => ReconcilerKeeps(cfg, s, e);
    }
  }

  lemma GrowsTransitive(a: State, b: State, c: State)
    requires Grows(a, b) && Grows(b, c)
    ensures Grows(a, c)
  {
  }
}
