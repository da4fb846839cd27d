/**
 An error-free reconcile of the bootstrap protocol, as any sequence of one reconciler's calls on fresh
 copies, and its effect: that of one pass of BootstrapRecovery over the list it read.
 */
module BootstrapReconcile {
  import opened Wrappers
  import opened BootstrapModel
  import opened BootstrapRecovery
  import opened BootstrapProtocol
  import opened BootstrapSafety

  ghost predicate Histories(s: State) { forall n :: n in s.csrs ==> |s.csrs[n]| > 0 }

  /** What an up-to-date reader sees. */
  ghost function ViewOf(s: State): View
    requires |s.versions| > 0 && Histories(s)
  {
    View(s.Current().slot, Latest(s), s.role && s.binding)
  }

  function Names(refs: seq<CsrRef>): seq<string> { seq(|refs|, i requires 0 <= i < |refs| => refs[i].name) }

  /** A reconcile of this Cluster gets to its CSRs: alive, not suspended, with slot, finalizer and deadline. */
  predicate Live(c: Cluster) { !c.deleting && !c.suspended && c.hasBootstrap && c.finalizer && c.expiresAt.Some? }

  /** A list that `listCSRsForCluster` may return, in any order. */
  ghost predicate ValidList(cfg: Config, csrs: Csrs, listed: seq<string>) {
    && (forall n :: n in listed ==> n in csrs && Listable(cfg, csrs[n]))
    && (forall i, j :: 0 <= i < j < |listed| ==> listed[i] != listed[j])
  }

  /** The current copies of the listed CSRs. */
  function FreshRefs(s: State, listed: seq<string>): seq<CsrRef> {
    seq(|listed|, i requires 0 <= i < |listed| =>
      CsrRef(listed[i], if listed[i] in s.csrs && |s.csrs[listed[i]]| > 0 then |s.csrs[listed[i]]| - 1 else 0))
  }

  lemma FreshRefsFacts(cfg: Config, s: State, listed: seq<string>)
    requires Histories(s) && ValidList(cfg, Latest(s), listed)
    ensures var refs := FreshRefs(s, listed);
            && Names(refs) == listed && AllListable(cfg, s, refs)
            && (forall r :: r in refs ==> s.HasCsr(r) && s.IsCurrent(r))
            && (forall i, j :: 0 <= i < j < |refs| ==> refs[i].name != refs[j].name)
  {
    var refs := FreshRefs(s, listed);
    forall r | r in refs
      ensures s.HasCsr(r) && s.IsCurrent(r) && Listable(cfg, s.Copy(r))
    {
      var i :| 0 <= i < |refs| && refs[i] == r;
      assert listed[i] in listed && listed[i] in Latest(s);
    }
  }

  /** A call of reconciler `t` after its list, or the clock. */
  predicate CallOf(t: nat, e: Event) {
    e.Tick? || ((e.Scan? || e.UpsertRole? || e.UpsertBinding? || e.TryMark? || e.Approve?) && e.t == t)
  }

  /** One error-free reconcile: reconciler `t`, idle, reads the current Cluster, lists the current copies of
      `listed`, and makes its calls, in whatever way upserts find the RBAC, until it is idle again. */
  ghost predicate Reconciles(cfg: Config, s: State, t: nat, listed: seq<string>, events: seq<Event>) {
    && |s.versions| > 0 && s.At(t).Idle? && |events| >= 2
    && events[0] == Begin(t, |s.versions| - 1) && events[1] == List(t, FreshRefs(s, listed))
    && (forall e :: e in events[2..] ==> CallOf(t, e))
    && Run(cfg, s, events).At(t).Idle?
  }

  // ---- What every call keeps ------------------------------------------------------------------------

  /** Reconciler `t` scans fresh copies against the current Cluster. */
  ghost predicate Ready(s: State, t: nat, todo: seq<CsrRef>) {
    && |s.versions| > 0 && Histories(s)
    && s.At(t) == Scanning(|s.versions| - 1, todo)
    && (forall r :: r in todo ==> s.HasCsr(r) && s.IsCurrent(r))
    && (forall i, j :: 0 <= i < j < |todo| ==> todo[i].name != todo[j].name)
  }

  /** What handling a CSR comes to: RBAC and approval and, for a bootstrap CSR, the slot. */
  ghost function Served(v: View, name: string, kind: Kind): View
    requires name in v.csrs
  {
    if kind.ForRenewal? then v.Approve(name) else v.Approve(name).(slot := v.slot.(used := true, bound := name))
  }

  /** Approving `r` completes the pass. */
  ghost predicate Completing(s: State, r: CsrRef, kind: Kind, goal: View)
    requires |s.versions| > 0 && Histories(s)
  {
    s.HasCsr(r) && s.IsCurrent(r) && Served(ViewOf(s), r.name, kind) == goal
  }

  ghost predicate Handled(s: State, fc: nat, r: CsrRef, kind: Kind, goal: View)
    requires |s.versions| > 0 && Histories(s)
  {
    && fc == |s.versions| - 1 && Completing(s, r, kind, goal)
    && (kind.ForBootstrap? && s.Current().slot.used ==> s.Current().slot.bound == r.name)
  }

  /** Where a reconcile started: the Cluster versions then, and the views it leads to when its clock reading
      is within the deadline and when it is past it. */
  datatype Goals = Goals(versions: seq<Cluster>, inTime: View, late: View)

  /** Nothing was written to the Cluster, or a slot was consumed. */
  ghost predicate SameCluster(a: seq<Cluster>, b: seq<Cluster>) {
    && |a| > 0 && a[|a| - 1].expiresAt.Some? && (a[|a| - 1].slot.used ==> a[|a| - 1].slot.bound != "")
    && (b == a || (!a[|a| - 1].slot.used && |b| > 0 && b[|b| - 1].slot.used
                   && b == a + [a[|a| - 1].(slot := b[|b| - 1].slot)]))
  }

  /** The Cluster is as it was, so the deadline is the one first read. */
  ghost predicate Untouched(s: State, p: Goals) { s.versions == p.versions }

  /** Wherever reconciler `t` is, what is left to do leads to one of the two goals. */
  ghost predicate LeadsTo(cfg: Config, s: State, t: nat, p: Goals) {
    && |s.versions| > 0 && Histories(s) && SameCluster(p.versions, s.versions)
    && (s.roleEver ==> s.role) && (s.bindingEver ==> s.binding)
    && match s.At(t)
       case Idle => Reached(s, p)
       case Scanning(fc, todo) => Untouched(s, p) && Ready(s, t, todo) && Passing(cfg, ViewOf(s), Names(todo), p)
       case EnsuringRole(fc, r, kind) => Untouched(s, p) && Handled(s, fc, r, kind, p.inTime)
       case EnsuringBinding(fc, r, kind) => Untouched(s, p) && Handled(s, fc, r, kind, p.inTime) && s.role
       case Marking(fc, r, attempt) =>
         Untouched(s, p) && Handled(s, fc, r, ForBootstrap, p.inTime) && s.role && s.binding && attempt == 0
       case Approving(r, kind) =>
         && Completing(s, r, kind, p.inTime) && s.role && s.binding
         && (kind.ForBootstrap? ==> s.Current().slot.used && s.Current().slot.bound == r.name)
       case _ => false
  }

  ghost predicate Reached(s: State, p: Goals)
    requires |s.versions| > 0 && Histories(s) && SameCluster(p.versions, s.versions)
  {
    var c := p.versions[|p.versions| - 1];
    ViewOf(s) == p.inTime || (ViewOf(s) == p.late && !c.slot.used && s.now > c.expiresAt.value)
  }

  /** The rest of the list leads to both goals. */
  ghost predicate Passing(cfg: Config, v: View, listed: seq<string>, p: Goals) {
    Process(cfg, false, v, listed).view == p.inTime && Process(cfg, true, v, listed).view == p.late
  }

  /** The head of the list and what the current Cluster makes of it. */
  lemma HeadFacts(s: State, t: nat, todo: seq<CsrRef>)
    requires Ready(s, t, todo) && todo != []
    ensures |s.versions| > 0 && Histories(s) && s.HasCsr(todo[0]) && s.IsCurrent(todo[0])
    ensures var v := ViewOf(s); todo[0].name in v.csrs && v.csrs[todo[0].name] == s.Copy(todo[0])
    ensures Names(todo) != [] && Names(todo)[0] == todo[0].name && Names(todo)[1..] == Names(todo[1..])
  {
    assert todo[0] in todo;
  }

  lemma SkipStep(cfg: Config, s: State, t: nat, todo: seq<CsrRef>)
    requires Ready(s, t, todo) && todo != [] && s.HasCsr(todo[0])
    requires !Handles(cfg, ViewOf(s), todo[0].name) && !Refuses(cfg, ViewOf(s), todo[0].name)
    ensures var next := Apply(cfg, s, Scan(t));
            next == s.With(t, Scanning(|s.versions| - 1, todo[1..])) && Ready(next, t, todo[1..])
                && ViewOf(next) == ViewOf(s)
  {
    HeadFacts(s, t, todo);
    PurposeIff(cfg, s.Copy(todo[0]).spec, s.Current().slot.used);
    assert todo[0] in todo && forall r :: r in todo[1..] ==> r in todo;
  }

  lemma DenyStep(cfg: Config, s: State, t: nat, todo: seq<CsrRef>, next: Local)
    requires Ready(s, t, todo) && todo != [] && s.HasCsr(todo[0])
    requires next.Idle? || next == Scanning(|s.versions| - 1, todo[1..])
    ensures var b := Deny(s, t, todo[0], next);
            && todo[0].name in ViewOf(s).csrs && Histories(b) && b.At(t) == next
            && b == s.(csrs := b.csrs, locals := b.locals)
            && (next.Scanning? ==> Ready(b, t, todo[1..]))
            && ViewOf(b) == ViewOf(s).Deny(todo[0].name)
  {
    var r := todo[0];
    assert r in todo;
    var b := Deny(s, t, r, next);
    assert b.csrs == s.csrs[r.name := s.csrs[r.name] + [s.Copy(r).(denied := true)]];
    forall x | x in todo[1..]
      ensures x in todo && x.name != r.name
    {
      var i :| 0 <= i < |todo[1..]| && todo[1..][i] == x;
      assert todo[i + 1] == x;
    }
    assert Latest(b) == Latest(s)[r.name := Latest(s)[r.name].(denied := true)];
  }

  /** What the scan does with a head it refuses, and with one it handles. */
  lemma ScanVerdict(cfg: Config, s: State, t: nat, todo: seq<CsrRef>)
    requires Ready(s, t, todo) && todo != [] && s.HasCsr(todo[0])
    requires s.Current().slot.used ==> s.Current().slot.bound != ""
    requires s.Current().expiresAt.Some?
    ensures var c, v, name := s.Current(), ViewOf(s), todo[0].name;
            var next := Apply(cfg, s, Scan(t));
            && (Refuses(cfg, v, name) ==> next == Deny(s, t, todo[0], Scanning(|s.versions| - 1, todo[1..])))
            && (Handles(cfg, v, name) ==>
                if !c.slot.used && s.now > c.expiresAt.value then next == Deny(s, t, todo[0], Idle)
                else next == s.With(t, EnsuringRole(|s.versions| - 1, todo[0], KindOf(cfg, v, name))))
  {
    hide Deny;
    HeadFacts(s, t, todo);
    PurposeIff(cfg, s.Copy(todo[0]).spec, s.Current().slot.used);
    assert "kapro-cluster:"[0] == 'k' && "system:serviceaccount:"[0] == 's';
  }

  ghost function KindOf(cfg: Config, v: View, name: string): Kind
    requires name in v.csrs
  {
    if FromBootstrapAccount(cfg, v.csrs[name].spec) then ForBootstrap else ForRenewal
  }

  /** How a pass goes on from a head it handles. */
  lemma PassHandles(cfg: Config, late: bool, v: View, listed: seq<string>)
    requires listed != [] && (v.slot.used ==> v.slot.bound != "") && Handles(cfg, v, listed[0])
    ensures var p := Process(cfg, late, v, listed).view;
            if late && !v.slot.used then p == v.Deny(listed[0])
            else p == Served(v, listed[0], KindOf(cfg, v, listed[0]))
  {
    hide Process;
    HeadOfPass(cfg, late, v, listed);
    assert "kapro-cluster:"[0] == 'k' && "system:serviceaccount:"[0] == 's';
  }

  /** One scan step, and how much closer it is to the end of the list. */
  ghost predicate Advances(cfg: Config, s: State, t: nat, p: Goals, next: State)
    requires s.At(t).Scanning?
  {
    && LeadsTo(cfg, next, t, p)
    && (next.At(t).Idle? || next.At(t).EnsuringRole?
        || (next.At(t).Scanning? && |next.At(t).todo| < |s.At(t).todo|))
  }

  lemma ScanLeads(cfg: Config, s: State, t: nat, p: Goals)
    requires LeadsTo(cfg, s, t, p) && s.At(t).Scanning?
    ensures Advances(cfg, s, t, p, Apply(cfg, s, Scan(t)))
  {
    var todo := s.At(t).todo;
    if todo == [] {
      DoneStep(cfg, s, t, p);
    } else {
      hide Apply, Process, Latest, Histories, Advances, Handles, Refuses;
      HeadFacts(s, t, todo);
      var name, v := todo[0].name, ViewOf(s);
      if Handles(cfg, v, name) {
        HandleLeads(cfg, s, t, p, todo);
      } else if Refuses(cfg, v, name) {
        RefuseLeads(cfg, s, t, p, todo);
      } else {
        SkipLeads(cfg, s, t, p, todo);
      }
    }
  }

  lemma SkipLeads(cfg: Config, s: State, t: nat, p: Goals, todo: seq<CsrRef>)
    requires LeadsTo(cfg, s, t, p) && s.At(t).Scanning? && s.At(t).todo == todo != []
    requires !Handles(cfg, ViewOf(s), todo[0].name) && !Refuses(cfg, ViewOf(s), todo[0].name)
    ensures Advances(cfg, s, t, p, Apply(cfg, s, Scan(t)))
  {
    hide Apply, Process, Latest, Names, Handles, Refuses;
    HeadFacts(s, t, todo);
    HeadOfPass(cfg, false, ViewOf(s), Names(todo));
    HeadOfPass(cfg, true, ViewOf(s), Names(todo));
    SkipStep(cfg, s, t, todo);
  }

  lemma RefuseLeads(cfg: Config, s: State, t: nat, p: Goals, todo: seq<CsrRef>)
    requires LeadsTo(cfg, s, t, p) && s.At(t).Scanning? && s.At(t).todo == todo != []
    requires !Handles(cfg, ViewOf(s), todo[0].name) && Refuses(cfg, ViewOf(s), todo[0].name)
    ensures Advances(cfg, s, t, p, Apply(cfg, s, Scan(t)))
  {
    hide Apply, Process, Latest, Names, Handles, Refuses, Deny;
    HeadFacts(s, t, todo);
    HeadOfPass(cfg, false, ViewOf(s), Names(todo));
    HeadOfPass(cfg, true, ViewOf(s), Names(todo));
    ScanVerdict(cfg, s, t, todo);
    DenyStep(cfg, s, t, todo, Scanning(|s.versions| - 1, todo[1..]));
  }

  lemma HandleLeads(cfg: Config, s: State, t: nat, p: Goals, todo: seq<CsrRef>)
    requires LeadsTo(cfg, s, t, p) && s.At(t).Scanning? && s.At(t).todo == todo != []
    requires Handles(cfg, ViewOf(s), todo[0].name)
    ensures Advances(cfg, s, t, p, Apply(cfg, s, Scan(t)))
  {
    hide Apply, Process, Latest, Names, Deny, Served;
    HeadFacts(s, t, todo);
    PassHandles(cfg, false, ViewOf(s), Names(todo));
    PassHandles(cfg, true, ViewOf(s), Names(todo));
    ScanVerdict(cfg, s, t, todo);
    DenyStep(cfg, s, t, todo, Idle);
    var kind := KindOf(cfg, ViewOf(s), todo[0].name);
    SameView(s, t, EnsuringRole(|s.versions| - 1, todo[0], kind));
    assert "kapro-cluster:"[0] == 'k' && "system:serviceaccount:"[0] == 's';
  }

  lemma SameView(s: State, t: nat, l: Local)
    requires |s.versions| > 0 && Histories(s)
    ensures var next := s.With(t, l); Histories(next) && ViewOf(next) == ViewOf(s)
  {
    assert Latest(s.With(t, l)) == Latest(s);
  }

  lemma DoneStep(cfg: Config, s: State, t: nat, p: Goals)
    requires LeadsTo(cfg, s, t, p) && s.At(t).Scanning? && s.At(t).todo == []
    ensures Advances(cfg, s, t, p, Apply(cfg, s, Scan(t)))
  {
    SameView(s, t, Idle);
  }

  lemma ApproveLeads(cfg: Config, s: State, t: nat, p: Goals)
    requires LeadsTo(cfg, s, t, p) && s.At(t).Approving?
    ensures var next := Apply(cfg, s, Event.Approve(t)); LeadsTo(cfg, next, t, p) && next.At(t).Idle?
  {
    var r, next := s.At(t).csr, Apply(cfg, s, Event.Approve(t));
    assert next.csrs == s.csrs[r.name := s.csrs[r.name] + [s.Copy(r).(approved := true)]];
    assert Latest(next) == Latest(s)[r.name := Latest(s)[r.name].(approved := true)];
    assert ViewOf(next) == Served(ViewOf(s), r.name, s.At(t).kind);
  }

  lemma UpsertLeads(cfg: Config, s: State, t: nat, p: Goals, e: Event)
    requires LeadsTo(cfg, s, t, p) && (e.UpsertRole? || e.UpsertBinding?) && e.t == t
    ensures LeadsTo(cfg, Apply(cfg, s, e), t, p)
  {
    hide Process;
    var next := Apply(cfg, s, e);
    assert Latest(next) == Latest(s);
  }

  lemma MarkLeads(cfg: Config, s: State, t: nat, p: Goals, refetch: nat)
    requires LeadsTo(cfg, s, t, p)
    ensures LeadsTo(cfg, Apply(cfg, s, TryMark(t, refetch)), t, p)
  {
    hide Process;
    if s.At(t).Marking? {
      var r, next := s.At(t).csr, Apply(cfg, s, TryMark(t, refetch));
      assert Latest(next) == Latest(s);
      assert next.Current().slot == s.Current().slot.(used := true, bound := r.name);
      assert next.versions == s.versions
          || next.versions == s.versions + [s.Current().(slot := next.Current().slot)];
    }
  }

  /** Every call, possible or not, keeps the way to the goals. */
  lemma CallLeads(cfg: Config, s: State, t: nat, p: Goals, e: Event)
    requires LeadsTo(cfg, s, t, p) && CallOf(t, e)
    ensures LeadsTo(cfg, Apply(cfg, s, e), t, p)
  {
    hide LeadsTo;
    match e {
      case Scan(_) => if s.At(t).Scanning? { ScanLeads(cfg, s, t, p); }
      case Approve(_) => if s.At(t).Approving? { ApproveLeads(cfg, s, t, p); }
      case Tick(now) => if now >= s.now { TickLeads(cfg, s, t, p, now); }
      case TryMark(_, refetch) => MarkLeads(cfg, s, t, p, refetch);
      case _ => UpsertLeads(cfg, s, t, p, e);
    }
  }

  lemma TickLeads(cfg: Config, s: State, t: nat, p: Goals, now: int)
    requires LeadsTo(cfg, s, t, p) && now >= s.now
    ensures LeadsTo(cfg, s.(now := now), t, p)
  {
    assert Latest(s.(now := now)) == Latest(s);
  }

  lemma {:induction false} CallsLead(cfg: Config, s: State, t: nat, p: Goals, calls: seq<Event>)
    requires LeadsTo(cfg, s, t, p) && forall e :: e in calls ==> CallOf(t, e)
    ensures LeadsTo(cfg, Run(cfg, s, calls), t, p)
  {
    if calls != [] {
      hide LeadsTo, Apply;
      var front, e := calls[..|calls| - 1], calls[|calls| - 1];
      assert e in calls && forall x :: x in front ==> x in calls;
      CallsLead(cfg, s, t, p, front);
      CallLeads(cfg, Run(cfg, s, front), t, p, e);
    }
  }

  // ---- Every reconcile is a pass ---------------------------------------------------------------------

  /** What a reconcile finds: a live Cluster, in any state a run leads to. */
  ghost predicate Reconcilable(cfg: Config, s: State) {
    && Inv(cfg, s) && |s.versions| > 0 && Histories(s) && Live(s.Current())
    && (s.Current().slot.used ==> s.Current().slot.bound != "")
  }

  /** What a reconcile finds after the crash: the slot is consumed. */
  ghost predicate Resumable(cfg: Config, s: State) {
    Reconcilable(cfg, s) && s.Current().slot.used
  }

  /** The two ways a reconcile over `listed` can end. */
  ghost function GoalsOf(cfg: Config, s: State, listed: seq<string>): Goals
    requires |s.versions| > 0 && Histories(s)
  {
    Goals(s.versions, Process(cfg, false, ViewOf(s), listed).view, Process(cfg, true, ViewOf(s), listed).view)
  }

  /** The first two calls: the Cluster is read and its CSRs are listed. */
  lemma StartCalls(cfg: Config, s: State, t: nat, refs: seq<CsrRef>)
    requires |s.versions| > 0 && s.At(t).Idle? && Live(s.Current()) && AllListable(cfg, s, refs)
    requires s.Current().slot.used || s.now <= s.Current().expiresAt.value
    ensures var fc := |s.versions| - 1;
            Apply(cfg, Apply(cfg, s, Begin(t, fc)), List(t, refs)) == s.With(t, Scanning(fc, refs))
  {
    var fc := |s.versions| - 1;
    var s2, s3 := s.With(t, Listing(fc)), s.With(t, Scanning(fc, refs));
    assert s2.locals[t := Scanning(fc, refs)] == s3.locals && AllListable(cfg, s2, refs);
    assert Apply(cfg, s, Begin(t, fc)) == s2 && Apply(cfg, s2, List(t, refs)) == s3;
  }

  lemma StartLeads(cfg: Config, s: State, t: nat, listed: seq<string>)
    requires Reconcilable(cfg, s) && s.At(t).Idle? && ValidList(cfg, Latest(s), listed)
    requires s.Current().slot.used || s.now <= s.Current().expiresAt.value
    ensures var s2 := Apply(cfg, s, Begin(t, |s.versions| - 1));
            var s3 := Apply(cfg, s2, List(t, FreshRefs(s, listed)));
            s3.versions == s.versions && s3.At(t).Scanning? && LeadsTo(cfg, s3, t, GoalsOf(cfg, s, listed))
  {
    hide Process, ValidList, FreshRefs, Apply, AllListable, Latest;
    var fc, refs := |s.versions| - 1, FreshRefs(s, listed);
    FreshRefsFacts(cfg, s, listed);
    StartCalls(cfg, s, t, refs);
    SameView(s, t, Scanning(fc, refs));
  }

  /** With the deadline of an unused slot past, a reconcile stops before it lists anything. */
  lemma {:induction false} CallsOfIdle(cfg: Config, s: State, t: nat, calls: seq<Event>)
    requires s.At(t).Idle? && forall e :: e in calls ==> CallOf(t, e)
    ensures var end := Run(cfg, s, calls); end == s.(now := end.now)
  {
    if calls != [] {
      var front, e := calls[..|calls| - 1], calls[|calls| - 1];
      assert e in calls && forall x :: x in front ==> x in calls;
      CallsOfIdle(cfg, s, t, front);
    }
  }

  lemma ExpiredStops(cfg: Config, s: State, t: nat, listed: seq<string>, events: seq<Event>)
    requires Reconcilable(cfg, s) && Reconciles(cfg, s, t, listed, events)
    requires !s.Current().slot.used && s.now > s.Current().expiresAt.value
    ensures var end := Run(cfg, s, events); end == s.(now := end.now)
  {
    hide Inv, Run;
    assert Apply(cfg, s, events[0]) == s && Apply(cfg, s, events[1]) == s;
    assert events == [events[0]] + ([events[1]] + events[2..]);
    RunThen(cfg, s, events[0], [events[1]] + events[2..]);
    RunThen(cfg, s, events[1], events[2..]);
    CallsOfIdle(cfg, s, t, events[2..]);
  }

  /** Every error-free reconcile of any reconciler on a consumed slot, or within the deadline, has the effect
      of one pass over its list: the pass of a clock reading within the deadline, or, when the slot was unused
      and the deadline passed meanwhile, that of a late one. */
  lemma ReconcileFollows(cfg: Config, s: State, t: nat, listed: seq<string>, events: seq<Event>)
    requires Reconcilable(cfg, s) && ValidList(cfg, Latest(s), listed) && Reconciles(cfg, s, t, listed, events)
    requires s.Current().slot.used || s.now <= s.Current().expiresAt.value
    ensures var p, end := GoalsOf(cfg, s, listed), Run(cfg, s, events);
            && Inv(cfg, end) && |end.versions| > 0 && Histories(end)
            && SameCluster(s.versions, end.versions) && Reached(end, p)
  {
    hide Inv, Process, ValidList, FreshRefs, Apply, Run;
    var p := GoalsOf(cfg, s, listed);
    StartLeads(cfg, s, t, listed);
    var s2 := Apply(cfg, s, events[0]);
    var s3 := Apply(cfg, s2, events[1]);
    assert events == [events[0]] + ([events[1]] + events[2..]);
    RunThen(cfg, s, events[0], [events[1]] + events[2..]);
    RunThen(cfg, s2, events[1], events[2..]);
    CallsLead(cfg, s3, t, p, events[2..]);
    RunKeepsInv(cfg, s, events);
  }

  /** What one error-free reconcile of any reconciler does, from any reachable live Cluster. Past the deadline
      of an unused slot: nothing. Otherwise it gives the first CSR of its list that it handles its verdict: a
      bootstrap CSR claims an unused slot and is approved, unless the deadline passed while it ran. */
  lemma ReconcileIsPass(cfg: Config, s: State, t: nat, listed: seq<string>, events: seq<Event>, i: nat)
    requires Reconcilable(cfg, s) && ValidList(cfg, Latest(s), listed) && Reconciles(cfg, s, t, listed, events)
    requires FirstHandled(cfg, ViewOf(s), listed, i)
    ensures var c, end := s.Current(), Run(cfg, s, events);
            && Inv(cfg, end) && |end.versions| > 0 && Histories(end)
            && end.Current() == c.(slot := end.Current().slot) && (c.slot.used ==> end.versions == s.versions)
            && if !c.slot.used && s.now > c.expiresAt.value then end == s.(now := end.now)
               else
                 || Outcome(cfg, false, ViewOf(s), listed, i, ViewOf(end))
                 || (!c.slot.used && end.now > c.expiresAt.value
                     && Outcome(cfg, true, ViewOf(s), listed, i, ViewOf(end)))
  {
    hide Inv, Process, FreshRefs, Apply, Run, Outcome, FirstHandled, Reconciles, Latest;
    var c := s.Current();
    RunKeepsInv(cfg, s, events);
    if !c.slot.used && s.now > c.expiresAt.value {
      ExpiredStops(cfg, s, t, listed, events);
    } else {
      ReconcileFollows(cfg, s, t, listed, events);
      PassOutcome(cfg, false, ViewOf(s), listed, i);
      PassOutcome(cfg, true, ViewOf(s), listed, i);
    }
  }

  /** The same on a consumed slot, as the pass itself. */
  lemma ResumedIsPass(cfg: Config, s: State, t: nat, listed: seq<string>, events: seq<Event>)
    requires Resumable(cfg, s) && ValidList(cfg, Latest(s), listed) && Reconciles(cfg, s, t, listed, events)
    ensures var end := Run(cfg, s, events);
            && end.versions == s.versions && Inv(cfg, end) && Histories(end)
            && ViewOf(end) == Process(cfg, false, ViewOf(s), listed).view
  {
    hide Inv, Process, ValidList, FreshRefs, Apply, Run, Reconciles;
    ReconcileFollows(cfg, s, t, listed, events);
  }

  // ---- A reconcile can always be completed ------------------------------------------------------------

  function Rank(l: Local): nat {
    match l
    case Scanning(_, todo) => 5 + |todo|
    case EnsuringRole(_, _, _) => 4
    case EnsuringBinding(_, _, _) => 3
    case Marking(_, _, _) => 2
    case Approving(_, _) => 1
    case _ => 0
  }

  /** The reconciler's next call brings it closer to idle. */
  lemma NextCall(cfg: Config, s: State, t: nat, p: Goals) returns (e: Event)
    requires LeadsTo(cfg, s, t, p) && !s.At(t).Idle?
    ensures CallOf(t, e) && LeadsTo(cfg, Apply(cfg, s, e), t, p) && Rank(Apply(cfg, s, e).At(t)) < Rank(s.At(t))
  {
    hide Ready, Process, Latest, Completing;
    match s.At(t) {
      case Scanning(_, _) => e := Scan(t); ScanLeads(cfg, s, t, p);
      case Approving(_, _) => e := Event.Approve(t); ApproveLeads(cfg, s, t, p);
      case EnsuringRole(_, _, _) => e := UpsertRole(t, false); UpsertLeads(cfg, s, t, p, e);
      case EnsuringBinding(_, _, _) => e := UpsertBinding(t, false); UpsertLeads(cfg, s, t, p, e);
      case Marking(_, _, _) => e := TryMark(t, 0); MarkLeads(cfg, s, t, p, 0);
    }
  }

  lemma {:induction false} SomeCalls(cfg: Config, s: State, t: nat, p: Goals) returns (calls: seq<Event>)
    requires LeadsTo(cfg, s, t, p)
    ensures (forall e :: e in calls ==> CallOf(t, e)) && Run(cfg, s, calls).At(t).Idle?
    decreases Rank(s.At(t))
  {
    if s.At(t).Idle? {
      calls := [];
    } else {
      hide LeadsTo, Apply, Run;
      var e := NextCall(cfg, s, t, p);
      var rest := SomeCalls(cfg, Apply(cfg, s, e), t, p);
      calls := [e] + rest;
      RunThen(cfg, s, e, rest);
    }
  }

  /** From every such state an idle reconciler can complete a reconcile over any list. */
  lemma SomeReconcile(cfg: Config, s: State, t: nat, listed: seq<string>) returns (events: seq<Event>)
    requires Reconcilable(cfg, s) && s.At(t).Idle? && ValidList(cfg, Latest(s), listed)
    ensures Reconciles(cfg, s, t, listed, events)
  {
    hide Inv, Process, ValidList, FreshRefs, Run;
    var begin, list := Begin(t, |s.versions| - 1), List(t, FreshRefs(s, listed));
    var s2 := Apply(cfg, s, begin);
    var s3 := Apply(cfg, s2, list);
    var calls: seq<Event> := [];
    if s.Current().slot.used || s.now <= s.Current().expiresAt.value {
      hide Apply;
      StartLeads(cfg, s, t, listed);
      calls := SomeCalls(cfg, s3, t, GoalsOf(cfg, s, listed));
    } else {
      RunNothing(cfg, s3);
    }
    events := [begin] + ([list] + calls);
    assert events[2..] == calls;
    RunThen(cfg, s, begin, [list] + calls);
    RunThen(cfg, s2, list, calls);
  }

  // ---- Reconcile after reconcile -----------------------------------------------------------------------

  /** Who reconciles, over which list, with which calls. */
  datatype Turn = Turn(t: nat, listed: seq<string>, events: seq<Event>)

  function Events(turns: seq<Turn>): seq<Event> {
    if turns == [] then [] else turns[0].events + Events(turns[1..])
  }

  function Lists(turns: seq<Turn>): seq<seq<string>> {
    seq(|turns|, i requires 0 <= i < |turns| => turns[i].listed)
  }

  /** One error-free reconcile after the other, each over a list it may read then. */
  ghost predicate TakesTurns(cfg: Config, s: State, turns: seq<Turn>)
    decreases |turns|
  {
    turns == [] ||
    (&& Histories(s) && ValidList(cfg, Latest(s), turns[0].listed)
     && Reconciles(cfg, s, turns[0].t, turns[0].listed, turns[0].events)
     && TakesTurns(cfg, Run(cfg, s, turns[0].events), turns[1..]))
  }

  /** Every sequence of error-free reconciles has the effect of the passes over its lists. */
  lemma {:induction false} TurnsArePasses(cfg: Config, s: State, turns: seq<Turn>)
    requires Resumable(cfg, s) && TakesTurns(cfg, s, turns)
    ensures var end := Run(cfg, s, Events(turns));
            && end.versions == s.versions && Resumable(cfg, end)
            && ViewOf(end) == Passes(cfg, ViewOf(s), Lists(turns))
    decreases |turns|
  {
    hide Inv, Process, ValidList, Reconciles, Run;
    if turns == [] {
      RunNothing(cfg, s);
    } else {
      var first, rest := turns[0], turns[1..];
      ResumedIsPass(cfg, s, first.t, first.listed, first.events);
      TurnsArePasses(cfg, Run(cfg, s, first.events), rest);
      RunConcat(cfg, s, first.events, Events(rest));
      assert Lists(turns)[0] == first.listed && Lists(turns)[1..] == Lists(rest);
    }
  }

  lemma RunNothing(cfg: Config, s: State)
    ensures Run(cfg, s, []) == s
  {
  }
}
