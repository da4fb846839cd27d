/**
 What every run of the bootstrap protocol keeps: whoever interleaves with whom, a slot is claimed once,
 approvals are justified, and verdicts are final.
 */
module BootstrapSafety {
  import opened BootstrapModel
  import opened BootstrapProtocol

  /** From any state that satisfies the invariant, every run keeps it and loses no history. */
  lemma {:induction false} RunKeepsInv(cfg: Config, s: State, events: seq<Event>)
    requires Inv(cfg, s)
    ensures Inv(cfg, Run(cfg, s, events)) && Grows(s, Run(cfg, s, events))
  {
    hide Inv, Grows, Apply;
    if events == [] {
      GrowsSelf(s);
    } else {
      var mid := Run(cfg, s, events[..|events| - 1]);
      RunKeepsInv(cfg, s, events[..|events| - 1]);
      StepKeepsInv(cfg, mid, events[|events| - 1]);
      GrowsTransitive(s, mid, Run(cfg, s, events));
    }
  }

  lemma InitialInv(cfg: Config, s: State)
    requires Initial(s)
    ensures Inv(cfg, s)
  {
  }

  lemma {:induction false} RunConcat(cfg: Config, s: State, a: seq<Event>, b: seq<Event>)
    ensures Run(cfg, s, a + b) == Run(cfg, Run(cfg, s, a), b)
  {
    if b == [] {
      assert a + b == a;
    } else {
      RunConcat(cfg, s, a, b[..|b| - 1]);
      assert (a + b)[..|a + b| - 1] == a + b[..|b| - 1];
    }
  }

  lemma RunOne(cfg: Config, s: State, e: Event)
    ensures Run(cfg, s, [e]) == Apply(cfg, s, e)
  {
    assert [e][..0] == [];
  }

  lemma RunThen(cfg: Config, s: State, e: Event, rest: seq<Event>)
    ensures Run(cfg, s, [e] + rest) == Run(cfg, Apply(cfg, s, e), rest)
  {
    RunConcat(cfg, s, [e], rest);
    RunOne(cfg, s, e);
  }

  /** Once a run has consumed the slot, the bound CSR is named and every continuation keeps it: at most
      one CSR ever claims the slot. */
  lemma SlotClaimedOnce(cfg: Config, s: State, before: seq<Event>, after: seq<Event>)
    requires Initial(s)
    ensures |Run(cfg, s, before).versions| > 0 && |Run(cfg, s, before + after).versions| > 0
    ensures var mid, end := Run(cfg, s, before).Current().slot, Run(cfg, s, before + after).Current().slot;
            mid.used ==> mid.bound != "" && end.used && end.bound == mid.bound
  {
    InitialInv(cfg, s);
    RunKeepsInv(cfg, s, before);
    RunConcat(cfg, s, before, after);
    RunKeepsInv(cfg, Run(cfg, s, before), after);
    CurrentKept(Run(cfg, s, before), Run(cfg, s, before + after));
  }

  /** In every reachable state an approved CSR asks for this cluster's client identity and nothing else; it
      was submitted by the bootstrap ServiceAccount and is the one the slot is bound to, or by the cluster
      itself; the slot is used, and the per-cluster RBAC is in place unless deletion has begun. */
  lemma ApprovedIsEntitled(cfg: Config, s: State, events: seq<Event>, name: string)
    requires Initial(s) && name in Run(cfg, s, events).csrs
    ensures var end := Run(cfg, s, events);
            && |end.versions| > 0 && |end.csrs[name]| > 0
            && var csr := end.csrs[name][|end.csrs[name]| - 1];
               csr.approved ==>
                 && end.Current().slot.used
                 && ((end.role && end.binding) || end.Current().deleting)
                 && AsksIdentity(cfg.cluster, csr.spec)
                 && (FromCluster(cfg, csr.spec)
                     || (FromBootstrapAccount(cfg, csr.spec) && end.Current().slot.bound == name))
  {
    InitialInv(cfg, s);
    RunKeepsInv(cfg, s, events);
    var end := Run(cfg, s, events);
    assert CsrHistory(end.csrs[name]);
    PurposeIff(cfg, end.csrs[name][|end.csrs[name]| - 1].spec, true);
  }

  /** This CSR is approved and was submitted by the bootstrap ServiceAccount. */
  predicate BootstrapApproved(cfg: Config, s: State, name: string) {
    && name in s.csrs && |s.csrs[name]| > 0
    && var csr := s.csrs[name][|s.csrs[name]| - 1];
       csr.approved && FromBootstrapAccount(cfg, csr.spec)
  }

  /** Two approved bootstrap CSRs of one cluster are the same CSR. */
  lemma AtMostOneBootstrapApproval(cfg: Config, s: State, events: seq<Event>, a: string, b: string)
    requires Initial(s)
    requires BootstrapApproved(cfg, Run(cfg, s, events), a) && BootstrapApproved(cfg, Run(cfg, s, events), b)
    ensures a == b
  {
    hide Run;
    ApprovedIsEntitled(cfg, s, events, a);
    ApprovedIsEntitled(cfg, s, events, b);
    assert "kapro-cluster:"[0] == 'k' && "system:serviceaccount:"[0] == 's';
  }

  /** No CSR is ever both approved and denied, and a verdict once given is the verdict of every
      continuation. */
  lemma VerdictIsFinal(cfg: Config, s: State, before: seq<Event>, after: seq<Event>, name: string)
    requires Initial(s) && name in Run(cfg, s, before).csrs
    ensures var mid, end := Run(cfg, s, before), Run(cfg, s, before + after);
            && |mid.csrs[name]| > 0 && name in end.csrs && |end.csrs[name]| > 0
            && var x, y := mid.csrs[name][|mid.csrs[name]| - 1], end.csrs[name][|end.csrs[name]| - 1];
               && !(x.approved && x.denied) && x.spec == y.spec
               && (x.Final() ==> y.approved == x.approved && y.denied == x.denied)
  {
    InitialInv(cfg, s);
    RunKeepsInv(cfg, s, before);
    RunConcat(cfg, s, before, after);
    RunKeepsInv(cfg, Run(cfg, s, before), after);
    var mid, end := Run(cfg, s, before), Run(cfg, s, before + after);
    var n := |mid.csrs[name]| - 1;
    assert CsrHistory(mid.csrs[name]) && CsrHistory(end.csrs[name]);
    assert end.csrs[name][n] == mid.csrs[name][n];
    assert VerdictKept(mid.csrs[name][n], mid.csrs[name][n]);
    assert VerdictKept(end.csrs[name][n], end.csrs[name][|end.csrs[name]| - 1]);
  }

  /** The CSRs as an up-to-date reader sees them. */
  function Latest(s: State): map<string, Csr>
    requires forall n :: n in s.csrs ==> |s.csrs[n]| > 0
  {
    map n | n in s.csrs :: s.csrs[n][|s.csrs[n]| - 1]
  }

  /** The slot is used and the CSR it is bound to has no verdict. */
  predicate BoundPending(s: State) {
    && |s.versions| > 0 && s.Current().slot.used
    && var name := s.Current().slot.bound;
       name in s.csrs && |s.csrs[name]| > 0 && !s.csrs[name][|s.csrs[name]| - 1].Final()
  }

  /** Every reachable state whose slot is used while the bound CSR has no verdict is the crash window
      that BootstrapRecovery starts from. */
  lemma CrashWindow(cfg: Config, s: State, events: seq<Event>)
    requires Initial(s) && BoundPending(Run(cfg, s, events))
    ensures var end := Run(cfg, s, events);
            (forall n :: n in end.csrs ==> |end.csrs[n]| > 0) && Interrupted(cfg, end.Current().slot, Latest(end))
  {
    InitialInv(cfg, s);
    RunKeepsInv(cfg, s, events);
    var end := Run(cfg, s, events);
    var h := end.csrs[end.Current().slot.bound];
    assert CsrHistory(h) && VerdictKept(h[0], h[|h| - 1]);
    assert SlotKept(end.Current(), end.Current());
    PurposeIff(cfg, h[0].spec, true);
  }
}
