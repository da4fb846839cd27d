/**
 One error-free pass of `processCSRsForCluster` over fresh copies, as a loop, and what repeating it
 achieves after a crash left the slot bound to a CSR that was never approved.
 */
module BootstrapRecovery {
  import opened Wrappers
  import opened BootstrapModel

  /** What a pass works on: the slot, the CSRs, and whether the per-cluster RBAC is in place. */
  datatype View = View(slot: Slot, csrs: Csrs, rbac: bool) {
    function Deny(name: string): View
      requires name in csrs
    {
      this.(csrs := csrs[name := csrs[name].(denied := true)])
    }

    function Approve(name: string): View
      requires name in csrs
    {
      this.(csrs := csrs[name := csrs[name].(approved := true)], rbac := true)
    }
  }

  datatype Pass = Pass(view: View, requeue: bool)

  /** What the loop does: it denies and goes on, or handles one CSR and stops. `late` says that the clock
      has passed the slot's deadline since the reconcile checked it. */
  function Process(cfg: Config, late: bool, v: View, listed: seq<string>): Pass
    decreases |listed|
  {
    if listed == [] then Pass(v, false)
    else
      var name, rest := listed[0], listed[1..];
      if name !in v.csrs || v.csrs[name].Final() then Process(cfg, late, v, rest)
      else
        match Classify(cfg, v.csrs[name].spec, v.slot.used)
        case NoPurpose => Process(cfg, late, v, rest)
        case RenewalBeforeRegistration => Process(cfg, late, v.Deny(name), rest)
        case Renewal => Pass(v.Approve(name), true)
        case Bootstrap =>
          if v.slot.used && v.slot.bound != "" && v.slot.bound != name then Process(cfg, late, v.Deny(name), rest)
          else if (late && !v.slot.used) || (v.slot.used && v.slot.bound != name) then Pass(v.Deny(name), true)
          else Pass(v.Approve(name).(slot := v.slot.(used := true, bound := name)), true)
  }

  /** The status, CSRs and RBAC the reconciler writes, and the deadline it read. */
  class Hub {
    const expiresAt: Option<int>
    var slot: Slot
    var csrs: Csrs
    var rbac: bool

    function Seen(): View reads this { View(slot, csrs, rbac) }

    method Deny(name: string)
      requires name in csrs
      modifies this`csrs
      ensures csrs == if old(csrs)[name].Final() then old(csrs) else old(csrs)[name := old(csrs)[name].(denied := true)]
    {
      if csrs[name].Final() {
        return;
      }
      csrs := csrs[name := csrs[name].(denied := true)];
    }

    method Approve(name: string)
      requires name in csrs
      modifies this`csrs
      ensures csrs == old(csrs)[name := old(csrs)[name].(approved := true)]
    {
      csrs := csrs[name := csrs[name].(approved := true)];
    }

    /** `handleBootstrapCSR`: refuse an expired slot and a second claimant, else ensure RBAC, bind the slot
        and approve, in that order. */
    method HandleBootstrap(name: string, now: int)
      requires name in csrs && !csrs[name].Final()
      modifies this
      ensures if (!old(slot).used && expiresAt.Some? && now > expiresAt.value)
                 || (old(slot).used && old(slot).bound != name)
              then Seen() == old(Seen()).Deny(name)
              else Seen() == old(Seen()).Approve(name).(slot := old(slot).(used := true, bound := name))
    {
      if !slot.used && expiresAt.Some? && now > expiresAt.value {
        Deny(name);
        return;
      }
      if slot.used && slot.bound != name {
        Deny(name);
        return;
      }
      rbac := true;
      slot := slot.(used := true, bound := name);
      Approve(name);
    }

    method ProcessCsrs(cfg: Config, now: int, listed: seq<string>) returns (requeue: bool)
      modifies this
      ensures var late := expiresAt.Some? && now > expiresAt.value;
              Pass(Seen(), requeue) == Process(cfg, late, old(Seen()), listed)
    {
      ghost var late := expiresAt.Some? && now > expiresAt.value;
      var i := 0;
      assert listed[0..] == listed;
      while i < |listed|
        invariant 0 <= i <= |listed| && slot == old(slot)
        invariant Process(cfg, late, Seen(), listed[i..]) == Process(cfg, late, old(Seen()), listed)
      {
        var name := listed[i];
        assert listed[i..][0] == name && listed[i..][1..] == listed[i + 1..];
        i := i + 1;
        if name !in csrs || csrs[name].Final() {
          continue;
        }
        var purpose := Classify(cfg, csrs[name].spec, slot.used);
        if purpose == NoPurpose {
          continue;
        }
        if purpose == RenewalBeforeRegistration {
          Deny(name);
          continue;
        }
        if purpose == Renewal {
          rbac := true;
          Approve(name);
          return true;
        }
        if slot.used && slot.bound != "" && slot.bound != name {
          Deny(name);
          continue;
        }
        HandleBootstrap(name, now);
        return true;
      }
      requeue := false;
    }
  }

  // ---- What a pass does, CSR by CSR -------------------------------------------------------------------

  /** A pending request for the cluster's identity. */
  predicate Asks(cfg: Config, v: View, name: string) {
    name in v.csrs && !v.csrs[name].Final() && AsksIdentity(cfg.cluster, v.csrs[name].spec)
  }

  /** With the slot unused, a bootstrap CSR is handled; with the slot consumed, a renewal or the bound CSR. */
  predicate Handles(cfg: Config, v: View, name: string) {
    && Asks(cfg, v, name)
    && var spec := v.csrs[name].spec;
       if v.slot.used then FromCluster(cfg, spec) || (FromBootstrapAccount(cfg, spec) && v.slot.bound == name)
       else FromBootstrapAccount(cfg, spec)
  }

  /** With the slot unused, a renewal is refused; with the slot consumed, a second bootstrap CSR. */
  predicate Refuses(cfg: Config, v: View, name: string) {
    && Asks(cfg, v, name)
    && var spec := v.csrs[name].spec;
       if v.slot.used then FromBootstrapAccount(cfg, spec) && v.slot.bound != name else FromCluster(cfg, spec)
  }

  /** The first CSR of the list that is handled; the length of the list when none is. */
  ghost predicate FirstHandled(cfg: Config, v: View, listed: seq<string>, i: nat) {
    && i <= |listed| && (i < |listed| ==> Handles(cfg, v, listed[i]))
    && forall k :: 0 <= k < i ==> !Handles(cfg, v, listed[k])
  }

  /** The effect of a pass whose first handled CSR is at `i`: it gets its verdict, what is refused before it
      is denied, and nothing else changes. A bootstrap CSR that is approved holds the slot. */
  ghost predicate Outcome(cfg: Config, late: bool, v: View, listed: seq<string>, i: nat, end: View) {
    var expired := late && !v.slot.used;
    && (if i < |listed| && !v.slot.used && !late then end.slot == Slot(true, listed[i], v.slot.kubeconfig)
        else end.slot == v.slot)
    && end.rbac == (v.rbac || (i < |listed| && !expired))
    && end.csrs.Keys == v.csrs.Keys
    && forall n :: n in v.csrs ==>
         var was, now := v.csrs[n], end.csrs[n];
         if i < |listed| && n == listed[i]
           then now == (if expired then was.(denied := true) else was.(approved := true))
         else if i <= |listed| && n in listed[..i] && Refuses(cfg, v, n) then now == was.(denied := true)
         else now == was
  }

  /** The pass over a list, in terms of its first handled CSR. */
  lemma {:induction false} PassOutcome(cfg: Config, late: bool, v: View, listed: seq<string>, i: nat)
    requires v.slot.used ==> v.slot.bound != ""
    requires forall a, b :: 0 <= a < b < |listed| ==> listed[a] != listed[b]
    requires FirstHandled(cfg, v, listed, i)
    ensures Outcome(cfg, late, v, listed, i, Process(cfg, late, v, listed).view)
    ensures Process(cfg, late, v, listed).requeue == (i < |listed|)
    decreases |listed|
  {
    if listed != [] {
      var name, rest := listed[0], listed[1..];
      var next := if Refuses(cfg, v, name) then v.Deny(name) else v;
      HeadOfPass(cfg, late, v, listed);
      if i > 0 {
        assert !Handles(cfg, v, listed[0]);
        assert forall k :: 0 <= k < |rest| ==> rest[k] == listed[k + 1] && rest[k] != name;
        PassOutcome(cfg, late, next, rest, i - 1);
        OutcomeExtends(cfg, late, v, listed, i, Process(cfg, late, v, listed).view);
      }
    }
  }

  lemma HeadOfPass(cfg: Config, late: bool, v: View, listed: seq<string>)
    requires listed != [] && (v.slot.used ==> v.slot.bound != "")
    ensures var name, p := listed[0], Process(cfg, late, v, listed);
            if Handles(cfg, v, name) then
              && p.requeue
              && p.view == (if late && !v.slot.used then v.Deny(name)
                            else v.Approve(name).(slot := if v.slot.used then v.slot
                                                          else Slot(true, name, v.slot.kubeconfig)))
            else p == Process(cfg, late, if Refuses(cfg, v, name) then v.Deny(name) else v, listed[1..])
  {
    var name := listed[0];
    if name in v.csrs {
      PurposeIff(cfg, v.csrs[name].spec, v.slot.used);
      assert "kapro-cluster:"[0] == 'k' && "system:serviceaccount:"[0] == 's';
    }
  }

  lemma OutcomeExtends(cfg: Config, late: bool, v: View, listed: seq<string>, i: nat, end: View)
    requires 0 < i <= |listed| && !Handles(cfg, v, listed[0])
    requires forall a, b :: 0 <= a < b < |listed| ==> listed[a] != listed[b]
    requires var next := if Refuses(cfg, v, listed[0]) then v.Deny(listed[0]) else v;
             Outcome(cfg, late, next, listed[1..], i - 1, end)
    ensures Outcome(cfg, late, v, listed, i, end)
  {
    var rest := listed[1..];
    assert listed[..i] == [listed[0]] + rest[..i - 1];
    assert listed[0] !in rest;
  }

  /** The CSRs still waiting for a verdict that some pass would give. */
  function Waiting(cfg: Config, csrs: Csrs): set<string> {
    set n | n in csrs && !csrs[n].Final() && Ours(cfg, csrs[n].spec)
  }

  predicate Recovered(slot: Slot, csrs: Csrs) {
    slot.bound in csrs && csrs[slot.bound].approved && !csrs[slot.bound].denied
  }

  predicate SameLabels(a: Csrs, b: Csrs) {
    a.Keys == b.Keys && forall n :: n in a ==> a[n].clusterLabel == b[n].clusterLabel
  }

  /** One pass that lists the bound CSR approves it or strictly shrinks what is waiting. */
  lemma {:induction false} PassProgress(cfg: Config, late: bool, v: View, listed: seq<string>)
    requires Interrupted(cfg, v.slot, v.csrs) && v.slot.bound in listed
    ensures var p := Process(cfg, late, v, listed);
            && p.view.slot == v.slot && p.requeue && SameLabels(v.csrs, p.view.csrs)
            && Waiting(cfg, p.view.csrs) < Waiting(cfg, v.csrs)
            && (Recovered(v.slot, p.view.csrs) || Interrupted(cfg, v.slot, p.view.csrs))
    decreases |listed|
  {
    var name, rest := listed[0], listed[1..];
    assert v.slot.bound in Waiting(cfg, v.csrs);
    PurposeIff(cfg, v.csrs[v.slot.bound].spec, true);
    if name == v.slot.bound {
      Verdict(cfg, v.csrs, name, v.csrs[name].(approved := true));
    } else {
      assert v.slot.bound in rest;
      if name !in v.csrs || v.csrs[name].Final() {
        PassProgress(cfg, late, v, rest);
      } else {
        PurposeIff(cfg, v.csrs[name].spec, true);
        match Classify(cfg, v.csrs[name].spec, v.slot.used) {
          case NoPurpose => PassProgress(cfg, late, v, rest);
          case Renewal => Verdict(cfg, v.csrs, name, v.csrs[name].(approved := true));
          case Bootstrap =>
            Verdict(cfg, v.csrs, name, v.csrs[name].(denied := true));
            PassProgress(cfg, late, v.Deny(name), rest);
          case RenewalBeforeRegistration => assert false;
        }
      }
    }
  }

  /** A pass over a consumed slot changes neither the slot nor any label. */
  lemma {:induction false} ProcessKeepsLabels(cfg: Config, late: bool, v: View, listed: seq<string>)
    requires v.slot.used && v.slot.bound != ""
    ensures var p := Process(cfg, late, v, listed).view; p.slot == v.slot && SameLabels(v.csrs, p.csrs)
    decreases |listed|
  {
    if listed != [] {
      ProcessKeepsLabels(cfg, late, v, listed[1..]);
      if listed[0] in v.csrs {
        ProcessKeepsLabels(cfg, late, v.Deny(listed[0]), listed[1..]);
      }
    }
  }

  lemma Verdict(cfg: Config, csrs: Csrs, name: string, csr: Csr)
    requires name in Waiting(cfg, csrs) && csr.Final()
    ensures Waiting(cfg, csrs[name := csr]) == Waiting(cfg, csrs) - {name}
  {
  }

  /** Repeated passes, each over the list it read. */
  function Passes(cfg: Config, v: View, lists: seq<seq<string>>): View
    decreases |lists|
  {
    if lists == [] then v else Passes(cfg, Process(cfg, false, v, lists[0]).view, lists[1..])
  }

  /** Once the bound CSR has its verdict, later passes leave it alone. */
  lemma {:induction false} FinalUntouched(cfg: Config, late: bool, v: View, listed: seq<string>, name: string)
    requires name in v.csrs && v.csrs[name].Final()
    ensures var p := Process(cfg, late, v, listed).view; name in p.csrs && p.csrs[name] == v.csrs[name]
    ensures v.slot.used && v.slot.bound == name && name != "" ==> Process(cfg, late, v, listed).view.slot == v.slot
    decreases |listed|
  {
    if listed != [] {
      var head, rest := listed[0], listed[1..];
      FinalUntouched(cfg, late, v, rest, name);
      if head in v.csrs && !v.csrs[head].Final() {
        FinalUntouched(cfg, late, v.Deny(head), rest, name);
      }
    }
  }

  lemma {:induction false} StaysRecovered(cfg: Config, v: View, lists: seq<seq<string>>)
    requires Recovered(v.slot, v.csrs) && v.slot.used && v.slot.bound != ""
    ensures var end := Passes(cfg, v, lists); end.slot == v.slot && Recovered(v.slot, end.csrs)
    decreases |lists|
  {
    if lists != [] {
      FinalUntouched(cfg, false, v, lists[0], v.slot.bound);
      StaysRecovered(cfg, Process(cfg, false, v, lists[0]).view, lists[1..]);
    }
  }

  /** From the crash window, as many passes as CSRs are waiting approve the bound CSR and keep the
      slot, whatever the order of each list. */
  lemma {:induction false} CrashRecovery(cfg: Config, v: View, lists: seq<seq<string>>)
    requires Interrupted(cfg, v.slot, v.csrs)
    requires |lists| >= |Waiting(cfg, v.csrs)|
    requires forall l :: l in lists ==> v.slot.bound in l
    ensures var end := Passes(cfg, v, lists); end.slot == v.slot && Recovered(v.slot, end.csrs)
    decreases |lists|
  {
    assert v.slot.bound in Waiting(cfg, v.csrs);
    assert lists != [];
    PassProgress(cfg, false, v, lists[0]);
    var p := Process(cfg, false, v, lists[0]).view;
    SmallerSet(Waiting(cfg, p.csrs), Waiting(cfg, v.csrs));
    if Recovered(v.slot, p.csrs) {
      StaysRecovered(cfg, p, lists[1..]);
    } else {
      CrashRecovery(cfg, p, lists[1..]);
    }
  }

  lemma SmallerSet<T>(a: set<T>, b: set<T>)
    requires a < b
    ensures |a| < |b|
  {
    var x :| x in b && x !in a;
    assert a <= b - {x};
    assert b - {x} == a + (b - {x} - a);
  }

  // ---- Which CSRs a pass lists ----------------------------------------------------------------------

  /** `listCSRsForCluster`: the labelled CSRs, then the unlabelled ones that were not seen yet. */
  method ListCsrs(cfg: Config, csrs: Csrs, labelled: seq<string>, all: seq<string>) returns (listed: seq<string>)
    requires forall n :: n in labelled <==> n in csrs && csrs[n].clusterLabel == cfg.cluster
    requires forall n :: n in all <==> n in csrs
    ensures forall n :: n in listed <==> n in csrs && Listable(cfg, csrs[n])
    ensures forall n :: n in listed <==>
              && n in csrs
              && (csrs[n].clusterLabel == "" || (cfg.nameIsLabel && csrs[n].clusterLabel == cfg.cluster))
  {
    listed := [];
    var seen: set<string> := {};
    if cfg.nameIsLabel {
      for i := 0 to |labelled|
        invariant listed == labelled[..i] && seen == set n | n in labelled[..i]
      {
        listed := listed + [labelled[i]];
        seen := seen + {labelled[i]};
      }
      assert labelled[..|labelled|] == labelled;
    }
    ghost var first := listed;
    for i := 0 to |all|
      invariant forall n :: n in listed <==> n in first || (n in all[..i] && n !in seen && csrs[n].clusterLabel == "")
    {
      assert all[i] in all;
      if all[i] in seen {
        continue;
      }
      if csrs[all[i]].clusterLabel != "" {
        continue;
      }
      listed := listed + [all[i]];
    }
  }
}
