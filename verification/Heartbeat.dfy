/**
 Heartbeat hysteresis: the per-cluster verdict machine of the heartbeat reconciler, folded over any
 sequence of reconciles, and the gate through which targets read its verdict.
 */
module Heartbeat {
  import opened Wrappers

  /** Two minutes, in nanoseconds. */
  const FRESH_TIMEOUT: int := 120_000_000_000
  const DEFAULT_THRESHOLD := 3

  datatype Lease = Lease(renewTime: Option<int>, acquireTime: Option<int>, creationTime: Option<int>)

  datatype LeaseRead = ReadError | NotFound | Found(lease: Lease)

  datatype Status = True | False | Unknown

  datatype Reason =
    | Suspended | PushModeNoHeartbeat | NotRegistered
    | HeartbeatFresh | HeartbeatStale | Unreachable
    | OtherReason(text: string)

  datatype Condition = Condition(status: Status, reason: Reason)

  datatype ClusterSpec = ClusterSpec(suspended: bool, push: bool, hasBootstrap: bool, slotUsed: bool,
                                     threshold: Option<int>)

  /** Ready and `status.heartbeat.consecutiveMisses` (0 when the substruct is nil). */
  datatype ClusterStatus = ClusterStatus(ready: Option<Condition>, misses: int)

  /** One reconcile: what it read, when, and whether the object was being deleted or the patch failed. */
  datatype Observation = Observation(spec: ClusterSpec, read: LeaseRead, now: int, deleting: bool, patched: bool)

  /** int32 arithmetic. */
  function Wrap32(n: int): int { (n + 0x8000_0000) % 0x1_0000_0000 - 0x8000_0000 }

  /** RenewTime, else AcquireTime, else the creation time. */
  function LeaseTime(l: Lease): Option<int> {
    if l.renewTime.Some? then l.renewTime else if l.acquireTime.Some? then l.acquireTime else l.creationTime
  }

  predicate Fresh(read: LeaseRead, now: int) {
    read.Found? && LeaseTime(read.lease).Some? && now - LeaseTime(read.lease).value < FRESH_TIMEOUT
  }

  function Threshold(spec: ClusterSpec): int {
    if spec.threshold.Some? && spec.threshold.value > 0 then spec.threshold.value else DEFAULT_THRESHOLD
  }

  datatype Desired = Desired(condition: Condition, misses: int)

  function ComputeDesired(current: int, o: Observation): Desired {
    if o.spec.suspended then Desired(Condition(Unknown, Suspended), 0)
    else if o.spec.push then Desired(Condition(True, PushModeNoHeartbeat), 0)
    else if o.spec.hasBootstrap && !o.spec.slotUsed then Desired(Condition(Unknown, NotRegistered), 0)
    else if o.read.ReadError? then Desired(Condition(Unknown, HeartbeatStale), current)
    else if Fresh(o.read, o.now) then Desired(Condition(True, HeartbeatFresh), 0)
    else
      var misses := Wrap32(current + 1);
      if misses >= Threshold(o.spec) then Desired(Condition(False, Unreachable), misses)
      else Desired(Condition(Unknown, HeartbeatStale), misses)
  }

  /** Whether the reconcile gets as far as changing the stored status. */
  predicate Applied(o: Observation) { !o.deleting && o.patched }

  function Step(s: ClusterStatus, o: Observation): ClusterStatus {
    if !Applied(o) then s
    else var d := ComputeDesired(s.misses, o); ClusterStatus(Some(d.condition), d.misses)
  }

  function Fold(s: ClusterStatus, trace: seq<Observation>): ClusterStatus {
    if trace == [] then s else Step(Fold(s, trace[..|trace| - 1]), trace[|trace| - 1])
  }

  /** A Cluster's heartbeat status as the reconciler keeps it. */
  class HeartbeatReconciler {
    var ready: Option<Condition>
    var misses: int

    function View(): ClusterStatus reads this { ClusterStatus(ready, misses) }

    method ApplyDesired(d: Desired, patched: bool) returns (ok: bool)
      modifies this
      ensures ok == patched
      ensures View() == if patched then ClusterStatus(Some(d.condition), d.misses) else old(View())
    {
      if !patched {
        return false;
      }
      ready, misses := Some(d.condition), d.misses;
      ok := true;
    }

    method Reconcile(o: Observation) returns (ok: bool)
      modifies this
      ensures View() == Step(old(View()), o)
      ensures ok == (o.deleting || o.patched)
    {
      if o.deleting {
        return true;
      }
      var desired := ComputeDesired(misses, o);
      ok := ApplyDesired(desired, o.patched);
    }
  }

  // ---- What the counter means --------------------------------------------------------------------

  /** The heartbeat of this cluster is tracked: not suspended, not in push mode, and registered if it has to be. */
  predicate Tracked(spec: ClusterSpec) { !spec.suspended && !spec.push && (spec.hasBootstrap ==> spec.slotUsed) }

  /** The Lease was renewed less than two minutes ago or, when it never was, acquired or else created then. */
  predicate HeardFrom(read: LeaseRead, now: int) {
    && read.Found?
    && var l := read.lease;
       if l.renewTime.Some? then now < l.renewTime.value + 120_000_000_000
       else if l.acquireTime.Some? then now < l.acquireTime.value + 120_000_000_000
       else l.creationTime.Some? && now < l.creationTime.value + 120_000_000_000
  }

  /** Observations that clear the counter: the cluster is not tracked, or was heard from. */
  predicate Resets(o: Observation) { !o.deleting && o.patched && (!Tracked(o.spec) || HeardFrom(o.read, o.now)) }

  /** Observations that count: an answered read of a stale or missing Lease. */
  predicate Misses(o: Observation) {
    !o.deleting && o.patched && Tracked(o.spec) && !o.read.ReadError? && !HeardFrom(o.read, o.now)
  }

  /** The misses since the last reset. */
  ghost function Streak(trace: seq<Observation>): set<int> {
    set i | 0 <= i < |trace| && Misses(trace[i]) && forall j :: i < j < |trace| ==> !Resets(trace[j])
  }

  lemma WrapStep(n: int)
    ensures Wrap32(Wrap32(n) + 1) == Wrap32(n + 1)
  {
  }

  lemma WrapIs(n: int)
    ensures -0x8000_0000 <= Wrap32(n) < 0x8000_0000 && (Wrap32(n) - n) % 0x1_0000_0000 == 0
  {
  }

  lemma WrapZero()
    ensures Wrap32(0) == 0
  {
  }

  lemma StreakStep(trace: seq<Observation>, o: Observation)
    ensures Streak(trace + [o]) == if Resets(o) then {} else if Misses(o) then Streak(trace) + {|trace|}
              else Streak(trace)
  {
    var next := trace + [o];
    forall i | 0 <= i < |trace|
      ensures i in Streak(next) <==> i in Streak(trace) && !Resets(o)
    {
      if i in Streak(trace) && !Resets(o) {
        forall j | i < j < |next|
          ensures !Resets(next[j])
        {
        }
      }
      if i in Streak(next) {
        assert !Resets(next[|trace|]);
        forall j | i < j < |trace|
          ensures !Resets(trace[j])
        {
          assert !Resets(next[j]);
        }
      }
    }
  }

  lemma StepCount(s: ClusterStatus, o: Observation)
    ensures Step(s, o).misses == if Resets(o) then 0 else if Misses(o) then Wrap32(s.misses + 1) else s.misses
  {
  }

  /** Over every trace the stored count is the number of misses since the last reset, in int32. */
  lemma {:induction false} CountIsStreak(s: ClusterStatus, trace: seq<Observation>)
    requires s.misses == 0
    ensures Fold(s, trace).misses == Wrap32(|Streak(trace)|)
    ensures -0x8000_0000 <= Fold(s, trace).misses < 0x8000_0000
    ensures (Fold(s, trace).misses - |Streak(trace)|) % 0x1_0000_0000 == 0
  {
    hide Wrap32, Resets, Misses, Step;
    WrapZero();
    WrapIs(|Streak(trace)|);
    if trace == [] {
      assert Streak(trace) == {};
    } else {
      var front, o := trace[..|trace| - 1], trace[|trace| - 1];
      CountIsStreak(s, front);
      assert trace == front + [o];
      StreakStep(front, o);
      StepCount(Fold(s, front), o);
      assert |front| !in Streak(front);
      WrapStep(|Streak(front)|);
    }
  }

  /** The last observation that changed the status. */
  ghost predicate IsLatest(trace: seq<Observation>, i: int) {
    0 <= i < |trace| && Applied(trace[i]) && forall j :: i < j < |trace| ==> !Applied(trace[j])
  }

  /** Observations that were not applied, like failed patches, leave no trace in the count. */
  lemma {:induction false} UnappliedIgnored(s: ClusterStatus, trace: seq<Observation>, i: int)
    requires IsLatest(trace, i)
    ensures Fold(s, trace) == Fold(s, trace[..i + 1])
  {
    if i + 1 == |trace| {
      assert trace[..i + 1] == trace;
    } else {
      var front := trace[..|trace| - 1];
      assert !Applied(trace[|trace| - 1]);
      UnappliedIgnored(s, front, i);
      assert front[..i + 1] == trace[..i + 1];
    }
  }

  /** Ready after any trace, by the latest applied observation: it is False exactly when a tracked cluster's
      Lease was missing or stale and the streak reached the threshold, 3 by default, and True exactly for a
      cluster in push mode or heard from; each reason has its cause. */
  lemma UnreachableIff(s: ClusterStatus, trace: seq<Observation>, i: int)
    requires s.misses == 0 && IsLatest(trace, i)
    ensures Fold(s, trace).ready.Some?
    ensures var o, c := trace[i], Fold(s, trace).ready.value;
            var threshold := if o.spec.threshold.Some? && o.spec.threshold.value > 0 then o.spec.threshold.value else 3;
            var heard, gone := HeardFrom(o.read, o.now), Wrap32(|Streak(trace[..i + 1])|) >= threshold;
            && (c.status == False <==> Tracked(o.spec) && !o.read.ReadError? && !heard && gone)
            && (c.status == True <==> !o.spec.suspended && (o.spec.push || (Tracked(o.spec) && heard)))
            && (c.reason == Suspended <==> o.spec.suspended)
            && (c.reason == PushModeNoHeartbeat <==> !o.spec.suspended && o.spec.push)
            && (c.reason == NotRegistered <==> !o.spec.suspended && !o.spec.push && !Tracked(o.spec))
            && (c.reason == HeartbeatFresh <==> Tracked(o.spec) && heard)
            && (c.reason == Unreachable <==> c.status == False)
            && (c.reason == HeartbeatStale <==> Tracked(o.spec) && !heard && (o.read.ReadError? || !gone))
  {
    UnappliedIgnored(s, trace, i);
    var front := trace[..i];
    assert trace[..i + 1] == front + [trace[i]];
    assert trace[..i + 1][..i] == front;
    CountIsStreak(s, front);
    CountIsStreak(s, trace[..i + 1]);
  }

  // ---- The target gate -----------------------------------------------------------------------------

  datatype GateCall = GateCall(pull: bool, ready: Option<Condition>, now: string)

  datatype GateState = GateState(since: string, count: nat)

  predicate Proceeds(c: GateCall) { !c.pull || (c.ready.Some? && c.ready.value.status == True) }

  function GateStep(g: GateState, c: GateCall): GateState {
    if Proceeds(c) then GateState("", 0) else GateState(if g.since == "" then c.now else g.since, g.count + 1)
  }

  /** A target's staleness fields. */
  class TargetGate {
    var since: string
    var count: nat

    method RequireFreshHeartbeat(c: GateCall) returns (proceed: bool)
      modifies this
      ensures GateState(since, count) == GateStep(old(GateState(since, count)), c)
      ensures proceed == (!c.pull || (c.ready.Some? && c.ready.value.status == True))
      ensures count == if proceed then 0 else old(count) + 1
      ensures since == if proceed then "" else if old(since) == "" then c.now else old(since)
    {
      if !c.pull {
        since, count := "", 0;
        return true;
      }
      if c.ready.Some? && c.ready.value.status == True {
        since, count := "", 0;
        return true;
      }
      count := count + 1;
      if since == "" {
        since := c.now;
      }
      proceed := false;
    }
  }

  function GateFold(calls: seq<GateCall>): GateState {
    if calls == [] then GateState("", 0) else GateStep(GateFold(calls[..|calls| - 1]), calls[|calls| - 1])
  }

  /** How many calls at the end of a trace were all held back. */
  function Held(calls: seq<GateCall>): (n: nat)
    ensures n <= |calls|
  {
    if calls == [] || Proceeds(calls[|calls| - 1]) then 0 else 1 + Held(calls[..|calls| - 1])
  }

  /** Over every run the stale count is the number of consecutive holds, and staleSince is empty exactly
      when it is zero and otherwise the time of the first hold. */
  lemma {:induction false} GateFieldsAgree(calls: seq<GateCall>)
    requires forall c :: c in calls ==> c.now != ""
    ensures var g := GateFold(calls);
            && g.count == Held(calls)
            && (g.since == "" <==> g.count == 0)
            && (g.count > 0 ==> g.since == calls[|calls| - g.count].now)
  {
    if calls != [] {
      var front := calls[..|calls| - 1];
      GateFieldsAgree(front);
      assert calls[|calls| - 1] in calls;
    }
  }
}
