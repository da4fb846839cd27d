/**
 The timing argument between the spoke's Lease renewals and the hub's reads. The spoke's loop ticks once
 synchronously and starts its ticker only when that tick returns, so the first gap is longer than the
 others by the duration of the first tick. A tick stamps RenewTime with its own clock, and lands within
 `latency` or fails.
 */
module HeartbeatTiming {
  import opened Wrappers
  import opened Heartbeat

  datatype Tick = Tick(ok: bool, started: int, stamped: int, landed: int)

  /** The longest gap after a tick's start before the next one starts. */
  function Gap(interval: int, latency: int, n: nat): int { if n == 0 then interval + latency else interval }

  /** Ticks one after the other, no further apart than the loop allows, and never more than `k` failures in
      a row. */
  ghost predicate Regular(ticks: nat -> Tick, interval: int, latency: int, k: nat) {
    && 0 < interval && 0 <= latency
    && (forall n: nat :: ticks(n).started <= ticks(n).stamped <= ticks(n).landed <= ticks(n).started + latency)
    && (forall n: nat :: ticks(n).landed <= ticks(n + 1).started)
    && (forall n: nat :: ticks(n).started < ticks(n + 1).started <= ticks(n).started + Gap(interval, latency, n))
    && (forall n: nat :: OkWithin(ticks, n, k))
  }

  ghost predicate OkWithin(ticks: nat -> Tick, n: nat, k: nat) {
    exists m: nat :: n <= m <= n + k && ticks(m).ok
  }

  /** The renewal a read at time `h` finds: the last one that landed. */
  ghost predicate LastLanded(ticks: nat -> Tick, h: int, n: nat) {
    && ticks(n).ok && ticks(n).landed <= h
    && forall m: nat :: m > n && ticks(m).ok ==> ticks(m).landed > h
  }

  /** How old a Lease last renewed by tick `n` can be: the loop's first renewal may have to last longer. */
  function AgeLimit(interval: int, latency: int, k: nat, n: nat): int {
    (k + 1) * interval + if n == 0 then 2 * latency else latency
  }

  lemma OneGap(ticks: nat -> Tick, interval: int, latency: int, k: nat, n: nat)
    requires Regular(ticks, interval, latency, k)
    ensures ticks(n).started < ticks(n + 1).started <= ticks(n).started + Gap(interval, latency, n)
  {
  }

  lemma {:induction false} Spread(ticks: nat -> Tick, interval: int, latency: int, k: nat, n: nat, m: nat)
    requires Regular(ticks, interval, latency, k) && n < m
    ensures ticks(n).started + (m - n) <= ticks(m).started
    ensures ticks(m).started <= ticks(n).started + (m - n) * interval + if n == 0 then latency else 0
    decreases m
  {
    hide Regular;
    OneGap(ticks, interval, latency, k, m - 1);
    if n < m - 1 {
      Spread(ticks, interval, latency, k, n, m - 1);
    }
    assert (m - n) * interval == (m - 1 - n) * interval + interval;
  }

  lemma Product(a: int, b: int, c: int)
    requires a <= b && 0 <= c
    ensures a * c <= b * c
  {
  }

  /** The age of the Lease at any read after the first renewal. */
  lemma AgeBound(ticks: nat -> Tick, interval: int, latency: int, k: nat, h: int, n: nat)
    requires Regular(ticks, interval, latency, k) && LastLanded(ticks, h, n)
    ensures h - ticks(n).stamped < AgeLimit(interval, latency, k, n)
  {
    assert OkWithin(ticks, n + 1, k);
    var m: nat :| n + 1 <= m <= n + 1 + k && ticks(m).ok;
    Spread(ticks, interval, latency, k, n, m);
    Product(m - n, k + 1, interval);
  }

  // ---- Hub reconciles ----------------------------------------------------------------------------

  /** A reconcile of a live, registered pull cluster: its Lease read answers with renewal `n` or fails,
      and its patch may fail. */
  predicate LiveRead(ticks: nat -> Tick, o: Observation, n: nat) {
    && !o.spec.suspended && !o.spec.push && (o.spec.hasBootstrap ==> o.spec.slotUsed)
    && (o.read.ReadError? || (o.read.Found? && o.read.lease.renewTime == Some(ticks(n).stamped)))
  }

  /** Every read happens after renewal `from` and finds the last one that landed. */
  ghost predicate LiveTrace(ticks: nat -> Tick, from: nat, trace: seq<Observation>) {
    forall i :: 0 <= i < |trace| ==> FindsLast(ticks, from, trace[i])
  }

  ghost predicate FindsLast(ticks: nat -> Tick, from: nat, o: Observation) {
    exists n: nat :: n >= from && LastLanded(ticks, o.now, n) && LiveRead(ticks, o, n)
  }

  lemma ReadIsFresh(ticks: nat -> Tick, interval: int, latency: int, k: nat, from: nat, o: Observation)
    requires Regular(ticks, interval, latency, k) && AgeLimit(interval, latency, k, from) <= FRESH_TIMEOUT
    requires FindsLast(ticks, from, o)
    ensures !Misses(o) && (o.read.ReadError? || Fresh(o.read, o.now))
  {
    var n: nat :| n >= from && LastLanded(ticks, o.now, n) && LiveRead(ticks, o, n);
    AgeBound(ticks, interval, latency, k, o.now, n);
  }

  /** When the age limit fits the freshness window no reconcile after that renewal counts a miss, whatever
      reads and patches fail in between; the count stays where a reset left it, Ready never turns False,
      and it is True, with the target gate open, once the latest applied reconcile got an answer. */
  lemma {:induction false} NeverStale(ticks: nat -> Tick, interval: int, latency: int, k: nat, from: nat,
                                      s: ClusterStatus, trace: seq<Observation>)
    requires Regular(ticks, interval, latency, k) && AgeLimit(interval, latency, k, from) <= FRESH_TIMEOUT
    requires LiveTrace(ticks, from, trace)
    ensures forall i :: 0 <= i < |trace| ==> !Misses(trace[i])
    ensures var end := Fold(s, trace);
            && (s.misses == 0 ==> end.misses == 0)
            && (end.ready.Some? && end.ready.value.status == False ==> end.ready == s.ready)
            && forall i :: IsLatest(trace, i) && trace[i].read.Found? ==>
                 end.misses == 0 && end.ready == Some(Condition(True, HeartbeatFresh))
                     && Proceeds(GateCall(true, end.ready, ""))
  {
    hide Regular, AgeLimit, FindsLast;
    if trace != [] {
      var front, o := trace[..|trace| - 1], trace[|trace| - 1];
      assert forall i :: 0 <= i < |front| ==> front[i] == trace[i];
      NeverStale(ticks, interval, latency, k, from, s, front);
      assert FindsLast(ticks, from, trace[|trace| - 1]);
      ReadIsFresh(ticks, interval, latency, k, from, o);
      LiveSpec(ticks, from, o);
      forall i | IsLatest(trace, i) && i < |front|
        ensures IsLatest(front, i) && !Applied(o)
      {
        assert !Applied(trace[|trace| - 1]);
      }
    }
  }

  lemma LiveSpec(ticks: nat -> Tick, from: nat, o: Observation)
    requires FindsLast(ticks, from, o)
    ensures !o.spec.suspended && !o.spec.push && (o.spec.hasBootstrap ==> o.spec.slotUsed)
  {
  }

  /** Once one renewal has landed, every read finds a last one. */
  lemma ReadFindsRenewal(ticks: nat -> Tick, interval: int, latency: int, k: nat, h: int, first: nat) returns (n: nat)
    requires Regular(ticks, interval, latency, k) && ticks(first).ok && ticks(first).landed <= h
    ensures n >= first && LastLanded(ticks, h, n)
    decreases h - ticks(first).started
  {
    if m: nat :| m > first && ticks(m).ok && ticks(m).landed <= h {
      Spread(ticks, interval, latency, k, first, m);
      n := ReadFindsRenewal(ticks, interval, latency, k, h, m);
    } else {
      n := first;
    }
  }

  // ---- The bound is exact ------------------------------------------------------------------------

  /** The loop's own schedule: tick 0 returns after `latency`, then the ticker starts. Ticks up to `last`
      renew at once, the next `k` fail, and every later renewal lands as late as it can. */
  function WorstCase(interval: nat, latency: nat, k: nat, last: nat): nat -> Tick {
    (n: nat) =>
      var start := if n == 0 then 0 else latency + n * interval;
      Tick(n <= last || n > last + k, start, start, start + if n <= last then 0 else latency)
  }

  lemma WorstCaseRegular(interval: nat, latency: nat, k: nat, last: nat)
    requires 0 < interval && latency <= interval
    ensures Regular(WorstCase(interval, latency, k, last), interval, latency, k)
  {
    var ticks := WorstCase(interval, latency, k, last);
    forall n: nat
      ensures OkWithin(ticks, n, k)
    {
      var m := if n <= last then n else n + k;
      assert ticks(m).ok;
    }
    forall n: nat
      ensures ticks(n).started < ticks(n + 1).started <= ticks(n).started + Gap(interval, latency, n)
      ensures ticks(n).landed <= ticks(n + 1).started
    {
      assert (n + 1) * interval == n * interval + interval;
    }
  }

  /** Past the limit, some spoke whose loop keeps to its schedule is read stale. */
  lemma BoundIsTight(interval: nat, latency: nat, k: nat, last: nat) returns (h: int)
    requires 0 < interval && latency <= interval && AgeLimit(interval, latency, k, last) > FRESH_TIMEOUT
    ensures var ticks := WorstCase(interval, latency, k, last);
            Regular(ticks, interval, latency, k) && LastLanded(ticks, h, last)
                && h - ticks(last).stamped >= FRESH_TIMEOUT
  {
    WorstCaseRegular(interval, latency, k, last);
    var ticks := WorstCase(interval, latency, k, last);
    h := ticks(last).stamped + AgeLimit(interval, latency, k, last) - 1;
    assert (last + k + 1) * interval == last * interval + (k + 1) * interval;
    forall m: nat | m > last && ticks(m).ok
      ensures ticks(m).landed > h
    {
      Product(last + k + 1, m, interval);
    }
  }
}
