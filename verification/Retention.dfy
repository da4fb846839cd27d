/**
 The PromotionRun garbage collector: the two-pass victim selector and the capped delete pass
 of one reconcile, proved against RetentionSpec.
 */
module Retention {
  import opened RunPhase
  import opened RetentionSpec

  const DEFAULT_MAX_RETAINED := 50
  const DEFAULT_MIN_PER_OUTCOME := 10
  const DEFAULT_MAX_DELETES := 25

  /** Overrides on the reconciler; a value that is not positive selects the default. */
  datatype Config = Config(maxRetained: int, minPerOutcome: int, maxDeletes: int) {
    function Cap(): nat { if maxRetained > 0 then maxRetained else DEFAULT_MAX_RETAINED }
    function Floor(): nat { if minPerOutcome > 0 then minPerOutcome else DEFAULT_MIN_PER_OUTCOME }
    function Deletes(): nat { if maxDeletes > 0 then maxDeletes else DEFAULT_MAX_DELETES }
  }

  ghost predicate DistinctNames(runs: seq<Run>) {
    forall i, j :: 0 <= i < j < |runs| ==> runs[i].name != runs[j].name
  }

  function TerminalRuns(runs: seq<Run>): set<Run> {
    set r | r in runs && IsTerminal(r.phase)
  }

  /** How many terminal runs do not fit beside the active ones. */
  function Excess(cfg: Config, runs: seq<Run>): nat {
    Max0(|TerminalRuns(runs)| - Budget(cfg, runs))
  }

  function Budget(cfg: Config, runs: seq<Run>): nat {
    Max0(cfg.Cap() - (|runs| - |TerminalRuns(runs)|))
  }

  /** An iteration order of the bucket map: Go promises no particular one. */
  ghost predicate IsOrder(order: seq<Phase>) {
    |order| == 3 && NoDuplicates(order) && Elems(order) == {Complete, Failed, Superseded}
  }

  /** The excess in the counts alone: of `t` terminal and `a` active runs as many go as do not fit into what
      the active ones leave of the cap. */
  lemma ExcessIs(cfg: Config, runs: seq<Run>)
    ensures TerminalRuns(runs)
            == set r | r in runs && (r.phase == Complete || r.phase == Failed || r.phase == Superseded)
    ensures var t := |TerminalRuns(runs)|;
            var a, cap := |runs| - t, if cfg.maxRetained > 0 then cfg.maxRetained else 50;
            var room := if a < cap then cap - a else 0;
            Excess(cfg, runs) == if t > room then t - room else 0
  {
    hide TerminalRuns;
    TerminalMeans(runs);
  }

  lemma TerminalMeans(runs: seq<Run>)
    ensures TerminalRuns(runs)
            == set r | r in runs && (r.phase == Complete || r.phase == Failed || r.phase == Superseded)
  {
  }

  // ---- The selector's value -------------------------------------------------------------------

  function InPhase(s: seq<Run>, p: Phase): seq<Run> {
    if s == [] then [] else
      InPhase(s[..|s| - 1], p) + (if s[|s| - 1].phase == p then [s[|s| - 1]] else [])
  }

  function Live(s: seq<Run>): seq<Run> {
    if s == [] then [] else
      Live(s[..|s| - 1]) + (if IsTerminal(s[|s| - 1].phase) then [] else [s[|s| - 1]])
  }

  function Insert(x: Run, s: seq<Run>): seq<Run> {
    if s == [] || Older(x, s[0]) then [x] + s else [s[0]] + Insert(x, s[1..])
  }

  /** `sort.Slice` by creation time and name. */
  function SortRuns(s: seq<Run>): seq<Run> {
    if s == [] then [] else Insert(s[|s| - 1], SortRuns(s[..|s| - 1]))
  }

  function Sorted(runs: seq<Run>, p: Phase): seq<Run> { SortRuns(InPhase(runs, p)) }

  /** The runs a sorted bucket donates: all but its `floor` newest. */
  function Donors(bucket: seq<Run>, floor: nat): seq<Run> {
    if |bucket| <= floor then [] else bucket[..|bucket| - floor]
  }

  function Candidates(runs: seq<Run>, floor: nat, order: seq<Phase>): seq<Run> {
    if order == [] then [] else
      Candidates(runs, floor, order[..|order| - 1]) + Donors(Sorted(runs, order[|order| - 1]), floor)
  }

  function Remainder(runs: seq<Run>, floor: nat, p: Phase): seq<Run> {
    Sorted(runs, p)[|Donors(Sorted(runs, p), floor)|..]
  }

  /** Runs by outcome; an outcome that is not a key has none. */
  type Buckets = map<Phase, seq<Run>>

  function Get(buckets: Buckets, p: Phase): seq<Run> { if p in buckets then buckets[p] else [] }

  /** What each bucket still holds after the first pass. */
  function Remainders(runs: seq<Run>, floor: nat): Buckets {
    map p | p in {Complete, Failed, Superseded} :: Remainder(runs, floor, p)
  }

  datatype Choice = Exhausted | Chosen(phase: Phase)

  /** The first outcome, in cursor order, whose oldest remaining run has the smallest creation time. */
  function OldestHead(buckets: Buckets, order: seq<Phase>): (c: Choice)
    ensures c.Chosen? ==> Get(buckets, c.phase) != []
  {
    if order == [] then Exhausted else
      var best, p := OldestHead(buckets, order[..|order| - 1]), order[|order| - 1];
      if Get(buckets, p) == [] then best
      else if best == Exhausted || Get(buckets, p)[0].created < Get(buckets, best.phase)[0].created then Chosen(p)
      else best
  }

  function Advance(buckets: Buckets, p: Phase): Buckets
    requires Get(buckets, p) != []
  {
    buckets[p := Get(buckets, p)[1..]]
  }

  function Merge(buckets: Buckets, order: seq<Phase>, k: nat): seq<Run>
    decreases k
  {
    if k == 0 then [] else
      match OldestHead(buckets, order)
      case Exhausted => []
      case Chosen(p) => [Get(buckets, p)[0]] + Merge(Advance(buckets, p), order, k - 1)
  }

  /** The first `k` victims: sorted candidates, then the merge of what the buckets keep. */
  function TakeOldest(runs: seq<Run>, floor: nat, collect: seq<Phase>, merge: seq<Phase>, k: nat): seq<Run> {
    var pool := SortRuns(Candidates(runs, floor, collect));
    if k <= |pool| then pool[..k] else pool + Merge(Remainders(runs, floor), merge, k - |pool|)
  }

  /** The victims for one pair of map iteration orders. */
  function Selection(cfg: Config, runs: seq<Run>, collect: seq<Phase>, merge: seq<Phase>): seq<Run> {
    TakeOldest(runs, cfg.Floor(), collect, merge, Excess(cfg, runs))
  }

  // ---- Sorting and bucketing ------------------------------------------------------------------

  ghost predicate Ascending(s: seq<Run>) {
    forall i, j :: 0 <= i < j < |s| ==> Older(s[i], s[j])
  }

  lemma {:induction false} InsertElements(x: Run, s: seq<Run>)
    ensures multiset(Insert(x, s)) == multiset(s) + multiset{x}
  {
    if s != [] && !Older(x, s[0]) {
      InsertElements(x, s[1..]);
      assert s == [s[0]] + s[1..];
    }
  }

  lemma {:induction false} InsertAscending(x: Run, s: seq<Run>)
    requires Ascending(s) && forall r :: r in s ==> r.name != x.name
    ensures Ascending(Insert(x, s))
  {
    if s == [] {
    } else if Older(x, s[0]) {
      PrependAscending(x, s);
    } else {
      InsertAscending(x, s[1..]);
      OlderTotal(x, s[0]);
      var rest := Insert(x, s[1..]);
      InsertElements(x, s[1..]);
      forall r | r in rest
        ensures Older(s[0], r)
      {
        assert r in multiset(rest);
      }
      assert Ascending([s[0]] + rest);
    }
  }

  lemma PrependAscending(x: Run, s: seq<Run>)
    requires Ascending(s) && s != [] && Older(x, s[0])
    ensures Ascending([x] + s)
  {
    forall j | 0 <= j < |s|
      ensures Older(x, s[j])
    {
      if j > 0 { OlderTransitive(x, s[0], s[j]); }
    }
  }

  lemma {:induction false} SortRunsAscending(s: seq<Run>)
    requires DistinctNames(s)
    ensures Ascending(SortRuns(s)) && multiset(SortRuns(s)) == multiset(s)
    ensures Elems(SortRuns(s)) == Elems(s) && |SortRuns(s)| == |s|
  {
    if s != [] {
      var front := s[..|s| - 1];
      SortRunsAscending(front);
      forall r | r in SortRuns(front)
        ensures r.name != s[|s| - 1].name
      {
        assert r in multiset(SortRuns(front));
      }
      InsertAscending(s[|s| - 1], SortRuns(front));
      InsertElements(s[|s| - 1], SortRuns(front));
      assert s == front + [s[|s| - 1]];
    }
    SameElements(SortRuns(s), s);
  }

  lemma SameElements(a: seq<Run>, b: seq<Run>)
    requires multiset(a) == multiset(b)
    ensures Elems(a) == Elems(b) && |a| == |b|
  {
    forall r
      ensures r in a <==> r in b
    {
      assert r in a <==> r in multiset(a);
    }
    assert |a| == |multiset(a)| == |multiset(b)| == |b|;
  }

  lemma AscendingNoDuplicates(s: seq<Run>)
    requires Ascending(s)
    ensures NoDuplicates(s)
  {
    forall i, j | 0 <= i < j < |s|
      ensures s[i] != s[j]
    {
      OlderTotal(s[i], s[j]);
    }
  }

  lemma DistinctNamesUnique(runs: seq<Run>)
    requires DistinctNames(runs)
    ensures NoDuplicates(runs) && UniqueNames(Elems(runs)) && UniqueNames(TerminalRuns(runs))
  {
  }

  lemma {:induction false} InPhaseElements(s: seq<Run>, p: Phase)
    requires DistinctNames(s)
    ensures DistinctNames(InPhase(s, p)) && Elems(InPhase(s, p)) == Bucket(Elems(s), p)
  {
    if s != [] {
      var front, last := s[..|s| - 1], s[|s| - 1];
      InPhaseElements(front, p);
      assert Elems(s) == Elems(front) + {last};
      var f := InPhase(front, p);
      forall i | 0 <= i < |f|
        ensures f[i].name != last.name
      {
        assert f[i] in Elems(f);
      }
      assert InPhase(s, p) == f + (if last.phase == p then [last] else []);
      assert Elems(InPhase(s, p)) == Elems(f) + (if last.phase == p then {last} else {});
    }
  }

  /** A sorted bucket lists exactly the outcome's runs, oldest first. */
  lemma SortedBucket(runs: seq<Run>, p: Phase)
    requires DistinctNames(runs) && IsTerminal(p)
    ensures Ascending(Sorted(runs, p)) && NoDuplicates(Sorted(runs, p))
    ensures Elems(Sorted(runs, p)) == Bucket(TerminalRuns(runs), p)
    ensures |Sorted(runs, p)| == |Bucket(TerminalRuns(runs), p)| == |InPhase(runs, p)|
  {
    InPhaseElements(runs, p);
    SortRunsAscending(InPhase(runs, p));
    AscendingNoDuplicates(Sorted(runs, p));
    NoDuplicatesCardinality(Sorted(runs, p));
    assert Bucket(Elems(runs), p) == Bucket(TerminalRuns(runs), p);
  }

  /** Position in the sorted bucket decides the floor: exactly the donors are above it. */
  lemma DonorsAreAboveFloor(runs: seq<Run>, floor: nat, p: Phase, i: nat)
    requires DistinctNames(runs) && IsTerminal(p) && i < |Sorted(runs, p)|
    ensures AboveFloor(TerminalRuns(runs), floor, Sorted(runs, p)[i]) <==> i < |Donors(Sorted(runs, p), floor)|
  {
    SortedBucket(runs, p);
    var b := Sorted(runs, p);
    var newer := b[i + 1..];
    NoDuplicatesCardinality(newer);
    assert b[i] in Elems(b);
    forall s
      ensures s in Newer(TerminalRuns(runs), b[i]) <==> s in Elems(newer)
    {
      if s in Newer(TerminalRuns(runs), b[i]) {
        assert s in Elems(b);
        var j :| 0 <= j < |b| && b[j] == s;
        OlderTotal(b[i], b[j]);
        assert j > i;
        assert newer[j - i - 1] == s;
      }
      if s in newer {
        var j :| 0 <= j < |newer| && newer[j] == s;
        assert b[i + 1 + j] == s && s in Elems(b);
      }
    }
    assert Newer(TerminalRuns(runs), b[i]) == Elems(newer);
  }

  // ---- The first pass -------------------------------------------------------------------------

  ghost function AboveRuns(runs: seq<Run>, floor: nat, phases: set<Phase>): set<Run> {
    set r | r in TerminalRuns(runs) && r.phase in phases && AboveFloor(TerminalRuns(runs), floor, r)
  }

  lemma DonorElements(runs: seq<Run>, floor: nat, p: Phase)
    requires DistinctNames(runs) && IsTerminal(p)
    ensures Elems(Donors(Sorted(runs, p), floor)) == AboveRuns(runs, floor, {p})
    ensures NoDuplicates(Donors(Sorted(runs, p), floor))
  {
    SortedBucket(runs, p);
    var b := Sorted(runs, p);
    var d := Donors(b, floor);
    forall r
      ensures r in d <==> r in AboveRuns(runs, floor, {p})
    {
      if r in d {
        var i :| 0 <= i < |d| && d[i] == r;
        assert b[i] == r && r in Elems(b);
        DonorsAreAboveFloor(runs, floor, p, i);
      }
      if r in AboveRuns(runs, floor, {p}) {
        assert r in Elems(b);
        var i :| 0 <= i < |b| && b[i] == r;
        DonorsAreAboveFloor(runs, floor, p, i);
        assert d[i] == r;
      }
    }
  }

  lemma {:induction false} CandidateElements(runs: seq<Run>, floor: nat, order: seq<Phase>)
    requires DistinctNames(runs) && NoDuplicates(order) && forall p :: p in order ==> IsTerminal(p)
    ensures Elems(Candidates(runs, floor, order)) == AboveRuns(runs, floor, Elems(order))
    ensures NoDuplicates(Candidates(runs, floor, order))
  {
    if order != [] {
      var front, p := order[..|order| - 1], order[|order| - 1];
      CandidateElements(runs, floor, front);
      DonorElements(runs, floor, p);
      var a, d := Candidates(runs, floor, front), Donors(Sorted(runs, p), floor);
      assert p !in Elems(front);
      assert Elems(a) !! Elems(d);
      ConcatNoDuplicates(a, d);
      assert Elems(order) == Elems(front) + {p};
      assert Elems(a + d) == Elems(a) + Elems(d);
    }
  }

  lemma NamesFromElements(runs: seq<Run>, s: seq<Run>)
    requires DistinctNames(runs) && NoDuplicates(s) && Elems(s) <= Elems(runs)
    ensures DistinctNames(s)
  {
    DistinctNamesUnique(runs);
    forall i, j | 0 <= i < j < |s|
      ensures s[i].name != s[j].name
    {
      assert s[i] in Elems(s) && s[j] in Elems(s);
    }
  }

  /** The sorted candidates: every above-floor run once, oldest first, whatever the map order. */
  lemma PoolOrder(runs: seq<Run>, floor: nat, order: seq<Phase>)
    requires DistinctNames(runs) && IsOrder(order)
    ensures var pool := SortRuns(Candidates(runs, floor, order));
            Ascending(pool) && NoDuplicates(pool)
            && Elems(pool) == (set r | r in TerminalRuns(runs) && AboveFloor(TerminalRuns(runs), floor, r))
            && PurgeOrder(TerminalRuns(runs), floor, pool)
  {
    hide SortRuns, Candidates, Sorted, DistinctNames, Newer;
    var all := TerminalRuns(runs);
    var cs := Candidates(runs, floor, order);
    forall p | p in order
      ensures IsTerminal(p)
    {
      assert p in Elems(order);
    }
    CandidateElements(runs, floor, order);
    NamesFromElements(runs, cs);
    SortRunsAscending(cs);
    var pool := SortRuns(cs);
    AscendingNoDuplicates(pool);
    assert Elems(pool) == (set r | r in all && AboveFloor(all, floor, r));
    forall i, s | 0 <= i < |pool| && s in all && s !in pool[..i]
      ensures !Precedes(all, floor, s, pool[i])
    {
      assert pool[i] in Elems(pool);
      if AboveFloor(all, floor, s) {
        assert s in Elems(pool);
        var j :| 0 <= j < |pool| && pool[j] == s;
        assert forall x :: 0 <= x < i ==> pool[..i][x] == pool[x];
        assert j >= i;
        OlderTotal(pool[i], s);
      }
    }
  }

  // ---- The second pass ------------------------------------------------------------------------

  ghost predicate ValidBucket(b: seq<Run>, p: Phase) {
    Ascending(b) && forall r :: r in b ==> r.phase == p
  }

  ghost predicate ValidBuckets(buckets: Buckets) {
    && ValidBucket(Get(buckets, Complete), Complete)
    && ValidBucket(Get(buckets, Failed), Failed)
    && ValidBucket(Get(buckets, Superseded), Superseded)
  }

  ghost function All(buckets: Buckets): set<Run> {
    Elems(Get(buckets, Complete)) + Elems(Get(buckets, Failed)) + Elems(Get(buckets, Superseded))
  }

  ghost predicate MergeOrder(pool: set<Run>, v: seq<Run>) {
    && NoDuplicates(v)
    && Elems(v) <= pool
    && forall i, s :: 0 <= i < |v| && s in pool && s !in v[..i] ==> !BeforeInFloor(s, v[i])
  }

  lemma TailOfBucket(b: seq<Run>, p: Phase)
    requires ValidBucket(b, p) && b != []
    ensures ValidBucket(b[1..], p) && Elems(b[1..]) == Elems(b) - {b[0]}
  {
    AscendingNoDuplicates(b);
    assert b == [b[0]] + b[1..];
    assert forall i :: 0 <= i < |b[1..]| ==> b[1..][i] == b[i + 1];
  }

  /** Taking a head removes exactly that run. */
  lemma AdvanceRemoves(buckets: Buckets, p: Phase)
    requires ValidBuckets(buckets) && IsTerminal(p) && Get(buckets, p) != []
    ensures ValidBuckets(Advance(buckets, p)) && All(Advance(buckets, p)) == All(buckets) - {Get(buckets, p)[0]}
  {
    TailOfBucket(Get(buckets, p), p);
  }

  lemma {:induction false} OldestHeadFound(buckets: Buckets, order: seq<Phase>, p: Phase)
    requires p in order && Get(buckets, p) != []
    ensures var c := OldestHead(buckets, order);
            c.Chosen? && c.phase in order && Get(buckets, c.phase)[0].created <= Get(buckets, p)[0].created
  {
    var front, last := order[..|order| - 1], order[|order| - 1];
    if p in front {
      OldestHeadFound(buckets, front, p);
    } else if OldestHead(buckets, front).Chosen? {
      OldestHeadInOrder(buckets, front);
    }
  }

  lemma {:induction false} OldestHeadInOrder(buckets: Buckets, order: seq<Phase>)
    ensures OldestHead(buckets, order).Chosen? ==> OldestHead(buckets, order).phase in order
  {
    if order != [] {
      OldestHeadInOrder(buckets, order[..|order| - 1]);
    }
  }

  /** The chosen head may go first: nothing left is older in its outcome or strictly older at all. */
  lemma HeadFirst(buckets: Buckets, order: seq<Phase>, s: Run)
    requires ValidBuckets(buckets) && IsOrder(order) && s in All(buckets)
    ensures var c := OldestHead(buckets, order);
            c.Chosen? && c.phase in order && !BeforeInFloor(s, Get(buckets, c.phase)[0])
  {
    var p := s.phase;
    var b := Get(buckets, p);
    assert IsTerminal(p) && ValidBucket(b, p) && s in b;
    assert p in Elems(order);
    OldestHeadFound(buckets, order, p);
    var c := OldestHead(buckets, order).phase;
    var i :| 0 <= i < |b| && b[i] == s;
    if i > 0 { assert Older(b[0], b[i]); }
    OlderTotal(b[0], s);
    assert c in Elems(order);
    assert Get(buckets, c)[0].phase == c;
  }

  lemma PrependOrder(pool: set<Run>, first: Run, rest: seq<Run>)
    requires first in pool && MergeOrder(pool - {first}, rest)
    requires forall s :: s in pool ==> !BeforeInFloor(s, first)
    ensures MergeOrder(pool, [first] + rest)
  {
    var v := [first] + rest;
    ConcatNoDuplicates([first], rest);
    assert Elems(v) == {first} + Elems(rest);
    forall i, s | 0 <= i < |v| && s in pool && s !in v[..i]
      ensures !BeforeInFloor(s, v[i])
    {
      if i > 0 {
        assert v[..i] == [first] + rest[..i - 1];
        assert v[..i][0] == first;
        assert s in pool - {first} && s !in rest[..i - 1];
      }
    }
  }

  /** The cursor merge stops only when `k` runs are taken or every bucket is exhausted, takes no
      run twice, and always takes a run nothing left has to precede. */
  lemma {:induction false} MergeIsOrdered(buckets: Buckets, order: seq<Phase>, k: nat)
    requires ValidBuckets(buckets) && IsOrder(order)
    ensures MergeOrder(All(buckets), Merge(buckets, order, k)) && |Merge(buckets, order, k)| == Min(k, |All(buckets)|)
    decreases k
  {
    if k > 0 {
      OldestHeadInOrder(buckets, order);
      match OldestHead(buckets, order) {
        case Exhausted =>
          if s :| s in All(buckets) { HeadFirst(buckets, order, s); }
        case Chosen(p) =>
          assert p in Elems(order);
          MergeStep(buckets, order, p, k);
      }
    }
  }

  lemma {:induction false} MergeStep(buckets: Buckets, order: seq<Phase>, p: Phase, k: nat)
    requires ValidBuckets(buckets) && IsOrder(order) && k > 0
    requires OldestHead(buckets, order) == Chosen(p) && IsTerminal(p)
    ensures MergeOrder(All(buckets), Merge(buckets, order, k)) && |Merge(buckets, order, k)| == Min(k, |All(buckets)|)
    decreases k, 0
  {
    hide ValidBuckets, IsOrder, BeforeInFloor, MergeOrder, Advance, OldestHead, All, Get;
    var first := Get(buckets, p)[0];
    HeadInBuckets(buckets, p);
    AdvanceRemoves(buckets, p);
    MergeIsOrdered(Advance(buckets, p), order, k - 1);
    forall s | s in All(buckets)
      ensures !BeforeInFloor(s, first)
    {
      HeadFirst(buckets, order, s);
    }
    PrependOrder(All(buckets), first, Merge(Advance(buckets, p), order, k - 1));
  }

  lemma HeadInBuckets(buckets: Buckets, p: Phase)
    requires IsTerminal(p) && Get(buckets, p) != []
    ensures Get(buckets, p)[0] in All(buckets)
  {
    assert Get(buckets, p)[0] in Elems(Get(buckets, p));
  }

  ghost function WithinRuns(runs: seq<Run>, floor: nat, p: Phase): set<Run> {
    set r | r in TerminalRuns(runs) && r.phase == p && !AboveFloor(TerminalRuns(runs), floor, r)
  }

  lemma RemainderElements(runs: seq<Run>, floor: nat, p: Phase)
    requires DistinctNames(runs) && IsTerminal(p)
    ensures Elems(Remainder(runs, floor, p)) == WithinRuns(runs, floor, p)
    ensures ValidBucket(Remainder(runs, floor, p), p)
  {
    hide Remainder, WithinRuns, DistinctNames, ValidBucket;
    forall r
      ensures r in Remainder(runs, floor, p) <==> r in WithinRuns(runs, floor, p)
    {
      if r in Remainder(runs, floor, p) { RemainderIsWithin(runs, floor, p, r); }
      if r in WithinRuns(runs, floor, p) { WithinIsRemainder(runs, floor, p, r); }
    }
    RemainderValid(runs, floor, p);
  }

  lemma RemainderIsWithin(runs: seq<Run>, floor: nat, p: Phase, r: Run)
    requires DistinctNames(runs) && IsTerminal(p) && r in Remainder(runs, floor, p)
    ensures r in WithinRuns(runs, floor, p)
  {
    SortedBucket(runs, p);
    hide Sorted, DistinctNames, AboveFloor;
    var b, rest := Sorted(runs, p), Remainder(runs, floor, p);
    var n := |Donors(b, floor)|;
    var i :| 0 <= i < |rest| && rest[i] == r;
    assert b[n + i] == r && r in Elems(b);
    DonorsAreAboveFloor(runs, floor, p, n + i);
  }

  lemma WithinIsRemainder(runs: seq<Run>, floor: nat, p: Phase, r: Run)
    requires DistinctNames(runs) && IsTerminal(p) && r in WithinRuns(runs, floor, p)
    ensures r in Remainder(runs, floor, p)
  {
    SortedBucket(runs, p);
    hide Sorted, DistinctNames, AboveFloor;
    var b, rest := Sorted(runs, p), Remainder(runs, floor, p);
    assert r in Elems(b);
    var i :| 0 <= i < |b| && b[i] == r;
    DonorsAreAboveFloor(runs, floor, p, i);
    assert rest[i - |Donors(b, floor)|] == r;
  }

  lemma RemainderValid(runs: seq<Run>, floor: nat, p: Phase)
    requires DistinctNames(runs) && IsTerminal(p)
    ensures ValidBucket(Remainder(runs, floor, p), p)
  {
    SortedBucket(runs, p);
    hide Sorted, DistinctNames, Older;
    var b := Sorted(runs, p);
    forall r | r in Remainder(runs, floor, p)
      ensures r.phase == p
    {
      assert r in Elems(b);
    }
  }

  /** After the first pass the buckets hold exactly the runs within their floors. */
  lemma RemaindersHold(runs: seq<Run>, floor: nat)
    requires DistinctNames(runs)
    ensures ValidBuckets(Remainders(runs, floor))
    ensures All(Remainders(runs, floor)) == set r | r in TerminalRuns(runs) && !AboveFloor(TerminalRuns(runs), floor, r)
  {
    hide AboveFloor, Remainder;
    RemainderElements(runs, floor, Complete);
    RemainderElements(runs, floor, Failed);
    RemainderElements(runs, floor, Superseded);
    var within := set r | r in TerminalRuns(runs) && !AboveFloor(TerminalRuns(runs), floor, r);
    assert within == WithinRuns(runs, floor, Complete) + WithinRuns(runs, floor, Failed) + WithinRuns(runs, floor,
        Superseded);
  }

  // ---- The whole selection --------------------------------------------------------------------

  /** Above-floor runs first, then a merge of the rest: a purge order. */
  lemma PassesCompose(all: set<Run>, floor: nat, pool: seq<Run>, m: seq<Run>)
    requires NoDuplicates(pool) && PurgeOrder(all, floor, pool)
    requires Elems(pool) == (set r | r in all && AboveFloor(all, floor, r))
    requires MergeOrder(all - Elems(pool), m)
    ensures PurgeOrder(all, floor, pool + m)
  {
    ConcatNoDuplicates(pool, m);
    assert Elems(pool + m) == Elems(pool) + Elems(m);
    forall i, s | 0 <= i < |pool + m| && s in all && s !in (pool + m)[..i]
      ensures !Precedes(all, floor, s, (pool + m)[i])
    {
      if i < |pool| {
        assert (pool + m)[..i] == pool[..i];
      } else {
        var j := i - |pool|;
        assert (pool + m)[..i] == pool + m[..j];
        assert m[j] in Elems(m);
        assert s in all - Elems(pool);
        assert !BeforeInFloor(s, m[j]);
      }
    }
  }

  /** For every input order and every pair of map orders the selection is a purge order of exactly
      the excess. */
  lemma SelectionIsPurgeOrder(cfg: Config, runs: seq<Run>, collect: seq<Phase>, merge: seq<Phase>)
    requires DistinctNames(runs) && IsOrder(collect) && IsOrder(merge)
    ensures PurgeOrder(TerminalRuns(runs), cfg.Floor(), Selection(cfg, runs, collect, merge))
    ensures |Selection(cfg, runs, collect, merge)| == Excess(cfg, runs)
    ensures var t := |set r | r in runs && (r.phase == Complete || r.phase == Failed || r.phase == Superseded)|;
            var a, cap := |runs| - t, if cfg.maxRetained > 0 then cfg.maxRetained else 50;
            var room := if a < cap then cap - a else 0;
            |Selection(cfg, runs, collect, merge)| == if t > room then t - room else 0
    ensures cfg.Floor() == if cfg.minPerOutcome > 0 then cfg.minPerOutcome else 10
  {
    ExcessIs(cfg, runs);
    hide PurgeOrder, MergeOrder, AboveFloor, SortRuns, Candidates, Ascending, IsOrder, DistinctNames, Merge,
         ValidBuckets, All, Remainders, NoDuplicates;
    var all, floor, k := TerminalRuns(runs), cfg.Floor(), Excess(cfg, runs);
    var pool := SortRuns(Candidates(runs, floor, collect));
    PoolOrder(runs, floor, collect);
    if k <= |pool| {
      PurgeOrderPrefix(all, floor, pool, k);
    } else {
      RemaindersHold(runs, floor);
      var rest := Remainders(runs, floor);
      assert All(rest) == all - Elems(pool);
      MergeIsOrdered(rest, merge, k - |pool|);
      PassesCompose(all, floor, pool, Merge(rest, merge, k - |pool|));
      NoDuplicatesCardinality(pool);
      SubsetRemoval(all, Elems(pool));
    }
  }

  /** When the active runs alone reach the cap the budget is zero and every terminal run is selected. */
  lemma ActiveRunsFillTheCap(cfg: Config, runs: seq<Run>, collect: seq<Phase>, merge: seq<Phase>)
    requires DistinctNames(runs) && IsOrder(collect) && IsOrder(merge)
    requires |runs| - |TerminalRuns(runs)| >= cfg.Cap()
    ensures Elems(Selection(cfg, runs, collect, merge)) == TerminalRuns(runs)
  {
    SelectionIsPurgeOrder(cfg, runs, collect, merge);
    var v := Selection(cfg, runs, collect, merge);
    NoDuplicatesCardinality(v);
    SubsetOfSameSize(Elems(v), TerminalRuns(runs));
  }

  /** A retention cap of one with one Complete and one Failed run created at the same instant:
      which of them is deleted depends on the map iteration order of the second pass. */
  lemma TieFollowsMapOrder(collect: seq<Phase>)
    requires IsOrder(collect)
    ensures var a, b := Run("a", 5, Complete), Run("b", 5, Failed);
            && Selection(Config(1, 1, 1), [a, b], collect, [Complete, Failed, Superseded]) == [a]
            && Selection(Config(1, 1, 1), [a, b], collect, [Failed, Complete, Superseded]) == [b]
  {
    hide Merge, Candidates, SortRuns, InPhase, Sorted, Excess, OldestHead, Older;
    var a, b := Run("a", 5, Complete), Run("b", 5, Failed);
    var runs := [a, b];
    TieBuckets(a, b);
    TieExcess(a, b);
    forall i | 0 <= i < 3
      ensures |Sorted(runs, collect[i])| <= 1
    {
      assert collect[i] in Elems(collect);
    }
    TieCandidates(runs, collect);
    TieMerge(Remainders(runs, 1), a, b);
  }

  lemma TieExcess(a: Run, b: Run)
    requires a != b && IsTerminal(a.phase) && IsTerminal(b.phase)
    ensures Excess(Config(1, 1, 1), [a, b]) == 1
  {
    assert TerminalRuns([a, b]) == {a, b};
  }

  lemma TieMerge(rest: Buckets, a: Run, b: Run)
    requires a.created == b.created
    requires Get(rest, Complete) == [a] && Get(rest, Failed) == [b] && Get(rest, Superseded) == []
    ensures Merge(rest, [Complete, Failed, Superseded], 1) == [a]
    ensures Merge(rest, [Failed, Complete, Superseded], 1) == [b]
  {
    var cf, fc := [Complete, Failed, Superseded], [Failed, Complete, Superseded];
    assert cf[..2] == [Complete, Failed] && cf[..2][..1] == [Complete] && cf[..2][..1][..0] == [];
    assert fc[..2] == [Failed, Complete] && fc[..2][..1] == [Failed] && fc[..2][..1][..0] == [];
    assert OldestHead(rest, []) == Exhausted;
    assert OldestHead(rest, [Complete]) == Chosen(Complete) && OldestHead(rest, [Failed]) == Chosen(Failed);
    assert OldestHead(rest, [Complete, Failed]) == Chosen(Complete);
    assert OldestHead(rest, [Failed, Complete]) == Chosen(Failed);
    assert OldestHead(rest, cf) == Chosen(Complete) && OldestHead(rest, fc) == Chosen(Failed);
    assert Merge(Advance(rest, Complete), cf, 0) == [] && Merge(Advance(rest, Failed), fc, 0) == [];
  }

  lemma TieBuckets(a: Run, b: Run)
    requires a.phase == Complete && b.phase == Failed
    ensures Sorted([a, b], Complete) == [a] && Sorted([a, b], Failed) == [b] && Sorted([a, b], Superseded) == []
  {
    hide SortRuns, Older;
    PairInPhase(a, b, Complete);
    PairInPhase(a, b, Failed);
    PairInPhase(a, b, Superseded);
    SortSmall(a);
    SortSmall(b);
    assert [a] + [] == [a] && [] + [b] == [b];
  }

  lemma SortSmall(a: Run)
    ensures SortRuns([a]) == [a] && SortRuns([]) == []
  {
  }

  lemma PairInPhase(a: Run, b: Run, p: Phase)
    ensures InPhase([a, b], p) == (if a.phase == p then [a] else []) + (if b.phase == p then [b] else [])
  {
    assert [a, b][..1] == [a] && [a][..0] == [] && InPhase([], p) == [];
    assert InPhase([a], p) == if a.phase == p then [a] else [];
  }

  lemma TieCandidates(runs: seq<Run>, order: seq<Phase>)
    requires |order| == 3 && forall i :: 0 <= i < 3 ==> |Sorted(runs, order[i])| <= 1
    ensures Candidates(runs, 1, order) == [] && SortRuns([]) == []
  {
    assert order[..2][..1] == order[..1] && order[..1][..0] == [];
    assert Candidates(runs, 1, order[..0]) == [];
    assert Candidates(runs, 1, order[..1]) == [];
    assert Candidates(runs, 1, order[..2]) == [];
  }
}
