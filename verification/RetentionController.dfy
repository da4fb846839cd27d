/**
 The garbage collector's loops: bucketing, sorting, the donor pass with its prefix trimming, the
 cursor merge, and one reconcile's capped deletes. Map iteration order is a parameter.
 */
module RetentionController {
  import opened RunPhase
  import opened RetentionSpec
  import opened Retention

  function GetCount(counts: map<Phase, nat>, p: Phase): nat { if p in counts then counts[p] else 0 }

  datatype Cursor = Cursor(phase: Phase, idx: nat)

  /** The outcomes, in cursor order, that are not exhausted. */
  function LivePhases(rest: Buckets, order: seq<Phase>): seq<Phase> {
    if order == [] then [] else
      LivePhases(rest, order[..|order| - 1]) + if Get(rest, order[|order| - 1]) == [] then [] else [order[|order| - 1]]
  }

  lemma {:induction false} LivePhasesSubset(rest: Buckets, order: seq<Phase>, p: Phase)
    ensures p in LivePhases(rest, order) <==> p in order && Get(rest, p) != []
  {
    if order != [] {
      LivePhasesSubset(rest, order[..|order| - 1], p);
    }
  }

  /** Exhausted buckets play no part in the choice. */
  lemma {:induction false} OldestHeadOfLive(rest: Buckets, order: seq<Phase>)
    ensures OldestHead(rest, LivePhases(rest, order)) == OldestHead(rest, order)
  {
    if order != [] {
      var front, p := order[..|order| - 1], order[|order| - 1];
      OldestHeadOfLive(rest, front);
      var live := LivePhases(rest, front);
      if Get(rest, p) != [] {
        assert (live + [p])[..|live|] == live;
      } else {
        assert live + [] == live;
      }
    }
  }

  function DropPhase(phases: seq<Phase>, p: Phase): seq<Phase> {
    if phases == [] then [] else
      DropPhase(phases[..|phases| - 1], p) + if phases[|phases| - 1] == p then [] else [phases[|phases| - 1]]
  }

  /** Advancing a bucket keeps the cursor order and drops the bucket once it is exhausted. */
  lemma {:induction false} LiveAfterAdvance(rest: Buckets, order: seq<Phase>, p: Phase)
    requires Get(rest, p) != []
    ensures LivePhases(Advance(rest, p), order)
            == if |Get(rest, p)| == 1 then DropPhase(LivePhases(rest, order), p) else LivePhases(rest, order)
  {
    if order != [] {
      var front, q := order[..|order| - 1], order[|order| - 1];
      LiveAfterAdvance(rest, front, p);
      var live := LivePhases(rest, front);
      if Get(rest, q) != [] {
        assert (live + [q])[..|live|] == live;
      } else {
        assert live + [] == live;
      }
    }
  }

  lemma {:induction false} DropConcat(a: seq<Phase>, b: seq<Phase>, p: Phase)
    ensures DropPhase(a + b, p) == DropPhase(a, p) + DropPhase(b, p)
  {
    if b == [] {
      assert a + b == a;
    } else {
      DropConcat(a, b[..|b| - 1], p);
      assert (a + b)[..|a + b| - 1] == a + b[..|b| - 1];
    }
  }

  lemma DropAt(phases: seq<Phase>, o: nat)
    requires o < |phases| && NoDuplicates(phases)
    ensures DropPhase(phases, phases[o]) == phases[..o] + phases[o + 1..]
  {
    hide DropPhase, NoDuplicates;
    var p := phases[o];
    NowhereElse(phases, o);
    assert phases == phases[..o] + ([p] + phases[o + 1..]);
    DropMiddle(phases[..o], p, phases[o + 1..]);
  }

  lemma NowhereElse(phases: seq<Phase>, o: nat)
    requires o < |phases| && NoDuplicates(phases)
    ensures phases[o] !in phases[..o] && phases[o] !in phases[o + 1..]
  {
  }

  lemma DropMiddle(a: seq<Phase>, p: Phase, b: seq<Phase>)
    requires p !in a && p !in b
    ensures DropPhase(a + ([p] + b), p) == a + b
  {
    hide DropPhase;
    DropConcat(a, [p] + b, p);
    DropConcat([p], b, p);
    DropAbsent(a, p);
    DropAbsent(b, p);
    DropSingle(p);
    assert [] + b == b;
  }

  lemma DropSingle(p: Phase)
    ensures DropPhase([p], p) == []
  {
  }

  lemma {:induction false} DropAbsent(phases: seq<Phase>, p: Phase)
    requires p !in phases
    ensures DropPhase(phases, p) == phases
  {
    if phases != [] {
      DropAbsent(phases[..|phases| - 1], p);
      assert phases == phases[..|phases| - 1] + [phases[|phases| - 1]];
    }
  }

  lemma {:induction false} LiveNoDuplicates(rest: Buckets, order: seq<Phase>)
    requires NoDuplicates(order)
    ensures NoDuplicates(LivePhases(rest, order))
  {
    if order != [] {
      var front, p := order[..|order| - 1], order[|order| - 1];
      LiveNoDuplicates(rest, front);
      LivePhasesSubset(rest, front, p);
    }
  }

  /** The cursors point at what is left: one per live outcome, in cursor order. */
  ghost predicate Mirrors(buckets: Buckets, cursors: seq<Cursor>, rest: Buckets, live: seq<Phase>) {
    && |live| == |cursors|
    && forall i :: 0 <= i < |cursors| ==>
                     && cursors[i].phase == live[i]
                     && live[i] in buckets
                     && cursors[i].idx < |buckets[live[i]]|
                     && Get(rest, live[i]) == buckets[live[i]][cursors[i].idx..]
  }

  method OpenCursors(buckets: Buckets, order: seq<Phase>) returns (cursors: seq<Cursor>)
    ensures Mirrors(buckets, cursors, buckets, LivePhases(buckets, order))
  {
    cursors := [];
    for i := 0 to |order|
      invariant Mirrors(buckets, cursors, buckets, LivePhases(buckets, order[..i]))
    {
      assert order[..i + 1][..i] == order[..i];
      if |Get(buckets, order[i])| > 0 {
        cursors := cursors + [Cursor(order[i], 0)];
      }
    }
    assert order[..|order|] == order;
  }

  /** The cursor whose head is the oldest, the first such on ties. */
  method FindOldest(buckets: Buckets, cursors: seq<Cursor>, ghost rest: Buckets, ghost live: seq<Phase>)
    returns (oldest: nat)
    requires Mirrors(buckets, cursors, rest, live) && cursors != []
    ensures oldest < |cursors| && OldestHead(rest, live) == Chosen(live[oldest])
  {
    hide Get;
    oldest := 0;
    assert live[..1][..0] == [] && OldestHead(rest, live[..1]) == Chosen(live[0]);
    for i := 1 to |cursors|
      invariant 0 <= oldest < i
      invariant OldestHead(rest, live[..i]) == Chosen(live[oldest])
    {
      assert live[..i + 1][..i] == live[..i];
      var lhs := buckets[cursors[i].phase][cursors[i].idx];
      var rhs := buckets[cursors[oldest].phase][cursors[oldest].idx];
      assert Get(rest, live[i])[0] == lhs && Get(rest, live[oldest])[0] == rhs;
      if lhs.created < rhs.created {
        oldest := i;
      }
    }
    assert live[..|cursors|] == live;
  }

  function WithoutIndex<T>(s: seq<T>, o: nat): (r: seq<T>)
    requires o < |s|
    ensures |r| == |s| - 1
    ensures forall i :: 0 <= i < |r| ==> r[i] == s[if i < o then i else i + 1]
  {
    s[..o] + s[o + 1..]
  }

  method StepCursor(buckets: Buckets, cursors: seq<Cursor>, o: nat, ghost rest: Buckets, ghost live: seq<Phase>)
    returns (next: seq<Cursor>)
    requires Mirrors(buckets, cursors, rest, live) && o < |cursors| && NoDuplicates(live)
    ensures Mirrors(buckets, next, Advance(rest, live[o]), if |Get(rest, live[o])| == 1 then WithoutIndex(live, o)
              else live)
  {
    var chosen := cursors[o];
    if chosen.idx + 1 >= |buckets[chosen.phase]| {
      next := WithoutIndex(cursors, o);
    } else {
      next := cursors[o := Cursor(chosen.phase, chosen.idx + 1)];
    }
  }

  lemma LiveStep(rest: Buckets, order: seq<Phase>, o: nat)
    requires NoDuplicates(order) && o < |LivePhases(rest, order)|
    ensures NoDuplicates(LivePhases(rest, order))
    ensures var live := LivePhases(rest, order);
            Get(rest, live[o]) != []
            && LivePhases(Advance(rest, live[o]), order) == if |Get(rest, live[o])| == 1 then WithoutIndex(live, o)
                 else live
  {
    var live := LivePhases(rest, order);
    LivePhasesSubset(rest, order, live[o]);
    LiveNoDuplicates(rest, order);
    LiveAfterAdvance(rest, order, live[o]);
    DropAt(live, o);
  }

  lemma MergeUnfold(before: seq<Run>, rest: Buckets, order: seq<Phase>, k: nat, p: Phase)
    requires k > 0 && OldestHead(rest, order) == Chosen(p)
    ensures before + Merge(rest, order, k) == (before + [Get(rest, p)[0]]) + Merge(Advance(rest, p), order, k - 1)
  {
  }

  lemma MergeDone(rest: Buckets, order: seq<Phase>, k: nat)
    requires k == 0 || LivePhases(rest, order) == []
    ensures Merge(rest, order, k) == []
  {
    OldestHeadOfLive(rest, order);
  }

  /** The second pass: repeatedly take the oldest head among the remaining buckets. */
  method MergeCursors(buckets: Buckets, order: seq<Phase>, wanted: nat) returns (victims: seq<Run>)
    requires NoDuplicates(order)
    ensures victims == Merge(buckets, order, wanted)
  {
    hide LivePhases, OldestHead, NoDuplicates, Merge, Advance, Get;
    var cursors := OpenCursors(buckets, order);
    var excess := wanted;
    ghost var rest := buckets;
    ghost var live := LivePhases(rest, order);
    victims := [];
    while excess > 0 && |cursors| > 0
      invariant Mirrors(buckets, cursors, rest, live) && live == LivePhases(rest, order)
      invariant victims + Merge(rest, order, excess) == Merge(buckets, order, wanted)
      decreases excess
    {
      OldestHeadOfLive(rest, order);
      var oldest := FindOldest(buckets, cursors, rest, live);
      LiveStep(rest, order, oldest);
      MergeUnfold(victims, rest, order, excess, live[oldest]);
      victims := victims + [buckets[cursors[oldest].phase][cursors[oldest].idx]];
      cursors := StepCursor(buckets, cursors, oldest, rest, live);
      rest := Advance(rest, live[oldest]);
      live := LivePhases(rest, order);
      excess := excess - 1;
    }
    MergeDone(rest, order, excess);
  }

  lemma Snoc(front: seq<Run>, run: Run)
    ensures Live(front + [run]) == Live(front) + if IsTerminal(run.phase) then [] else [run]
    ensures forall p :: InPhase(front + [run], p) == InPhase(front, p) + if run.phase == p then [run] else []
  {
  }

  /** `bucketByPhase` and the active runs, in list order. */
  method Bucketise(runs: seq<Run>) returns (active: seq<Run>, buckets: Buckets)
    ensures active == Live(runs)
    ensures forall p :: IsTerminal(p) ==> Get(buckets, p) == InPhase(runs, p)
  {
    active, buckets := [], map[];
    for i := 0 to |runs|
      invariant active == Live(runs[..i])
      invariant forall p :: IsTerminal(p) ==> Get(buckets, p) == InPhase(runs[..i], p)
    {
      hide IsTerminal, InPhase, Live;
      assert runs[..i + 1] == runs[..i] + [runs[i]];
      Snoc(runs[..i], runs[i]);
      var run := runs[i];
      if !IsTerminal(run.phase) {
        active := active + [run];
      } else {
        buckets := buckets[run.phase := Get(buckets, run.phase) + [run]];
      }
    }
    assert runs[..|runs|] == runs;
  }

  method SortBuckets(unsorted: Buckets, order: seq<Phase>) returns (buckets: Buckets)
    requires IsOrder(order)
    ensures forall p :: IsTerminal(p) ==> Get(buckets, p) == SortRuns(Get(unsorted, p))
  {
    buckets := unsorted;
    for j := 0 to |order|
      invariant forall p :: Get(buckets, p) == if p in order[..j] then SortRuns(Get(unsorted, p)) else Get(unsorted, p)
    {
      if order[j] in buckets {
        buckets := buckets[order[j] := SortRuns(buckets[order[j]])];
      }
    }
    forall p | IsTerminal(p)
      ensures p in order[..|order|]
    {
      assert p in Elems(order);
    }
  }

  method AppendDonors(candidates: seq<Run>, bucket: seq<Run>, floor: nat) returns (more: seq<Run>)
    ensures more == candidates + Donors(bucket, floor)
  {
    more := candidates;
    if |bucket| <= floor {
      return;
    }
    for i := 0 to |bucket| - floor
      invariant more == candidates + bucket[..i]
    {
      more := more + [bucket[i]];
    }
  }

  method CollectCandidates(ghost runs: seq<Run>, buckets: Buckets, floor: nat, order: seq<Phase>)
    returns (candidates: seq<Run>)
    requires IsOrder(order)
    requires forall p :: IsTerminal(p) ==> Get(buckets, p) == Sorted(runs, p)
    ensures candidates == Candidates(runs, floor, order)
  {
    hide IsTerminal, IsOrder, Sorted, Get, Donors;
    OrderMembers(order);
    candidates := [];
    for j := 0 to |order|
      invariant candidates == Candidates(runs, floor, order[..j])
    {
      assert order[..j + 1][..j] == order[..j];
      assert IsTerminal(order[j]);
      candidates := AppendDonors(candidates, Get(buckets, order[j]), floor);
    }
    assert order[..|order|] == order;
  }

  /** How many of the first `t` sorted candidates come from one bucket: never more than it donated,
      and exactly that many once all are taken. */
  lemma DonatedCount(runs: seq<Run>, floor: nat, order: seq<Phase>, t: nat, p: Phase)
    requires DistinctNames(runs) && IsOrder(order) && IsTerminal(p)
    requires t <= |SortRuns(Candidates(runs, floor, order))|
    ensures var pool, d := SortRuns(Candidates(runs, floor, order)), |Donors(Sorted(runs, p), floor)|;
            |InPhase(pool[..t], p)| <= d && (t == |pool| ==> |InPhase(pool[..t], p)| == d)
  {
    PoolOrder(runs, floor, order);
    var pool := SortRuns(Candidates(runs, floor, order));
    NamesFromElements(runs, pool);
    PoolBucket(runs, floor, pool, p);
    PhaseSize(pool, p);
    PhaseSize(pool[..t], p);
    SubsetCardinality(Bucket(Elems(pool[..t]), p), Bucket(Elems(pool), p));
    assert pool[..|pool|] == pool;
  }

  lemma PoolBucket(runs: seq<Run>, floor: nat, pool: seq<Run>, p: Phase)
    requires DistinctNames(runs) && IsTerminal(p)
    requires Elems(pool) == (set r | r in TerminalRuns(runs) && AboveFloor(TerminalRuns(runs), floor, r))
    ensures |Bucket(Elems(pool), p)| == |Donors(Sorted(runs, p), floor)|
  {
    DonorElements(runs, floor, p);
    NoDuplicatesCardinality(Donors(Sorted(runs, p), floor));
    assert Bucket(Elems(pool), p) == AboveRuns(runs, floor, {p});
  }

  lemma PhaseSize(s: seq<Run>, p: Phase)
    requires DistinctNames(s)
    ensures |InPhase(s, p)| == |Bucket(Elems(s), p)|
  {
    InPhaseElements(s, p);
    NoDuplicatesCardinality(InPhase(s, p));
  }

  /** The first pass: take from the head of the sorted candidates, counting per outcome. */
  method TakeCandidates(pool: seq<Run>, take: nat) returns (victims: seq<Run>, donated: map<Phase, nat>)
    requires take <= |pool|
    ensures victims == pool[..take]
    ensures forall p :: GetCount(donated, p) == |InPhase(pool[..take], p)|
  {
    victims, donated := [], map[];
    for i := 0 to take
      invariant victims == pool[..i]
      invariant forall p :: GetCount(donated, p) == |InPhase(pool[..i], p)|
    {
      assert pool[..i + 1][..i] == pool[..i];
      victims := victims + [pool[i]];
      donated := donated[pool[i].phase := GetCount(donated, pool[i].phase) + 1];
    }
  }

  /** Drop the donated prefix of every bucket. */
  method TrimBuckets(full: Buckets, donated: map<Phase, nat>, order: seq<Phase>) returns (buckets: Buckets)
    requires IsOrder(order)
    requires forall p :: IsTerminal(p) ==> GetCount(donated, p) <= |Get(full, p)|
    ensures forall p :: IsTerminal(p) ==> Get(buckets, p) == Get(full, p)[GetCount(donated, p)..]
  {
    hide IsTerminal, IsOrder;
    OrderMembers(order);
    buckets := full;
    for j := 0 to |order|
      invariant forall p :: p in order[..j] ==> Get(buckets, p) == Get(full, p)[GetCount(donated, p)..]
      invariant forall p :: p !in order[..j] ==> Get(buckets, p) == Get(full, p)
    {
      var p := order[j];
      assert p in order && p !in order[..j];
      assert order[..j + 1] == order[..j] + [p];
      if p in donated && p in buckets {
        buckets := buckets[p := buckets[p][donated[p]..]];
      }
    }
    assert order[..|order|] == order;
  }

  lemma OrderMembers(order: seq<Phase>)
    requires IsOrder(order)
    ensures |order| == 3 && NoDuplicates(order) && forall p :: p in order <==> IsTerminal(p)
  {
  }

  lemma {:induction false} LiveCount(runs: seq<Run>)
    requires DistinctNames(runs)
    ensures |Live(runs)| + |TerminalRuns(runs)| == |runs|
  {
    if runs != [] {
      var front, last := runs[..|runs| - 1], runs[|runs| - 1];
      LiveCount(front);
      TerminalStep(front, last);
      assert runs == front + [last];
    }
  }

  lemma TerminalStep(front: seq<Run>, last: Run)
    requires forall r :: r in front ==> r.name != last.name
    ensures |TerminalRuns(front + [last])| == |TerminalRuns(front)| + if IsTerminal(last.phase) then 1 else 0
  {
    hide IsTerminal;
    var a, b := TerminalRuns(front), TerminalRuns(front + [last]);
    assert last !in front;
    if IsTerminal(last.phase) {
      assert b == a + {last};
    } else {
      assert b == a;
    }
  }

  lemma BucketSizes(runs: seq<Run>)
    requires DistinctNames(runs)
    ensures |Sorted(runs, Complete)| + |Sorted(runs, Failed)| + |Sorted(runs, Superseded)| == |TerminalRuns(runs)|
  {
    hide Sorted, InPhase, DistinctNames, Ascending;
    SortedBucket(runs, Complete);
    SortedBucket(runs, Failed);
    SortedBucket(runs, Superseded);
    var all := TerminalRuns(runs);
    var c, f, s := Bucket(all, Complete), Bucket(all, Failed), Bucket(all, Superseded);
    assert all == c + f + s;
    DisjointSum(c, f, s);
  }

  method CountTerminal(ghost runs: seq<Run>, buckets: Buckets, order: seq<Phase>) returns (total: nat)
    requires DistinctNames(runs) && IsOrder(order)
    requires forall p :: IsTerminal(p) ==> Get(buckets, p) == Sorted(runs, p)
    ensures total == |TerminalRuns(runs)|
  {
    total := 0;
    var j := 0;
    while j < |order|
      invariant 0 <= j <= 3
      invariant total == (if j > 0 then |Get(buckets, order[0])| else 0) + (if j > 1 then |Get(buckets, order[1])|
                  else 0)
                         + (if j > 2 then |Get(buckets, order[2])| else 0)
    {
      total := total + |Get(buckets, order[j])|;
      j := j + 1;
    }
    BucketSizes(runs);
    assert order[0] in Elems(order) && order[1] in Elems(order) && order[2] in Elems(order);
  }

  /** The donor pass: the oldest above-floor runs, and what the buckets hold without them. */
  method FirstPass(ghost runs: seq<Run>, full: Buckets, floor: nat, order: seq<Phase>, excess: nat)
    returns (victims: seq<Run>, buckets: Buckets)
    requires DistinctNames(runs) && IsOrder(order)
    requires forall p :: IsTerminal(p) ==> Get(full, p) == Sorted(runs, p)
    ensures var pool := SortRuns(Candidates(runs, floor, order));
            && victims == pool[..Min(|pool|, excess)]
            && (excess >= |pool| ==> forall p :: IsTerminal(p) ==> Get(buckets, p) == Remainder(runs, floor, p))
  {
    var candidates := CollectCandidates(runs, full, floor, order);
    var pool := SortRuns(candidates);
    var take := Min(|pool|, excess);
    var donated: map<Phase, nat>;
    victims, donated := TakeCandidates(pool, take);
    forall p | IsTerminal(p)
      ensures GetCount(donated, p) <= |Donors(Sorted(runs, p), floor)| <= |Get(full, p)|
      ensures take == |pool| ==> GetCount(donated, p) == |Donors(Sorted(runs, p), floor)|
    {
      DonatedCount(runs, floor, order, take, p);
    }
    buckets := TrimBuckets(full, donated, order);
  }

  /** The merge looks only at the three outcomes' buckets. */
  lemma {:induction false} MergeLooksAt(a: Buckets, b: Buckets, order: seq<Phase>, k: nat)
    requires IsOrder(order) && forall p :: IsTerminal(p) ==> Get(a, p) == Get(b, p)
    ensures Merge(a, order, k) == Merge(b, order, k)
    decreases k
  {
    forall p | p in order
      ensures IsTerminal(p)
    {
      assert p in Elems(order);
    }
    HeadLooksAt(a, b, order);
    OldestHeadInOrder(a, order);
    if k > 0 && OldestHead(a, order).Chosen? {
      var p := OldestHead(a, order).phase;
      MergeLooksAt(Advance(a, p), Advance(b, p), order, k - 1);
    }
  }

  lemma {:induction false} HeadLooksAt(a: Buckets, b: Buckets, order: seq<Phase>)
    requires forall p :: p in order ==> Get(a, p) == Get(b, p)
    ensures OldestHead(a, order) == OldestHead(b, order)
  {
    if order != [] {
      HeadLooksAt(a, b, order[..|order| - 1]);
      OldestHeadInOrder(a, order[..|order| - 1]);
      assert order[|order| - 1] in order;
    }
  }

  /** The two passes over sorted buckets. */
  method TwoPasses(ghost runs: seq<Run>, sorted: Buckets, floor: nat, collect: seq<Phase>, merge: seq<Phase>,
                   wanted: nat)
    returns (victims: seq<Run>)
    requires DistinctNames(runs) && IsOrder(collect) && IsOrder(merge)
    requires forall p :: IsTerminal(p) ==> Get(sorted, p) == Sorted(runs, p)
    ensures victims == TakeOldest(runs, floor, collect, merge, wanted)
  {
    hide Merge, SortRuns, Candidates, Sorted, DistinctNames, Remainder;
    var buckets;
    victims, buckets := FirstPass(runs, sorted, floor, collect, wanted);
    var excess := wanted - |victims|;
    if excess == 0 {
      return;
    }
    var rest := MergeCursors(buckets, merge, excess);
    MergeLooksAt(buckets, Remainders(runs, floor), merge, excess);
    victims := victims + rest;
  }

  method Select(cfg: Config, runs: seq<Run>, collect: seq<Phase>, merge: seq<Phase>) returns (victims: seq<Run>)
    requires DistinctNames(runs) && IsOrder(collect) && IsOrder(merge)
    ensures victims == Selection(cfg, runs, collect, merge)
  {
    if |runs| == 0 {
      return [];
    }
    LiveCount(runs);
    var active, buckets := Bucketise(runs);
    buckets := SortBuckets(buckets, collect);
    var totalTerminal := CountTerminal(runs, buckets, collect);
    var budget := Max0(cfg.Cap() - |active|);
    if totalTerminal <= budget {
      return [];
    }
    victims := TwoPasses(runs, buckets, cfg.Floor(), collect, merge, totalTerminal - budget);
  }

  /** The two-pass selector. Its victims are a purge order of the terminal runs, exactly as many as
      exceed the cap, for every list order and every map iteration order. */
  method SelectVictims(cfg: Config, runs: seq<Run>, collect: seq<Phase>, merge: seq<Phase>) returns (victims: seq<Run>)
    requires DistinctNames(runs) && IsOrder(collect) && IsOrder(merge)
    ensures victims == Selection(cfg, runs, collect, merge)
    ensures PurgeOrder(TerminalRuns(runs), if cfg.minPerOutcome > 0 then cfg.minPerOutcome else 10, victims)
    ensures var t := |set r | r in runs && (r.phase == Complete || r.phase == Failed || r.phase == Superseded)|;
            var a, cap := |runs| - t, if cfg.maxRetained > 0 then cfg.maxRetained else 50;
            var room := if a < cap then cap - a else 0;
            |victims| == if t > room then t - room else 0
  {
    hide PurgeOrder, Selection;
    victims := Select(cfg, runs, collect, merge);
    SelectionIsPurgeOrder(cfg, runs, collect, merge);
  }

  datatype DeleteResult = Deleted | NotFound | Forbidden | Refused

  /** The child runs of one Promotion, as the API server holds them. */
  class RunStore {
    var runs: seq<Run>

    /** The API call: a run that was deleted or already gone is not there afterwards. */
    method Delete(run: Run, result: DeleteResult)
      modifies this
      ensures runs == if result.Deleted? || result.NotFound? then Without(old(runs), run) else old(runs)
    {
      if result.Deleted? || result.NotFound? {
        runs := Without(runs, run);
      }
    }

    method DeleteAll(victims: seq<Run>, results: seq<DeleteResult>) returns (ok: bool)
      requires DistinctNames(runs) && |results| >= |victims|
      modifies this
      ensures DistinctNames(runs) && ok == (Refused !in results[..|victims|])
      ensures Elems(runs) == Elems(old(runs)) - Elems(Removed(victims, results))
    {
      hide Without, DistinctNames, Removed;
      RemovedNone(victims, results);
      for i := 0 to |victims|
        invariant DistinctNames(runs) && Refused !in results[..i]
        invariant Elems(runs) == Elems(old(runs)) - Elems(Removed(victims[..i], results))
      {
        RemovedStep(victims, results, i);
        WithoutElements(runs, victims[i]);
        Delete(victims[i], results[i]);
        if results[i].Refused? {
          RemovedStops(victims, results, i);
          assert results[..|victims|][i] == Refused;
          return false;
        }
      }
      assert victims[..|victims|] == victims;
      ok := true;
    }

    /** One reconcile: delete the head of the selection, skip what is forbidden, stop at the first
        other error, and ask for another pass when victims were left over. */
    method Reconcile(cfg: Config, collect: seq<Phase>, merge: seq<Phase>, results: seq<DeleteResult>)
      returns (ok: bool, requeue: bool)
      requires DistinctNames(runs) && IsOrder(collect) && IsOrder(merge)
      requires |results| >= cfg.Deletes()
      modifies this
      ensures DistinctNames(runs)
      ensures var v := Selection(cfg, old(runs), collect, merge);
              var batch := v[..Min(cfg.Deletes(), |v|)];
              && ok == (Refused !in results[..|batch|])
              && requeue == (ok && |v| > cfg.Deletes())
              && Elems(runs) == Elems(old(runs)) - Elems(Removed(batch, results))
      ensures var v := Selection(cfg, old(runs), collect, merge);
              var deletes := if cfg.maxDeletes > 0 then cfg.maxDeletes else 25;
              && requeue == (ok && |v| > deletes)
              && forall r :: r in old(runs) ==>
                   (r !in runs <==> exists i :: 0 <= i < |v| && i < deletes && v[i] == r && Succeeds(results, i))
    {
      var victims := SelectVictims(cfg, runs, collect, merge);
      ghost var v := victims;
      var remaining := 0;
      if |victims| > cfg.Deletes() {
        remaining := |victims| - cfg.Deletes();
        victims := victims[..cfg.Deletes()];
      }
      assert victims == v[..Min(cfg.Deletes(), |v|)];
      ghost var before := runs;
      ok := DeleteAll(victims, results);
      requeue := ok && remaining > 0;
      BatchGone(before, runs, v, results, cfg.Deletes());
    }
  }

  function Without(runs: seq<Run>, run: Run): seq<Run> {
    if runs == [] then [] else
      Without(runs[..|runs| - 1], run) + if runs[|runs| - 1] == run then [] else [runs[|runs| - 1]]
  }

  lemma {:induction false} WithoutElements(runs: seq<Run>, run: Run)
    requires DistinctNames(runs)
    ensures DistinctNames(Without(runs, run)) && Elems(Without(runs, run)) == Elems(runs) - {run}
  {
    if runs != [] {
      var front, last := runs[..|runs| - 1], runs[|runs| - 1];
      WithoutElements(front, run);
      var w := Without(front, run);
      assert Elems(runs) == Elems(front) + {last};
      forall i | 0 <= i < |w|
        ensures w[i].name != last.name
      {
        assert w[i] in Elems(w);
      }
      assert Elems(Without(runs, run)) == Elems(w) + if last == run then {} else {last};
    }
  }

  /** The victims a delete loop removes: those before the first hard error that were not forbidden. */
  function Removed(batch: seq<Run>, results: seq<DeleteResult>): seq<Run>
    requires |results| >= |batch|
  {
    if batch == [] then [] else
      var n := |batch| - 1;
      Removed(batch[..n], results)
      + if Refused in results[..n] || results[n].Forbidden? || results[n].Refused? then [] else [batch[n]]
  }

  /** The delete at this place is reached, and the run is deleted or already gone. */
  predicate Succeeds(results: seq<DeleteResult>, i: nat)
    requires i < |results|
  {
    (results[i].Deleted? || results[i].NotFound?) && forall j :: 0 <= j < i ==> !results[j].Refused?
  }

  lemma {:induction false} RemovedIff(batch: seq<Run>, results: seq<DeleteResult>, r: Run)
    requires |results| >= |batch|
    ensures r in Removed(batch, results) <==> exists i :: 0 <= i < |batch| && batch[i] == r && Succeeds(results, i)
  {
    if batch != [] {
      hide Succeeds;
      var n := |batch| - 1;
      var front := batch[..n];
      RemovedIff(front, results, r);
      LastSucceeds(results, n);
      assert forall i :: 0 <= i < n ==> front[i] == batch[i];
    }
  }

  lemma LastSucceeds(results: seq<DeleteResult>, n: nat)
    requires n < |results|
    ensures Succeeds(results, n) <==> !(Refused in results[..n] || results[n].Forbidden? || results[n].Refused?)
  {
  }

  lemma BatchGone(before: seq<Run>, after: seq<Run>, v: seq<Run>, results: seq<DeleteResult>, deletes: nat)
    requires |results| >= deletes
    requires Elems(after) == Elems(before) - Elems(Removed(v[..Min(deletes, |v|)], results))
    ensures forall r :: r in before ==>
              (r !in after <==> exists i :: 0 <= i < |v| && i < deletes && v[i] == r && Succeeds(results, i))
  {
    hide Removed, Succeeds;
    var batch := v[..Min(deletes, |v|)];
    forall r | r in before
      ensures r !in after <==> exists i :: 0 <= i < |v| && i < deletes && v[i] == r && Succeeds(results, i)
    {
      RemovedIff(batch, results, r);
      assert r in Elems(before) && (r in after <==> r in Elems(after));
      assert forall i :: 0 <= i < |batch| ==> batch[i] == v[i];
    }
  }

  lemma RemovedNone(victims: seq<Run>, results: seq<DeleteResult>)
    ensures Removed(victims[..0], results) == []
  {
  }

  lemma RemovedStep(victims: seq<Run>, results: seq<DeleteResult>, i: nat)
    requires i < |victims| <= |results| && Refused !in results[..i]
    ensures Removed(victims[..i + 1], results)
            == Removed(victims[..i], results) + if results[i].Forbidden? || results[i].Refused? then []
                else [victims[i]]
  {
    assert victims[..i + 1][..i] == victims[..i];
  }

  lemma {:induction false} RemovedStops(victims: seq<Run>, results: seq<DeleteResult>, i: nat)
    requires i < |victims| <= |results| && results[i].Refused?
    ensures Removed(victims, results) == Removed(victims[..i], results)
    decreases |victims|
  {
    var n := |victims| - 1;
    if n > i {
      assert results[..n][i] == Refused;
      assert victims[..n][..i] == victims[..i];
      RemovedStops(victims[..n], results, i);
    }
  }
}
