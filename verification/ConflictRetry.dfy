/**
 Optimistic concurrency on one API object: every write appends a version, the resourceVersion is
 the index of a version, and `Status().Update` lands only on the current one. Between any two calls
 of the retry loop other writers may append versions, and a refetch may return an old one.
 */
module ConflictRetry {
  import opened Wrappers

  const MAX_ATTEMPTS := 5

  datatype UpdateResult = Updated | Conflict | Failed

  /** What happens around one attempt: the version a refetch returns (None when the Get fails), the
      writes others land before our update, and whether the update fails for another reason. */
  datatype Attempt<T> = Attempt(read: Option<nat>, others: seq<T>, fault: bool)

  datatype Outcome = Landed | GetFailed | MutateRefused | UpdateFailed | LostRaces

  class ApiObject<T> {
    var versions: seq<T>

    ghost predicate Valid() reads this { |versions| > 0 }

    method Others(writes: seq<T>)
      requires Valid()
      modifies this
      ensures Valid() && versions == old(versions) + writes
    {
      versions := versions + writes;
    }

    /** The compare-and-swap: lands exactly when `rv` is the current resourceVersion. */
    method StatusUpdate(rv: nat, obj: T, fault: bool) returns (r: UpdateResult)
      requires Valid()
      modifies this
      ensures Valid()
      ensures r == if fault then Failed else if rv == |old(versions)| - 1 then Updated else Conflict
      ensures versions == if r.Updated? then old(versions) + [obj] else old(versions)
    {
      if fault {
        return Failed;
      }
      if rv != |versions| - 1 {
        return Conflict;
      }
      versions := versions + [obj];
      r := Updated;
    }

    /** An update that other writers may beat: it lands only on the version it was based on. */
    method RacingUpdate(rv: nat, obj: T, around: Attempt<T>) returns (r: UpdateResult)
      requires Valid() && rv < |versions|
      modifies this
      ensures Valid()
      ensures r.Failed? <==> around.fault
      ensures r.Updated? <==> !around.fault && rv == |old(versions) + around.others| - 1
      ensures r.Updated? ==>
                && |versions| >= 2 && versions[..|versions| - 1] == old(versions) + around.others
                && versions[|versions| - 2] == old(versions)[rv] && versions[|versions| - 1] == obj
      ensures !r.Updated? ==> versions == old(versions) + around.others
    {
      Others(around.others);
      r := StatusUpdate(rv, obj, around.fault);
    }

    /** One attempt on copy `rv`: mutate it and update. */
    method TryOnce(ghost start: seq<T>, ghost base: nat, mutate: T -> Option<T>, env: seq<Attempt<T>>, i: nat, rv: nat)
      returns (fate: Fate)
      requires Valid() && base < |start| && i < |env| && (i > 0 ==> env[i].read.Some?)
      requires versions == Held(start, env, i) && rv == CopyIndex(start, base, env, i)
      modifies this
      ensures Valid() && Ends(start, base, mutate, env, i, fate) && fate != CannotRead
      ensures fate.Refuses? ==> versions == Held(start, env, i)
      ensures fate.Faults? || fate.Conflicts? ==> versions == Held(start, env, i + 1)
      ensures fate.Lands? ==>
                && |versions| >= 2 && versions[..|versions| - 1] == Held(start, env, i + 1)
                && mutate(versions[|versions| - 2]) == Some(versions[|versions| - 1])
    {
      var obj := mutate(versions[rv]);
      if obj.None? {
        return Refuses;
      }
      HeldStep(start, env, i);
      hide Held;
      var r := RacingUpdate(rv, obj.value, env[i]);
      fate := if r.Failed? then Faults else if r.Updated? then Lands else Conflicts;
    }

    /** The bounded loop: refetch on every retry, mutate the copy, update.
        A success means that the current version is `mutate` of exactly the version before it, and anything
        else leaves only other writers' versions behind. The outcome is that of the first of five attempts
        that does not conflict. */
    method StatusUpdateWithRetry(base: nat, mutate: T -> Option<T>, env: seq<Attempt<T>>)
      returns (outcome: Outcome, ghost tries: nat)
      requires Valid() && base < |versions| && |env| == MAX_ATTEMPTS
      modifies this
      ensures Valid() && tries <= MAX_ATTEMPTS
      ensures outcome.Landed? ==>
                && |versions| >= 2
                && versions[..|versions| - 1] == Held(old(versions), env, tries)
                && mutate(versions[|versions| - 2]) == Some(versions[|versions| - 1])
      ensures !outcome.Landed? ==> versions == Held(old(versions), env, tries)
      ensures outcome.LostRaces? ==> tries == 5
      ensures outcome.LostRaces? <==> forall i :: 0 <= i < 5 ==> Ends(old(versions), base, mutate, env, i, Conflicts)
      ensures !outcome.LostRaces? ==>
                exists i :: 0 <= i < 5 && Settles(old(versions), base, mutate, env, i, outcome)
                            && tries == if outcome.Landed? || outcome.UpdateFailed? then i + 1 else i
    {
      var rv: nat := base;
      var attempt := 0;
      tries := 0;
      NoWrites(versions, env);
      hide Held, Ends, Settles;
      while attempt < MAX_ATTEMPTS
        invariant 0 <= attempt <= MAX_ATTEMPTS && tries == attempt
        invariant Valid() && rv < |versions|
        invariant attempt == 0 ==> rv == base
        invariant versions == Held(old(versions), env, attempt)
        invariant forall i :: 0 <= i < attempt ==> Ends(old(versions), base, mutate, env, i, Conflicts)
      {
        if attempt > 0 {
          if env[attempt].read.None? {
            Unreadable(old(versions), base, mutate, env, attempt);
            Settled(old(versions), base, mutate, env, attempt, CannotRead, GetFailed);
            return GetFailed, tries;
          }
          rv := if env[attempt].read.value < |versions| then env[attempt].read.value else |versions| - 1;
        }
        var fate := TryOnce(old(versions), base, mutate, env, attempt, rv);
        if fate.Refuses? {
          Settled(old(versions), base, mutate, env, attempt, fate, MutateRefused);
          return MutateRefused, tries;
        }
        tries := tries + 1;
        if fate.Faults? {
          Settled(old(versions), base, mutate, env, attempt, fate, UpdateFailed);
          return UpdateFailed, tries;
        }
        if fate.Lands? {
          Settled(old(versions), base, mutate, env, attempt, fate, Landed);
          return Landed, tries;
        }
        attempt := attempt + 1;
      }
      outcome := LostRaces;
    }
  }

  /** The versions after `n` attempts that did not land: what was there and what other writers landed. */
  function Held<T>(start: seq<T>, env: seq<Attempt<T>>, n: nat): (r: seq<T>)
    requires n <= |env|
    ensures |r| >= |start|
  {
    if n == 0 then start else Held(start, env, n - 1) + env[n - 1].others
  }

  lemma NoWrites<T>(start: seq<T>, env: seq<Attempt<T>>)
    ensures Held(start, env, 0) == start
  {
  }

  lemma HeldStep<T>(start: seq<T>, env: seq<Attempt<T>>, i: nat)
    requires i < |env|
    ensures Held(start, env, i + 1) == Held(start, env, i) + env[i].others
  {
  }

  datatype Fate = CannotRead | Refuses | Faults | Lands | Conflicts

  /** The version attempt `i` works on when all before it conflicted: the caller's, or what it refetched. */
  function CopyIndex<T>(start: seq<T>, base: nat, env: seq<Attempt<T>>, i: nat): (r: nat)
    requires base < |start| && i < |env| && (i > 0 ==> env[i].read.Some?)
    ensures r < |Held(start, env, i)|
  {
    if i == 0 then base
    else if env[i].read.value < |Held(start, env, i)| then env[i].read.value else |Held(start, env, i)| - 1
  }

  /** How attempt `i` ends, told from what happens around it. */
  predicate Ends<T>(start: seq<T>, base: nat, mutate: T -> Option<T>, env: seq<Attempt<T>>, i: nat, fate: Fate)
    requires base < |start| && i < |env|
  {
    if i > 0 && env[i].read.None? then fate == CannotRead
    else
      var copy := CopyIndex(start, base, env, i);
      if mutate(Held(start, env, i)[copy]).None? then fate == Refuses
      else if env[i].fault then fate == Faults
      else if copy == |Held(start, env, i + 1)| - 1 then fate == Lands
      else fate == Conflicts
  }

  /** Attempt `i` is the first that does not conflict, and `outcome` is how it ends. */
  predicate Settles<T>(start: seq<T>, base: nat, mutate: T -> Option<T>, env: seq<Attempt<T>>, i: nat, outcome: Outcome)
    requires base < |start| && i < |env|
  {
    && (forall j :: 0 <= j < i ==> Ends(start, base, mutate, env, j, Conflicts))
    && match outcome
       case Landed => Ends(start, base, mutate, env, i, Lands)
       case GetFailed => Ends(start, base, mutate, env, i, CannotRead)
       case MutateRefused => Ends(start, base, mutate, env, i, Refuses)
       case UpdateFailed => Ends(start, base, mutate, env, i, Faults)
       case LostRaces => false
  }

  lemma Settled<T>(start: seq<T>, base: nat, mutate: T -> Option<T>, env: seq<Attempt<T>>, i: nat, fate: Fate,
                   outcome: Outcome)
    requires base < |start| && i < |env| && forall j :: 0 <= j < i ==> Ends(start, base, mutate, env, j, Conflicts)
    requires Ends(start, base, mutate, env, i, fate) && fate != Conflicts
    requires match outcome
             case Landed => fate == Lands
             case GetFailed => fate == CannotRead
             case MutateRefused => fate == Refuses
             case UpdateFailed => fate == Faults
             case LostRaces => false
    ensures Settles(start, base, mutate, env, i, outcome) && !Ends(start, base, mutate, env, i, Conflicts)
  {
    hide Held;
  }

  lemma Unreadable<T>(start: seq<T>, base: nat, mutate: T -> Option<T>, env: seq<Attempt<T>>, i: nat)
    requires base < |start| && 0 < i < |env| && env[i].read.None?
    ensures Ends(start, base, mutate, env, i, CannotRead)
  {
  }

  /** With current reads, no faults and a mutation that is never refused, one attempt within five that
      nobody disturbs makes the update land, at the first such attempt. */
  lemma UndisturbedLands<T>(start: seq<T>, base: nat, mutate: T -> Option<T>, env: seq<Attempt<T>>, k: nat)
    requires |env| == 5 && k < 5 && base == |start| - 1 >= 0
    requires forall i :: 0 <= i < 5 ==> !env[i].fault && env[i].read == Some(|Held(start, env, i)| - 1)
    requires forall i :: 0 <= i < 5 ==> mutate(Held(start, env, i)[|Held(start, env, i)| - 1]).Some?
    requires env[k].others == [] && forall i :: 0 <= i < k ==> env[i].others != []
    ensures Settles(start, base, mutate, env, k, Landed)
  {
    hide Ends;
    forall i | 0 <= i < k
      ensures Ends(start, base, mutate, env, i, Conflicts)
    {
      CurrentRead(start, base, mutate, env, i);
    }
    CurrentRead(start, base, mutate, env, k);
  }

  lemma CurrentRead<T>(start: seq<T>, base: nat, mutate: T -> Option<T>, env: seq<Attempt<T>>, i: nat)
    requires base == |start| - 1 >= 0 && i < |env| && !env[i].fault && env[i].read == Some(|Held(start, env, i)| - 1)
    requires mutate(Held(start, env, i)[|Held(start, env, i)| - 1]).Some?
    ensures Ends(start, base, mutate, env, i, if env[i].others == [] then Lands else Conflicts)
  {
    NoWrites(start, env);
    HeldStep(start, env, i);
    hide Held;
    assert CopyIndex(start, base, env, i) == |Held(start, env, i)| - 1;
  }
}
