/**
 The finalizer protocol around everything the bootstrap reconciler creates. One reconciler is active
 (leader election); it may crash between any two API calls and reads its Cluster from a cache that may
 lag behind, while users delete, suspend and edit the Cluster at any time.

 Two assumptions are explicit in `Mode`: the cache does not go back in time between two reads, and
 `spec.bootstrap` is not cleared. BootstrapLeaks says exactly what goes wrong without them.
 */
module BootstrapTeardown {

  datatype Resource =
    KubeconfigSecret | ServiceAccount | BootstrapBinding | BootstrapRole | ClusterBinding | ClusterRole

  /** One version of the Cluster object; `present` is false once the API server has removed it. */
  datatype Object = Object(present: bool, deleting: bool, finalizer: bool, otherFinalizers: bool, suspended: bool,
                           hasBootstrap: bool, expired: bool)

  datatype Call = Ensure(r: Resource) | Remove(r: Resource) | AddFinalizer | ClearFinalizer

  datatype Mode = Mode(monotoneReads: bool, keepsBootstrap: bool)

  /** `todo` are the API calls left in the running reconcile, `seen` the version the last one read,
      `addedAt` and `clearedAt` the versions that last got and last lost the finalizer (0 when none did). */
  datatype State = State(
    versions: seq<Object>, resources: set<Resource>, todo: seq<Call>, seen: nat, addedAt: nat, clearedAt: nat)
  {
    predicate Cleared() { clearedAt > 0 }

    function Copy(): Object
      requires seen < |versions|
    {
      versions[seen]
    }

    function Current(): Object
      requires |versions| > 0
    {
      versions[|versions| - 1]
    }
  }

  /** What a reconcile that gets past the guards may do in one pass. */
  datatype Work = NoWork | RegisterCluster | ProvisionBootstrap

  datatype Event =
    | Begin(version: nat, work: Work)
    | Call
    | Crash
    | UserDelete
    | UserEdit(suspended: bool, hasBootstrap: bool, expired: bool, otherFinalizers: bool)

  const BOOTSTRAP_CLEANUP: seq<Call> :=
    [Remove(KubeconfigSecret), Remove(ServiceAccount), Remove(BootstrapBinding), Remove(BootstrapRole)]
  const FULL_CLEANUP: seq<Call> :=
    [Remove(KubeconfigSecret), Remove(ServiceAccount), Remove(BootstrapBinding), Remove(BootstrapRole),
     Remove(ClusterBinding), Remove(ClusterRole), ClearFinalizer]

  /** The calls of one reconcile, decided by the copy it read. */
  function Plan(c: Object, work: Work): seq<Call> {
    if !c.present then []
    else if c.deleting then (if c.finalizer then FULL_CLEANUP else [])
    else if c.suspended then []
    else if !c.hasBootstrap then (if c.finalizer then [ClearFinalizer] else [])
    else if !c.finalizer then [AddFinalizer]
    else if c.expired then BOOTSTRAP_CLEANUP
    else
      match work
      case NoWork => []
      case RegisterCluster => [Ensure(ClusterRole), Ensure(ClusterBinding)]
      case ProvisionBootstrap => [Ensure(ServiceAccount), Ensure(BootstrapRole), Ensure(BootstrapBinding),
          Ensure(KubeconfigSecret)]
  }

  /** An object that is being deleted disappears with its last finalizer. */
  function Settle(c: Object): Object {
    if c.deleting && !c.finalizer && !c.otherFinalizers then c.(present := false) else c
  }

  function Write(s: State, c: Object): State { s.(versions := s.versions + [Settle(c)]) }

  function Perform(s: State, call: Call, rest: seq<Call>): State
    requires |s.versions| > 0
  {
    var c := s.Current();
    match call
    case Ensure(r) => s.(resources := s.resources + {r}, todo := rest)
    case Remove(r) => s.(resources := s.resources - {r}, todo := rest)
    case AddFinalizer =>
      if c.present && !c.deleting && !c.finalizer then Write(s.(todo := rest, addedAt := |s.versions|),
          c.(finalizer := true))
      else s.(todo := [])
    case ClearFinalizer =>
      if c.present && c.finalizer then Write(s.(todo := rest, clearedAt := |s.versions|), c.(finalizer := false))
      else s.(todo := [])
  }

  function Apply(mode: Mode, s: State, e: Event): State
    requires |s.versions| > 0
    ensures |Apply(mode, s, e).versions| > 0
  {
    match e
    case Begin(version, work) =>
      if s.todo == [] && version < |s.versions| && (mode.monotoneReads ==> version >= s.seen)
      then s.(todo := Plan(s.versions[version], work), seen := version) else s
    case Call => if s.todo == [] then s else Perform(s, s.todo[0], s.todo[1..])
    case Crash => s.(todo := [])
    case UserDelete => if s.Current().present then Write(s, s.Current().(deleting := true)) else s
    case UserEdit(suspended, hasBootstrap, expired, otherFinalizers) =>
      if s.Current().present && (mode.keepsBootstrap ==> hasBootstrap)
      then Write(s, s.Current().(suspended := suspended, hasBootstrap := hasBootstrap, expired := expired,
          otherFinalizers := otherFinalizers))
      else s
  }

  function Run(mode: Mode, s: State, events: seq<Event>): (end: State)
    requires |s.versions| > 0
    ensures |end.versions| > 0
    decreases |events|
  {
    if events == [] then s else Run(mode, Apply(mode, s, events[0]), events[1..])
  }

  /** A live Cluster with a bootstrap slot that nobody has reconciled yet. */
  predicate Initial(s: State) {
    && |s.versions| == 1 && s.resources == {} && s.todo == [] && s.seen == 0 && s.addedAt == s.clearedAt == 0
    && s.versions[0].present && !s.versions[0].deleting && s.versions[0].hasBootstrap && !s.versions[0].finalizer
  }

  const STRICT := Mode(true, true)

  // ---- The invariant ----------------------------------------------------------------------------

  /** From one version to a later one: deletion and removal are final, the slot stays. */
  predicate Later(a: Object, b: Object) {
    && (a.deleting ==> b.deleting) && (!a.present ==> !b.present) && (!b.present ==> b.deleting) && b.hasBootstrap
  }

  ghost predicate VersionsInv(s: State) {
    && |s.versions| > 0 && s.seen < |s.versions|
    && (forall i, j :: 0 <= i <= j < |s.versions| ==> Later(s.versions[i], s.versions[j]))
    && (!s.Cleared() ==> forall i, j :: 0 <= i <= j < |s.versions| && s.versions[i].finalizer ==>
         s.versions[j].finalizer)
    && (!s.Cleared() && s.Current().finalizer ==> s.Current().present)
  }

  /** What is still to be removed before the finalizer may go. */
  predicate CleanupCovers(s: State) {
    forall r :: r in s.resources ==> Remove(r) in s.todo
  }

  predicate TodoInv(s: State)
    requires s.seen < |s.versions|
  {
    var c := s.versions[s.seen];
    || s.todo == []
    || s.todo == [AddFinalizer]
    || (c.present && !c.deleting && c.finalizer && forall x :: x in s.todo ==> x.Ensure? || x.Remove?)
    || (c.deleting && c.finalizer && s.todo[|s.todo| - 1] == ClearFinalizer && CleanupCovers(s)
        && forall i :: 0 <= i < |s.todo| - 1 ==> s.todo[i].Remove?)
  }

  ghost predicate Inv(s: State) {
    && VersionsInv(s)
    && (s.Cleared() ==> s.versions[s.seen].deleting && s.resources == {})
    && (s.resources != {} ==> s.Current().present && s.Current().finalizer)
    && TodoInv(s)
  }

  lemma InitialInv(s: State)
    requires Initial(s)
    ensures Inv(s)
  {
  }

  /** After the finalizer was cleared, whatever the reconciler reads shows a deletion. */
  lemma ReadsAfterClear(s: State, version: nat)
    requires VersionsInv(s) && s.seen <= version < |s.versions| && s.versions[s.seen].deleting
    ensures s.versions[version].deleting
  {
  }

  lemma BeginKeeps(s: State, version: nat, work: Work)
    requires Inv(s) && s.todo == [] && s.seen <= version < |s.versions|
    ensures Inv(s.(todo := Plan(s.versions[version], work), seen := version))
  {
    var b := s.(todo := Plan(s.versions[version], work), seen := version);
    var c := s.versions[version];
    assert Later(c, c);
    if s.Cleared() { ReadsAfterClear(s, version); }
    if c.present && c.deleting && c.finalizer {
      CleanupRemovesAll();
      assert b.todo == FULL_CLEANUP;
    }
  }

  lemma CleanupRemovesAll()
    ensures forall r: Resource :: Remove(r) in FULL_CLEANUP
  {
    forall r: Resource
      ensures Remove(r) in FULL_CLEANUP
    {
      match r {
        case KubeconfigSecret => assert FULL_CLEANUP[0] == Remove(r);
        case ServiceAccount => assert FULL_CLEANUP[1] == Remove(r);
        case BootstrapBinding => assert FULL_CLEANUP[2] == Remove(r);
        case BootstrapRole => assert FULL_CLEANUP[3] == Remove(r);
        case ClusterBinding => assert FULL_CLEANUP[4] == Remove(r);
        case ClusterRole => assert FULL_CLEANUP[5] == Remove(r);
      }
    }
  }

  lemma CallKeeps(s: State)
    requires Inv(s) && s.todo != []
    ensures Inv(Perform(s, s.todo[0], s.todo[1..]))
  {
  }

  lemma UserKeeps(s: State, c: Object)
    requires Inv(s) && s.Current().present
    requires c.present && (s.Current().deleting ==> c.deleting) && c.finalizer == s.Current().finalizer
    requires c.hasBootstrap
    ensures Inv(Write(s, c))
  {
  }

  lemma StepKeepsInv(s: State, e: Event)
    requires Inv(s)
    ensures Inv(Apply(STRICT, s, e))
  {
    match e {
      case Begin(version, work) =>
        if s.todo == [] && s.seen <= version < |s.versions| { BeginKeeps(s, version, work); }
      case Call =>
        if s.todo != [] { CallKeeps(s); }
      case Crash =>
      case UserDelete =>
        assert Later(s.Current(), s.Current());
        if s.Current().present { UserKeeps(s, s.Current().(deleting := true)); }
      case UserEdit(suspended, hasBootstrap, expired, otherFinalizers) =>
        if s.Current().present && hasBootstrap {
          UserKeeps(s, s.Current().(suspended := suspended, hasBootstrap := hasBootstrap, expired := expired,
              otherFinalizers := otherFinalizers));
        }
    }
  }

  lemma {:induction false} RunKeepsInv(s: State, events: seq<Event>)
    requires Inv(s)
    ensures Inv(Run(STRICT, s, events))
    decreases |events|
  {
    if events != [] {
      StepKeepsInv(s, events[0]);
      RunKeepsInv(Apply(STRICT, s, events[0]), events[1..]);
    }
  }

  /** In every run, whatever the reconciler created is guarded by the finalizer, and once deletion has
      removed the finalizer nothing it created is left, then and ever after. */
  lemma NothingLeaks(s: State, events: seq<Event>)
    requires Initial(s)
    ensures var end := Run(STRICT, s, events);
            && (end.resources != {} ==> end.Current().present && end.Current().finalizer)
            && (end.Cleared() ==> end.resources == {})
            && (!end.Current().present ==> end.resources == {})
  {
    InitialInv(s);
    RunKeepsInv(s, events);
  }

  // ---- What one reconcile does --------------------------------------------------------------------

  /** `n` API calls in a row. */
  function Calls(n: nat): seq<Event> { seq(n, i requires 0 <= i < n => Event.Call) }

  /** The bootstrap resources, and those of the registered cluster. */
  const BOOTSTRAP_RESOURCES := {KubeconfigSecret, ServiceAccount, BootstrapBinding, BootstrapRole}
  const CLUSTER_RESOURCES := {ClusterBinding, ClusterRole}

  lemma CallsNext(mode: Mode, s: State, n: nat)
    requires |s.versions| > 0
    ensures Run(mode, s, Calls(0)) == s
    ensures n > 0 ==> Run(mode, s, Calls(n)) == Run(mode, Apply(mode, s, Call), Calls(n - 1))
  {
    if n > 0 { assert Calls(n)[1..] == Calls(n - 1); }
  }

  lemma {:induction false} IdleCalls(mode: Mode, s: State, n: nat)
    requires |s.versions| > 0 && s.todo == []
    ensures Run(mode, s, Calls(n)) == s
  {
    CallsNext(mode, s, n);
    if n > 0 { IdleCalls(mode, s, n - 1); }
  }

  /** What is made and what is taken away by calls that only do that. */
  function Made(todo: seq<Call>): set<Resource> { set c | c in todo && c.Ensure? :: c.r }

  function Taken(todo: seq<Call>): set<Resource> { set c | c in todo && c.Remove? :: c.r }

  /** Either only creations or only removals. */
  predicate OneKind(todo: seq<Call>) {
    (forall c :: c in todo ==> c.Ensure?) || (forall c :: c in todo ==> c.Remove?)
  }

  lemma HeadCall(resources: set<Resource>, head: Call, tail: seq<Call>)
    requires OneKind([head] + tail)
    ensures OneKind(tail) && (head.Ensure? || head.Remove?)
    ensures (if head.Ensure? then resources + {head.r} else resources - {head.r}) + Made(tail) - Taken(tail)
            == resources + Made([head] + tail) - Taken([head] + tail)
  {
    assert head in [head] + tail && forall c :: c in [head] + tail <==> c == head || c in tail;
  }

  lemma {:induction false} CallsDo(mode: Mode, s: State, now: seq<Call>, later: seq<Call>, m: nat)
    requires |s.versions| > 0 && s.todo == now + later && OneKind(now) && |now| <= m
    ensures Run(mode, s, Calls(m))
            == Run(mode, s.(resources := s.resources + Made(now) - Taken(now), todo := later), Calls(m - |now|))
    decreases |now|
  {
    hide Made, Taken, OneKind;
    if now == [] {
      NothingCalled(s.resources);
      assert s.todo == later;
    } else {
      var head, tail := now[0], now[1..];
      assert now == [head] + tail && s.todo[1..] == tail + later && s.todo[0] == head;
      HeadCall(s.resources, head, tail);
      CallsNext(mode, s, m);
      CallsDo(mode, Apply(mode, s, Call), tail, later, m - 1);
    }
  }

  lemma NothingCalled(resources: set<Resource>)
    ensures resources + Made([]) - Taken([]) == resources
  {
  }

  /** One undisturbed reconcile of the current Cluster, by the Cluster's fields: a deletion takes away all that
      exists and then the finalizer; a suspended Cluster is left alone; without a bootstrap slot the finalizer
      goes, and with one it comes first; an expired slot loses its bootstrap resources, and only a slot that is
      not gets what the reconcile is about to make. */
  lemma ReconcileDoes(mode: Mode, s: State, work: Work, n: nat)
    requires |s.versions| > 0 && s.todo == [] && s.seen < |s.versions| && s.Current().present && n >= 7
    ensures var c, end := s.Current(), Run(mode, s, [Begin(|s.versions| - 1, work)] + Calls(n));
            && end.todo == []
            && end.resources == (if c.deleting then (if c.finalizer then {} else s.resources)
                                 else if c.suspended || !c.hasBootstrap || !c.finalizer then s.resources
                                 else if c.expired then s.resources - BOOTSTRAP_RESOURCES
                                 else if work.ProvisionBootstrap? then s.resources + BOOTSTRAP_RESOURCES
                                 else if work.RegisterCluster? then s.resources + CLUSTER_RESOURCES
                                 else s.resources)
            && end.Current().finalizer == (if c.deleting then false
                                           else if c.suspended then c.finalizer else c.hasBootstrap)
  {
    hide Run;
    var c, events := s.Current(), [Begin(|s.versions| - 1, work)] + Calls(n);
    var begun := s.(todo := Plan(c, work), seen := |s.versions| - 1);
    RunHead(mode, s, events);
    assert events[1..] == Calls(n);
    if c.deleting && c.finalizer {
      DeletionDoes(mode, begun, n);
    } else if !c.deleting && !c.suspended && c.hasBootstrap == c.finalizer && c.finalizer {
      hide Plan;
      LiveDoes(mode, begun, begun.todo, n);
    } else {
      CallsNext(mode, begun, n);
      IdleCalls(mode, Apply(mode, begun, Call), n - 1);
    }
  }

  lemma LiveDoes(mode: Mode, s: State, todo: seq<Call>, n: nat)
    requires |s.versions| > 0 && s.todo == todo && |todo| <= n
    requires todo == [] || todo == [Ensure(ClusterRole), Ensure(ClusterBinding)] || todo == BOOTSTRAP_CLEANUP
        || todo == [Ensure(ServiceAccount), Ensure(BootstrapRole), Ensure(BootstrapBinding), Ensure(KubeconfigSecret)]
    ensures Run(mode, s, Calls(n))
            == s.(todo := [], resources := if todo == [] then s.resources
                                           else if todo == BOOTSTRAP_CLEANUP then s.resources - BOOTSTRAP_RESOURCES
                                           else if |todo| == 2 then s.resources + CLUSTER_RESOURCES
                                           else s.resources + BOOTSTRAP_RESOURCES)
  {
    hide Run, Made, Taken;
    PlanResources(todo);
    assert todo + [] == todo;
    CallsDo(mode, s, todo, [], n);
    IdleCalls(mode, s.(resources := s.resources + Made(todo) - Taken(todo), todo := []), n - |todo|);
  }

  lemma RunHead(mode: Mode, s: State, events: seq<Event>)
    requires |s.versions| > 0 && events != []
    ensures Run(mode, s, events) == Run(mode, Apply(mode, s, events[0]), events[1..])
  {
  }

  lemma PlanResources(todo: seq<Call>)
    ensures todo == [] ==> OneKind(todo) && Made(todo) == {} && Taken(todo) == {}
    ensures todo == [Ensure(ClusterRole), Ensure(ClusterBinding)] ==>
              OneKind(todo) && Made(todo) == CLUSTER_RESOURCES && Taken(todo) == {}
    ensures todo == [Ensure(ServiceAccount), Ensure(BootstrapRole), Ensure(BootstrapBinding), Ensure(KubeconfigSecret)]
            ==> OneKind(todo) && Made(todo) == BOOTSTRAP_RESOURCES && Taken(todo) == {}
    ensures todo == BOOTSTRAP_CLEANUP ==> OneKind(todo) && Made(todo) == {} && Taken(todo) == BOOTSTRAP_RESOURCES
  {
    assert |todo| == 4 ==> todo[0] in todo && todo[1] in todo && todo[2] in todo && todo[3] in todo;
    assert |todo| == 2 ==> todo[0] in todo && todo[1] in todo;
  }

  lemma DeletionDoes(mode: Mode, s: State, n: nat)
    requires |s.versions| > 0 && s.Current().present && s.Current().finalizer && s.todo == FULL_CLEANUP && n >= 7
    ensures var end := Run(mode, s, Calls(n)); end.todo == [] && end.resources == {} && !end.Current().finalizer
  {
    hide Run;
    var now := FULL_CLEANUP[..6];
    assert s.todo == now + [ClearFinalizer];
    CleanupTakesAll(now);
    CallsDo(mode, s, now, [ClearFinalizer], n);
    var last := s.(resources := s.resources + Made(now) - Taken(now), todo := [ClearFinalizer]);
    assert last.resources == {};
    CallsNext(mode, last, n - 6);
    IdleCalls(mode, Apply(mode, last, Call), n - 7);
  }

  lemma CleanupTakesAll(todo: seq<Call>)
    requires todo == FULL_CLEANUP[..6]
    ensures OneKind(todo) && Made(todo) == {} && forall r: Resource :: r in Taken(todo)
  {
    assert todo == [Remove(KubeconfigSecret), Remove(ServiceAccount), Remove(BootstrapBinding), Remove(BootstrapRole),
        Remove(ClusterBinding), Remove(ClusterRole)];
    forall r: Resource
      ensures r in Taken(todo)
    {
      assert Remove(r) in todo ==> Remove(r).r in Taken(todo);
      match r {
        case KubeconfigSecret => assert todo[0] == Remove(r);
        case ServiceAccount => assert todo[1] == Remove(r);
        case BootstrapBinding => assert todo[2] == Remove(r);
        case BootstrapRole => assert todo[3] == Remove(r);
        case ClusterBinding => assert todo[4] == Remove(r);
        case ClusterRole => assert todo[5] == Remove(r);
      }
    }
  }
}
