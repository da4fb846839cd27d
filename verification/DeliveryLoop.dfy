/**
 The spoke delivery loop: what each tick writes into the Cluster's status maps, and what every run of
 ticks keeps in `status.currentVersions`.
 */
module DeliveryLoop {

  datatype DeliveryPhase = Applying | Converged | Failed | Skipped | OtherPhase(name: string)

  datatype ClusterSpec = ClusterSpec(suspended: bool, desiredVersions: map<string, string>, desiredVersion: string,
                                     desiredAppKey: string)

  datatype ExecutionMode = SpokePull | HubPush | ExternalPull

  /** What resolving the substrate and its provider gives; `results` are the phases an arbitrary provider
      would report per app. */
  datatype Substrate =
    | SubstrateError
    | SubstrateAbsent
    | Profile(mode: ExecutionMode, hasRegistry: bool, hasProvider: bool, results: map<string, DeliveryPhase>)

  datatype Entry = Entry(phase: DeliveryPhase, desiredVersion: string)

  datatype Status = Status(currentVersions: map<string, string>, delivery: map<string, Entry>)

  /** Everything outside the loop that decides one tick: the hub read, the spec it returned, the
      substrate, and whether the status patch landed. */
  datatype Tick = Tick(hubReachable: bool, spec: ClusterSpec, substrate: Substrate, patched: bool)

  /** `base` with the entries of `src` written over it at `keys`. */
  function Overlay<T>(base: map<string, T>, src: map<string, T>, keys: set<string>): map<string, T>
    requires keys <= src.Keys
  {
    map k | k in base.Keys + keys :: if k in keys then src[k] else base[k]
  }

  lemma OverlayOne<T>(base: map<string, T>, src: map<string, T>, keys: set<string>, k: string)
    requires keys <= src.Keys && k in src
    ensures Overlay(base, src, keys + {k}) == Overlay(base, src, keys)[k := src[k]]
  {
  }

  lemma OverlayNone<T>(base: map<string, T>, src: map<string, T>)
    ensures Overlay(base, src, {}) == base
  {
  }

  function Legacy(spec: ClusterSpec): map<string, string> {
    if spec.desiredVersion == "" then map[]
    else map[(if spec.desiredAppKey == "" then "default" else spec.desiredAppKey) := spec.desiredVersion]
  }

  function WishedKeys(spec: ClusterSpec): set<string> {
    set k | k in spec.desiredVersions && spec.desiredVersions[k] != ""
  }

  /** The map form wins over the legacy pair; empty versions are no wish at all. */
  function Desired(spec: ClusterSpec): map<string, string> {
    Overlay(Legacy(spec), spec.desiredVersions, WishedKeys(spec))
  }

  method LegacyPair(spec: ClusterSpec) returns (out: map<string, string>)
    ensures out == Legacy(spec)
  {
    out := map[];
    if spec.desiredVersion != "" {
      var key := spec.desiredAppKey;
      if key == "" {
        key := "default";
      }
      out := out[key := spec.desiredVersion];
    }
  }

  method MergedDesiredVersions(spec: ClusterSpec) returns (out: map<string, string>)
    ensures out == Desired(spec)
  {
    hide Overlay;
    out := LegacyPair(spec);
    OverlayNone(out, spec.desiredVersions);
    var todo := spec.desiredVersions.Keys;
    ghost var done: set<string> := {};
    while todo != {}
      invariant todo <= spec.desiredVersions.Keys && done == WishedKeys(spec) - todo
      invariant out == Overlay(Legacy(spec), spec.desiredVersions, done)
      decreases |todo|
    {
      var k :| k in todo;
      todo := todo - {k};
      if spec.desiredVersions[k] != "" {
        OverlayOne(Legacy(spec), spec.desiredVersions, done, k);
        out := out[k := spec.desiredVersions[k]];
        done := done + {k};
      }
    }
    assert done == WishedKeys(spec);
  }

  /** The phase one app ends a tick with; errors and foreign execution modes never converge it. */
  function AppPhase(substrate: Substrate, app: string): DeliveryPhase {
    match substrate
    case SubstrateError => Failed
    case SubstrateAbsent => Failed
    case Profile(mode, hasRegistry, hasProvider, results) =>
      if mode == HubPush || mode == ExternalPull then Skipped
      else if !hasRegistry || !hasProvider then Failed
      else if app in results then results[app] else OtherPhase("")
  }

  function Results(t: Tick): map<string, DeliveryPhase> {
    map app | app in Desired(t.spec) :: if t.spec.suspended then Skipped else AppPhase(t.substrate, app)
  }

  function ConvergedKeys(results: map<string, DeliveryPhase>): set<string> {
    set app | app in results && results[app] == Converged
  }

  function Entries(results: map<string, DeliveryPhase>, desired: map<string, string>): map<string, Entry>
    requires results.Keys <= desired.Keys
  {
    map app | app in results :: Entry(results[app], desired[app])
  }

  function Written(s: Status, results: map<string, DeliveryPhase>, desired: map<string, string>): Status
    requires results.Keys <= desired.Keys
  {
    Status(Overlay(s.currentVersions, desired, ConvergedKeys(results)),
        Overlay(s.delivery, Entries(results, desired), results.Keys))
  }

  function TickStatus(s: Status, t: Tick): Status {
    if !t.hubReachable || Desired(t.spec) == map[] || !t.patched then s else Written(s, Results(t), Desired(t.spec))
  }

  function Run(s: Status, ticks: seq<Tick>): Status {
    if ticks == [] then s else TickStatus(Run(s, ticks[..|ticks| - 1]), ticks[|ticks| - 1])
  }

  /** The Cluster status on the hub, as the spoke writes it. */
  class Spoke {
    var currentVersions: map<string, string>
    var delivery: map<string, Entry>

    function View(): Status reads this { Status(currentVersions, delivery) }

    /** Folds the results into the copy and patches; a failed patch leaves the hub as it was. */
    method WriteStatus(results: map<string, DeliveryPhase>, desired: map<string, string>, patched: bool)
      returns (ok: bool)
      requires results.Keys <= desired.Keys
      modifies this
      ensures ok == patched
      ensures View() == if patched then Written(old(View()), results, desired) else old(View())
    {
      var versions := CollectVersions(currentVersions, results, desired);
      var entries := CollectEntries(delivery, results, desired);
      if patched {
        currentVersions, delivery := versions, entries;
      }
      ok := patched;
    }

    method RunTick(t: Tick) returns (ok: bool)
      modifies this
      ensures View() == TickStatus(old(View()), t)
      ensures ok <==> t.hubReachable && (t.spec.suspended || t.patched || forall app, v :: !Wishes(t.spec, app, v))
    {
      if !t.hubReachable {
        return false;
      }
      var desired := MergedDesiredVersions(t.spec);
      forall app, v ensures app in desired && desired[app] == v <==> Wishes(t.spec, app, v) {
        DesiredIff(t.spec, app, v);
      }
      if |desired| == 0 {
        return true;
      }
      ghost var wished: string :| wished in desired.Keys;
      assert Wishes(t.spec, wished, desired[wished]);
      var results := ReconcileAll(t, desired);
      ok := WriteStatus(results, desired, t.patched);
      if t.spec.suspended {
        ok := true;
      }
    }
  }

  method CollectVersions(current: map<string, string>, results: map<string, DeliveryPhase>,
                         desired: map<string, string>)
    returns (versions: map<string, string>)
    requires results.Keys <= desired.Keys
    ensures versions == Overlay(current, desired, ConvergedKeys(results))
  {
    hide Overlay;
    versions := current;
    OverlayNone(current, desired);
    var todo := results.Keys;
    ghost var done: set<string> := {};
    while todo != {}
      invariant todo <= results.Keys && done == ConvergedKeys(results) - todo
      invariant versions == Overlay(current, desired, done)
      decreases |todo|
    {
      var app :| app in todo;
      todo := todo - {app};
      if results[app] == Converged {
        OverlayOne(current, desired, done, app);
        versions := versions[app := desired[app]];
        done := done + {app};
      }
    }
    assert done == ConvergedKeys(results);
  }

  method CollectEntries(current: map<string, Entry>, results: map<string, DeliveryPhase>, desired: map<string, string>)
    returns (entries: map<string, Entry>)
    requires results.Keys <= desired.Keys
    ensures entries == Overlay(current, Entries(results, desired), results.Keys)
  {
    hide Overlay;
    entries := current;
    OverlayNone(current, Entries(results, desired));
    var todo := results.Keys;
    assert results.Keys - todo == {};
    while todo != {}
      invariant todo <= results.Keys
      invariant entries == Overlay(current, Entries(results, desired), results.Keys - todo)
      decreases |todo|
    {
      var app :| app in todo;
      OverlayOne(current, Entries(results, desired), results.Keys - todo, app);
      assert results.Keys - (todo - {app}) == results.Keys - todo + {app};
      todo := todo - {app};
      entries := entries[app := Entry(results[app], desired[app])];
    }
    assert results.Keys - todo == results.Keys;
  }

  method ReconcileAll(t: Tick, desired: map<string, string>) returns (results: map<string, DeliveryPhase>)
    requires desired == Desired(t.spec)
    ensures results == Results(t)
  {
    hide Desired, AppPhase;
    results := map[];
    var todo := desired.Keys;
    while todo != {}
      invariant todo <= desired.Keys && results.Keys == desired.Keys - todo
      invariant forall app :: app in results ==> results[app] == Results(t)[app]
      decreases |todo|
    {
      var app :| app in todo;
      todo := todo - {app};
      results := results[app := if t.spec.suspended then Skipped else AppPhase(t.substrate, app)];
    }
  }

  // ---- What a tick does, on its inputs -------------------------------------------------------------

  /** The spec asks for version `v` of this app: in the map, or where the map has no version for it, in the
      legacy pair, whose key is "default" when it is empty. */
  predicate Wishes(spec: ClusterSpec, app: string, v: string) {
    && v != ""
    && (if app in spec.desiredVersions && spec.desiredVersions[app] != "" then spec.desiredVersions[app] == v
        else spec.desiredVersion == v && app == (if spec.desiredAppKey == "" then "default" else spec.desiredAppKey))
  }

  /** The wishes are exactly what the spec asks for. */
  lemma DesiredIff(spec: ClusterSpec, app: string, v: string)
    ensures app in Desired(spec) && Desired(spec)[app] == v <==> Wishes(spec, app, v)
  {
  }

  /** The tick is the spoke's to deliver: not suspended, and a spoke-pull profile with registry and provider. */
  predicate Delivers(t: Tick) {
    && !t.spec.suspended && t.substrate.Profile?
    && t.substrate.mode == SpokePull && t.substrate.hasRegistry && t.substrate.hasProvider
  }

  /** The tick lands a convergence of this app at version `v`. */
  predicate Lands(t: Tick, app: string, v: string) {
    && t.hubReachable && t.patched && Delivers(t) && Wishes(t.spec, app, v)
    && app in t.substrate.results && t.substrate.results[app] == Converged
  }

  /** Why a tick that runs ends with this phase for an app. */
  predicate Reports(t: Tick, app: string, phase: DeliveryPhase) {
    if t.spec.suspended then phase == Skipped
    else if !t.substrate.Profile? then phase == Failed
    else if t.substrate.mode != SpokePull then phase == Skipped
    else if !(t.substrate.hasRegistry && t.substrate.hasProvider) then phase == Failed
    else app in t.substrate.results ==> phase == t.substrate.results[app]
  }

  /** One tick moves an app's current version exactly when it lands a convergence of it, and then to the
      version it asked for. */
  lemma TickMoves(s: Status, t: Tick, app: string)
    ensures var v := TickStatus(s, t).currentVersions;
            && (forall w :: Lands(t, app, w) ==> app in v && v[app] == w)
            && ((forall w :: !Lands(t, app, w)) ==>
                 (app in v <==> app in s.currentVersions) && (app in v ==> v[app] == s.currentVersions[app]))
  {
    forall w ensures app in Desired(t.spec) && Desired(t.spec)[app] == w <==> Wishes(t.spec, app, w) {
      DesiredIff(t.spec, app, w);
    }
    var after := TickStatus(s, t).currentVersions;
    if app in Desired(t.spec) && t.hubReachable && t.patched && Results(t)[app] == Converged {
      assert after[app] == Desired(t.spec)[app];
      assert Lands(t, app, Desired(t.spec)[app]);
    }
  }

  /** A tick that reads the hub and lands its patch records phase and version of every app asked for, and
      touches no other entry. */
  lemma TickRecords(s: Status, t: Tick, app: string)
    ensures var d := TickStatus(s, t).delivery;
            && (forall w :: t.hubReachable && t.patched && Wishes(t.spec, app, w) ==>
                 app in d && d[app].desiredVersion == w && Reports(t, app, d[app].phase))
            && (!(t.hubReachable && t.patched) || (forall w :: !Wishes(t.spec, app, w)) ==>
                 (app in d <==> app in s.delivery) && (app in d ==> d[app] == s.delivery[app]))
  {
    forall w ensures app in Desired(t.spec) && Desired(t.spec)[app] == w <==> Wishes(t.spec, app, w) {
      DesiredIff(t.spec, app, w);
    }
    if app in Desired(t.spec) {
      assert Wishes(t.spec, app, Desired(t.spec)[app]);
    }
  }

  /** The last tick that landed a convergence of this app did so at version `v`. */
  ghost predicate LastLanding(ticks: seq<Tick>, app: string, i: int, v: string) {
    && 0 <= i < |ticks| && Lands(ticks[i], app, v)
    && forall j, w :: i < j < |ticks| ==> !Lands(ticks[j], app, w)
  }

  /** Over every run, with suspends, substrate errors, arbitrary provider results and failed patches,
      an app's current version is the one asked for at the last landed convergence. */
  lemma {:induction false} CurrentIsLastLanded(s: Status, ticks: seq<Tick>, app: string, i: int, v: string)
    requires LastLanding(ticks, app, i, v)
    ensures var now := Run(s, ticks).currentVersions; app in now && now[app] == v
  {
    hide TickStatus, Lands;
    var front, t := ticks[..|ticks| - 1], ticks[|ticks| - 1];
    TickMoves(Run(s, front), t, app);
    if i < |front| {
      assert forall j :: 0 <= j < |front| ==> front[j] == ticks[j];
      CurrentIsLastLanded(s, front, app, i, v);
    }
  }

  /** Without a landed convergence the entry is what it was, present or absent. */
  lemma {:induction false} CurrentUntouched(s: Status, ticks: seq<Tick>, app: string)
    requires forall j, w :: 0 <= j < |ticks| ==> !Lands(ticks[j], app, w)
    ensures var v := Run(s, ticks).currentVersions;
            (app in v <==> app in s.currentVersions) && (app in v ==> v[app] == s.currentVersions[app])
  {
    if ticks != [] {
      hide TickStatus, Lands;
      var front := ticks[..|ticks| - 1];
      assert forall j :: 0 <= j < |front| ==> front[j] == ticks[j];
      TickMoves(Run(s, front), ticks[|ticks| - 1], app);
      CurrentUntouched(s, front, app);
    }
  }
}
