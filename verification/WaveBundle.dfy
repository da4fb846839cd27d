/**
 The bundle generator: units grouped by wave, one Flux Kustomization per wave chained to the one
 before it, and the file layout. The chain delivers what the catalog check promises: a unit's
 dependencies are healthy before the unit's wave starts, or are in the same wave.
 */
module WaveBundle {
  import opened Wrappers
  import opened Text
  import opened SourceCatalog

  datatype Kustomization =
    Kustomization(name: string, path: string, waveLabel: string, healthChecks: seq<string>, dependsOn: seq<string>)

  // ---------------------------------------------------------------------------------------------
  // Numerals

  /** `%02d` of any integer: the sign takes one place of the width. */
  function WaveNumeral(w: int): string {
    if w < 0 then "-" + Decimal(-w) else Decimal2(w)
  }

  function WaveLabel(w: int): string {
    if w < 0 then "-" + Decimal(-w) else Decimal(w)
  }

  function ParseWave(s: string): int {
    if s != "" && s[0] == '-' then -ParseDecimal(s[1..]) else ParseDecimal(s)
  }

  lemma ParseOfNumeral(w: int)
    ensures ParseWave(WaveNumeral(w)) == w
  {
    hide Decimal, ParseDecimal;
    if w < 0 {
      assert WaveNumeral(w)[1..] == Decimal(-w);
      ParseOfDecimal(-w);
    } else {
      assert IsDigit(WaveNumeral(w)[0]);
      ParseOfDecimal2(w);
    }
  }

  lemma NumeralHasNoSlash(w: int)
    ensures forall i :: 0 <= i < |WaveNumeral(w)| ==> WaveNumeral(w)[i] != '/'
  {
  }

  function WaveName(kapro: string, w: int): string { kapro + "-wave-" + WaveNumeral(w) }

  lemma WaveNameInjective(kapro: string, v: int, w: int)
    requires WaveName(kapro, v) == WaveName(kapro, w)
    ensures v == w
  {
    var n := |kapro + "-wave-"|;
    assert WaveName(kapro, v)[n..] == WaveNumeral(v) && WaveName(kapro, w)[n..] == WaveNumeral(w);
    ParseOfNumeral(v);
    ParseOfNumeral(w);
  }

  // ---------------------------------------------------------------------------------------------
  // Grouping and sorting

  function UnitsOf(us: seq<Unit>, w: int): seq<Unit> {
    if us == [] then []
    else
      var rest := UnitsOf(us[..|us| - 1], w);
      if us[|us| - 1].wave == w then rest + [us[|us| - 1]] else rest
  }

  function WaveSet(us: seq<Unit>): set<int> { set i | 0 <= i < |us| :: us[i].wave }

  predicate Increasing(ws: seq<int>) { forall i, j :: 0 <= i < j < |ws| ==> ws[i] < ws[j] }

  ghost predicate IsWaveOrder(ws: seq<int>, us: seq<Unit>) {
    Increasing(ws) && forall w :: w in ws <==> w in WaveSet(us)
  }

  /** There is one increasing order of a set, so the sort and the map's iteration order do not matter. */
  lemma {:induction false} IncreasingUnique(a: seq<int>, b: seq<int>)
    requires Increasing(a) && Increasing(b) && forall w :: w in a <==> w in b
    ensures a == b
  {
    assert a != [] ==> a[0] in a && a[0] in b;
    assert b != [] ==> b[0] in b && b[0] in a;
    if a != [] && b != [] {
      TailMembers(a);
      TailMembers(b);
      IncreasingUnique(a[1..], b[1..]);
      assert a == [a[0]] + a[1..] && b == [b[0]] + b[1..];
    }
  }

  lemma TailMembers(a: seq<int>)
    requires Increasing(a) && a != []
    ensures Increasing(a[1..]) && forall w :: w in a[1..] <==> w in a && w != a[0]
  {
  }

  lemma WaveOrderUnique(us: seq<Unit>, a: seq<int>, b: seq<int>)
    requires IsWaveOrder(a, us) && IsWaveOrder(b, us)
    ensures a == b
  {
    IncreasingUnique(a, b);
  }

  method GroupByWave(us: seq<Unit>) returns (waves: map<int, seq<Unit>>)
    ensures waves.Keys == WaveSet(us)
    ensures forall w :: w in waves ==> waves[w] == UnitsOf(us, w)
  {
    waves := map[];
    for i := 0 to |us|
      invariant waves.Keys == WaveSet(us[..i])
      invariant forall w :: w in waves ==> waves[w] == UnitsOf(us[..i], w)
    {
      var comp := us[i];
      assert us[..i + 1][..i] == us[..i] && us[..i + 1][i] == comp;
      if comp.wave !in waves {
        NoUnitsOf(us[..i], comp.wave);
      }
      waves := waves[comp.wave := (if comp.wave in waves then waves[comp.wave] else []) + [comp]];
      assert WaveSet(us[..i + 1]) == WaveSet(us[..i]) + {comp.wave};
    }
    assert us[..|us|] == us;
  }

  lemma {:induction false} NoUnitsOf(us: seq<Unit>, w: int)
    requires w !in WaveSet(us)
    ensures UnitsOf(us, w) == []
  {
    if us != [] {
      var init := us[..|us| - 1];
      assert us[|us| - 1].wave in WaveSet(us);
      assert forall i :: 0 <= i < |init| ==> init[i] == us[i];
      NoUnitsOf(init, w);
    }
  }

  /** The in-place sort, one insertion per key the map iteration yields. */
  method SortedWaveNumbers(waves: map<int, seq<Unit>>) returns (nums: seq<int>)
    ensures Increasing(nums) && forall w :: w in nums <==> w in waves
  {
    nums := [];
    var todo := waves.Keys;
    while todo != {}
      invariant todo <= waves.Keys && Increasing(nums)
      invariant forall w :: w in nums <==> w in waves && w !in todo
    {
      assert (forall n: int :: n !in todo) ==> todo == {};
      var n: int :| n in todo;
      nums := InsertWave(nums, n);
      todo := todo - {n};
    }
  }

  function InsertWave(ws: seq<int>, n: int): (r: seq<int>)
    requires Increasing(ws) && n !in ws
    ensures Increasing(r) && (forall w :: w in r <==> w in ws || w == n)
  {
    if ws == [] then [n]
    else if n < ws[0] then [n] + ws
    else
      var rest := InsertWave(ws[1..], n);
      assert forall i :: 0 <= i < |rest| ==> rest[i] in ws[1..] || rest[i] == n;
      [ws[0]] + rest
  }

  // ---------------------------------------------------------------------------------------------
  // The chain

  function NamesOf(us: seq<Unit>): seq<string> { seq(|us|, i requires 0 <= i < |us| => us[i].name) }

  function WaveK(kapro: string, us: seq<Unit>, ws: seq<int>, i: nat): Kustomization
    requires i < |ws|
  {
    Kustomization(WaveName(kapro, ws[i]), "./wave-" + WaveNumeral(ws[i]), WaveLabel(ws[i]),
                  NamesOf(UnitsOf(us, ws[i])), if i > 0 then [WaveName(kapro, ws[i - 1])] else [])
  }

  /** `ks` is the chain over the increasing order `ws` of the catalog's waves. */
  ghost predicate IsChain(kapro: string, us: seq<Unit>, ws: seq<int>, ks: seq<Kustomization>) {
    IsWaveOrder(ws, us) && |ks| == |ws| && forall i :: 0 <= i < |ks| ==> ks[i] == WaveK(kapro, us, ws, i)
  }

  method HealthChecks(comps: seq<Unit>) returns (healthChecks: seq<string>)
    ensures healthChecks == NamesOf(comps)
  {
    healthChecks := [];
    for c := 0 to |comps|
      invariant healthChecks == NamesOf(comps[..c])
    {
      healthChecks := healthChecks + [comps[c].name];
      assert comps[..c + 1] == comps[..c] + [comps[c]];
    }
    assert comps[..|comps|] == comps;
  }

  method WaveKustomizations(kapro: string, app: Source) returns (ks: seq<Kustomization>, sorted: seq<int>)
    ensures IsChain(kapro, app.units, sorted, ks)
  {
    hide UnitsOf, NamesOf, WaveNumeral, WaveLabel, WaveSet;
    var waves := GroupByWave(app.units);
    sorted := SortedWaveNumbers(waves);
    ks := [];
    for i := 0 to |sorted|
      invariant |ks| == i && forall j :: 0 <= j < i ==> ks[j] == WaveK(kapro, app.units, sorted, j)
    {
      var waveNum := sorted[i];
      assert waveNum in sorted;
      var comps := waves[waveNum];
      var healthChecks := HealthChecks(comps);
      var dependsOn := if i > 0 then [kapro + "-wave-" + WaveNumeral(sorted[i - 1])] else [];
      ks := ks + [Kustomization(kapro + "-wave-" + WaveNumeral(waveNum), "./wave-" + WaveNumeral(waveNum),
                                WaveLabel(waveNum), healthChecks, dependsOn)];
    }
  }

  /** Kustomization a names b in its dependsOn. */
  predicate DependsOn(ks: seq<Kustomization>, a: nat, b: nat)
    requires a < |ks| && b < |ks|
  {
    ks[b].name in ks[a].dependsOn
  }

  /** Names identify Kustomizations, and each depends exactly on its predecessor. */
  lemma SingleChain(kapro: string, us: seq<Unit>, ws: seq<int>, ks: seq<Kustomization>)
    requires IsChain(kapro, us, ws, ks)
    ensures forall a: nat, b: nat :: a < |ks| && b < |ks| && ks[a].name == ks[b].name ==> a == b
    ensures forall a: nat, b: nat :: a < |ks| && b < |ks| ==> (DependsOn(ks, a, b) <==> a == b + 1)
    ensures forall a :: 0 <= a < |ks| ==> |ks[a].dependsOn| == if a == 0 then 0 else 1
  {
    hide WaveName, UnitsOf, WaveNumeral, WaveLabel, NamesOf;
    forall a: nat, b: nat | a < |ws| && b < |ws| && WaveName(kapro, ws[a]) == WaveName(kapro, ws[b])
      ensures a == b
    {
      WaveNameInjective(kapro, ws[a], ws[b]);
    }
  }

  /** A path of dependsOn references. */
  predicate Path(ks: seq<Kustomization>, p: seq<nat>) {
    && p != []
    && (forall i :: 0 <= i < |p| ==> p[i] < |ks|)
    && (forall i :: 0 <= i < |p| - 1 ==> DependsOn(ks, p[i], p[i + 1]))
  }

  /** b is a itself or is transitively depended on by a. */
  ghost predicate Reaches(ks: seq<Kustomization>, a: nat, b: nat) {
    exists p: seq<nat> :: Path(ks, p) && p[0] == a && p[|p| - 1] == b
  }

  lemma {:induction false} PathDescends(kapro: string, us: seq<Unit>, ws: seq<int>, ks: seq<Kustomization>, p: seq<nat>)
    requires IsChain(kapro, us, ws, ks) && Path(ks, p)
    ensures p[|p| - 1] <= p[0]
  {
    hide WaveK;
    if |p| > 1 {
      SingleChain(kapro, us, ws, ks);
      assert DependsOn(ks, p[0], p[0 + 1]);
      var q := p[1..];
      assert forall i :: 0 <= i < |q| - 1 ==> q[i] == p[i + 1] && DependsOn(ks, p[i + 1], p[i + 1 + 1]);
      PathDescends(kapro, us, ws, ks, q);
    }
  }

  lemma ReachesIff(kapro: string, us: seq<Unit>, ws: seq<int>, ks: seq<Kustomization>, a: nat, b: nat)
    requires IsChain(kapro, us, ws, ks) && a < |ks| && b < |ks|
    ensures Reaches(ks, a, b) <==> b <= a
  {
    hide WaveK;
    if b <= a {
      SingleChain(kapro, us, ws, ks);
      var p := seq(a - b + 1, i requires 0 <= i < a - b + 1 => (a - i) as nat);
      assert Path(ks, p) && p[0] == a && p[|p| - 1] == b;
    }
    if Reaches(ks, a, b) {
      var p: seq<nat> :| Path(ks, p) && p[0] == a && p[|p| - 1] == b;
      PathDescends(kapro, us, ws, ks, p);
    }
  }

  // ---------------------------------------------------------------------------------------------
  // Units and their health checks

  lemma {:induction false} UnitsOfMembers(us: seq<Unit>, w: int)
    ensures forall u :: u in UnitsOf(us, w) <==> u in us && u.wave == w
  {
    if us != [] {
      UnitsOfMembers(us[..|us| - 1], w);
      assert us == us[..|us| - 1] + [us[|us| - 1]];
    }
  }

  lemma {:induction false} UnitsOfDistinct(us: seq<Unit>, w: int)
    requires DistinctUnits(us)
    ensures DistinctUnits(UnitsOf(us, w))
  {
    if us != [] {
      var init, last := us[..|us| - 1], us[|us| - 1];
      UnitsOfDistinct(init, w);
      UnitsOfMembers(init, w);
      var rest := UnitsOf(init, w);
      forall i | 0 <= i < |rest| ensures rest[i].name != last.name {
        assert rest[i] in init;
      }
    }
  }

  /** The position of a unit's wave in the chain. */
  lemma WaveIndex(us: seq<Unit>, ws: seq<int>, i: nat) returns (k: nat)
    requires IsWaveOrder(ws, us) && i < |us|
    ensures k < |ws| && ws[k] == us[i].wave
  {
    assert us[i].wave in WaveSet(us);
    k :| k < |ws| && ws[k] == us[i].wave;
  }

  /** How often a name occurs among the health checks of the whole chain, as (Kustomization, position) pairs. */
  function CheckSites(ks: seq<Kustomization>, name: string): set<(nat, nat)> {
    set k: nat, c: nat | k < |ks| && c < |ks[k].healthChecks| && ks[k].healthChecks[c] == name :: (k, c)
  }

  /** Every unit is health-checked exactly once in the whole chain, by its own wave's Kustomization. */
  lemma HealthCheckedOnce(kapro: string, us: seq<Unit>, ws: seq<int>, ks: seq<Kustomization>, i: nat)
    requires IsChain(kapro, us, ws, ks) && DistinctUnits(us) && i < |us|
    ensures exists k: nat, c: nat :: k < |ks| && ws[k] == us[i].wave && CheckSites(ks, us[i].name) == {(k, c)}
  {
    hide WaveName, UnitsOf, WaveNumeral, WaveLabel;
    var name := us[i].name;
    var k := WaveIndex(us, ws, i);
    UnitsOfMembers(us, us[i].wave);
    var own := UnitsOf(us, us[i].wave);
    assert us[i] in own;
    var c: nat :| c < |own| && own[c] == us[i];
    assert ks[k] == WaveK(kapro, us, ws, k);
    assert ks[k].healthChecks[c] == name;
    forall k2: nat, c2: nat | k2 < |ks| && c2 < |ks[k2].healthChecks| && ks[k2].healthChecks[c2] == name
      ensures k2 == k && c2 == c
    {
      assert ks[k2] == WaveK(kapro, us, ws, k2);
      var group := UnitsOf(us, ws[k2]);
      UnitsOfMembers(us, ws[k2]);
      assert group[c2] in us && group[c2].name == name;
      SameName(us, us[i], group[c2]);
      assert ws[k2] == ws[k];
      UnitsOfDistinct(us, ws[k]);
    }
    assert CheckSites(ks, name) == {(k, c)};
  }

  lemma SameName(us: seq<Unit>, a: Unit, b: Unit)
    requires DistinctUnits(us) && a in us && b in us && a.name == b.name
    ensures a == b
  {
  }

  // ---------------------------------------------------------------------------------------------
  // Dependencies and waves

  /** For every dependency, the wave that carries it is the unit's own or one its Kustomization waits for. */
  ghost predicate ChainHonours(us: seq<Unit>, ws: seq<int>, ks: seq<Kustomization>) {
    forall i: nat, j: nat, a: nat, b: nat ::
      i < |us| && j < |us| && a < |ws| && b < |ws| && us[i].wave == ws[a] && us[j].wave == ws[b] && Edge(us, i, j)
      ==> Reaches(ks, a, b)
  }

  /** The catalog's wave rule is exactly what the generated chain needs to honour every dependency. */
  lemma ChainHonoursIff(kapro: string, us: seq<Unit>, ws: seq<int>, ks: seq<Kustomization>)
    requires IsChain(kapro, us, ws, ks)
    ensures ChainHonours(us, ws, ks) <==> DependenciesEarlier(us)
  {
    hide WaveK, Reaches, Edge;
    forall i: nat, j: nat, a: nat, b: nat
      | i < |us| && j < |us| && a < |ws| && b < |ws| && us[i].wave == ws[a] && us[j].wave == ws[b] && Edge(us, i, j)
      ensures Reaches(ks, a, b) <==> us[j].wave <= us[i].wave
    {
      ReachesIff(kapro, us, ws, ks, a, b);
    }
    if ChainHonours(us, ws, ks) {
      forall i: nat, j: nat | i < |us| && j < |us| && Edge(us, i, j)
        ensures us[j].wave <= us[i].wave
      {
        var a := WaveIndex(us, ws, i);
        var b := WaveIndex(us, ws, j);
      }
    }
  }

  /** An order in which Flux may make Kustomizations ready: each only after everything it depends on. */
  predicate Rollout(ks: seq<Kustomization>, run: seq<nat>) {
    && (forall t :: 0 <= t < |run| ==> run[t] < |ks|)
    && (forall t, d :: 0 <= t < |run| && 0 <= d < |ks[run[t]].dependsOn| ==>
         ReadyBefore(ks, run, t, ks[run[t]].dependsOn[d]))
  }

  predicate ReadyBefore(ks: seq<Kustomization>, run: seq<nat>, t: nat, name: string)
    requires t < |run| && forall s :: 0 <= s < |run| ==> run[s] < |ks|
  {
    exists s :: 0 <= s < t && ks[run[s]].name == name
  }

  /** In every rollout a wave becomes ready only after every earlier wave. */
  lemma {:induction false} EarlierWavesFirst(kapro: string, us: seq<Unit>, ws: seq<int>, ks: seq<Kustomization>,
                                             run: seq<nat>, t: nat, b: nat)
    returns (s: nat)
    requires IsChain(kapro, us, ws, ks) && Rollout(ks, run) && t < |run| && b < run[t]
    ensures s < t && run[s] == b
    decreases run[t]
  {
    hide WaveK, WaveName;
    SingleChain(kapro, us, ws, ks);
    var a := run[t];
    assert DependsOn(ks, a, a - 1);
    assert ks[a].dependsOn[0] == ks[a - 1].name;
    assert ReadyBefore(ks, run, t, ks[a].dependsOn[0]);
    s :| s < t && ks[run[s]].name == ks[a - 1].name;
    assert run[s] == a - 1;
    if b < a - 1 {
      s := EarlierWavesFirst(kapro, us, ws, ks, run, s, b);
    }
  }

  /** In every rollout of a valid catalog a dependency in another wave is ready before its dependent. */
  lemma DependenciesRollOutFirst(kapro: string, app: Source, ws: seq<int>, ks: seq<Kustomization>,
                                 run: seq<nat>, t: nat, i: nat, j: nat)
    requires WellFormed(app) && IsChain(kapro, app.units, ws, ks) && Rollout(ks, run)
    requires i < |app.units| && j < |app.units| && Edge(app.units, i, j)
    requires t < |run| && ws[run[t]] == app.units[i].wave
    ensures exists s: nat :: s <= t && (app.units[j].wave < app.units[i].wave ==> s < t)
              && app.units[j].name in ks[run[s]].healthChecks
  {
    hide WaveK, WaveName;
    var b := WaveIndex(app.units, ws, j);
    assert ws[b] <= ws[run[t]];
    var s := t;
    if b != run[t] {
      s := EarlierWavesFirst(kapro, app.units, ws, ks, run, t, b);
    }
    CheckedByItsWave(kapro, app.units, ws, ks, j, b);
  }

  lemma CheckedByItsWave(kapro: string, us: seq<Unit>, ws: seq<int>, ks: seq<Kustomization>, j: nat, b: nat)
    requires IsChain(kapro, us, ws, ks) && j < |us| && b < |ks| && ws[b] == us[j].wave
    ensures us[j].name in ks[b].healthChecks
  {
    UnitsOfMembers(us, ws[b]);
    var group := UnitsOf(us, ws[b]);
    assert us[j] in group;
    var c: nat :| c < |group| && group[c] == us[j];
    assert ks[b] == WaveK(kapro, us, ws, b);
    assert ks[b].healthChecks[c] == us[j].name;
  }

  // ---------------------------------------------------------------------------------------------
  // The file layout

  /** What a file of the bundle holds, before rendering. */
  datatype Manifest = HelmRepository(registry: Registry) | HelmRelease(unit: Unit)

  function FilePath(w: int, file: string): string { "wave-" + WaveNumeral(w) + "/" + file + ".yaml" }
  function RegistryFile(r: Registry): string { "helmrepository-" + r.name }
  function UnitFile(u: Unit): string { u.name + "-hr" }
  function RegistryPath(w: int, r: Registry): string { FilePath(w, RegistryFile(r)) }
  function UnitPath(u: Unit): string { FilePath(u.wave, UnitFile(u)) }

  /** The file at a path: the last unit written there, else the last registry. */
  predicate FileAt(app: Source, first: int, m: map<string, Manifest>, path: string) {
    path in m &&
    match m[path]
    case HelmRelease(u) => u in app.units && UnitPath(u) == path
    case HelmRepository(r) =>
      r in app.registries && RegistryPath(first, r) == path && forall u :: u in app.units ==> UnitPath(u) != path
  }

  /** Nothing is in the bundle but the catalog's registries and units. The source panics on a catalog without units. */
  method Generate(app: Source) returns (bundle: Option<map<string, Manifest>>, first: int)
    ensures bundle.None? <==> app.units == []
    ensures bundle.Some? ==> first in WaveSet(app.units) && forall w :: w in WaveSet(app.units) ==> first <= w
    ensures bundle.Some? ==>
      && (forall p :: p in bundle.value <==>
           ((exists r :: r in app.registries && RegistryPath(first, r) == p)
             || (exists u :: u in app.units && UnitPath(u) == p)))
      && (forall p :: p in bundle.value ==> FileAt(app, first, bundle.value, p))
  {
    var waves := GroupByWave(app.units);
    var nums := SortedWaveNumbers(waves);
    if app.units != [] {
      assert app.units[0].wave in waves && app.units[0].wave in nums;
    }
    if nums == [] {
      return None, 0;
    }
    first := nums[0];
    assert first in nums;
    var m := RegistryFiles(app.registries, first);
    m := AddUnitFiles(app.units, m);
    hide FilePath, RegistryPath, UnitPath;
    bundle := Some(m);
  }

  method RegistryFiles(rs: seq<Registry>, first: int) returns (m: map<string, Manifest>)
    ensures forall p :: p in m <==> exists j :: 0 <= j < |rs| && RegistryPath(first, rs[j]) == p
    ensures forall p :: p in m ==>
              m[p].HelmRepository? && m[p].registry in rs && RegistryPath(first, m[p].registry) == p
  {
    hide RegistryPath;
    m := map[];
    for i := 0 to |rs|
      invariant forall p :: p in m <==> exists j :: 0 <= j < i && RegistryPath(first, rs[j]) == p
      invariant forall p :: p in m ==>
                  m[p].HelmRepository? && m[p].registry in rs && RegistryPath(first, m[p].registry) == p
    {
      m := m[RegistryPath(first, rs[i]) := HelmRepository(rs[i])];
    }
  }

  method AddUnitFiles(us: seq<Unit>, repos: map<string, Manifest>) returns (m: map<string, Manifest>)
    requires forall p :: p in repos ==> repos[p].HelmRepository?
    ensures forall p :: p in m <==> p in repos || exists j :: 0 <= j < |us| && UnitPath(us[j]) == p
    ensures forall p :: p in m && m[p].HelmRelease? ==> m[p].unit in us && UnitPath(m[p].unit) == p
    ensures forall p :: p in m && m[p].HelmRepository? ==> p in repos && m[p] == repos[p]
    ensures forall p, j :: p in m && m[p].HelmRepository? && 0 <= j < |us| ==> UnitPath(us[j]) != p
  {
    hide UnitPath;
    m := repos;
    for i := 0 to |us|
      invariant forall p :: p in m <==> p in repos || exists j :: 0 <= j < i && UnitPath(us[j]) == p
      invariant forall p :: p in m && m[p].HelmRelease? ==> m[p].unit in us && UnitPath(m[p].unit) == p
      invariant forall p :: p in m && m[p].HelmRepository? ==> p in repos && m[p] == repos[p]
      invariant forall p, j :: p in m && m[p].HelmRepository? && 0 <= j < i ==> UnitPath(us[j]) != p
    {
      m := m[UnitPath(us[i]) := HelmRelease(us[i])];
    }
  }

  lemma {:induction false} SplitAtSlash(a: string, x: string, b: string, y: string)
    requires forall i :: 0 <= i < |a| ==> a[i] != '/'
    requires forall i :: 0 <= i < |b| ==> b[i] != '/'
    requires a + "/" + x == b + "/" + y
    ensures a == b && x == y
  {
    var s, t := a + "/" + x, b + "/" + y;
    assert s[|a|] == '/' && t[|b|] == '/';
    assert forall i :: 0 <= i < |a| ==> s[i] == a[i];
    assert forall i :: 0 <= i < |b| ==> t[i] == b[i];
    assert s[|a| + 1..] == x && t[|b| + 1..] == y;
  }

  lemma FilePathInjective(v: int, x: string, w: int, y: string)
    requires FilePath(v, x) == FilePath(w, y)
    ensures v == w && x == y
  {
    hide WaveNumeral;
    NumeralHasNoSlash(v);
    NumeralHasNoSlash(w);
    assert FilePath(v, x)[5..] == WaveNumeral(v) + "/" + (x + ".yaml");
    assert FilePath(w, y)[5..] == WaveNumeral(w) + "/" + (y + ".yaml");
    SplitAtSlash(WaveNumeral(v), x + ".yaml", WaveNumeral(w), y + ".yaml");
    ParseOfNumeral(v);
    ParseOfNumeral(w);
    assert (x + ".yaml")[..|x|] == x && (y + ".yaml")[..|y|] == y;
  }

  /** The files under a Kustomization's path are exactly those of its own wave, and its label is the wave. */
  lemma PathServesItsWave(kapro: string, us: seq<Unit>, ws: seq<int>, ks: seq<Kustomization>, k: nat, w: int,
                          file: string)
    requires IsChain(kapro, us, ws, ks) && k < |ks|
    ensures HasPrefix("./" + FilePath(w, file), ks[k].path + "/") <==> w == ws[k]
    ensures ParseWave(ks[k].waveLabel) == ws[k]
    ensures 0 <= ws[k] < 10 ==> |ks[k].path| == 9 && ks[k].path[..8] == "./wave-0"
  {
    if 0 <= ws[k] < 10 { TwoDigits(ws[k]); }
    hide WaveNumeral, FilePath, UnitsOf, NamesOf, IsWaveOrder, Decimal, ParseDecimal;
    assert ks[k] == WaveK(kapro, us, ws, k);
    NumeralHasNoSlash(w);
    NumeralHasNoSlash(ws[k]);
    UnderPath(w, file, ws[k]);
    ParseOfLabel(ws[k]);
    if HasPrefix("./" + FilePath(w, file), ks[k].path + "/") {
      ParseOfNumeral(w);
      ParseOfNumeral(ws[k]);
    }
  }

  lemma TwoDigits(w: int)
    requires 0 <= w < 10
    ensures |WaveNumeral(w)| == 2 && WaveNumeral(w)[0] == '0'
  {
  }

  lemma ParseOfLabel(w: int)
    ensures ParseWave(WaveLabel(w)) == w
  {
    hide Decimal, ParseDecimal;
    if w < 0 {
      assert WaveLabel(w)[1..] == Decimal(-w);
      ParseOfDecimal(-w);
    } else {
      assert IsDigit(WaveLabel(w)[0]);
      ParseOfDecimal(w);
    }
  }

  lemma UnderPath(w: int, file: string, v: int)
    ensures HasPrefix("./" + FilePath(w, file), "./wave-" + WaveNumeral(v) + "/") <==> WaveNumeral(w) == WaveNumeral(v)
  {
    hide WaveNumeral;
    NumeralHasNoSlash(w);
    NumeralHasNoSlash(v);
    var a, b, rest := WaveNumeral(w), WaveNumeral(v), file + ".yaml";
    var path, dir := "./" + FilePath(w, file), "./wave-" + b + "/";
    assert path == "./wave-" + a + "/" + rest;
    assert path[7..] == a + "/" + rest && dir[7..] == b + "/";
    if HasPrefix(path, dir) {
      assert path == dir + path[|dir|..];
      assert a + "/" + rest == b + "/" + path[|dir|..];
      SplitAtSlash(a, rest, b, path[|dir|..]);
    }
    if a == b { assert path[..|dir|] == dir; }
  }

  /** The catalog's names collide: a unit of the first wave is filed under a registry's name. */
  predicate Clash(app: Source, first: int) {
    exists r, u :: r in app.registries && u in app.units && u.wave == first && RegistryFile(r) == UnitFile(u)
  }

  /** No file of the bundle is lost exactly when no registry's file name is that of a first-wave unit. */
  lemma NothingOverwrittenIff(app: Source, first: int, m: map<string, Manifest>)
    requires DistinctRegistries(app.registries) && DistinctUnits(app.units)
    requires forall r :: r in app.registries ==> FileAt(app, first, m, RegistryPath(first, r))
    requires forall u :: u in app.units ==> FileAt(app, first, m, UnitPath(u))
    ensures forall u :: u in app.units ==> UnitPath(u) in m && m[UnitPath(u)] == HelmRelease(u)
    ensures (forall r :: r in app.registries ==>
              RegistryPath(first, r) in m && m[RegistryPath(first, r)] == HelmRepository(r)) <==> !Clash(app, first)
  {
    hide FilePath, WaveNumeral;
    forall u | u in app.units ensures m[UnitPath(u)] == HelmRelease(u) {
      var other := m[UnitPath(u)].unit;
      FilePathInjective(u.wave, UnitFile(u), other.wave, UnitFile(other));
      assert UnitFile(u)[..|u.name|] == u.name && UnitFile(other)[..|other.name|] == other.name;
      SameName(app.units, u, other);
    }
    forall r | r in app.registries
      ensures m[RegistryPath(first, r)] == HelmRepository(r) <==>
              !exists u :: u in app.units && u.wave == first && RegistryFile(r) == UnitFile(u)
    {
      OneRegistryFile(app, first, m, r);
    }
  }

  lemma OneRegistryFile(app: Source, first: int, m: map<string, Manifest>, r: Registry)
    requires DistinctRegistries(app.registries) && r in app.registries
    requires FileAt(app, first, m, RegistryPath(first, r))
    ensures m[RegistryPath(first, r)] == HelmRepository(r) <==>
            !exists u :: u in app.units && u.wave == first && RegistryFile(r) == UnitFile(u)
  {
    hide FilePath, WaveNumeral;
    match m[RegistryPath(first, r)]
    case HelmRelease(u) =>
      FilePathInjective(first, RegistryFile(r), u.wave, UnitFile(u));
    case HelmRepository(s) =>
      FilePathInjective(first, RegistryFile(r), first, RegistryFile(s));
      assert RegistryFile(r)[15..] == r.name && RegistryFile(s)[15..] == s.name;
      forall u | u in app.units && u.wave == first ensures RegistryFile(r) != UnitFile(u) {
        assert UnitPath(u) != RegistryPath(first, r);
      }
  }

  /** A valid catalog whose registry file is overwritten. */
  lemma ClashExample()
    ensures
      var app := Source([Unit("helmrepository-foo", "1", 0, "", [])], [Registry("foo-hr", "https://x", "")], None);
      WellFormed(app) && Clash(app, 0)
  {
    var u := Unit("helmrepository-foo", "1", 0, "", []);
    var r := Registry("foo-hr", "https://x", "");
    var app := Source([u], [r], None);
    assert u in app.units && r in app.registries;
    assert RegistryFile(r) == UnitFile(u);
  }
}
