/**
 The Source catalog and `Validate`: nested loops that collect every defect of a catalog. The errors
 reported are exactly the catalog's defects, and there are none exactly when it is well formed.
 */
module SourceCatalog {
  import opened Wrappers
  import opened Text

  datatype Unit = Unit(name: string, version: string, wave: int, repo: string, dependsOn: seq<string>)
  datatype Registry = Registry(name: string, url: string, kind: string)

  /** `defaultRepo` is None when the catalog has no defaults block. */
  datatype Source = Source(units: seq<Unit>, registries: seq<Registry>, defaultRepo: Option<string>)

  datatype Error =
    | NoUnits
    | NoRegistries
    | RegistryUnnamed
    | RegistryWithoutUrl(registry: string)
    | RegistryNotOci(registry: string)
    | DuplicateRegistry(registry: string)
    | UnitUnnamed
    | DuplicateUnit(unit: string)
    | UnitWithoutVersion(unit: string)
    | NegativeWave(unit: string, wave: int)
    | UnknownRegistry(unit: string, repo: string)
    | UnknownDependency(unit: string, dep: string)
    | LateDependency(unit: string, wave: int, dep: string, depWave: int)

  // ---------------------------------------------------------------------------------------------
  // What a well-formed catalog is

  predicate GoodRegistry(r: Registry) {
    r.name != "" && r.url != "" && (r.kind == "oci" ==> HasPrefix(r.url, "oci://"))
  }

  predicate DistinctRegistries(rs: seq<Registry>) {
    forall i, j :: 0 <= i < j < |rs| ==> rs[i].name != rs[j].name
  }

  predicate DistinctUnits(us: seq<Unit>) {
    forall i, j :: 0 <= i < j < |us| ==> us[i].name != us[j].name
  }

  function EffectiveRepo(app: Source, u: Unit): string {
    if u.repo == "" && app.defaultRepo.Some? then app.defaultRepo.value else u.repo
  }

  predicate HasRegistry(app: Source, name: string) {
    exists i :: 0 <= i < |app.registries| && app.registries[i].name == name
  }

  predicate RepoResolves(app: Source, u: Unit) {
    var repo := EffectiveRepo(app, u);
    repo == "" || app.registries == [] || HasRegistry(app, repo)
  }

  predicate HasUnit(us: seq<Unit>, name: string) {
    exists i :: 0 <= i < |us| && us[i].name == name
  }

  predicate GoodUnit(app: Source, u: Unit) {
    u.name != "" && u.version != "" && u.wave >= 0 && RepoResolves(app, u)
  }

  /** Unit i depends on unit j. */
  predicate Edge(us: seq<Unit>, i: nat, j: nat)
    requires i < |us| && j < |us|
  {
    us[j].name in us[i].dependsOn
  }

  predicate DependenciesExist(us: seq<Unit>) {
    forall i, k :: 0 <= i < |us| && 0 <= k < |us[i].dependsOn| ==> HasUnit(us, us[i].dependsOn[k])
  }

  predicate DependenciesEarlier(us: seq<Unit>) {
    forall i: nat, j: nat :: i < |us| && j < |us| && Edge(us, i, j) ==> us[j].wave <= us[i].wave
  }

  predicate WellFormed(app: Source) {
    && app.units != []
    && (app.registries != [] || (app.defaultRepo.Some? && app.defaultRepo.value != ""))
    && (forall i :: 0 <= i < |app.registries| ==> GoodRegistry(app.registries[i]))
    && DistinctRegistries(app.registries)
    && (forall i :: 0 <= i < |app.units| ==> GoodUnit(app, app.units[i]))
    && DistinctUnits(app.units)
    && DependenciesExist(app.units)
    && DependenciesEarlier(app.units)
  }

  // ---------------------------------------------------------------------------------------------
  // What each error says about the catalog

  /** The wave of the first unit of that name, -1 when there is none. */
  function FirstWave(us: seq<Unit>, name: string): int {
    if us == [] then -1 else if us[0].name == name then us[0].wave else FirstWave(us[1..], name)
  }

  predicate CatalogDefect(app: Source, e: Error) {
    || (e == NoUnits && app.units == [])
    || (e == NoRegistries && app.registries == [] && (app.defaultRepo.None? || app.defaultRepo.value == ""))
  }

  predicate RegistryDefect(rs: seq<Registry>, i: nat, e: Error)
    requires i < |rs|
  {
    var r := rs[i];
    match e
    case RegistryUnnamed => r.name == ""
    case RegistryWithoutUrl(n) => n == r.name && r.url == ""
    case RegistryNotOci(n) => n == r.name && r.kind == "oci" && !HasPrefix(r.url, "oci://")
    case DuplicateRegistry(n) => n == r.name && exists j :: 0 <= j < i && rs[j].name == n
    case _ => false
  }

  predicate UnknownDep(us: seq<Unit>, u: Unit, n: nat, dep: string) {
    !HasUnit(us, dep) && exists k :: 0 <= k < n && k < |u.dependsOn| && u.dependsOn[k] == dep
  }

  predicate UnitDefect(app: Source, i: nat, e: Error)
    requires i < |app.units|
  {
    var u := app.units[i];
    if u.name == "" then e == UnitUnnamed else
    match e
    case DuplicateUnit(n) => n == u.name && HasUnit(app.units[..i], n)
    case UnitWithoutVersion(n) => n == u.name && u.version == ""
    case NegativeWave(n, w) => n == u.name && w == u.wave < 0
    case UnknownRegistry(n, repo) => n == u.name && repo == EffectiveRepo(app, u) && !RepoResolves(app, u)
    case UnknownDependency(n, dep) => n == u.name && UnknownDep(app.units, u, |u.dependsOn|, dep)
    case _ => false
  }

  predicate OrderDefect(us: seq<Unit>, u: Unit, n: nat, e: Error) {
    && e.LateDependency? && e.unit == u.name && e.wave == u.wave < e.depWave == FirstWave(us, e.dep)
    && exists k :: 0 <= k < n && k < |u.dependsOn| && u.dependsOn[k] == e.dep
  }

  /** The defects found before registry index r, unit index i and ordering index o. */
  predicate Found(app: Source, r: nat, i: nat, o: nat, e: Error) {
    || CatalogDefect(app, e)
    || (exists j :: 0 <= j < r && j < |app.registries| && RegistryDefect(app.registries, j, e))
    || (exists j :: 0 <= j < i && j < |app.units| && UnitDefect(app, j, e))
    || (exists j :: 0 <= j < o && j < |app.units| && OrderDefect(app.units, app.units[j], |app.units[j].dependsOn|, e))
  }

  predicate Defect(app: Source, e: Error) {
    Found(app, |app.registries|, |app.units|, |app.units|, e)
  }

  // ---------------------------------------------------------------------------------------------
  // The loops

  method CheckRegistry(rs: seq<Registry>, i: nat, registryNames: set<string>) returns (errs: seq<Error>)
    requires i < |rs| && registryNames == set j | 0 <= j < i :: rs[j].name
    ensures forall e :: e in errs <==> RegistryDefect(rs, i, e)
  {
    var reg := rs[i];
    errs := [];
    if reg.name == "" {
      errs := errs + [RegistryUnnamed];
    }
    if reg.url == "" {
      errs := errs + [RegistryWithoutUrl(reg.name)];
    }
    if reg.kind == "oci" && !HasPrefix(reg.url, "oci://") {
      errs := errs + [RegistryNotOci(reg.name)];
    }
    if reg.name in registryNames {
      errs := errs + [DuplicateRegistry(reg.name)];
    }
  }

  method FindUnit(us: seq<Unit>, name: string) returns (found: bool)
    ensures found == HasUnit(us, name)
  {
    found := false;
    for k := 0 to |us|
      invariant !found
      invariant forall j :: 0 <= j < k ==> us[j].name != name
    {
      if us[k].name == name {
        return true;
      }
    }
  }

  method CheckDependencies(us: seq<Unit>, comp: Unit, names: set<string>) returns (errs: seq<Error>)
    requires forall n :: n in names ==> HasUnit(us, n)
    ensures forall e :: e in errs <==>
              e.UnknownDependency? && e.unit == comp.name && UnknownDep(us, comp, |comp.dependsOn|, e.dep)
  {
    errs := [];
    for k := 0 to |comp.dependsOn|
      invariant forall e :: e in errs <==> e.UnknownDependency? && e.unit == comp.name && UnknownDep(us, comp, k, e.dep)
    {
      var dep := comp.dependsOn[k];
      if dep !in names {
        var found := FindUnit(us, dep);
        if !found {
          errs := errs + [UnknownDependency(comp.name, dep)];
        }
      }
    }
  }

  method CheckUnit(app: Source, i: nat, unitNames: set<string>, registryNames: set<string>) returns (errs: seq<Error>)
    requires i < |app.units|
    requires forall n :: n in unitNames <==> n != "" && HasUnit(app.units[..i], n)
    requires forall n :: n in registryNames <==> HasRegistry(app, n)
    ensures forall e :: e in errs <==> UnitDefect(app, i, e)
  {
    hide HasUnit, HasRegistry, UnknownDep;
    var comp := app.units[i];
    if comp.name == "" {
      return [UnitUnnamed];
    }
    errs := [];
    if comp.name in unitNames {
      errs := errs + [DuplicateUnit(comp.name)];
    }
    if comp.version == "" {
      errs := errs + [UnitWithoutVersion(comp.name)];
    }
    if comp.wave < 0 {
      errs := errs + [NegativeWave(comp.name, comp.wave)];
    }
    var repo := comp.repo;
    if repo == "" && app.defaultRepo.Some? {
      repo := app.defaultRepo.value;
    }
    if repo != "" && |app.registries| > 0 && repo !in registryNames {
      errs := errs + [UnknownRegistry(comp.name, repo)];
    }
    forall n | n in unitNames + {comp.name} ensures HasUnit(app.units, n) {
      SeenUnit(app.units, i, n);
    }
    var unknown := CheckDependencies(app.units, comp, unitNames + {comp.name});
    errs := errs + unknown;
  }

  lemma NoUnitsYet(us: seq<Unit>)
    ensures forall n :: !HasUnit(us[..0], n)
  {
  }

  lemma OneMoreUnit(us: seq<Unit>, i: nat)
    requires i < |us|
    ensures forall n :: HasUnit(us[..i + 1], n) <==> HasUnit(us[..i], n) || n == us[i].name
  {
  }

  lemma SeenUnit(us: seq<Unit>, i: nat, n: string)
    requires i < |us| && (HasUnit(us[..i], n) || us[i].name == n)
    ensures HasUnit(us, n)
  {
  }

  method WaveOf(us: seq<Unit>, dep: string) returns (depWave: int)
    ensures depWave == FirstWave(us, dep)
  {
    depWave := -1;
    assert us[0..] == us;
    for k := 0 to |us|
      invariant depWave == -1 && FirstWave(us, dep) == FirstWave(us[k..], dep)
    {
      assert us[k..][0] == us[k] && us[k..][1..] == us[k + 1..];
      if us[k].name == dep {
        return us[k].wave;
      }
    }
  }

  method CheckOrder(us: seq<Unit>, comp: Unit) returns (errs: seq<Error>)
    ensures forall e :: e in errs <==> OrderDefect(us, comp, |comp.dependsOn|, e)
  {
    errs := [];
    for k := 0 to |comp.dependsOn|
      invariant forall e :: e in errs <==> OrderDefect(us, comp, k, e)
    {
      var dep := comp.dependsOn[k];
      var depWave := WaveOf(us, dep);
      if depWave > comp.wave {
        errs := errs + [LateDependency(comp.name, comp.wave, dep, depWave)];
      }
    }
  }

  method Validate(app: Source) returns (errs: seq<Error>)
    ensures forall e :: e in errs <==> Defect(app, e)
    ensures errs == [] <==> WellFormed(app)
  {
    hide FirstWave, RegistryDefect, UnitDefect, OrderDefect, WellFormed, HasUnit;
    errs := [];
    if |app.units| == 0 {
      errs := errs + [NoUnits];
    }
    if |app.registries| == 0 && (app.defaultRepo.None? || app.defaultRepo.value == "") {
      errs := errs + [NoRegistries];
    }
    var registryNames: set<string> := {};
    for r := 0 to |app.registries|
      invariant registryNames == set j | 0 <= j < r :: app.registries[j].name
      invariant forall e :: e in errs <==> Found(app, r, 0, 0, e)
    {
      var found := CheckRegistry(app.registries, r, registryNames);
      errs := errs + found;
      registryNames := registryNames + {app.registries[r].name};
    }
    var unitNames: set<string> := {};
    NoUnitsYet(app.units);
    for i := 0 to |app.units|
      invariant forall n :: n in registryNames <==> HasRegistry(app, n)
      invariant forall n :: n in unitNames <==> n != "" && HasUnit(app.units[..i], n)
      invariant forall e :: e in errs <==> Found(app, |app.registries|, i, 0, e)
    {
      var found := CheckUnit(app, i, unitNames, registryNames);
      errs := errs + found;
      if app.units[i].name != "" {
        unitNames := unitNames + {app.units[i].name};
      }
      OneMoreUnit(app.units, i);
    }
    for i := 0 to |app.units|
      invariant forall e :: e in errs <==> Found(app, |app.registries|, |app.units|, i, e)
    {
      var found := CheckOrder(app.units, app.units[i]);
      errs := errs + found;
    }
    DefectFreeIffWellFormed(app);
    if errs != [] {
      assert errs[0] in errs;
    }
  }

  // ---------------------------------------------------------------------------------------------
  // No defect exactly when well formed

  lemma {:induction false} FirstWaveOfUnit(us: seq<Unit>, j: nat)
    requires j < |us| && DistinctUnits(us)
    ensures FirstWave(us, us[j].name) == us[j].wave
  {
    if j > 0 {
      FirstWaveOfUnit(us[1..], j - 1);
    }
  }

  lemma DefectFreeIffWellFormed(app: Source)
    ensures (forall e :: !Defect(app, e)) <==> WellFormed(app)
  {
    if forall e :: !Defect(app, e) {
      DefectFreeIsWellFormed(app);
    }
    if WellFormed(app) {
      forall e ensures !Defect(app, e) {
        WellFormedHasNoDefect(app, e);
      }
    }
  }

  lemma WellFormedHasNoDefect(app: Source, e: Error)
    requires WellFormed(app)
    ensures !Defect(app, e)
  {
    hide FirstWave;
    forall i | 0 <= i < |app.units|
      ensures !UnitDefect(app, i, e)
    {
      assert GoodUnit(app, app.units[i]);
    }
    forall i, k | 0 <= i < |app.units| && 0 <= k < |app.units[i].dependsOn|
      ensures FirstWave(app.units, app.units[i].dependsOn[k]) <= app.units[i].wave
    {
      NotLate(app.units, i, k);
    }
  }

  lemma NotLate(us: seq<Unit>, i: nat, k: nat)
    requires DistinctUnits(us) && DependenciesExist(us) && DependenciesEarlier(us)
    requires i < |us| && k < |us[i].dependsOn|
    ensures FirstWave(us, us[i].dependsOn[k]) <= us[i].wave
  {
    assert HasUnit(us, us[i].dependsOn[k]);
    var j: nat :| j < |us| && us[j].name == us[i].dependsOn[k];
    FirstWaveOfUnit(us, j);
    assert Edge(us, i, j);
  }

  lemma UnitIsGood(app: Source, i: nat)
    requires i < |app.units| && forall e :: !UnitDefect(app, i, e)
    ensures GoodUnit(app, app.units[i])
    ensures forall j :: 0 <= j < i ==> app.units[j].name != app.units[i].name
    ensures forall k :: 0 <= k < |app.units[i].dependsOn| ==> HasUnit(app.units, app.units[i].dependsOn[k])
  {
    var u := app.units[i];
    assert !UnitDefect(app, i, UnitUnnamed);
    assert !UnitDefect(app, i, DuplicateUnit(u.name));
    assert forall j :: 0 <= j < i ==> app.units[..i][j] == app.units[j];
    assert !UnitDefect(app, i, UnitWithoutVersion(u.name));
    assert !UnitDefect(app, i, NegativeWave(u.name, u.wave));
    assert !UnitDefect(app, i, UnknownRegistry(u.name, EffectiveRepo(app, u)));
    forall k | 0 <= k < |u.dependsOn| ensures HasUnit(app.units, u.dependsOn[k]) {
      assert !UnitDefect(app, i, UnknownDependency(u.name, u.dependsOn[k]));
    }
  }

  lemma RegistryIsGood(rs: seq<Registry>, i: nat)
    requires i < |rs| && forall e :: !RegistryDefect(rs, i, e)
    ensures GoodRegistry(rs[i]) && forall j :: 0 <= j < i ==> rs[j].name != rs[i].name
  {
    assert !RegistryDefect(rs, i, RegistryUnnamed);
    assert !RegistryDefect(rs, i, RegistryWithoutUrl(rs[i].name));
    assert !RegistryDefect(rs, i, RegistryNotOci(rs[i].name));
    assert !RegistryDefect(rs, i, DuplicateRegistry(rs[i].name));
  }

  lemma DefectFreeIsWellFormed(app: Source)
    requires forall e :: !Defect(app, e)
    ensures WellFormed(app)
  {
    hide FirstWave, UnitDefect, RegistryDefect, GoodUnit, GoodRegistry;
    var us := app.units;
    assert !Defect(app, NoUnits) && !Defect(app, NoRegistries);
    forall i | 0 <= i < |app.registries|
      ensures GoodRegistry(app.registries[i]) && forall j :: 0 <= j < i ==>
                app.registries[j].name != app.registries[i].name
    {
      forall e ensures !RegistryDefect(app.registries, i, e) { assert !Defect(app, e); }
      RegistryIsGood(app.registries, i);
    }
    forall i | 0 <= i < |us|
      ensures GoodUnit(app, us[i]) && forall j :: 0 <= j < i ==> us[j].name != us[i].name
      ensures forall k :: 0 <= k < |us[i].dependsOn| ==> HasUnit(us, us[i].dependsOn[k])
    {
      forall e ensures !UnitDefect(app, i, e) { assert !Defect(app, e); }
      UnitIsGood(app, i);
    }
    forall i: nat, j: nat | i < |us| && j < |us| && Edge(us, i, j)
      ensures us[j].wave <= us[i].wave
    {
      FirstWaveOfUnit(us, j);
      assert !Defect(app, LateDependency(us[i].name, us[i].wave, us[j].name, us[j].wave));
      assert !OrderDefect(us, us[i], |us[i].dependsOn|, LateDependency(us[i].name, us[i].wave, us[j].name, us[j].wave));
      var k :| 0 <= k < |us[i].dependsOn| && us[i].dependsOn[k] == us[j].name;
    }
  }
}
