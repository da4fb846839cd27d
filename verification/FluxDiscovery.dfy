/**
 Flux repository discovery with its blob-keyed cache. `parse` stands for the Flux file parser, a
 function of a file's path and of what reading it yields; git supplies each tracked file's blob id from
 the index while the file is read from the working tree.
 */
module FluxDiscovery {

  datatype Item = Item(kind: string, name: string, path: string, pattern: string, reason: string)

  datatype Unit = Unit(name: string, versionField: string, sourcePath: string, confidence: string)

  /** What parsing one file yields. */
  datatype Parsed = Parsed(hasDocuments: bool, objects: seq<Item>, units: seq<Unit>, skipped: seq<Item>,
                           errors: seq<string>)

  datatype CachedFile = CachedFile(blob: string, parsed: Parsed)

  /** What reading a file yields; a failed read is parsed into an error and cached like any other. */
  datatype Read = Content(text: string) | TooLarge | Unreadable(error: string)

  datatype File = File(path: string, blob: string, read: Read)

  type Parser = (string, Read) -> Parsed

  type Files = map<string, CachedFile>

  datatype Report = Report(scanned: nat, parsedFiles: nat, objects: seq<Item>, units: seq<Unit>, skipped: seq<Item>,
                           errors: seq<string>)

  const EMPTY_REPORT := Report(0, 0, [], [], [], [])

  /** Count a file and replay what parsing it yields. */
  function Replay(r: Report, p: Parsed): Report {
    Report(r.scanned + 1, r.parsedFiles + (if p.hasDocuments then 1 else 0),
           r.objects + p.objects, r.units + p.units, r.skipped + p.skipped, r.errors + p.errors)
  }

  /** Discovery without a cache. */
  function Plain(parse: Parser, tree: seq<File>): Report {
    if tree == [] then EMPTY_REPORT
    else Replay(Plain(parse, tree[..|tree| - 1]), parse(tree[|tree| - 1].path, tree[|tree| - 1].read))
  }

  predicate Hit(files: Files, f: File) { f.path in files && files[f.path].blob == f.blob }

  datatype Scan = Scan(report: Report, files: Files, hits: nat, misses: nat)

  function ScanFile(parse: Parser, s: Scan, f: File): Scan {
    if Hit(s.files, f) then Scan(Replay(s.report, s.files[f.path].parsed), s.files, s.hits + 1, s.misses)
    else
      var p := parse(f.path, f.read);
      Scan(Replay(s.report, p), s.files[f.path := CachedFile(f.blob, p)], s.hits, s.misses + 1)
  }

  /** Discovery with a cache. */
  function Cached(parse: Parser, files: Files, tree: seq<File>): Scan {
    if tree == [] then Scan(EMPTY_REPORT, files, 0, 0)
    else ScanFile(parse, Cached(parse, files, tree[..|tree| - 1]), tree[|tree| - 1])
  }

  function Key(u: Unit): string { u.name + "\0" + u.versionField }

  /** `dedupeUnits`: the last named unit of each key. */
  function Dedupe(units: seq<Unit>): map<string, Unit> {
    if units == [] then map[]
    else
      var front, u := Dedupe(units[..|units| - 1]), units[|units| - 1];
      if u.name == "" then front else front[Key(u) := u]
  }

  /** The in-memory discovery cache. */
  class DiscoveryCache {
    var files: Files
    var hits: nat
    var misses: nat

    /** `discoverFluxRepo`: scan, dedupe, and refuse more units than allowed. */
    method Discover(parse: Parser, tree: seq<File>, maxUnits: int)
      returns (report: Report, units: map<string, Unit>, tooMany: bool)
      modifies this
      ensures hits >= old(hits) && misses >= old(misses)
      ensures Scan(report, files, hits - old(hits), misses - old(misses)) == Cached(parse, old(files), tree)
      ensures units == Dedupe(report.units) && tooMany == (maxUnits > 0 && |units| > maxUnits)
    {
      report := EMPTY_REPORT;
      for i := 0 to |tree|
        invariant hits >= old(hits) && misses >= old(misses)
        invariant Scan(report, files, hits - old(hits), misses - old(misses)) == Cached(parse, old(files), tree[..i])
      {
        assert tree[..i + 1][..i] == tree[..i];
        var f := tree[i];
        if f.path in files && files[f.path].blob == f.blob {
          report := Replay(report, files[f.path].parsed);
          hits := hits + 1;
          continue;
        }
        misses := misses + 1;
        var p := parse(f.path, f.read);
        report := Replay(report, p);
        files := files[f.path := CachedFile(f.blob, p)];
      }
      assert tree[..|tree|] == tree;
      units := DedupeUnits(report.units);
      tooMany := maxUnits > 0 && |units| > maxUnits;
    }
  }

  method DedupeUnits(units: seq<Unit>) returns (seen: map<string, Unit>)
    ensures seen == Dedupe(units)
    ensures forall k, u :: k in seen && seen[k] == u <==> IsLast(units, k, u)
  {
    seen := map[];
    for i := 0 to |units|
      invariant seen == Dedupe(units[..i])
    {
      assert units[..i + 1][..i] == units[..i];
      if units[i].name == "" {
        continue;
      }
      seen := seen[Key(units[i]) := units[i]];
    }
    assert units[..|units|] == units;
    forall k, u ensures k in seen && seen[k] == u <==> IsLast(units, k, u) {
      DedupeKeepsLast(units, k, u);
    }
  }

  // ---- What deduplication keeps -------------------------------------------------------------------

  /** `u` is the last named unit with this key. */
  predicate IsLast(units: seq<Unit>, k: string, u: Unit) {
    exists i :: 0 <= i < |units| && units[i] == u && LastAt(units, k, i)
  }

  predicate LastAt(units: seq<Unit>, k: string, i: nat)
    requires i < |units|
  {
    && units[i].name != "" && Key(units[i]) == k
    && forall j :: i < j < |units| && units[j].name != "" ==> Key(units[j]) != k
  }

  lemma {:induction false} DedupeKeepsLast(units: seq<Unit>, k: string, u: Unit)
    ensures k in Dedupe(units) && Dedupe(units)[k] == u <==> IsLast(units, k, u)
  {
    if units != [] {
      var front, n := units[..|units| - 1], |units| - 1;
      DedupeKeepsLast(front, k, u);
      assert forall i :: 0 <= i < n ==> front[i] == units[i];
      if units[n].name != "" && Key(units[n]) == k {
        assert IsLast(units, k, units[n]) by { assert LastAt(units, k, n); }
      } else {
        assert forall i :: 0 <= i < n ==> (LastAt(units, k, i) <==> LastAt(front, k, i));
      }
    }
  }

  predicate SameUnit(a: Unit, b: Unit) { a.name == b.name && a.versionField == b.versionField }

  /** The separator inside a longer name lines up with one inside the other's field. */
  predicate Straddles(a: Unit, b: Unit) {
    && |a.name| < |b.name| <= |a.name| + |a.versionField|
    && var n := |b.name| - |a.name| - 1;
       b.name == a.name + "\0" + a.versionField[..n] && a.versionField[n..] == "\0" + b.versionField
  }

  /** Two units share a key exactly when name and field agree, or a separator inside one straddles the
      other's. */
  lemma KeysCollideIff(a: Unit, b: Unit)
    ensures Key(a) == Key(b) <==> SameUnit(a, b) || Straddles(a, b) || Straddles(b, a)
  {
    if Key(a) == Key(b) {
      if |a.name| == |b.name| {
        assert a.name == Key(a)[..|a.name|] && b.name == Key(b)[..|b.name|];
        assert a.versionField == Key(a)[|a.name| + 1..] && b.versionField == Key(b)[|b.name| + 1..];
      } else if |a.name| < |b.name| {
        KeySplits(a, b);
      } else {
        KeySplits(b, a);
      }
    }
    if Straddles(a, b) { StraddleCollides(a, b); }
    if Straddles(b, a) { StraddleCollides(b, a); }
  }

  lemma KeySplits(a: Unit, b: Unit)
    requires Key(a) == Key(b) && |a.name| < |b.name|
    ensures Straddles(a, b)
  {
    var n, k := |b.name|, Key(a);
    var m := n - |a.name| - 1;
    assert k[..n] == b.name && k[n..] == "\0" + b.versionField;
    assert k[|a.name| + 1..] == a.versionField;
    assert k[..n] == a.name + "\0" + a.versionField[..m];
    assert k[n..] == a.versionField[m..];
  }

  lemma StraddleCollides(a: Unit, b: Unit)
    requires Straddles(a, b)
    ensures Key(a) == Key(b)
  {
    var m := |b.name| - |a.name| - 1;
    assert a.versionField == a.versionField[..m] + a.versionField[m..];
  }

  ghost predicate Kept(units: seq<Unit>, u: Unit) {
    exists k :: k in Dedupe(units) && SameUnit(Dedupe(units)[k], u)
  }

  /** Every named unit is kept, up to later ones of its name and field, exactly when no two named units
      straddle: names and fields without the separator never do. */
  lemma DedupeExactIff(units: seq<Unit>)
    ensures (forall i :: 0 <= i < |units| && units[i].name != "" ==> Kept(units, units[i]))
            <==> (forall i, j :: 0 <= i < |units| && 0 <= j < |units| && units[i].name != "" && units[j].name != ""
                                 ==> !Straddles(units[i], units[j]))
  {
    forall i, j | 0 <= i < |units| && 0 <= j < |units| && units[i].name != "" && units[j].name != ""
        && Straddles(units[i], units[j])
      ensures !Kept(units, units[i]) || !Kept(units, units[j])
    {
      KeysCollideIff(units[i], units[j]);
      KeptUnderKey(units, units[i]);
      KeptUnderKey(units, units[j]);
    }
    if forall i, j :: 0 <= i < |units| && 0 <= j < |units| && units[i].name != "" && units[j].name != "" ==>
        !Straddles(units[i], units[j]) {
      forall i | 0 <= i < |units| && units[i].name != ""
        ensures Kept(units, units[i])
      {
        var u := LastOf(units, i);
        DedupeKeepsLast(units, Key(units[i]), u);
        KeysCollideIff(u, units[i]);
      }
    }
  }

  lemma KeptUnderKey(units: seq<Unit>, u: Unit)
    ensures Kept(units, u) <==> Key(u) in Dedupe(units) && SameUnit(Dedupe(units)[Key(u)], u)
  {
    if Kept(units, u) {
      var k :| k in Dedupe(units) && SameUnit(Dedupe(units)[k], u);
      DedupeKeepsLast(units, k, Dedupe(units)[k]);
    }
  }

  lemma {:induction false} LastOf(units: seq<Unit>, i: nat) returns (u: Unit)
    requires i < |units| && units[i].name != ""
    ensures IsLast(units, Key(units[i]), u) && u in units && u.name != "" && Key(u) == Key(units[i])
    decreases |units| - i
  {
    if j: nat :| i < j < |units| && units[j].name != "" && Key(units[j]) == Key(units[i]) {
      u := LastOf(units, j);
    } else {
      assert LastAt(units, Key(units[i]), i);
      u := units[i];
    }
  }

  /** Two different units with one key: the earlier one is lost. */
  lemma StraddleExample()
    ensures var a, b := Unit("x", "y\0z", "", ""), Unit("x\0y", "z", "", "");
            Straddles(a, b) && Dedupe([a, b]) == map[Key(b) := b]
  {
    var a, b := Unit("x", "y\0z", "", ""), Unit("x\0y", "z", "", "");
    assert a.versionField[..1] == "y" && a.versionField[1..] == "\0z";
    assert [a, b][..1] == [a] && [a][..0] == [] && Dedupe([a]) == map[Key(a) := a];
    assert Key(a) == Key(b) by { StraddleCollides(a, b); }
  }

  // ---- What a scan reports and what the cache saves -----------------------------------------------

  /** One after the other: counts add up and lists follow each other. */
  function Joined(a: Report, b: Report): Report {
    Report(a.scanned + b.scanned, a.parsedFiles + b.parsedFiles, a.objects + b.objects, a.units + b.units,
           a.skipped + b.skipped, a.errors + b.errors)
  }

  /** A plain report is joined from those of any split of the tree. */
  lemma {:induction false} PlainJoins(parse: Parser, a: seq<File>, b: seq<File>)
    ensures Plain(parse, a + b) == Joined(Plain(parse, a), Plain(parse, b))
    decreases |b|
  {
    hide Replay, Joined;
    if b == [] {
      assert a + b == a;
      JoinedNothing(Plain(parse, a));
    } else {
      var front, f := b[..|b| - 1], b[|b| - 1];
      PlainJoins(parse, a, front);
      assert (a + b)[..|a + b| - 1] == a + front && (a + b)[|a + b| - 1] == f;
      ReplayJoins(Plain(parse, a), Plain(parse, front), parse(f.path, f.read));
    }
  }

  lemma JoinedNothing(a: Report)
    ensures Joined(a, EMPTY_REPORT) == a
  {
  }

  lemma ReplayJoins(a: Report, b: Report, p: Parsed)
    ensures Replay(Joined(a, b), p) == Joined(a, Replay(b, p))
  {
  }

  /** One file is counted once, and once more when it has documents, and reports what parsing it yields. */
  lemma PlainOne(parse: Parser, f: File)
    ensures Plain(parse, []) == Report(0, 0, [], [], [], [])
    ensures var p := parse(f.path, f.read);
            Plain(parse, [f])
            == Report(1, if p.hasDocuments then 1 else 0, p.objects, p.units, p.skipped, p.errors)
  {
    assert [f][..0] == [];
    var p := parse(f.path, f.read);
    assert [] + p.objects == p.objects && [] + p.units == p.units;
    assert [] + p.skipped == p.skipped && [] + p.errors == p.errors;
  }

  predicate DistinctPaths(tree: seq<File>) {
    forall i, j :: 0 <= i < j < |tree| ==> tree[i].path != tree[j].path
  }

  predicate Lists(tree: seq<File>, path: string) { exists i :: 0 <= i < |tree| && tree[i].path == path }

  /** The cache after a scan has the blob of every scanned file; other entries are as before. */
  lemma {:induction false} ScanStores(parse: Parser, files: Files, tree: seq<File>, path: string)
    requires DistinctPaths(tree)
    ensures var after := Cached(parse, files, tree).files;
            && (forall i :: 0 <= i < |tree| && tree[i].path == path ==>
                  path in after && after[path].blob == tree[i].blob)
            && (!Lists(tree, path) ==>
                  (path in after <==> path in files) && (path in files ==> after[path] == files[path]))
  {
    if tree != [] {
      var n := |tree| - 1;
      var front := tree[..n];
      ScanStores(parse, files, front, path);
      if tree[n].path == path {
        assert forall i :: 0 <= i < n ==> tree[i].path != path;
      } else {
        assert forall i :: 0 <= i < n ==> front[i] == tree[i];
      }
    }
  }

  /** The files whose path is cached with their blob. */
  ghost function Known(files: Files, tree: seq<File>): set<int> {
    set i | 0 <= i < |tree| && tree[i].path in files && files[tree[i].path].blob == tree[i].blob
  }

  /** Exactly those are hits. */
  lemma {:induction false} HitsAre(parse: Parser, files: Files, tree: seq<File>)
    requires DistinctPaths(tree)
    ensures Cached(parse, files, tree).hits == |Known(files, tree)|
    ensures Cached(parse, files, tree).hits + Cached(parse, files, tree).misses == |tree|
  {
    if tree == [] {
      assert Known(files, tree) == {};
    } else {
      var n := |tree| - 1;
      var front := tree[..n];
      HitsAre(parse, files, front);
      ScanStores(parse, files, front, tree[n].path);
      KnownLast(files, tree);
    }
  }

  lemma KnownLast(files: Files, tree: seq<File>)
    requires tree != []
    ensures var n := |tree| - 1;
            && n !in Known(files, tree[..n])
            && Known(files, tree) == Known(files, tree[..n]) + (if Hit(files, tree[n]) then {n} else {})
  {
  }

  /** A second scan of the same tree parses nothing. */
  lemma RescanHits(parse: Parser, files: Files, tree: seq<File>)
    requires DistinctPaths(tree)
    ensures var s := Cached(parse, Cached(parse, files, tree).files, tree); s.hits == |tree| && s.misses == 0
  {
    hide Cached;
    var after := Cached(parse, files, tree).files;
    forall i | 0 <= i < |tree|
      ensures Hit(after, tree[i])
    {
      ScanStores(parse, files, tree, tree[i].path);
    }
    AllKnown(after, tree);
    HitsAre(parse, after, tree);
  }

  lemma {:induction false} AllKnown(files: Files, tree: seq<File>)
    requires forall i :: 0 <= i < |tree| ==> Hit(files, tree[i])
    ensures |Known(files, tree)| == |tree|
  {
    if tree == [] {
      assert Known(files, tree) == {};
    } else {
      AllKnown(files, tree[..|tree| - 1]);
      KnownLast(files, tree);
    }
  }

  // ---- Transparency -------------------------------------------------------------------------------

  /** Every cached entry is the parse of what its blob id stands for. */
  ghost predicate Honest(parse: Parser, readOf: string -> Read, files: Files) {
    forall p :: p in files ==> files[p].parsed == parse(p, readOf(files[p].blob))
  }

  /** Every read succeeds with what the index says. */
  ghost predicate Clean(readOf: string -> Read, tree: seq<File>) {
    forall i :: 0 <= i < |tree| ==> tree[i].read == readOf(tree[i].blob)
  }

  /** With an honest cache and a clean tree, the cache changes nothing but the counters, which add up,
      and it stays honest. */
  lemma {:induction false} CacheTransparent(parse: Parser, readOf: string -> Read, files: Files, tree: seq<File>)
    requires Honest(parse, readOf, files) && Clean(readOf, tree)
    ensures var s := Cached(parse, files, tree);
            s.report == Plain(parse, tree) && s.hits + s.misses == |tree| == s.report.scanned
                && Honest(parse, readOf, s.files)
  {
    if tree != [] {
      CacheTransparent(parse, readOf, files, tree[..|tree| - 1]);
    }
  }

  /** One invocation of the command: the cache file may be unreadable, the result may be refused or the
      cache may fail to be written back. */
  datatype Invocation = Invocation(tree: seq<File>, loaded: bool, saved: bool)

  /** The cache file after an invocation; what was not written back is lost. */
  function Carry(parse: Parser, stored: Files, run: Invocation): Files {
    var start := if run.loaded then stored else map[];
    if run.saved then Cached(parse, start, run.tree).files else stored
  }

  function CarryAll(parse: Parser, stored: Files, runs: seq<Invocation>): Files {
    if runs == [] then stored else Carry(parse, CarryAll(parse, stored, runs[..|runs| - 1]), runs[|runs| - 1])
  }

  lemma {:induction false} CarryHonest(parse: Parser, readOf: string -> Read, runs: seq<Invocation>)
    requires forall r :: r in runs ==> Clean(readOf, r.tree)
    ensures Honest(parse, readOf, CarryAll(parse, map[], runs))
  {
    if runs != [] {
      var front, last := runs[..|runs| - 1], runs[|runs| - 1];
      CarryHonest(parse, readOf, front);
      assert last in runs;
      CacheTransparent(parse, readOf, if last.loaded then CarryAll(parse, map[], front) else map[], last.tree);
    }
  }

  /** Over any sequence of clean trees with the cache carried from run to run, each discovery gives the
      counts, objects, skipped items, errors and units it would give without a cache. */
  lemma DiscoveryTransparent(parse: Parser, readOf: string -> Read, before: seq<Invocation>, tree: seq<File>,
                             loaded: bool)
    requires (forall r :: r in before ==> Clean(readOf, r.tree)) && Clean(readOf, tree)
    ensures var s := Cached(parse, if loaded then CarryAll(parse, map[], before) else map[], tree);
            s.report == Plain(parse, tree) && Dedupe(s.report.units) == Dedupe(Plain(parse, tree).units)
                && s.hits + s.misses == |tree|
  {
    CarryHonest(parse, readOf, before);
    CacheTransparent(parse, readOf, if loaded then CarryAll(parse, map[], before) else map[], tree);
  }

  // ---- Exactly when the cache is transparent ------------------------------------------------------

  /** The file each cache entry was parsed from; this does not depend on the parser. */
  type Sources = map<string, File>

  predicate SourceHit(src: Sources, f: File) { f.path in src && src[f.path].blob == f.blob }

  function ScanSources(src: Sources, tree: seq<File>): Sources {
    if tree == [] then src
    else
      var s, f := ScanSources(src, tree[..|tree| - 1]), tree[|tree| - 1];
      if SourceHit(s, f) then s else s[f.path := f]
  }

  function CarrySources(runs: seq<Invocation>): Sources {
    if runs == [] then map[]
    else
      var stored, run := CarrySources(runs[..|runs| - 1]), runs[|runs| - 1];
      if run.saved then ScanSources(if run.loaded then stored else map[], run.tree) else stored
  }

  /** The cache a parser leaves behind. */
  function Image(parse: Parser, src: Sources): Files {
    map p | p in src :: CachedFile(src[p].blob, parse(p, src[p].read))
  }

  lemma {:induction false} ScanImage(parse: Parser, src: Sources, tree: seq<File>)
    ensures Cached(parse, Image(parse, src), tree).files == Image(parse, ScanSources(src, tree))
  {
    if tree != [] {
      ScanImage(parse, src, tree[..|tree| - 1]);
    }
  }

  lemma {:induction false} CarryImage(parse: Parser, runs: seq<Invocation>)
    ensures CarryAll(parse, map[], runs) == Image(parse, CarrySources(runs))
  {
    if runs != [] {
      var front, run := runs[..|runs| - 1], runs[|runs| - 1];
      CarryImage(parse, front);
      assert Image(parse, map[]) == map[];
      ScanImage(parse, if run.loaded then CarrySources(front) else map[], run.tree);
    }
  }

  /** A path that git lists more than once, as in an unmerged tree, is one file. */
  predicate OneReadPerPath(tree: seq<File>) {
    forall i, j :: 0 <= i < j < |tree| && tree[i].path == tree[j].path ==> tree[i].read == tree[j].read
  }

  /** The file the scan serves at position `i`: the cached one on a hit, its own otherwise. */
  function Served(src: Sources, tree: seq<File>, i: nat): Read
    requires i < |tree|
  {
    var now := ScanSources(src, tree[..i]);
    if SourceHit(now, tree[i]) then now[tree[i].path].read else tree[i].read
  }

  /** Every file the cache serves was read then as it is now. */
  predicate Unchanged(src: Sources, tree: seq<File>) {
    forall i :: 0 <= i < |tree| ==> Served(src, tree, i) == tree[i].read
  }

  /** A cached scan is a plain scan of what is served. */
  lemma {:induction false} ScanServes(parse: Parser, src: Sources, tree: seq<File>)
    requires tree != []
    ensures var n := |tree| - 1;
            Cached(parse, Image(parse, src), tree).report
            == Replay(Cached(parse, Image(parse, src), tree[..n]).report, parse(tree[n].path, Served(src, tree, n)))
  {
    ScanImage(parse, src, tree[..|tree| - 1]);
  }

  lemma {:induction false} UnchangedIsTransparent(parse: Parser, src: Sources, tree: seq<File>)
    requires Unchanged(src, tree)
    ensures Cached(parse, Image(parse, src), tree).report == Plain(parse, tree)
  {
    if tree != [] {
      var n := |tree| - 1;
      forall i | 0 <= i < n ensures Served(src, tree[..n], i) == tree[i].read {
        assert tree[..n][..i] == tree[..i];
        assert Served(src, tree, i) == tree[i].read;
      }
      UnchangedIsTransparent(parse, src, tree[..n]);
      ScanServes(parse, src, tree);
      assert Served(src, tree, n) == tree[n].read;
    }
  }

  /** A parser that finds one object, in one version of one file. */
  function Detect(path: string, read: Read): Parser {
    (p: string, r: Read) =>
      Parsed(true, if p == path && r == read then [Item("", "", "", "", "")] else [], [], [], [])
  }

  /** While the plain scan finds the object in every entry of the path, the cached one misses those that
      are served differently. */
  lemma {:induction false} CacheHides(src: Sources, tree: seq<File>, f: File)
    requires forall i :: 0 <= i < |tree| && tree[i].path == f.path ==> tree[i].read == f.read
    ensures var d := Detect(f.path, f.read);
            var cached, plain := Cached(d, Image(d, src), tree).report.objects, Plain(d, tree).objects;
            && |cached| <= |plain|
            && ((exists i :: 0 <= i < |tree| && tree[i].path == f.path && Served(src, tree, i) != f.read) ==>
                 |cached| < |plain|)
  {
    if tree != [] {
      hide ScanSources, Cached;
      var n, d := |tree| - 1, Detect(f.path, f.read);
      var front := tree[..n];
      assert forall i :: 0 <= i < n ==> front[i] == tree[i] && front[..i] == tree[..i];
      CacheHides(src, front, f);
      ScanServes(d, src, tree);
      if i :| 0 <= i < |tree| && tree[i].path == f.path && Served(src, tree, i) != f.read {
        if i < n { assert Served(src, front, i) == Served(src, tree, i); }
      }
    }
  }

  /** After any history of runs, the cache is transparent for every parser exactly when every file it
      serves was read then as it is read now. */
  lemma TransparentIff(before: seq<Invocation>, tree: seq<File>)
    requires OneReadPerPath(tree)
    ensures (forall parse: Parser :: Cached(parse, CarryAll(parse, map[], before), tree).report == Plain(parse, tree))
            <==> Unchanged(CarrySources(before), tree)
  {
    var src := CarrySources(before);
    forall parse: Parser ensures CarryAll(parse, map[], before) == Image(parse, src) {
      CarryImage(parse, before);
    }
    if Unchanged(src, tree) {
      forall parse: Parser ensures Cached(parse, Image(parse, src), tree).report == Plain(parse, tree) {
        UnchangedIsTransparent(parse, src, tree);
      }
    } else {
      var i :| 0 <= i < |tree| && Served(src, tree, i) != tree[i].read;
      var d := Detect(tree[i].path, tree[i].read);
      CacheHides(src, tree, tree[i]);
      assert Cached(d, Image(d, src), tree).report != Plain(d, tree);
    }
  }

  /** Two runs over one file whose index entry stays: the second reports what the first read, whatever
      the file holds now. */
  lemma FirstReadIsServed(parse: Parser, path: string, blob: string, first: Read, second: Read)
    ensures var carried := Cached(parse, map[], [File(path, blob, first)]).files;
            Cached(parse, carried, [File(path, blob, second)]).report == Plain(parse, [File(path, blob, first)])
  {
    var one, two := [File(path, blob, first)], [File(path, blob, second)];
    assert one[..0] == [] && two[..0] == [];
    assert Cached(parse, map[], one) == ScanFile(parse, Cached(parse, map[], []), one[0]);
    var carried := Cached(parse, map[], one).files;
    assert Cached(parse, carried, two) == ScanFile(parse, Cached(parse, carried, []), two[0]);
  }

  /** A file edited without `git add` between two runs: the second run reports the first content. */
  lemma DirtyTreeServedStale(parse: Parser, path: string, blob: string, first: string, second: string)
    requires parse(path, Content(first)).objects != parse(path, Content(second)).objects
    ensures var carried := Cached(parse, map[], [File(path, blob, Content(first))]).files;
            var tree := [File(path, blob, Content(second))];
            Cached(parse, carried, tree).report.objects
                == parse(path, Content(first)).objects != Plain(parse, tree).objects
  {
    FirstReadIsServed(parse, path, blob, Content(first), Content(second));
    PlainOne(parse, File(path, blob, Content(first)));
    PlainOne(parse, File(path, blob, Content(second)));
  }

  /** A clean file that could not be read in the first run: the second run repeats the error and reports
      none of its objects, though the file can be read now. */
  lemma ReadErrorServedStale(parse: Parser, path: string, blob: string, error: string, text: string)
    requires parse(path, Unreadable(error)).objects == []
    requires parse(path, Unreadable(error)).errors == [path + ": " + error]
    requires parse(path, Content(text)).objects != [] && parse(path, Content(text)).errors == []
    ensures var carried := Cached(parse, map[], [File(path, blob, Unreadable(error))]).files;
            var tree := [File(path, blob, Content(text))];
            var report := Cached(parse, carried, tree).report;
            && report.objects == [] && report.errors == [path + ": " + error]
            && Plain(parse, tree).objects != [] && Plain(parse, tree).errors == []
  {
    FirstReadIsServed(parse, path, blob, Unreadable(error), Content(text));
    PlainOne(parse, File(path, blob, Unreadable(error)));
    PlainOne(parse, File(path, blob, Content(text)));
  }
}
