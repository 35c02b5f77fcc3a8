/**
 * src/visitors/ManifestInconsistencyVisitor.ts: a finding for every
 * top-level lock entry whose version does not satisfy the range that
 * `package.json` declares for it. Reading and parsing `package.json` is
 * an input here (`None` when it cannot be read or parsed), and semver's
 * `satisfies` is a parameter.
 */
module ManifestInconsistencyVisitor {
  import opened Wrappers
  import opened Ordered
  import opened Lock
  import opened Walk
  import opened VisitorBase

  /** Lines 34-37: `{...dependencies, ...devDependencies}`. */
  function Merged(manifest: PackageManifest): (r: map<string, string>)
    ensures forall k :: k in r <==> k in manifest.dependencies || k in manifest.devDependencies
    ensures forall k :: k in manifest.devDependencies ==> r[k] == manifest.devDependencies[k]
    ensures forall k :: k in manifest.dependencies && k !in manifest.devDependencies ==> r[k] == manifest.dependencies[k]
  {
    manifest.dependencies + manifest.devDependencies
  }

  /** Lines 41-50 for one entry: a finding when a non-empty range is declared and not satisfied. */
  function Check(entry: (string, Dep), declared: map<string, string>, satisfies: (string, string) -> bool): seq<PackageLockError> {
    if entry.0 in declared && declared[entry.0] != "" && !satisfies(entry.1.version, declared[entry.0])
    then [VersionMismatch(entry.0, entry.1.version, declared[entry.0])]
    else []
  }

  /** Lines 39-53: the findings for the entries `es`, in order. */
  function Mismatches(es: seq<(string, Dep)>, declared: map<string, string>, satisfies: (string, string) -> bool): seq<PackageLockError> {
    if es == [] then [] else Mismatches(es[..|es| - 1], declared, satisfies) + Check(es[|es| - 1], declared, satisfies)
  }

  /** What `visit` adds: nothing without dependencies or without a readable manifest. */
  function VisitFindings(data: PackageLock, manifest: Option<PackageManifest>, satisfies: (string, string) -> bool): seq<PackageLockError> {
    if data.dependencies.None? || manifest.None? then []
    else Mismatches(data.dependencies.value.entries, Merged(manifest.value), satisfies)
  }

  /** `visit` (lines 16-54). */
  method Visit(visitor: Visitor, data: PackageLock, manifest: Option<PackageManifest>, satisfies: (string, string) -> bool)
    modifies visitor
    ensures visitor.errors == old(visitor.errors) + VisitFindings(data, manifest, satisfies)
  {
    if data.dependencies.None? {
      return;
    }
    if manifest.None? {
      return;
    }
    var manifestDeps := Merged(manifest.value);
    var es := data.dependencies.value.entries;
    for i := 0 to |es|
      invariant visitor.errors == old(visitor.errors) + Mismatches(es[..i], manifestDeps, satisfies)
    {
      assert es[..i + 1][..i] == es[..i];
      var dep := es[i].0;
      var lockVersion := es[i].1.version;
      if dep in manifestDeps && manifestDeps[dep] != "" && !satisfies(lockVersion, manifestDeps[dep]) {
        visitor.errors := visitor.errors + [VersionMismatch(dep, lockVersion, manifestDeps[dep])];
      }
      AppendTwo(old(visitor.errors), Mismatches(es[..i], manifestDeps, satisfies), Check(es[i], manifestDeps, satisfies));
    }
    assert es[..|es|] == es;
  }

  /** A finding names a top-level entry, its lock version and its declared range, and is there exactly when that range is non-empty and not satisfied. */
  lemma {:induction false} MismatchIff(es: seq<(string, Dep)>, declared: map<string, string>, satisfies: (string, string) -> bool, dep: string, version: string, range: string)
    ensures VersionMismatch(dep, version, range) in Mismatches(es, declared, satisfies)
        <==> (exists d :: (dep, d) in es && d.version == version)
             && dep in declared && declared[dep] == range && range != "" && !satisfies(version, range)
  {
    if es != [] {
      var init, last := es[..|es| - 1], es[|es| - 1];
      assert es == init + [last];
      MismatchIff(init, declared, satisfies, dep, version, range);
      if last.0 == dep && last.1.version == version {
        assert (dep, last.1) in es;
      }
    }
  }

  /** The names of the entries, in order. */
  function Names(es: seq<(string, Dep)>): seq<string> {
    if es == [] then [] else Names(es[..|es| - 1]) + [es[|es| - 1].0]
  }

  /** The package a finding is about. */
  function Subject(f: PackageLockError): string {
    match f
    case VersionMismatch(dep, _, _) => dep
    case InsecureDependency(name, _) => name
  }

  /** The entries the findings are about, in order. */
  function Deps(fs: seq<PackageLockError>): seq<string> {
    if fs == [] then [] else Deps(fs[..|fs| - 1]) + [Subject(fs[|fs| - 1])]
  }

  /** With no repeated key, no key gets two findings; each finding is about one of the keys. */
  lemma {:induction false} AtMostOnePerKey(es: seq<(string, Dep)>, declared: map<string, string>, satisfies: (string, string) -> bool)
    requires Distinct(Names(es))
    ensures forall f :: f in Mismatches(es, declared, satisfies) ==> f.VersionMismatch?
    ensures Distinct(Deps(Mismatches(es, declared, satisfies)))
    ensures forall n :: n in Deps(Mismatches(es, declared, satisfies)) ==> n in Names(es)
  {
    if es != [] {
      var init, last := es[..|es| - 1], es[|es| - 1];
      assert Names(es) == Names(init) + [last.0];
      DistinctSplit(Names(init), [last.0]);
      AtMostOnePerKey(init, declared, satisfies);
      var fs := Mismatches(init, declared, satisfies);
      DepsAppend(fs, Check(last, declared, satisfies));
      DistinctConcat(Deps(fs), Deps(Check(last, declared, satisfies)));
    }
  }

  lemma {:induction false} DepsAppend(a: seq<PackageLockError>, b: seq<PackageLockError>)
    ensures Deps(a + b) == Deps(a) + Deps(b)
    decreases |b|
  {
    if b == [] {
      assert a + b == a;
    } else {
      assert (a + b)[..|a + b| - 1] == a + b[..|b| - 1];
      DepsAppend(a, b[..|b| - 1]);
    }
  }

  /** The findings of the nodes `s`: one `InsecureDependency` per insecure record, in order. */
  function InsecureFindings(s: seq<(string, Dep)>): seq<PackageLockError> {
    if s == [] then [] else InsecureFindings(s[..|s| - 1]) + Finding(s[|s| - 1])
  }

  /** Lines 66-68 for one record. */
  function Finding(e: (string, Dep)): seq<PackageLockError> {
    if IsInsecure(e.1) then [InsecureDependency(e.0, e.1.resolved.value)] else []
  }

  /** `_visitDependencies` (src/Visitor.ts:33-45) with this visitor's `visitDependency`: the findings of the records in visiting order. */
  method VisitDependencies(visitor: Visitor, t: Tree)
    modifies visitor
    ensures visitor.errors == old(visitor.errors) + InsecureFindings(WalkOf(t))
    decreases t, 1
  {
    for i := 0 to |t.entries|
      invariant visitor.errors == old(visitor.errors) + InsecureFindings(WalkUpTo(t, i))
    {
      var e := t.entries[i];
      VisitDependency(visitor, e.0, e.1);
      var a, b := WalkUpTo(t, i), WalkOf(e.1.deps);
      FindingsSnoc(a, b, e);
      assert WalkUpTo(t, i + 1) == a + b + [e];
      AppendThree(old(visitor.errors), InsecureFindings(a), InsecureFindings(b), Finding(e));
    }
  }

  /** `visitDependency` (lines 57-70): the children first, then the record itself. */
  method VisitDependency(visitor: Visitor, name: string, d: Dep)
    modifies visitor
    ensures visitor.errors == old(visitor.errors) + InsecureFindings(WalkOf(d.deps)) + Finding((name, d))
    decreases d.deps, 2
  {
    VisitDependencies(visitor, d.deps);
    if IsInsecure(d) {
      visitor.errors := visitor.errors + [InsecureDependency(name, d.resolved.value)];
    }
  }

  lemma {:induction false} InsecureFindingsAppend(a: seq<(string, Dep)>, b: seq<(string, Dep)>)
    ensures InsecureFindings(a + b) == InsecureFindings(a) + InsecureFindings(b)
    decreases |b|
  {
    if b == [] {
      assert a + b == a;
    } else {
      assert (a + b)[..|a + b| - 1] == a + b[..|b| - 1];
      InsecureFindingsAppend(a, b[..|b| - 1]);
    }
  }

  /** The findings of two runs of records and one more record. */
  lemma FindingsSnoc(a: seq<(string, Dep)>, b: seq<(string, Dep)>, e: (string, Dep))
    ensures InsecureFindings(a + b + [e]) == InsecureFindings(a) + InsecureFindings(b) + Finding(e)
  {
    assert (a + b + [e])[..|a + b + [e]| - 1] == a + b;
    InsecureFindingsAppend(a, b);
  }

  /** There is one finding per insecure record, each naming the record and its URL. */
  lemma {:induction false} FindingsOfInsecure(s: seq<(string, Dep)>)
    ensures |InsecureFindings(s)| == |InsecureOf(s)|
    ensures forall i :: 0 <= i < |InsecureOf(s)| ==>
      IsInsecure(InsecureOf(s)[i].1)
      && InsecureFindings(s)[i] == InsecureDependency(InsecureOf(s)[i].0, InsecureOf(s)[i].1.resolved.value)
  {
    if s != [] {
      FindingsOfInsecure(s[..|s| - 1]);
    }
  }

  /** `visitDependency` on a record adds one finding per insecure record of its subtree, itself included. */
  lemma SubtreeFindings(name: string, d: Dep)
    ensures |InsecureFindings(WalkOf(d.deps)) + Finding((name, d))| == |InsecureOf(Nodes(d.deps))| + (if IsInsecure(d) then 1 else 0)
  {
    FindingsOfInsecure(WalkOf(d.deps));
    WalkMeetsEveryInsecure(d.deps, |d.deps.entries|);
  }
}
