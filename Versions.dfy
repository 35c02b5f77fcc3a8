/**
 * The version index of src/util/Versions.ts: `computeVersions` folds a
 * lock tree into name -> version -> URLs, filling an accumulator in place.
 */
module Versions {
  import opened Wrappers
  import opened Ordered
  import opened Lock

  /** `VersionSet`: a package name and its versions, each bound to the URLs seen for it. */
  datatype VersionSet = VersionSet(name: string, versions: OMap<seq<string>>)

  /** The `Map<string, VersionSet>` that `computeVersions` fills. */
  type Index = OMap<VersionSet>

  /** A version set as `computeVersions` builds it: at least one version, each with at least one URL, none twice. */
  ghost predicate WellFormedSet(vs: VersionSet) {
    && vs.versions.Valid()
    && vs.versions.keys != []
    && forall v :: v in vs.versions.m ==> Distinct(vs.versions.m[v]) && vs.versions.m[v] != []
  }

  /** An index as `computeVersions` builds it: every set is stored under its own name. */
  ghost predicate WellFormed(ix: Index) {
    && ix.Valid()
    && forall n :: n in ix.m ==> ix.m[n].name == n && WellFormedSet(ix.m[n])
  }

  /** A version set whose versions are listed once each and whose URL lists hold no repetition. */
  ghost predicate Sane(pkg: VersionSet) {
    pkg.versions.Valid() && forall v :: v in pkg.versions.m ==> Distinct(pkg.versions.m[v])
  }

  /** Two version sets have the same versions, each bound to the same URLs (as sets). */
  ghost predicate SameVersions(pkg: VersionSet, previous: VersionSet) {
    && (forall v :: v in pkg.versions.m <==> v in previous.versions.m)
    && forall v :: v in pkg.versions.m ==> Elems(pkg.versions.m[v]) == Elems(previous.versions.m[v])
  }

  /** `index.get(n)`, with an empty set for an absent package. */
  function PackageOf(ix: Index, n: string): VersionSet {
    if n in ix.m then ix.m[n] else VersionSet(n, EmptyMap())
  }

  /** `vs.versions.get(v)`, with no URLs for an absent version. */
  function UrlsIn(vs: VersionSet, v: string): seq<string> {
    if v in vs.versions.m then vs.versions.m[v] else []
  }

  /** The URLs bound to version `v` of package `n`; none when either is absent. */
  function UrlsOf(ix: Index, n: string, v: string): seq<string> {
    UrlsIn(PackageOf(ix, n), v)
  }

  /** `b` extends `a`: no name, version or URL is lost, names keep their sets' names, and every order is kept. */
  ghost predicate Grows(a: Index, b: Index) {
    && a.keys <= b.keys
    && forall n :: n in a.m ==>
         && n in b.m
         && b.m[n].name == a.m[n].name
         && a.m[n].versions.keys <= b.m[n].versions.keys
         && forall v :: v in a.m[n].versions.m ==>
              v in b.m[n].versions.m && a.m[n].versions.m[v] <= b.m[n].versions.m[v]
  }

  lemma GrowsTransitive(a: Index, b: Index, c: Index)
    requires Grows(a, b) && Grows(b, c)
    ensures Grows(a, c)
  {
  }

  /** The empty accumulator, `new Map()`. */
  function EmptyIndex(): (r: Index)
    ensures WellFormed(r) && r.keys == []
  {
    EmptyMap()
  }

  /**
   * Lines 33-43 for one record with a truthy `resolved`: find or create the
   * package's set, find or create the version's URL set, add the URL.
   */
  function AddUrl(ix: Index, name: string, version: string, url: string): (r: Index)
    ensures r.m.Keys == ix.m.Keys + {name}
  {
    var vs := if name in ix.m then ix.m[name] else VersionSet(name, EmptyMap());
    var urls := if version in vs.versions.m then vs.versions.m[version] else [];
    ix.Put(name, vs.(versions := vs.versions.Put(version, Add(urls, url))))
  }

  /** Adding a URL keeps the index well formed. */
  lemma AddUrlWellFormed(ix: Index, name: string, version: string, url: string)
    ensures WellFormed(ix) ==> WellFormed(AddUrl(ix, name, version, url))
  {
  }

  /** Adding a URL loses nothing and keeps every order. */
  lemma AddUrlGrows(ix: Index, name: string, version: string, url: string)
    ensures Grows(ix, AddUrl(ix, name, version, url))
  {
  }

  /** Adding a URL changes exactly one URL set, by `Set.prototype.add`. */
  lemma AddUrlUrls(ix: Index, name: string, version: string, url: string, n: string, v: string)
    ensures UrlsOf(AddUrl(ix, name, version, url), n, v)
         == if n == name && v == version then Add(UrlsOf(ix, n, v), url) else UrlsOf(ix, n, v)
  {
  }

  /** Lines 30-44: one record contributes its URL only when `resolved` is truthy. */
  function VisitRecord(ix: Index, e: (string, Dep)): (r: Index)
    ensures WellFormed(ix) ==> WellFormed(r)
    ensures Grows(ix, r)
  {
    if Truthy(e.1.resolved) then
      AddUrlGrows(ix, e.0, e.1.version, e.1.resolved.value);
      AddUrlWellFormed(ix, e.0, e.1.version, e.1.resolved.value);
      AddUrl(ix, e.0, e.1.version, e.1.resolved.value)
    else ix
  }

  /**
   * The accumulator after the for-in loop of lines 28-50 has handled the
   * first `n` entries of `t`: each record is added, then its own
   * `dependencies` are folded into the same accumulator (lines 46-48).
   */
  function FoldUpTo(t: Tree, n: nat, ix: Index): Index
    requires n <= |t.entries|
    decreases t, n
  {
    if n == 0 then ix
    else
      var e := t.entries[n - 1];
      FoldUpTo(e.1.deps, |e.1.deps.entries|, VisitRecord(FoldUpTo(t, n - 1, ix), e))
  }

  /** The fold keeps the accumulator well formed: in particular every set stays under its own name. */
  lemma {:induction false} FoldWellFormed(t: Tree, n: nat, ix: Index)
    requires n <= |t.entries| && WellFormed(ix)
    ensures WellFormed(FoldUpTo(t, n, ix))
    decreases t, n
  {
    if n > 0 {
      var e := t.entries[n - 1];
      FoldWellFormed(t, n - 1, ix);
      FoldWellFormed(e.1.deps, |e.1.deps.entries|, VisitRecord(FoldUpTo(t, n - 1, ix), e));
    }
  }

  /** The accumulator only grows: no name, version or URL is removed, and no order changes. */
  lemma {:induction false} FoldGrows(t: Tree, n: nat, ix: Index)
    requires n <= |t.entries|
    ensures Grows(ix, FoldUpTo(t, n, ix))
    decreases t, n
  {
    if n > 0 {
      var e := t.entries[n - 1];
      var before := FoldUpTo(t, n - 1, ix);
      var mid := VisitRecord(before, e);
      FoldGrows(t, n - 1, ix);
      FoldGrows(e.1.deps, |e.1.deps.entries|, mid);
      GrowsTransitive(ix, before, mid);
      GrowsTransitive(ix, mid, FoldUpTo(t, n, ix));
    }
  }

  /** `computeVersions(deps, root)` without its cache: the whole tree folded into `root`. */
  function Fold(t: Tree, root: Index): Index {
    FoldUpTo(t, |t.entries|, root)
  }

  /** `data.dependencies ? computeVersions(data.dependencies) : new Map()`, as every index consumer writes it. */
  function VersionsOf(deps: Option<Tree>): Index {
    if deps.Some? then Fold(deps.value, EmptyIndex()) else EmptyIndex()
  }

  /** Every index a consumer builds is well formed. */
  lemma FoldWellFormedOf(deps: Option<Tree>)
    ensures WellFormed(VersionsOf(deps))
  {
    if deps.Some? {
      FoldWellFormed(deps.value, |deps.value.entries|, EmptyIndex());
    }
  }

  /** Growth never loses a URL. */
  lemma GrowsKeepsUrls(a: Index, b: Index, n: string, v: string, u: string)
    requires Grows(a, b) && u in UrlsOf(a, n, v)
    ensures u in UrlsOf(b, n, v)
  {
  }

  /** Completeness: every record with a truthy `resolved`, at any depth, has its URL under its name and version. */
  lemma {:induction false} FoldComplete(t: Tree, k: nat, ix: Index, name: string, d: Dep)
    requires k <= |t.entries|
    requires (name, d) in NodesUpTo(t, k) && Truthy(d.resolved)
    ensures d.resolved.value in UrlsOf(FoldUpTo(t, k, ix), name, d.version)
    decreases t, k
  {
    var e := t.entries[k - 1];
    var before := FoldUpTo(t, k - 1, ix);
    var mid := VisitRecord(before, e);
    var r := FoldUpTo(e.1.deps, |e.1.deps.entries|, mid);
    assert r == FoldUpTo(t, k, ix);
    if (name, d) in NodesUpTo(t, k - 1) {
      FoldComplete(t, k - 1, ix, name, d);
      FoldGrows(e.1.deps, |e.1.deps.entries|, mid);
      GrowsKeepsUrls(before, mid, name, d.version, d.resolved.value);
      GrowsKeepsUrls(mid, r, name, d.version, d.resolved.value);
    } else if (name, d) == e {
      AddUrlUrls(before, name, d.version, d.resolved.value, name, d.version);
      FoldGrows(e.1.deps, |e.1.deps.entries|, mid);
      GrowsKeepsUrls(mid, r, name, d.version, d.resolved.value);
    } else {
      FoldComplete(e.1.deps, |e.1.deps.entries|, mid, name, d);
    }
  }

  /** A record of `t` at any depth that carries URL `u` for version `v` of package `n`. */
  ghost predicate Resolves(t: Tree, k: nat, n: string, v: string, u: string)
    requires k <= |t.entries|
  {
    exists d :: (n, d) in NodesUpTo(t, k) && Truthy(d.resolved) && d.resolved.value == u && d.version == v
  }

  /** Soundness: every URL in the result was in the accumulator already or is the `resolved` of a matching record. */
  lemma {:induction false} FoldSound(t: Tree, k: nat, ix: Index, n: string, v: string, u: string)
    requires k <= |t.entries|
    requires u in UrlsOf(FoldUpTo(t, k, ix), n, v)
    ensures u in UrlsOf(ix, n, v) || Resolves(t, k, n, v, u)
    decreases t, k
  {
    if k > 0 {
      var e := t.entries[k - 1];
      var below := |e.1.deps.entries|;
      var before := FoldUpTo(t, k - 1, ix);
      var mid := VisitRecord(before, e);
      assert FoldUpTo(t, k, ix) == FoldUpTo(e.1.deps, below, mid);
      assert NodesUpTo(t, k) == NodesUpTo(t, k - 1) + [e] + NodesUpTo(e.1.deps, below);
      FoldSound(e.1.deps, below, mid, n, v, u);
      if Resolves(e.1.deps, below, n, v, u) {
        var d :| (n, d) in NodesUpTo(e.1.deps, below) && Truthy(d.resolved) && d.resolved.value == u && d.version == v;
        assert (n, d) in NodesUpTo(t, k);
      } else {
        assert u in UrlsOf(mid, n, v);
        if Truthy(e.1.resolved) {
          AddUrlUrls(before, e.0, e.1.version, e.1.resolved.value, n, v);
        }
        if u in UrlsOf(before, n, v) {
          FoldSound(t, k - 1, ix, n, v, u);
          if Resolves(t, k - 1, n, v, u) {
            var d :| (n, d) in NodesUpTo(t, k - 1) && Truthy(d.resolved) && d.resolved.value == u && d.version == v;
            assert (n, d) in NodesUpTo(t, k);
          }
        } else {
          assert e == (n, e.1) && e in NodesUpTo(t, k);
        }
      }
    }
  }

  /** Only a record with a truthy `resolved` ever creates an entry: every new name is the name of such a record. */
  lemma {:induction false} FoldNewNames(t: Tree, k: nat, ix: Index, n: string)
    requires k <= |t.entries|
    requires n in FoldUpTo(t, k, ix).m && n !in ix.m
    ensures exists d :: (n, d) in NodesUpTo(t, k) && Truthy(d.resolved)
    decreases t, k
  {
    var e := t.entries[k - 1];
    var before := FoldUpTo(t, k - 1, ix);
    var mid := VisitRecord(before, e);
    assert FoldUpTo(t, k, ix) == FoldUpTo(e.1.deps, |e.1.deps.entries|, mid);
    var nodes := NodesUpTo(t, k);
    assert nodes == NodesUpTo(t, k - 1) + [e] + NodesUpTo(e.1.deps, |e.1.deps.entries|);
    if n !in mid.m {
      FoldNewNames(e.1.deps, |e.1.deps.entries|, mid, n);
      var d :| (n, d) in NodesUpTo(e.1.deps, |e.1.deps.entries|) && Truthy(d.resolved);
      assert (n, d) in nodes;
    } else if n in before.m {
      FoldNewNames(t, k - 1, ix, n);
      var d :| (n, d) in NodesUpTo(t, k - 1) && Truthy(d.resolved);
      assert (n, d) in nodes;
    } else {
      assert e == (n, e.1) && e in nodes;
    }
  }

  /** Adding a URL that is already bound changes nothing. */
  lemma AddUrlPresent(ix: Index, name: string, version: string, url: string)
    requires WellFormed(ix) && url in UrlsOf(ix, name, version)
    ensures AddUrl(ix, name, version, url) == ix
  {
    var vs := ix.m[name];
    assert vs.versions.Put(version, vs.versions.m[version]) == vs.versions;
    assert vs.(versions := vs.versions) == vs;
    assert ix.Put(name, vs) == ix;
  }

  /** Folding a tree whose every URL is already bound leaves the accumulator exactly as it was. */
  lemma {:induction false} FoldAbsorbs(t: Tree, k: nat, ix: Index)
    requires k <= |t.entries| && WellFormed(ix)
    requires forall p :: p in NodesUpTo(t, k) && Truthy(p.1.resolved) ==> p.1.resolved.value in UrlsOf(ix, p.0, p.1.version)
    ensures FoldUpTo(t, k, ix) == ix
    decreases t, k
  {
    if k > 0 {
      var e := t.entries[k - 1];
      assert NodesUpTo(t, k) == NodesUpTo(t, k - 1) + [e] + NodesUpTo(e.1.deps, |e.1.deps.entries|);
      FoldAbsorbs(t, k - 1, ix);
      if Truthy(e.1.resolved) {
        AddUrlPresent(ix, e.0, e.1.version, e.1.resolved.value);
      }
      FoldAbsorbs(e.1.deps, |e.1.deps.entries|, ix);
    }
  }

  /** Idempotence: folding the same tree a second time adds nothing. */
  lemma FoldIdempotent(t: Tree, ix: Index)
    requires WellFormed(ix)
    ensures Fold(t, Fold(t, ix)) == Fold(t, ix)
  {
    var once := Fold(t, ix);
    FoldWellFormed(t, |t.entries|, ix);
    forall p | p in Nodes(t) && Truthy(p.1.resolved)
      ensures p.1.resolved.value in UrlsOf(once, p.0, p.1.version)
    {
      FoldComplete(t, |t.entries|, ix, p.0, p.1);
    }
    FoldAbsorbs(t, |t.entries|, once);
  }

  /** An empty index results from an empty accumulator exactly when no record of the tree has a truthy `resolved`. */
  lemma FoldEmpty(t: Tree)
    ensures Fold(t, EmptyIndex()) == EmptyIndex() <==> forall p :: p in Nodes(t) ==> !Truthy(p.1.resolved)
  {
    var r := Fold(t, EmptyIndex());
    if forall p :: p in Nodes(t) ==> !Truthy(p.1.resolved) {
      if r.m != map[] {
        var n :| n in r.m;
        FoldNewNames(t, |t.entries|, EmptyIndex(), n);
      }
      FoldWellFormed(t, |t.entries|, EmptyIndex());
      KeysCount(r);
    } else {
      var p :| p in Nodes(t) && Truthy(p.1.resolved);
      FoldComplete(t, |t.entries|, EmptyIndex(), p.0, p.1);
    }
  }

  /**
   * The accumulator that `computeVersions` mutates: a `Map` whose keys are
   * kept in insertion order.
   */
  class VersionIndex {
    var keys: seq<string>
    var sets: map<string, VersionSet>

    /** The map as a value. */
    function Value(): Index
      reads this
    {
      OMap(keys, sets)
    }

    /** `new Map()`. */
    constructor ()
      ensures Value() == EmptyIndex()
    {
      keys, sets := [], map[];
    }

    /** `Map.prototype.set`. */
    method Set(name: string, vs: VersionSet)
      modifies this
      ensures Value() == old(Value()).Put(name, vs)
    {
      if name !in sets {
        keys := keys + [name];
      }
      sets := sets[name := vs];
    }
  }

  /**
   * `computeVersions(deps, root)` (lines 19-55) without its identity cache:
   * walks `deps` in key order, adding each truthy `resolved` under its name
   * and version, and recurses into nested `dependencies` with the same `root`.
   */
  method ComputeVersions(deps: Tree, root: VersionIndex)
    modifies root
    ensures root.Value() == Fold(deps, old(root.Value()))
    decreases deps
  {
    for i := 0 to |deps.entries|
      invariant root.Value() == FoldUpTo(deps, i, old(root.Value()))
    {
      var (name, dep) := deps.entries[i];
      VisitResolved(root, name, dep);
      ComputeVersions(dep.deps, root);
    }
  }

  /** Lines 32-44 for one record: add its `resolved` URL under its name and version when it is truthy. */
  method VisitResolved(root: VersionIndex, name: string, dep: Dep)
    modifies root
    ensures root.Value() == VisitRecord(old(root.Value()), (name, dep))
  {
    ghost var before := root.Value();
    if Truthy(dep.resolved) {
      var versionSet := if name in root.sets then root.sets[name] else VersionSet(name, EmptyMap());
      root.Set(name, versionSet);
      var version := if dep.version in versionSet.versions.m then versionSet.versions.m[dep.version] else [];
      version := Add(version, dep.resolved.value);
      versionSet := versionSet.(versions := versionSet.versions.Put(dep.version, version));
      root.Set(name, versionSet);
      PutTwice(before, name, if name in before.m then before.m[name] else VersionSet(name, EmptyMap()), versionSet);
    }
  }

  /** Setting a key twice is setting it once to the second value. */
  lemma PutTwice<V>(ix: OMap<V>, k: string, a: V, b: V)
    ensures ix.Put(k, a).Put(k, b) == ix.Put(k, b)
  {
  }
}
