/**
 * src/visitors/RegistryInconsistencyVisitor.ts: the registries (URL
 * origins) that unscoped packages resolve from, and a warning unless there
 * is exactly one. `new URL(u)` followed by `protocol//host` is the
 * parameter `origin`.
 */
module RegistryInconsistencyVisitor {
  import opened Wrappers
  import opened Ordered
  import opened Lock
  import opened Versions
  import opened Logging
  import opened VisitorBase

  /** Line 18: a package is unscoped unless its name starts with '@'. */
  predicate Unscoped(name: string) {
    !("@" <= name)
  }

  /** Lines 20-23: the registry set `acc` after adding the origin of each of `urls`, in order. */
  function UrlRegistries(acc: seq<string>, urls: seq<string>, origin: string -> string): seq<string> {
    if urls == [] then acc
    else Add(UrlRegistries(acc, urls[..|urls| - 1], origin), origin(urls[|urls| - 1]))
  }

  /** Lines 19-24: the registry set after the URLs of the versions `ks` of `pkg`, in order. */
  function VersionRegistries(acc: seq<string>, pkg: VersionSet, ks: seq<string>, origin: string -> string): seq<string> {
    if ks == [] then acc
    else UrlRegistries(VersionRegistries(acc, pkg, ks[..|ks| - 1], origin), UrlsIn(pkg, ks[|ks| - 1]), origin)
  }

  /** Lines 17-26: the registry set after the packages `ks` of `ix`; scoped packages add nothing. */
  function IndexRegistries(acc: seq<string>, ix: Index, ks: seq<string>, origin: string -> string): seq<string> {
    if ks == [] then acc
    else
      var prev := IndexRegistries(acc, ix, ks[..|ks| - 1], origin);
      var n := ks[|ks| - 1];
      if Unscoped(n) then VersionRegistries(prev, PackageOf(ix, n), PackageOf(ix, n).versions.keys, origin) else prev
  }

  /** The `registries` set of lines 15-26, in insertion order. */
  function Registries(ix: Index, origin: string -> string): seq<string> {
    IndexRegistries([], ix, ix.keys, origin)
  }

  /** The origins of every URL of every version of every unscoped package. */
  function RegistrySet(ix: Index, origin: string -> string): set<string> {
    set n, v, u | n in ix.m && Unscoped(n) && v in ix.m[n].versions.m && u in ix.m[n].versions.m[v] :: origin(u)
  }

  /** Lines 28-42: the verbose listing, then the warning with the listing again unless there is exactly one registry. */
  function RegistryLines(regs: seq<string>, verbose: bool): seq<Line> {
    (if verbose then [Line(NoTag, RegistriesUsed)] + Items(regs) else [])
    + (if |regs| != 1 then [Line(WarnTag, MultipleRegistries)] + Items(regs) else [])
  }

  /** `visit` (lines 10-45): index the lock's dependencies, collect the registries, report. */
  method Visit(visitor: Visitor, data: PackageLock, verbose: bool, origin: string -> string)
    modifies visitor.log
    ensures visitor.log.out == old(visitor.log.out) + RegistryLines(Registries(VersionsOf(data.dependencies), origin), verbose)
    ensures visitor.log.warnings == old(visitor.log.warnings) + (if |RegistrySet(VersionsOf(data.dependencies), origin)| != 1 then 1 else 0)
    ensures visitor.log.errors == old(visitor.log.errors)
  {
    var root := new VersionIndex();
    if data.dependencies.Some? {
      ComputeVersions(data.dependencies.value, root);
    }
    var dataVersions := root.Value();
    var registries := CollectIndex(dataVersions, origin);
    Report(visitor.log, registries, verbose);
    FoldWellFormedOf(data.dependencies);
    RegistriesAre(dataVersions, origin);
  }

  /** Lines 28-42: the verbose listing, then the warning unless there is exactly one registry. */
  method Report(log: Logger, registries: seq<string>, verbose: bool)
    modifies log
    ensures log.out == old(log.out) + RegistryLines(registries, verbose)
    ensures log.warnings == old(log.warnings) + (if |registries| != 1 then 1 else 0)
    ensures log.errors == old(log.errors)
  {
    ghost var out0 := log.out;
    if verbose {
      log.Log(RegistriesUsed);
      ListRegistries(log, registries);
      AppendTwo(out0, [Line(NoTag, RegistriesUsed)], Items(registries));
    }
    ghost var out1 := log.out;
    if |registries| != 1 {
      log.Warn(MultipleRegistries);
      ListRegistries(log, registries);
      AppendTwo(out1, [Line(WarnTag, MultipleRegistries)], Items(registries));
    }
    AppendTwo(out0, out1[|out0|..], log.out[|out1|..]);
  }

  /** Lines 17-26: the packages of the index in order, skipping scoped ones. */
  method CollectIndex(ix: Index, origin: string -> string) returns (registries: seq<string>)
    ensures registries == Registries(ix, origin)
  {
    registries := [];
    var keys := ix.keys;
    for i := 0 to |keys|
      invariant registries == IndexRegistries([], ix, keys[..i], origin)
    {
      assert keys[..i + 1][..i] == keys[..i];
      var name := keys[i];
      if Unscoped(name) {
        registries := CollectPackage(registries, PackageOf(ix, name), origin);
      }
    }
    assert keys[..|keys|] == keys;
  }

  /** Lines 19-24: the versions of one package in order. */
  method CollectPackage(acc: seq<string>, pkg: VersionSet, origin: string -> string) returns (registries: seq<string>)
    ensures registries == VersionRegistries(acc, pkg, pkg.versions.keys, origin)
  {
    registries := acc;
    var keys := pkg.versions.keys;
    for j := 0 to |keys|
      invariant registries == VersionRegistries(acc, pkg, keys[..j], origin)
    {
      assert keys[..j + 1][..j] == keys[..j];
      registries := CollectUrls(registries, UrlsIn(pkg, keys[j]), origin);
    }
    assert keys[..|keys|] == keys;
  }

  /** Lines 20-23: the URLs of one version in order, each adding its origin. */
  method CollectUrls(acc: seq<string>, urls: seq<string>, origin: string -> string) returns (registries: seq<string>)
    ensures registries == UrlRegistries(acc, urls, origin)
  {
    registries := acc;
    for k := 0 to |urls|
      invariant registries == UrlRegistries(acc, urls[..k], origin)
    {
      assert urls[..k + 1][..k] == urls[..k];
      registries := Add(registries, origin(urls[k]));
    }
    assert urls[..|urls|] == urls;
  }

  /** Lines 30-32 and 39-41: one untagged line per registry. */
  method ListRegistries(log: Logger, registries: seq<string>)
    modifies log
    ensures log.out == old(log.out) + Items(registries)
    ensures log.warnings == old(log.warnings) && log.errors == old(log.errors)
  {
    for k := 0 to |registries|
      invariant log.out == old(log.out) + Items(registries[..k])
      invariant log.warnings == old(log.warnings) && log.errors == old(log.errors)
    {
      log.Log(Item(registries[k]));
      assert Items(registries[..k + 1]) == Items(registries[..k]) + [Line(NoTag, Item(registries[k]))];
      AppendTwo(old(log.out), Items(registries[..k]), [Line(NoTag, Item(registries[k]))]);
    }
    assert registries[..|registries|] == registries;
  }

  /** Adding the origins of `urls` adds exactly those, each once. */
  lemma {:induction false} UrlRegistriesFacts(acc: seq<string>, urls: seq<string>, origin: string -> string)
    requires Distinct(acc)
    ensures Distinct(UrlRegistries(acc, urls, origin))
    ensures forall r :: r in UrlRegistries(acc, urls, origin) <==> r in acc || exists u :: u in urls && r == origin(u)
  {
    if urls != [] {
      var init := urls[..|urls| - 1];
      UrlRegistriesFacts(acc, init, origin);
      assert forall u :: u in init ==> u in urls;
      forall r | exists u :: u in urls && r == origin(u)
        ensures r in UrlRegistries(acc, urls, origin)
      {
        var u :| u in urls && r == origin(u);
        if u != urls[|urls| - 1] {
          assert u in init;
        }
      }
    }
  }

  /** The versions `ks` of `pkg` add exactly the origins of their URLs, each once. */
  lemma {:induction false} VersionRegistriesFacts(acc: seq<string>, pkg: VersionSet, ks: seq<string>, origin: string -> string)
    requires Distinct(acc)
    ensures Distinct(VersionRegistries(acc, pkg, ks, origin))
    ensures forall r :: r in VersionRegistries(acc, pkg, ks, origin) <==>
      r in acc || exists v, u :: v in ks && u in UrlsIn(pkg, v) && r == origin(u)
  {
    if ks != [] {
      var init := ks[..|ks| - 1];
      var last := ks[|ks| - 1];
      VersionRegistriesFacts(acc, pkg, init, origin);
      var prev := VersionRegistries(acc, pkg, init, origin);
      UrlRegistriesFacts(prev, UrlsIn(pkg, last), origin);
      assert forall v :: v in init ==> v in ks;
      forall r | exists v, u :: v in ks && u in UrlsIn(pkg, v) && r == origin(u)
        ensures r in VersionRegistries(acc, pkg, ks, origin)
      {
        var v, u :| v in ks && u in UrlsIn(pkg, v) && r == origin(u);
        if v != last {
          assert v in init;
        }
      }
    }
  }

  /** The packages `ks` of `ix` add exactly the origins of the URLs of their unscoped members, each once. */
  lemma {:induction false} IndexRegistriesFacts(acc: seq<string>, ix: Index, ks: seq<string>, origin: string -> string, r: string)
    requires Distinct(acc)
    ensures Distinct(IndexRegistries(acc, ix, ks, origin))
    ensures r in IndexRegistries(acc, ix, ks, origin) <==>
      r in acc || exists n, v, u :: n in ks && Unscoped(n) && v in PackageOf(ix, n).versions.keys && u in UrlsIn(PackageOf(ix, n), v) && r == origin(u)
  {
    if ks != [] {
      var init := ks[..|ks| - 1];
      var last := ks[|ks| - 1];
      IndexRegistriesFacts(acc, ix, init, origin, r);
      var prev := IndexRegistries(acc, ix, init, origin);
      var pkg := PackageOf(ix, last);
      VersionRegistriesFacts(prev, pkg, pkg.versions.keys, origin);
      if exists n, v, u :: n in ks && Unscoped(n) && v in PackageOf(ix, n).versions.keys && u in UrlsIn(PackageOf(ix, n), v) && r == origin(u) {
        var n, v, u :| n in ks && Unscoped(n) && v in PackageOf(ix, n).versions.keys && u in UrlsIn(PackageOf(ix, n), v) && r == origin(u);
        if n != last {
          assert n in init;
        }
      }
      if r in prev && r !in acc {
        var n, v, u :| n in init && Unscoped(n) && v in PackageOf(ix, n).versions.keys && u in UrlsIn(PackageOf(ix, n), v) && r == origin(u);
        assert n in ks;
      }
    }
  }

  /**
   * The registries `visit` collects are the origins of every URL of every
   * unscoped package, each listed once, whatever the order of the index.
   */
  lemma RegistriesAre(ix: Index, origin: string -> string)
    requires WellFormed(ix)
    ensures Distinct(Registries(ix, origin))
    ensures Elems(Registries(ix, origin)) == RegistrySet(ix, origin)
    ensures |Registries(ix, origin)| == |RegistrySet(ix, origin)|
  {
    var regs := Registries(ix, origin);
    IndexRegistriesFacts([], ix, ix.keys, origin, "");
    forall r | r in RegistrySet(ix, origin)
      ensures r in regs
    {
      IndexRegistriesFacts([], ix, ix.keys, origin, r);
      var n, v, u :| n in ix.m && Unscoped(n) && v in ix.m[n].versions.m && u in ix.m[n].versions.m[v] && r == origin(u);
      assert n in ix.keys && v in PackageOf(ix, n).versions.keys && u in UrlsIn(PackageOf(ix, n), v);
    }
    forall r | r in regs
      ensures r in RegistrySet(ix, origin)
    {
      IndexRegistriesFacts([], ix, ix.keys, origin, r);
      var n, v, u :| n in ix.keys && Unscoped(n) && v in PackageOf(ix, n).versions.keys && u in UrlsIn(PackageOf(ix, n), v) && r == origin(u);
      assert n in ix.m && v in ix.m[n].versions.m && u in ix.m[n].versions.m[v];
    }
    DistinctCard(regs);
  }

  /** Listing distinct registries names each one once. */
  lemma {:induction false} ItemsCount(s: seq<string>, x: string)
    requires Distinct(s)
    ensures multiset(Items(s))[Line(NoTag, Item(x))] == if x in s then 1 else 0
  {
    if s != [] {
      var init := s[..|s| - 1];
      assert Items(s) == Items(init) + [Line(NoTag, Item(s[|s| - 1]))];
      ItemsCount(init, x);
      assert x in s <==> x in init || x == s[|s| - 1];
      assert s[|s| - 1] !in init;
    }
  }

  /**
   * Exactly one warning iff the number of registries is not one (no
   * registry at all included); each registry is listed once under it, and
   * once more under the verbose heading.
   */
  lemma WarnsUnlessOne(ix: Index, origin: string -> string, verbose: bool, r: string)
    requires WellFormed(ix)
    ensures multiset(RegistryLines(Registries(ix, origin), verbose))[Line(WarnTag, MultipleRegistries)]
      == if |RegistrySet(ix, origin)| != 1 then 1 else 0
    ensures multiset(RegistryLines(Registries(ix, origin), verbose))[Line(NoTag, Item(r))]
      == if r in RegistrySet(ix, origin) then (if verbose then 1 else 0) + (if |RegistrySet(ix, origin)| != 1 then 1 else 0) else 0
  {
    var regs := Registries(ix, origin);
    RegistriesAre(ix, origin);
    ItemsCount(regs, r);
    assert Line(WarnTag, MultipleRegistries) !in Items(regs);
  }

  /** The registries, and so the warning, depend only on the index's contents, not on its order. */
  lemma OrderIndependent(a: Index, b: Index, origin: string -> string)
    requires WellFormed(a) && WellFormed(b) && a.m == b.m
    ensures Elems(Registries(a, origin)) == Elems(Registries(b, origin))
    ensures |Registries(a, origin)| == |Registries(b, origin)|
  {
    RegistriesAre(a, origin);
    RegistriesAre(b, origin);
  }

  /** The registries do not depend on any scoped package. */
  lemma {:induction false} ScopedIgnoredUpTo(acc: seq<string>, a: Index, b: Index, ks: seq<string>, origin: string -> string)
    requires forall k :: k in ks && Unscoped(k) ==> PackageOf(a, k) == PackageOf(b, k)
    ensures IndexRegistries(acc, a, ks, origin) == IndexRegistries(acc, b, ks, origin)
  {
    if ks != [] {
      var init := ks[..|ks| - 1];
      assert forall k :: k in init ==> k in ks;
      ScopedIgnoredUpTo(acc, a, b, init, origin);
    }
  }

  /** Adding or replacing a scoped package leaves the collected registries exactly as they were. */
  lemma ScopedIgnored(ix: Index, n: string, vs: VersionSet, origin: string -> string)
    requires !Unscoped(n)
    ensures Registries(ix.Put(n, vs), origin) == Registries(ix, origin)
  {
    var ix' := ix.Put(n, vs);
    ScopedIgnoredUpTo([], ix', ix, ix.keys, origin);
    if n !in ix.m {
      assert ix'.keys == ix.keys + [n];
      assert ix'.keys[..|ix'.keys| - 1] == ix.keys;
    }
  }
}
