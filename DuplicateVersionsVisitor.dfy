/**
 * src/visitors/DuplicateVersionsVisitor.ts: a warning for every package
 * version bound to more than one URL, followed by those URLs.
 */
module DuplicateVersionsVisitor {
  import opened Wrappers
  import opened Ordered
  import opened Lock
  import opened Versions
  import opened Logging
  import opened VisitorBase

  /** What one version contributes: a warning, its URLs, an empty line; nothing unless it has several URLs. */
  function Report(name: string, version: string, urls: seq<string>): seq<Line> {
    if |urls| > 1 then [Line(WarnTag, MultipleUrls(name, version))] + Items(urls) + [Line(NoTag, Blank)] else []
  }

  /** The reports of the versions `ks` of `pkg`, in order. */
  function VersionLines(pkg: VersionSet, ks: seq<string>): seq<Line> {
    if ks == [] then []
    else VersionLines(pkg, ks[..|ks| - 1]) + Report(pkg.name, ks[|ks| - 1], UrlsIn(pkg, ks[|ks| - 1]))
  }

  /** What one package contributes. */
  function PackageReport(pkg: VersionSet): seq<Line> {
    VersionLines(pkg, pkg.versions.keys)
  }

  /** The reports of the packages `ks` of `ix`, in order. */
  function IndexLines(ix: Index, ks: seq<string>): seq<Line> {
    if ks == [] then [] else IndexLines(ix, ks[..|ks| - 1]) + PackageReport(PackageOf(ix, ks[|ks| - 1]))
  }

  /** Everything `visit` writes for index `ix`. */
  function DuplicateLines(ix: Index): seq<Line> {
    IndexLines(ix, ix.keys)
  }

  /** How many of the versions `ks` of `pkg` have several URLs. */
  function VersionFlags(pkg: VersionSet, ks: seq<string>): nat {
    if ks == [] then 0
    else VersionFlags(pkg, ks[..|ks| - 1]) + (if |UrlsIn(pkg, ks[|ks| - 1])| > 1 then 1 else 0)
  }

  /** How many versions of the packages `ks` of `ix` have several URLs. */
  function IndexFlags(ix: Index, ks: seq<string>): nat {
    if ks == [] then 0
    else IndexFlags(ix, ks[..|ks| - 1]) + VersionFlags(PackageOf(ix, ks[|ks| - 1]), PackageOf(ix, ks[|ks| - 1]).versions.keys)
  }

  /** Version `v` of package `n` is bound to more than one URL. */
  predicate Flagged(ix: Index, n: string, v: string) {
    n in ix.m && v in ix.m[n].versions.m && |ix.m[n].versions.m[v]| > 1
  }

  /** The package/version pairs bound to more than one URL. */
  function FlaggedPairs(ix: Index): set<(string, string)> {
    set n, v | n in ix.m && v in ix.m[n].versions.m && Flagged(ix, n, v) :: (n, v)
  }

  /** `visit` (lines 10-30): index the lock's dependencies, then report; one warning per flagged pair. */
  method Visit(visitor: Visitor, data: PackageLock)
    modifies visitor.log
    ensures visitor.log.out == old(visitor.log.out) + DuplicateLines(VersionsOf(data.dependencies))
    ensures visitor.log.warnings == old(visitor.log.warnings) + |FlaggedPairs(VersionsOf(data.dependencies))|
    ensures visitor.log.errors == old(visitor.log.errors)
  {
    var root := new VersionIndex();
    if data.dependencies.Some? {
      ComputeVersions(data.dependencies.value, root);
    }
    var dataVersions := root.Value();
    ReportIndex(visitor.log, dataVersions);
    FoldWellFormedOf(data.dependencies);
    FlaggedCount(dataVersions);
  }

  /** Lines 15-27: the packages of the index in order. */
  method ReportIndex(log: Logger, ix: Index)
    modifies log
    ensures log.out == old(log.out) + DuplicateLines(ix)
    ensures log.warnings == old(log.warnings) + IndexFlags(ix, ix.keys)
    ensures log.errors == old(log.errors)
  {
    var keys := ix.keys;
    for i := 0 to |keys|
      invariant log.out == old(log.out) + IndexLines(ix, keys[..i])
      invariant log.warnings == old(log.warnings) + IndexFlags(ix, keys[..i])
      invariant log.errors == old(log.errors)
    {
      assert keys[..i + 1][..i] == keys[..i];
      ReportPackage(log, PackageOf(ix, keys[i]));
      AppendTwo(old(log.out), IndexLines(ix, keys[..i]), PackageReport(PackageOf(ix, keys[i])));
    }
    assert keys[..|keys|] == keys;
  }

  /** Lines 16-26: the versions of one package in order. */
  method ReportPackage(log: Logger, pkg: VersionSet)
    modifies log
    ensures log.out == old(log.out) + PackageReport(pkg)
    ensures log.warnings == old(log.warnings) + VersionFlags(pkg, pkg.versions.keys)
    ensures log.errors == old(log.errors)
  {
    var keys := pkg.versions.keys;
    for j := 0 to |keys|
      invariant log.out == old(log.out) + VersionLines(pkg, keys[..j])
      invariant log.warnings == old(log.warnings) + VersionFlags(pkg, keys[..j])
      invariant log.errors == old(log.errors)
    {
      assert keys[..j + 1][..j] == keys[..j];
      var version := keys[j];
      ReportVersion(log, pkg.name, version, UrlsIn(pkg, version));
      AppendTwo(old(log.out), VersionLines(pkg, keys[..j]), Report(pkg.name, version, UrlsIn(pkg, version)));
    }
    assert keys[..|keys|] == keys;
  }

  /** Lines 17-25: one version. */
  method ReportVersion(log: Logger, name: string, version: string, urls: seq<string>)
    modifies log
    ensures log.out == old(log.out) + Report(name, version, urls)
    ensures log.warnings == old(log.warnings) + (if |urls| > 1 then 1 else 0)
    ensures log.errors == old(log.errors)
  {
    if |urls| > 1 {
      log.Warn(MultipleUrls(name, version));
      ghost var out1 := log.out;
      for k := 0 to |urls|
        invariant log.out == out1 + Items(urls[..k])
        invariant log.warnings == old(log.warnings) + 1 && log.errors == old(log.errors)
      {
        log.Log(Item(urls[k]));
        assert Items(urls[..k + 1]) == Items(urls[..k]) + [Line(NoTag, Item(urls[k]))];
        AppendTwo(out1, Items(urls[..k]), [Line(NoTag, Item(urls[k]))]);
      }
      assert urls[..|urls|] == urls;
      log.Empty();
    }
  }

  /** The flagged pairs of package `n` among the versions `vs`, in order. */
  function VersionPairs(ix: Index, n: string, vs: seq<string>): seq<(string, string)> {
    if vs == [] then []
    else VersionPairs(ix, n, vs[..|vs| - 1]) + (if Flagged(ix, n, vs[|vs| - 1]) then [(n, vs[|vs| - 1])] else [])
  }

  /** The flagged pairs of the packages `ks`, in order. */
  function IndexPairs(ix: Index, ks: seq<string>): seq<(string, string)> {
    if ks == [] then [] else IndexPairs(ix, ks[..|ks| - 1]) + VersionPairs(ix, ks[|ks| - 1], PackageOf(ix, ks[|ks| - 1]).versions.keys)
  }

  lemma {:induction false} VersionPairsFacts(ix: Index, n: string, vs: seq<string>)
    requires Distinct(vs)
    ensures |VersionPairs(ix, n, vs)| == VersionFlags(PackageOf(ix, n), vs)
    ensures Distinct(VersionPairs(ix, n, vs))
    ensures forall m, v :: (m, v) in VersionPairs(ix, n, vs) <==> m == n && v in vs && Flagged(ix, n, v)
  {
    if vs != [] {
      var init, last := vs[..|vs| - 1], vs[|vs| - 1];
      assert vs == init + [last];
      VersionPairsFacts(ix, n, init);
    }
  }

  lemma {:induction false} IndexPairsFacts(ix: Index, ks: seq<string>)
    requires WellFormed(ix) && Distinct(ks)
    ensures |IndexPairs(ix, ks)| == IndexFlags(ix, ks)
    ensures Distinct(IndexPairs(ix, ks))
    ensures forall m, v :: (m, v) in IndexPairs(ix, ks) <==> m in ks && Flagged(ix, m, v)
  {
    if ks != [] {
      var init, last := ks[..|ks| - 1], ks[|ks| - 1];
      assert ks == init + [last];
      IndexPairsFacts(ix, init);
      var vks := PackageOf(ix, last).versions.keys;
      assert Distinct(vks) by {
        if last in ix.m {
          assert ix.m[last].versions.Valid();
        }
      }
      VersionPairsFacts(ix, last, vks);
      forall v | Flagged(ix, last, v) ensures v in vks {
        assert ix.m[last].versions.Valid();
      }
      forall x | x in IndexPairs(ix, init) ensures x !in VersionPairs(ix, last, vks) {
        assert x == (x.0, x.1);
      }
      DistinctConcat(IndexPairs(ix, init), VersionPairs(ix, last, vks));
    }
  }

  /** The warnings counted by the loops are the flagged pairs, each counted once. */
  lemma FlaggedCount(ix: Index)
    requires WellFormed(ix)
    ensures IndexFlags(ix, ix.keys) == |FlaggedPairs(ix)|
  {
    IndexPairsFacts(ix, ix.keys);
    var all := IndexPairs(ix, ix.keys);
    forall p | p in FlaggedPairs(ix) ensures p in all {
      assert Flagged(ix, p.0, p.1) && p.0 in ix.keys;
    }
    forall p | p in all ensures p in FlaggedPairs(ix) {
      assert p == (p.0, p.1);
      assert Flagged(ix, p.0, p.1);
    }
    assert Elems(all) == FlaggedPairs(ix);
    DistinctCard(all);
  }

  /** The warning `visit` writes for version `v` of package `n`. */
  function Warning(n: string, v: string): Line {
    Line(WarnTag, MultipleUrls(n, v))
  }

  lemma ReportWarnings(name: string, version: string, urls: seq<string>, n: string, v: string)
    ensures multiset(Report(name, version, urls))[Warning(n, v)] == if name == n && version == v && |urls| > 1 then 1 else 0
  {
    if |urls| > 1 {
      assert Warning(n, v) !in Items(urls);
    }
  }

  lemma {:induction false} VersionLinesWarnings(pkg: VersionSet, vs: seq<string>, n: string, v: string)
    requires Distinct(vs)
    ensures multiset(VersionLines(pkg, vs))[Warning(n, v)] == if pkg.name == n && v in vs && |UrlsIn(pkg, v)| > 1 then 1 else 0
  {
    if vs != [] {
      var init, last := vs[..|vs| - 1], vs[|vs| - 1];
      assert vs == init + [last];
      VersionLinesWarnings(pkg, init, n, v);
      ReportWarnings(pkg.name, last, UrlsIn(pkg, last), n, v);
    }
  }

  lemma {:induction false} IndexLinesWarnings(ix: Index, ks: seq<string>, n: string, v: string)
    requires WellFormed(ix) && Distinct(ks)
    ensures multiset(IndexLines(ix, ks))[Warning(n, v)] == if n in ks && Flagged(ix, n, v) then 1 else 0
  {
    if ks != [] {
      var init, last := ks[..|ks| - 1], ks[|ks| - 1];
      assert ks == init + [last];
      IndexLinesWarnings(ix, init, n, v);
      var pkg := PackageOf(ix, last);
      if last in ix.m {
        assert pkg.versions.Valid() && pkg.name == last;
      }
      VersionLinesWarnings(pkg, pkg.versions.keys, n, v);
    }
  }

  /** Exactly one warning for each flagged package version, none for any other. */
  lemma WarnedOnce(ix: Index, n: string, v: string)
    requires WellFormed(ix)
    ensures multiset(DuplicateLines(ix))[Warning(n, v)] == if (n, v) in FlaggedPairs(ix) then 1 else 0
  {
    IndexLinesWarnings(ix, ix.keys, n, v);
  }

  lemma {:induction false} VersionLinesBlock(pkg: VersionSet, vs: seq<string>, i: nat) returns (pre: seq<Line>, post: seq<Line>)
    requires i < |vs|
    ensures VersionLines(pkg, vs) == pre + Report(pkg.name, vs[i], UrlsIn(pkg, vs[i])) + post
  {
    var init := vs[..|vs| - 1];
    if i == |vs| - 1 {
      pre, post := VersionLines(pkg, init), [];
    } else {
      var pre', post' := VersionLinesBlock(pkg, init, i);
      var last := vs[|vs| - 1];
      AppendTwo(pre' + Report(pkg.name, vs[i], UrlsIn(pkg, vs[i])), post', Report(pkg.name, last, UrlsIn(pkg, last)));
      pre, post := pre', post' + Report(pkg.name, last, UrlsIn(pkg, last));
    }
  }

  lemma {:induction false} IndexLinesBlock(ix: Index, ks: seq<string>, i: nat) returns (pre: seq<Line>, post: seq<Line>)
    requires i < |ks|
    ensures IndexLines(ix, ks) == pre + PackageReport(PackageOf(ix, ks[i])) + post
  {
    var init := ks[..|ks| - 1];
    if i == |ks| - 1 {
      pre, post := IndexLines(ix, init), [];
    } else {
      var pre', post' := IndexLinesBlock(ix, init, i);
      AppendTwo(pre' + PackageReport(PackageOf(ix, ks[i])), post', PackageReport(PackageOf(ix, ks[|ks| - 1])));
      pre, post := pre', post' + PackageReport(PackageOf(ix, ks[|ks| - 1]));
    }
  }

  /** A flagged version's warning is followed, in one piece, by each of its URLs once and an empty line. */
  lemma FlaggedBlock(ix: Index, n: string, v: string)
    requires WellFormed(ix) && (n, v) in FlaggedPairs(ix)
    ensures exists pre, post :: DuplicateLines(ix) == pre + ([Warning(n, v)] + Items(UrlsOf(ix, n, v)) + [Line(NoTag, Blank)]) + post
    ensures forall u :: Line(NoTag, Item(u)) in Items(UrlsOf(ix, n, v)) <==> u in UrlsOf(ix, n, v)
    ensures Distinct(Items(UrlsOf(ix, n, v)))
  {
    var pre, post := FlaggedBlockAt(ix, n, v);
    assert Distinct(UrlsOf(ix, n, v)) by {
      assert WellFormedSet(ix.m[n]);
    }
    ItemsOnce(UrlsOf(ix, n, v));
  }

  /** Where a flagged version's block sits in the output. */
  lemma FlaggedBlockAt(ix: Index, n: string, v: string) returns (pre: seq<Line>, post: seq<Line>)
    requires WellFormed(ix) && (n, v) in FlaggedPairs(ix)
    ensures DuplicateLines(ix) == pre + ([Warning(n, v)] + Items(UrlsOf(ix, n, v)) + [Line(NoTag, Blank)]) + post
  {
    assert Flagged(ix, n, v);
    var pkg := ix.m[n];
    assert pkg.versions.Valid() && pkg.name == n;
    assert n in ix.keys && v in pkg.versions.keys;
    var i :| 0 <= i < |ix.keys| && ix.keys[i] == n;
    var j :| 0 <= j < |pkg.versions.keys| && pkg.versions.keys[j] == v;
    var pre1, post1 := IndexLinesBlock(ix, ix.keys, i);
    var pre2, post2 := VersionLinesBlock(pkg, pkg.versions.keys, j);
    var urls := UrlsOf(ix, n, v);
    assert UrlsIn(pkg, v) == urls && |urls| > 1;
    var block := [Warning(n, v)] + Items(urls) + [Line(NoTag, Blank)];
    assert PackageReport(pkg) == pre2 + block + post2;
    assert DuplicateLines(ix) == pre1 + (pre2 + block + post2) + post1;
    Nested(pre1, pre2, block, post2, post1);
    pre, post := pre1 + pre2, post2 + post1;
  }
}
