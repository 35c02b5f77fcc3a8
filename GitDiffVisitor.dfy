/**
 * src/visitors/GitDiffVisitor.ts: the packages the current lock adds and
 * removes relative to the staged one, then a block per package on both
 * sides whose versions or URLs changed. Obtaining and parsing the staged
 * lock (`git show`, `JSON.parse`) is the parameter `head`: `None` when it
 * failed.
 */
module GitDiffVisitor {
  import opened Wrappers
  import opened Ordered
  import opened Lock
  import opened Versions
  import opened Logging
  import opened VisitorBase

  /** Lines 67-68: the URL sets differ in size, or some current URL is not a previous one. */
  predicate UrlsDiffer(urls: seq<string>, was: seq<string>) {
    |urls| != |was| || !(forall u :: u in urls ==> u in was)
  }

  /** Lines 63-69: the versions among `ks` that `head` also has, with different URLs. */
  function ChangedIn(pkg: VersionSet, head: VersionSet, ks: seq<string>): (r: seq<string>)
    ensures forall v :: v in r <==> v in ks && v in head.versions.m && UrlsDiffer(UrlsIn(pkg, v), head.versions.m[v])
    ensures Distinct(ks) ==> Distinct(r)
  {
    if ks == [] then []
    else
      var v := ks[|ks| - 1];
      ChangedIn(pkg, head, ks[..|ks| - 1])
        + (if v in head.versions.m && UrlsDiffer(UrlsIn(pkg, v), head.versions.m[v]) then [v] else [])
  }

  /** Lines 77-82: a line per new version. */
  function NewVersionLines(vs: seq<string>): seq<Line> {
    seq(|vs|, i requires 0 <= i < |vs| => Line(NoTag, NewVersion(vs[i])))
  }

  /** Lines 86-91: a line per removed version. */
  function OldVersionLines(vs: seq<string>): seq<Line> {
    seq(|vs|, i requires 0 <= i < |vs| => Line(NoTag, OldVersion(vs[i])))
  }

  /** Lines 108-115: a line per added URL. */
  function UrlNewLines(us: seq<string>): seq<Line> {
    seq(|us|, i requires 0 <= i < |us| => Line(NoTag, UrlNew(us[i])))
  }

  /** Lines 117-124: a line per removed URL. */
  function UrlGoneLines(us: seq<string>): seq<Line> {
    seq(|us|, i requires 0 <= i < |us| => Line(NoTag, UrlGone(us[i])))
  }

  /** Lines 102-124: a changed version's heading, its added URLs, then its removed URLs. */
  function UrlChangeBlock(v: string, urls: seq<string>, was: seq<string>): seq<Line> {
    [Line(NoTag, UrlChange(v))] + UrlNewLines(Minus(urls, was)) + UrlGoneLines(Minus(was, urls))
  }

  /** Lines 95-125 for the changed versions `vs`, in order. */
  function ChangedLines(pkg: VersionSet, head: VersionSet, vs: seq<string>): seq<Line> {
    if vs == [] then []
    else
      var v := vs[|vs| - 1];
      ChangedLines(pkg, head, vs[..|vs| - 1]) + UrlChangeBlock(v, UrlsIn(pkg, v), UrlsIn(head, v))
  }

  /** Lines 59-129 for a package on both sides: nothing unless something changed. */
  function PackageLines(name: string, pkg: VersionSet, head: VersionSet): seq<Line> {
    var newVersions := Missing(pkg.versions.keys, head.versions);
    var removedVersions := Missing(head.versions.keys, pkg.versions);
    var changedVersions := ChangedIn(pkg, head, pkg.versions.keys);
    if newVersions == [] && changedVersions == [] && removedVersions == [] then []
    else
      [Line(InfoTag, PackageChanged(name))] + NewVersionLines(newVersions) + OldVersionLines(removedVersions)
      + ChangedLines(pkg, head, changedVersions) + [Line(NoTag, Blank)]
  }

  /** Lines 56-131 for the current packages `ks`; a package the head lacks gets no block. */
  function BlocksUpTo(cur: Index, head: Index, ks: seq<string>): seq<Line> {
    if ks == [] then []
    else
      var n := ks[|ks| - 1];
      BlocksUpTo(cur, head, ks[..|ks| - 1]) + (if n in head.m then PackageLines(n, PackageOf(cur, n), head.m[n]) else [])
  }

  /** Lines 41-54: the new and the removed packages, each line only when its list is not empty. */
  function Summary(cur: Index, head: Index): seq<Line> {
    var newPackages := Missing(cur.keys, head);
    var removedPackages := Missing(head.keys, cur);
    (if |newPackages| > 0 then [Line(InfoTag, NewPackages(newPackages))] else [])
    + (if |removedPackages| > 0 then [Line(InfoTag, RemovedPackages(removedPackages))] else [])
  }

  /** Everything `visit` writes once both indexes exist. */
  function GitDiffLines(cur: Index, head: Index): seq<Line> {
    Summary(cur, head) + BlocksUpTo(cur, head, cur.keys)
  }

  /** Lines 15-134: nothing when the staged lock could not be obtained. */
  function GitDiffOutput(data: PackageLock, head: Option<PackageLock>): seq<Line> {
    match head
    case None => []
    case Some(h) => GitDiffLines(VersionsOf(data.dependencies), VersionsOf(h.dependencies))
  }

  /** `visit` (lines 15-134). */
  method Visit(visitor: Visitor, data: PackageLock, head: Option<PackageLock>)
    modifies visitor.log
    ensures visitor.log.out == old(visitor.log.out) + GitDiffOutput(data, head)
    ensures visitor.log.warnings == old(visitor.log.warnings) && visitor.log.errors == old(visitor.log.errors)
  {
    if head.None? {
      return;
    }
    var headData := head.value;
    var current := new VersionIndex();
    if data.dependencies.Some? {
      ComputeVersions(data.dependencies.value, current);
    }
    var staged := new VersionIndex();
    if headData.dependencies.Some? {
      ComputeVersions(headData.dependencies.value, staged);
    }
    var dataVersions, headVersions := current.Value(), staged.Value();
    var log := visitor.log;
    ghost var out0 := log.out;
    ReportSummary(log, dataVersions, headVersions);
    ReportBlocks(log, dataVersions, headVersions);
    AppendTwo(out0, Summary(dataVersions, headVersions), BlocksUpTo(dataVersions, headVersions, dataVersions.keys));
  }

  /** Lines 41-54. */
  method ReportSummary(log: Logger, cur: Index, head: Index)
    modifies log
    ensures log.out == old(log.out) + Summary(cur, head)
    ensures log.warnings == old(log.warnings) && log.errors == old(log.errors)
  {
    var newPackages := Missing(cur.keys, head);
    var removedPackages := Missing(head.keys, cur);
    if |newPackages| > 0 {
      log.Info(NewPackages(newPackages));
    }
    if |removedPackages| > 0 {
      log.Info(RemovedPackages(removedPackages));
    }
  }

  /** Lines 56-131. */
  method ReportBlocks(log: Logger, cur: Index, head: Index)
    modifies log
    ensures log.out == old(log.out) + BlocksUpTo(cur, head, cur.keys)
    ensures log.warnings == old(log.warnings) && log.errors == old(log.errors)
  {
    var keys := cur.keys;
    for i := 0 to |keys|
      invariant log.out == old(log.out) + BlocksUpTo(cur, head, keys[..i])
      invariant log.warnings == old(log.warnings) && log.errors == old(log.errors)
    {
      var name := keys[i];
      BlocksStep(cur, head, keys, i);
      if name in head.m {
        var headPkg := head.m[name];
        ReportPackage(log, name, PackageOf(cur, name), headPkg);
        AppendTwo(old(log.out), BlocksUpTo(cur, head, keys[..i]), PackageLines(name, PackageOf(cur, name), headPkg));
      }
    }
    assert keys[..|keys|] == keys;
  }

  /** One more current package adds its block, or nothing when the head lacks it. */
  lemma BlocksStep(cur: Index, head: Index, keys: seq<string>, i: nat)
    requires i < |keys|
    ensures keys[i] !in head.m ==> BlocksUpTo(cur, head, keys[..i + 1]) == BlocksUpTo(cur, head, keys[..i])
    ensures keys[i] in head.m ==>
      BlocksUpTo(cur, head, keys[..i + 1]) == BlocksUpTo(cur, head, keys[..i]) + PackageLines(keys[i], PackageOf(cur, keys[i]), head.m[keys[i]])
  {
    assert keys[..i + 1][..i] == keys[..i];
  }

  /** Lines 59-129 for one package on both sides. */
  method ReportPackage(log: Logger, name: string, pkg: VersionSet, headPkg: VersionSet)
    modifies log
    ensures log.out == old(log.out) + PackageLines(name, pkg, headPkg)
    ensures log.warnings == old(log.warnings) && log.errors == old(log.errors)
  {
    var newVersions := Missing(pkg.versions.keys, headPkg.versions);
    var removedVersions := Missing(headPkg.versions.keys, pkg.versions);
    var changedVersions := ChangedIn(pkg, headPkg, pkg.versions.keys);
    if |newVersions| > 0 || |changedVersions| > 0 || |removedVersions| > 0 {
      log.Info(PackageChanged(name));
      ListNewVersions(log, newVersions);
      ListOldVersions(log, removedVersions);
      ReportChanged(log, pkg, headPkg, changedVersions);
      log.Empty();
      AppendFive(old(log.out), [Line(InfoTag, PackageChanged(name))], NewVersionLines(newVersions),
        OldVersionLines(removedVersions), ChangedLines(pkg, headPkg, changedVersions), [Line(NoTag, Blank)]);
    }
  }

  /** Lines 76-83. */
  method ListNewVersions(log: Logger, newVersions: seq<string>)
    modifies log
    ensures log.out == old(log.out) + NewVersionLines(newVersions)
    ensures log.warnings == old(log.warnings) && log.errors == old(log.errors)
  {
    for k := 0 to |newVersions|
      invariant log.out == old(log.out) + NewVersionLines(newVersions[..k])
      invariant log.warnings == old(log.warnings) && log.errors == old(log.errors)
    {
      log.Log(NewVersion(newVersions[k]));
      assert NewVersionLines(newVersions[..k + 1]) == NewVersionLines(newVersions[..k]) + [Line(NoTag, NewVersion(newVersions[k]))];
      AppendTwo(old(log.out), NewVersionLines(newVersions[..k]), [Line(NoTag, NewVersion(newVersions[k]))]);
    }
    assert newVersions[..|newVersions|] == newVersions;
  }

  /** Lines 85-92. */
  method ListOldVersions(log: Logger, removedVersions: seq<string>)
    modifies log
    ensures log.out == old(log.out) + OldVersionLines(removedVersions)
    ensures log.warnings == old(log.warnings) && log.errors == old(log.errors)
  {
    for k := 0 to |removedVersions|
      invariant log.out == old(log.out) + OldVersionLines(removedVersions[..k])
      invariant log.warnings == old(log.warnings) && log.errors == old(log.errors)
    {
      log.Log(OldVersion(removedVersions[k]));
      assert OldVersionLines(removedVersions[..k + 1]) == OldVersionLines(removedVersions[..k]) + [Line(NoTag, OldVersion(removedVersions[k]))];
      AppendTwo(old(log.out), OldVersionLines(removedVersions[..k]), [Line(NoTag, OldVersion(removedVersions[k]))]);
    }
    assert removedVersions[..|removedVersions|] == removedVersions;
  }

  /**
   * Lines 94-126: each changed version in order. Every changed version is
   * one the head has, so the lookup of line 96 always succeeds and the
   * `continue` of lines 98-100 is never taken: here the lookup is a checked
   * map access.
   */
  method ReportChanged(log: Logger, pkg: VersionSet, headPkg: VersionSet, changedVersions: seq<string>)
    requires forall v :: v in changedVersions ==> v in headPkg.versions.m
    modifies log
    ensures log.out == old(log.out) + ChangedLines(pkg, headPkg, changedVersions)
    ensures log.warnings == old(log.warnings) && log.errors == old(log.errors)
  {
    for j := 0 to |changedVersions|
      invariant log.out == old(log.out) + ChangedLines(pkg, headPkg, changedVersions[..j])
      invariant log.warnings == old(log.warnings) && log.errors == old(log.errors)
    {
      assert changedVersions[..j + 1][..j] == changedVersions[..j];
      var v := changedVersions[j];
      var urls := UrlsIn(pkg, v);
      var oldVersion := headPkg.versions.m[v];
      ReportUrlChange(log, v, urls, oldVersion);
      AppendTwo(old(log.out), ChangedLines(pkg, headPkg, changedVersions[..j]), UrlChangeBlock(v, urls, UrlsIn(headPkg, v)));
    }
    assert changedVersions[..|changedVersions|] == changedVersions;
  }

  /** Lines 102-124 for one changed version. */
  method ReportUrlChange(log: Logger, v: string, urls: seq<string>, oldVersion: seq<string>)
    modifies log
    ensures log.out == old(log.out) + UrlChangeBlock(v, urls, oldVersion)
    ensures log.warnings == old(log.warnings) && log.errors == old(log.errors)
  {
    log.Log(UrlChange(v));
    ListUrlNew(log, urls, oldVersion);
    ListUrlGone(log, oldVersion, urls);
    AppendThree(old(log.out), [Line(NoTag, UrlChange(v))], UrlNewLines(Minus(urls, oldVersion)), UrlGoneLines(Minus(oldVersion, urls)));
  }

  /** Lines 108-115: the URLs of `urls` that `oldVersion` lacks, in order. */
  method ListUrlNew(log: Logger, urls: seq<string>, oldVersion: seq<string>)
    modifies log
    ensures log.out == old(log.out) + UrlNewLines(Minus(urls, oldVersion))
    ensures log.warnings == old(log.warnings) && log.errors == old(log.errors)
  {
    for k := 0 to |urls|
      invariant log.out == old(log.out) + UrlNewLines(Minus(urls[..k], oldVersion))
      invariant log.warnings == old(log.warnings) && log.errors == old(log.errors)
    {
      assert urls[..k + 1] == urls[..k] + [urls[k]];
      MinusSnoc(urls[..k], urls[k], oldVersion);
      if urls[k] !in oldVersion {
        log.Log(UrlNew(urls[k]));
        assert UrlNewLines(Minus(urls[..k + 1], oldVersion)) == UrlNewLines(Minus(urls[..k], oldVersion)) + [Line(NoTag, UrlNew(urls[k]))];
        AppendTwo(old(log.out), UrlNewLines(Minus(urls[..k], oldVersion)), [Line(NoTag, UrlNew(urls[k]))]);
      }
    }
    assert urls[..|urls|] == urls;
  }

  /** Lines 117-124: the URLs of `oldVersion` that `urls` lacks, in order. */
  method ListUrlGone(log: Logger, oldVersion: seq<string>, urls: seq<string>)
    modifies log
    ensures log.out == old(log.out) + UrlGoneLines(Minus(oldVersion, urls))
    ensures log.warnings == old(log.warnings) && log.errors == old(log.errors)
  {
    for k := 0 to |oldVersion|
      invariant log.out == old(log.out) + UrlGoneLines(Minus(oldVersion[..k], urls))
      invariant log.warnings == old(log.warnings) && log.errors == old(log.errors)
    {
      assert oldVersion[..k + 1] == oldVersion[..k] + [oldVersion[k]];
      MinusSnoc(oldVersion[..k], oldVersion[k], urls);
      if oldVersion[k] !in urls {
        log.Log(UrlGone(oldVersion[k]));
        assert UrlGoneLines(Minus(oldVersion[..k + 1], urls)) == UrlGoneLines(Minus(oldVersion[..k], urls)) + [Line(NoTag, UrlGone(oldVersion[k]))];
        AppendTwo(old(log.out), UrlGoneLines(Minus(oldVersion[..k], urls)), [Line(NoTag, UrlGone(oldVersion[k]))]);
      }
    }
    assert oldVersion[..|oldVersion|] == oldVersion;
  }

  /** Lines 67-68 on URL lists without repetitions: "different size or not a subset" is exactly "different sets". */
  lemma SizeOrSubset(urls: seq<string>, was: seq<string>)
    requires Distinct(urls) && Distinct(was)
    ensures UrlsDiffer(urls, was) <==> Elems(urls) != Elems(was)
  {
    DistinctCard(urls);
    DistinctCard(was);
    var a, b := Elems(urls), Elems(was);
    if |urls| != |was| {
      assert |a| != |b|;
    } else if u :| u in urls && u !in was {
      assert u in a && u !in b;
    } else {
      assert a <= b;
      assert b == a + (b - a);
      assert |b| == |a| + |b - a|;
      assert b - a == {};
    }
  }

  /** No version changed its URLs exactly when every version on both sides keeps the same set of URLs. */
  lemma ChangedNone(pkg: VersionSet, head: VersionSet)
    requires Sane(pkg) && Sane(head)
    ensures ChangedIn(pkg, head, pkg.versions.keys) == [] <==>
      forall v :: v in pkg.versions.m && v in head.versions.m ==> Elems(pkg.versions.m[v]) == Elems(head.versions.m[v])
  {
    var r := ChangedIn(pkg, head, pkg.versions.keys);
    if r != [] {
      var v := r[0];
      assert v in r;
      SizeOrSubset(pkg.versions.m[v], head.versions.m[v]);
    } else if v :| v in pkg.versions.m && v in head.versions.m && Elems(pkg.versions.m[v]) != Elems(head.versions.m[v]) {
      SizeOrSubset(pkg.versions.m[v], head.versions.m[v]);
    }
  }

  /**
   * A package on both sides gets a block exactly when its versions or the
   * URLs of a version changed; the block opens with the package's header
   * and ends with one empty line.
   */
  lemma BlockIffChanged(name: string, pkg: VersionSet, head: VersionSet)
    requires Sane(pkg) && Sane(head)
    ensures PackageLines(name, pkg, head) != [] <==> !SameVersions(pkg, head)
    ensures PackageLines(name, pkg, head) != [] ==>
      PackageLines(name, pkg, head)[0] == Line(InfoTag, PackageChanged(name))
      && PackageLines(name, pkg, head)[|PackageLines(name, pkg, head)| - 1] == Line(NoTag, Blank)
  {
    PackageLinesEnds(name, pkg, head);
    if SameVersions(pkg, head) {
      SameNothingNew(pkg, head);
    } else {
      ChangedSomething(pkg, head);
    }
  }

  /** Unchanged versions and URL sets: no version is new, removed or changed. */
  lemma SameNothingNew(pkg: VersionSet, head: VersionSet)
    requires Sane(pkg) && Sane(head) && SameVersions(pkg, head)
    ensures Missing(pkg.versions.keys, head.versions) == [] && Missing(head.versions.keys, pkg.versions) == []
    ensures ChangedIn(pkg, head, pkg.versions.keys) == []
  {
    MissingNone(pkg.versions.keys, head.versions);
    MissingNone(head.versions.keys, pkg.versions);
    ChangedNone(pkg, head);
  }

  /** Some difference in versions or URL sets: some version is new, removed or changed. */
  lemma ChangedSomething(pkg: VersionSet, head: VersionSet)
    requires Sane(pkg) && Sane(head) && !SameVersions(pkg, head)
    ensures Missing(pkg.versions.keys, head.versions) != [] || Missing(head.versions.keys, pkg.versions) != []
      || ChangedIn(pkg, head, pkg.versions.keys) != []
  {
    if v :| v in pkg.versions.m && v !in head.versions.m {
      assert v in Missing(pkg.versions.keys, head.versions);
    } else if v :| v in head.versions.m && v !in pkg.versions.m {
      assert v in Missing(head.versions.keys, pkg.versions);
    } else {
      var v :| v in pkg.versions.m && Elems(pkg.versions.m[v]) != Elems(head.versions.m[v]);
      ChangedNone(pkg, head);
    }
  }

  /** A package's block is empty exactly when no version is new, removed or changed; otherwise it opens with the header and ends with an empty line. */
  lemma PackageLinesEnds(name: string, pkg: VersionSet, head: VersionSet)
    ensures PackageLines(name, pkg, head) == [] <==>
      Missing(pkg.versions.keys, head.versions) == [] && Missing(head.versions.keys, pkg.versions) == []
      && ChangedIn(pkg, head, pkg.versions.keys) == []
    ensures PackageLines(name, pkg, head) != [] ==>
      PackageLines(name, pkg, head)[0] == Line(InfoTag, PackageChanged(name))
      && PackageLines(name, pkg, head)[|PackageLines(name, pkg, head)| - 1] == Line(NoTag, Blank)
  {
  }

  /** Every line of a changed version's block is untagged. */
  lemma {:induction false} ChangedLinesUntagged(pkg: VersionSet, head: VersionSet, vs: seq<string>)
    ensures forall l :: l in ChangedLines(pkg, head, vs) ==> l.level == NoTag
  {
    if vs != [] {
      ChangedLinesUntagged(pkg, head, vs[..|vs| - 1]);
    }
  }

  lemma VersionLinesUntagged(vs: seq<string>)
    ensures forall l :: l in NewVersionLines(vs) ==> l.level == NoTag
    ensures forall l :: l in OldVersionLines(vs) ==> l.level == NoTag
  {
  }

  /** A package's block holds its own header once and no other package's header. */
  lemma PackageLinesShape(name: string, pkg: VersionSet, head: VersionSet, n: string)
    ensures multiset(PackageLines(name, pkg, head))[Line(InfoTag, PackageChanged(n))]
      == if n == name && PackageLines(name, pkg, head) != [] then 1 else 0
  {
    var newVersions := Missing(pkg.versions.keys, head.versions);
    var removedVersions := Missing(head.versions.keys, pkg.versions);
    var changedVersions := ChangedIn(pkg, head, pkg.versions.keys);
    var header := Line(InfoTag, PackageChanged(n));
    var a, b, c := NewVersionLines(newVersions), OldVersionLines(removedVersions), ChangedLines(pkg, head, changedVersions);
    ChangedLinesUntagged(pkg, head, changedVersions);
    VersionLinesUntagged(newVersions);
    VersionLinesUntagged(removedVersions);
    assert header !in a && header !in b && header !in c;
    if PackageLines(name, pkg, head) != [] {
      assert PackageLines(name, pkg, head) == [Line(InfoTag, PackageChanged(name))] + a + b + c + [Line(NoTag, Blank)];
    }
  }

  /** The blocks of the current packages `ks`: each header at most once, for a package the head has and that changed. */
  lemma {:induction false} BlocksHeaders(cur: Index, head: Index, ks: seq<string>, n: string)
    requires Distinct(ks)
    ensures multiset(BlocksUpTo(cur, head, ks))[Line(InfoTag, PackageChanged(n))]
      == if n in ks && n in head.m && PackageLines(n, PackageOf(cur, n), head.m[n]) != [] then 1 else 0
  {
    if ks != [] {
      var init, k := ks[..|ks| - 1], ks[|ks| - 1];
      assert ks == init + [k];
      DistinctSplit(init, [k]);
      BlocksHeaders(cur, head, init, n);
      if k in head.m {
        PackageLinesShape(k, PackageOf(cur, k), head.m[k], n);
      }
    }
  }

  /**
   * Lines 56-74: exactly one "changed" header for each package on both
   * sides whose versions or URLs changed; none for a package only the
   * current lock has, nor for an unchanged one.
   */
  lemma HeadersExact(cur: Index, head: Index, n: string)
    requires WellFormed(cur) && WellFormed(head)
    ensures multiset(GitDiffLines(cur, head))[Line(InfoTag, PackageChanged(n))]
      == if n in cur.m && n in head.m && !SameVersions(cur.m[n], head.m[n]) then 1 else 0
  {
    BlocksHeaders(cur, head, cur.keys, n);
    SummaryHasNoHeader(cur, head, n);
    if n in cur.m && n in head.m {
      BlockIffChanged(n, cur.m[n], head.m[n]);
    }
  }

  /** The summary names no changed package. */
  lemma SummaryHasNoHeader(cur: Index, head: Index, n: string)
    ensures multiset(Summary(cur, head))[Line(InfoTag, PackageChanged(n))] == 0
  {
    assert Line(InfoTag, PackageChanged(n)) !in Summary(cur, head);
  }

  /**
   * Lines 41-54: the new packages are the current ones the head lacks and
   * the removed packages the reverse, each once; there is no summary line
   * exactly when both locks name the same packages.
   */
  lemma SummaryExact(cur: Index, head: Index)
    requires cur.Valid() && head.Valid()
    ensures Distinct(Missing(cur.keys, head)) && Elems(Missing(cur.keys, head)) == cur.m.Keys - head.m.Keys
    ensures Distinct(Missing(head.keys, cur)) && Elems(Missing(head.keys, cur)) == head.m.Keys - cur.m.Keys
    ensures Summary(cur, head) == [] <==> cur.m.Keys == head.m.Keys
  {
    MissingKeys(cur, head);
    MissingKeys(head, cur);
    SummaryEmpty(cur, head);
  }

  /** No summary line exactly when nothing is new and nothing is removed. */
  lemma SummaryEmpty(cur: Index, head: Index)
    ensures Summary(cur, head) == [] <==> Missing(cur.keys, head) == [] && Missing(head.keys, cur) == []
  {
  }

  lemma UrlLinesCount(us: seq<string>, u: string)
    requires Distinct(us)
    ensures multiset(UrlNewLines(us))[Line(NoTag, UrlNew(u))] == if u in us then 1 else 0
    ensures multiset(UrlGoneLines(us))[Line(NoTag, UrlGone(u))] == if u in us then 1 else 0
  {
    if u in us {
      var i :| 0 <= i < |us| && us[i] == u;
      assert UrlNewLines(us)[i] == Line(NoTag, UrlNew(u));
      assert UrlGoneLines(us)[i] == Line(NoTag, UrlGone(u));
    }
    DistinctCount(UrlNewLines(us), Line(NoTag, UrlNew(u)));
    DistinctCount(UrlGoneLines(us), Line(NoTag, UrlGone(u)));
  }

  /** Lines 102-124: a changed version lists each URL it gained once and each URL it lost once, and no other. */
  lemma UrlChangeExact(v: string, urls: seq<string>, was: seq<string>, u: string)
    requires Distinct(urls) && Distinct(was)
    ensures multiset(UrlChangeBlock(v, urls, was))[Line(NoTag, UrlNew(u))] == if u in urls && u !in was then 1 else 0
    ensures multiset(UrlChangeBlock(v, urls, was))[Line(NoTag, UrlGone(u))] == if u in was && u !in urls then 1 else 0
  {
    MinusFacts(urls, was);
    MinusFacts(was, urls);
    UrlLinesCount(Minus(urls, was), u);
    UrlLinesCount(Minus(was, urls), u);
    assert Line(NoTag, UrlNew(u)) !in UrlGoneLines(Minus(was, urls));
    assert Line(NoTag, UrlGone(u)) !in UrlNewLines(Minus(urls, was));
  }

  lemma {:induction false} SelfBlocksEmpty(ix: Index, ks: seq<string>)
    requires WellFormed(ix) && forall k :: k in ks ==> k in ix.m
    ensures BlocksUpTo(ix, ix, ks) == []
  {
    if ks != [] {
      var init, k := ks[..|ks| - 1], ks[|ks| - 1];
      assert forall j :: j in init ==> j in ks;
      SelfBlocksEmpty(ix, init);
      BlockIffChanged(k, ix.m[k], ix.m[k]);
    }
  }

  /** Comparing a lock with itself writes nothing. */
  lemma SelfGitDiffEmpty(ix: Index)
    requires WellFormed(ix)
    ensures GitDiffLines(ix, ix) == []
  {
    SummaryExact(ix, ix);
    SelfBlocksEmpty(ix, ix.keys);
  }
}
