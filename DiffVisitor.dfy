/**
 * src/visitors/DiffVisitor.ts: the difference between the version index of
 * the current lock and that of a previous one, as '-' and '+' lines for
 * packages, versions and URLs. Every line is untagged (`log`); each is
 * modelled by the message it carries.
 */
module DiffVisitor {
  import opened Wrappers
  import opened Ordered
  import opened Lock
  import opened Versions
  import opened Logging
  import opened VisitorBase

  /** The console lines of untagged messages. */
  function Untagged(ms: seq<Msg>): seq<Line> {
    seq(|ms|, i requires 0 <= i < |ms| => Line(NoTag, ms[i]))
  }

  /** Lines 30-34: `- name` for each of the previous packages `ks` that the current index lacks. */
  function Removals(cur: Index, ks: seq<string>): seq<Msg> {
    if ks == [] then []
    else Removals(cur, ks[..|ks| - 1]) + (if ks[|ks| - 1] in cur.m then [] else [PackageRemoved(ks[|ks| - 1])])
  }

  /** `+ v [url]` for each of `urls`: a version the previous index lacks. */
  function PlusVersion(v: string, urls: seq<string>): seq<Msg> {
    seq(|urls|, i requires 0 <= i < |urls| => VersionAdded(v, urls[i]))
  }

  /** `- v [url]` for each of `urls`: URLs a version present on both sides lost. */
  function MinusUrls(v: string, urls: seq<string>): seq<Msg> {
    seq(|urls|, i requires 0 <= i < |urls| => UrlRemoved(v, urls[i]))
  }

  /** `+ v [url]` for each of `urls`: URLs a version present on both sides gained. */
  function PlusUrls(v: string, urls: seq<string>): seq<Msg> {
    seq(|urls|, i requires 0 <= i < |urls| => UrlAdded(v, urls[i]))
  }

  /** Lines 41-47: a new package's versions `ks`, one line per URL. */
  function FreshVersions(pkg: VersionSet, ks: seq<string>): seq<Msg> {
    if ks == [] then []
    else FreshVersions(pkg, ks[..|ks| - 1]) + PlusVersion(ks[|ks| - 1], UrlsIn(pkg, ks[|ks| - 1]))
  }

  /** Lines 53-60: `- v` for each of the previous versions `ks` that the current package lacks. */
  function DroppedVersions(pkg: VersionSet, previous: VersionSet, ks: seq<string>): seq<Msg> {
    if ks == [] then []
    else
      var v := ks[|ks| - 1];
      DroppedVersions(pkg, previous, ks[..|ks| - 1]) + (if v in pkg.versions.m then [] else [VersionRemoved(v)])
  }

  /**
   * Lines 63-92 for one current version `v` with URLs `urls`: every URL when
   * the previous package lacks the version, else the URLs it lost, then
   * those it gained.
   */
  function VersionDiff(v: string, urls: seq<string>, before: Option<seq<string>>): seq<Msg> {
    match before
    case None => PlusVersion(v, urls)
    case Some(was) => MinusUrls(v, Minus(was, urls)) + PlusUrls(v, Minus(urls, was))
  }

  /** The previous URLs of version `v`, if the previous package has it. */
  function Before(previous: VersionSet, v: string): Option<seq<string>> {
    if v in previous.versions.m then Some(previous.versions.m[v]) else None
  }

  /** Lines 62-93 for the current versions `ks`, in order. */
  function VersionDiffs(pkg: VersionSet, previous: VersionSet, ks: seq<string>): seq<Msg> {
    if ks == [] then []
    else
      var v := ks[|ks| - 1];
      VersionDiffs(pkg, previous, ks[..|ks| - 1]) + VersionDiff(v, UrlsIn(pkg, v), Before(previous, v))
  }

  /** The `messages` of lines 51-93 for a package present on both sides. */
  function Messages(pkg: VersionSet, previous: VersionSet): seq<Msg> {
    DroppedVersions(pkg, previous, previous.versions.keys) + VersionDiffs(pkg, previous, pkg.versions.keys)
  }

  /**
   * Lines 37-102 for one current package: a new package's name and every
   * version and URL; otherwise its name and messages, or nothing when there
   * are none.
   */
  function PackageMsgs(name: string, pkg: VersionSet, previous: Option<VersionSet>): seq<Msg> {
    match previous
    case None => [PackageName(name)] + FreshVersions(pkg, pkg.versions.keys)
    case Some(p) => var ms := Messages(pkg, p); if ms == [] then [] else [PackageName(name)] + ms
  }

  /** The previous version set of package `n`, if the previous index has it. */
  function PreviousOf(prev: Index, n: string): Option<VersionSet> {
    if n in prev.m then Some(prev.m[n]) else None
  }

  /** Lines 36-103 for the current packages `ks`, in order. */
  function CurrentMsgs(prev: Index, cur: Index, ks: seq<string>): seq<Msg> {
    if ks == [] then []
    else CurrentMsgs(prev, cur, ks[..|ks| - 1]) + PackageMsgs(ks[|ks| - 1], PackageOf(cur, ks[|ks| - 1]), PreviousOf(prev, ks[|ks| - 1]))
  }

  /** Everything `visit` writes: the removed packages, then a block per current package. */
  function DiffMsgs(prev: Index, cur: Index): seq<Msg> {
    Removals(cur, prev.keys) + CurrentMsgs(prev, cur, cur.keys)
  }

  /**
   * `visit` (lines 22-106) of a visitor built with `sourceData`: a missing
   * `dependencies` on either side is an empty index.
   */
  method Visit(visitor: Visitor, data: PackageLock, sourceData: PackageLock)
    modifies visitor.log
    ensures visitor.log.out == old(visitor.log.out)
      + Untagged(DiffMsgs(VersionsOf(sourceData.dependencies), VersionsOf(data.dependencies)))
    ensures visitor.log.warnings == old(visitor.log.warnings) && visitor.log.errors == old(visitor.log.errors)
  {
    var current := new VersionIndex();
    if data.dependencies.Some? {
      ComputeVersions(data.dependencies.value, current);
    }
    var previous := new VersionIndex();
    if sourceData.dependencies.Some? {
      ComputeVersions(sourceData.dependencies.value, previous);
    }
    var currentVersions, previousVersions := current.Value(), previous.Value();
    var log := visitor.log;
    ghost var out0 := log.out;
    ReportRemovals(log, currentVersions, previousVersions.keys);
    ghost var out1 := log.out;
    ReportCurrent(log, previousVersions, currentVersions);
    UntaggedAppend(Removals(currentVersions, previousVersions.keys), CurrentMsgs(previousVersions, currentVersions, currentVersions.keys));
    AppendTwo(out0, Untagged(Removals(currentVersions, previousVersions.keys)), Untagged(CurrentMsgs(previousVersions, currentVersions, currentVersions.keys)));
  }

  /** Lines 30-34. */
  method ReportRemovals(log: Logger, cur: Index, keys: seq<string>)
    modifies log
    ensures log.out == old(log.out) + Untagged(Removals(cur, keys))
    ensures log.warnings == old(log.warnings) && log.errors == old(log.errors)
  {
    for i := 0 to |keys|
      invariant log.out == old(log.out) + Untagged(Removals(cur, keys[..i]))
      invariant log.warnings == old(log.warnings) && log.errors == old(log.errors)
    {
      assert keys[..i + 1][..i] == keys[..i];
      if keys[i] !in cur.m {
        log.Log(PackageRemoved(keys[i]));
        UntaggedAppend(Removals(cur, keys[..i]), [PackageRemoved(keys[i])]);
        AppendTwo(old(log.out), Untagged(Removals(cur, keys[..i])), Untagged([PackageRemoved(keys[i])]));
      }
    }
    assert keys[..|keys|] == keys;
  }

  /** Lines 36-103. */
  method ReportCurrent(log: Logger, prev: Index, cur: Index)
    modifies log
    ensures log.out == old(log.out) + Untagged(CurrentMsgs(prev, cur, cur.keys))
    ensures log.warnings == old(log.warnings) && log.errors == old(log.errors)
  {
    var keys := cur.keys;
    for i := 0 to |keys|
      invariant log.out == old(log.out) + Untagged(CurrentMsgs(prev, cur, keys[..i]))
      invariant log.warnings == old(log.warnings) && log.errors == old(log.errors)
    {
      var name := keys[i];
      ReportPackage(log, name, PackageOf(cur, name), PreviousOf(prev, name));
      CurrentStep(prev, cur, keys, i);
      AppendTwo(old(log.out), Untagged(CurrentMsgs(prev, cur, keys[..i])), Untagged(PackageMsgs(name, PackageOf(cur, name), PreviousOf(prev, name))));
    }
    assert keys[..|keys|] == keys;
  }

  /** The lines of one more current package follow those of the packages before it. */
  lemma CurrentStep(prev: Index, cur: Index, keys: seq<string>, i: nat)
    requires i < |keys|
    ensures Untagged(CurrentMsgs(prev, cur, keys[..i + 1]))
      == Untagged(CurrentMsgs(prev, cur, keys[..i])) + Untagged(PackageMsgs(keys[i], PackageOf(cur, keys[i]), PreviousOf(prev, keys[i])))
  {
    assert keys[..i + 1][..i] == keys[..i];
    UntaggedAppend(CurrentMsgs(prev, cur, keys[..i]), PackageMsgs(keys[i], PackageOf(cur, keys[i]), PreviousOf(prev, keys[i])));
  }

  /** Lines 37-102 for one package. */
  method ReportPackage(log: Logger, name: string, pkg: VersionSet, previous: Option<VersionSet>)
    modifies log
    ensures log.out == old(log.out) + Untagged(PackageMsgs(name, pkg, previous))
    ensures log.warnings == old(log.warnings) && log.errors == old(log.errors)
  {
    if previous.None? {
      log.Log(PackageName(name));
      ReportFresh(log, pkg);
      UntaggedAppend([PackageName(name)], FreshVersions(pkg, pkg.versions.keys));
      AppendTwo(old(log.out), Untagged([PackageName(name)]), Untagged(FreshVersions(pkg, pkg.versions.keys)));
    } else {
      var messages := CollectMessages(pkg, previous.value);
      if |messages| > 0 {
        log.Log(PackageName(name));
        PrintAll(log, messages);
        UntaggedAppend([PackageName(name)], messages);
        AppendTwo(old(log.out), Untagged([PackageName(name)]), Untagged(messages));
      }
    }
  }

  /** Lines 41-47: every version of a new package, one line per URL. */
  method ReportFresh(log: Logger, pkg: VersionSet)
    modifies log
    ensures log.out == old(log.out) + Untagged(FreshVersions(pkg, pkg.versions.keys))
    ensures log.warnings == old(log.warnings) && log.errors == old(log.errors)
  {
    var keys := pkg.versions.keys;
    for j := 0 to |keys|
      invariant log.out == old(log.out) + Untagged(FreshVersions(pkg, keys[..j]))
      invariant log.warnings == old(log.warnings) && log.errors == old(log.errors)
    {
      assert keys[..j + 1][..j] == keys[..j];
      var v := keys[j];
      var urls := UrlsIn(pkg, v);
      PrintAll(log, PlusVersion(v, urls));
      UntaggedAppend(FreshVersions(pkg, keys[..j]), PlusVersion(v, urls));
      AppendTwo(old(log.out), Untagged(FreshVersions(pkg, keys[..j])), Untagged(PlusVersion(v, urls)));
    }
    assert keys[..|keys|] == keys;
  }

  /** Lines 96-100 (and the loop of lines 42-47): log each message, in order. */
  method PrintAll(log: Logger, messages: seq<Msg>)
    modifies log
    ensures log.out == old(log.out) + Untagged(messages)
    ensures log.warnings == old(log.warnings) && log.errors == old(log.errors)
  {
    for k := 0 to |messages|
      invariant log.out == old(log.out) + Untagged(messages[..k])
      invariant log.warnings == old(log.warnings) && log.errors == old(log.errors)
    {
      log.Log(messages[k]);
      assert Untagged(messages[..k + 1]) == Untagged(messages[..k]) + [Line(NoTag, messages[k])];
      AppendTwo(old(log.out), Untagged(messages[..k]), [Line(NoTag, messages[k])]);
    }
    assert messages[..|messages|] == messages;
  }

  /** Lines 51-93: the messages for a package present on both sides, collected in order. */
  method CollectMessages(pkg: VersionSet, previous: VersionSet) returns (messages: seq<Msg>)
    ensures messages == Messages(pkg, previous)
  {
    messages := [];
    var oldKeys := previous.versions.keys;
    for j := 0 to |oldKeys|
      invariant messages == DroppedVersions(pkg, previous, oldKeys[..j])
    {
      assert oldKeys[..j + 1][..j] == oldKeys[..j];
      if oldKeys[j] !in pkg.versions.m {
        messages := messages + [VersionRemoved(oldKeys[j])];
      }
    }
    assert oldKeys[..|oldKeys|] == oldKeys;
    ghost var dropped := messages;
    var keys := pkg.versions.keys;
    for j := 0 to |keys|
      invariant messages == dropped + VersionDiffs(pkg, previous, keys[..j])
    {
      assert keys[..j + 1][..j] == keys[..j];
      var v := keys[j];
      var urls := UrlsIn(pkg, v);
      messages := CollectVersion(messages, v, urls, Before(previous, v));
      AppendTwo(dropped, VersionDiffs(pkg, previous, keys[..j]), VersionDiff(v, urls, Before(previous, v)));
    }
    assert keys[..|keys|] == keys;
  }

  /** Lines 63-92 for one current version: its messages appended to `acc`. */
  method CollectVersion(acc: seq<Msg>, v: string, urls: seq<string>, before: Option<seq<string>>) returns (messages: seq<Msg>)
    ensures messages == acc + VersionDiff(v, urls, before)
  {
    messages := acc;
    ghost var base := messages;
    if before.None? {
      for k := 0 to |urls|
        invariant messages == base + PlusVersion(v, urls[..k])
      {
        assert PlusVersion(v, urls[..k + 1]) == PlusVersion(v, urls[..k]) + [VersionAdded(v, urls[k])];
        AppendTwo(base, PlusVersion(v, urls[..k]), [VersionAdded(v, urls[k])]);
        messages := messages + [VersionAdded(v, urls[k])];
      }
      assert urls[..|urls|] == urls;
    } else {
      var oldVersion := before.value;
      var newUrls := Minus(urls, oldVersion);
      var oldUrls := Minus(oldVersion, urls);
      for k := 0 to |oldUrls|
        invariant messages == base + MinusUrls(v, oldUrls[..k])
      {
        assert MinusUrls(v, oldUrls[..k + 1]) == MinusUrls(v, oldUrls[..k]) + [UrlRemoved(v, oldUrls[k])];
        AppendTwo(base, MinusUrls(v, oldUrls[..k]), [UrlRemoved(v, oldUrls[k])]);
        messages := messages + [UrlRemoved(v, oldUrls[k])];
      }
      assert oldUrls[..|oldUrls|] == oldUrls;
      ghost var middle := messages;
      for k := 0 to |newUrls|
        invariant messages == middle + PlusUrls(v, newUrls[..k])
      {
        assert PlusUrls(v, newUrls[..k + 1]) == PlusUrls(v, newUrls[..k]) + [UrlAdded(v, newUrls[k])];
        AppendTwo(middle, PlusUrls(v, newUrls[..k]), [UrlAdded(v, newUrls[k])]);
        messages := messages + [UrlAdded(v, newUrls[k])];
      }
      assert newUrls[..|newUrls|] == newUrls;
      AppendTwo(base, MinusUrls(v, oldUrls), PlusUrls(v, newUrls));
    }
  }

  /** Printing two runs of messages prints the first, then the second. */
  lemma UntaggedAppend(a: seq<Msg>, b: seq<Msg>)
    ensures Untagged(a + b) == Untagged(a) + Untagged(b)
  {
  }

  /** The version a version-level message names; "" for any other message. */
  function VersionOf(m: Msg): string {
    match m
    case VersionRemoved(v) => v
    case VersionAdded(v, _) => v
    case UrlRemoved(v, _) => v
    case UrlAdded(v, _) => v
    case _ => ""
  }

  /** `m` is one of the lines of `VersionDiff` for a version now bound to `urls` and before to `before`. */
  predicate Changed(urls: seq<string>, before: Option<seq<string>>, m: Msg) {
    match m
    case VersionAdded(_, u) => before.None? && u in urls
    case UrlRemoved(_, u) => before.Some? && u in before.value && u !in urls
    case UrlAdded(_, u) => before.Some? && u in urls && u !in before.value
    case _ => false
  }

  /**
   * The reference for a package present on both sides: a dropped version
   * once, each URL of a new version once, and for a version on both sides
   * each URL it lost and each URL it gained once.
   */
  ghost predicate Expected(pkg: VersionSet, previous: VersionSet, m: Msg) {
    var now, was := pkg.versions.m, previous.versions.m;
    match m
    case VersionRemoved(v) => v in was && v !in now
    case VersionAdded(v, u) => v in now && v !in was && u in now[v]
    case UrlRemoved(v, u) => v in now && v in was && u in was[v] && u !in now[v]
    case UrlAdded(v, u) => v in now && v in was && u in now[v] && u !in was[v]
    case _ => false
  }

  lemma PlusVersionFacts(v: string, urls: seq<string>)
    requires Distinct(urls)
    ensures Distinct(PlusVersion(v, urls))
    ensures forall m :: m in PlusVersion(v, urls) <==> m.VersionAdded? && m.version == v && m.url in urls
  {
    forall m: Msg | m.VersionAdded? && m.version == v && m.url in urls
      ensures m in PlusVersion(v, urls)
    {
      var i :| 0 <= i < |urls| && urls[i] == m.url;
      assert PlusVersion(v, urls)[i] == m;
    }
  }

  lemma MinusUrlsFacts(v: string, urls: seq<string>)
    requires Distinct(urls)
    ensures Distinct(MinusUrls(v, urls))
    ensures forall m :: m in MinusUrls(v, urls) <==> m.UrlRemoved? && m.version == v && m.url in urls
  {
    forall m: Msg | m.UrlRemoved? && m.version == v && m.url in urls
      ensures m in MinusUrls(v, urls)
    {
      var i :| 0 <= i < |urls| && urls[i] == m.url;
      assert MinusUrls(v, urls)[i] == m;
    }
  }

  lemma PlusUrlsFacts(v: string, urls: seq<string>)
    requires Distinct(urls)
    ensures Distinct(PlusUrls(v, urls))
    ensures forall m :: m in PlusUrls(v, urls) <==> m.UrlAdded? && m.version == v && m.url in urls
  {
    forall m: Msg | m.UrlAdded? && m.version == v && m.url in urls
      ensures m in PlusUrls(v, urls)
    {
      var i :| 0 <= i < |urls| && urls[i] == m.url;
      assert PlusUrls(v, urls)[i] == m;
    }
  }

  /** One version's lines are exactly the changed ones, each once. */
  lemma VersionDiffFacts(v: string, urls: seq<string>, before: Option<seq<string>>)
    requires Distinct(urls) && (before.Some? ==> Distinct(before.value))
    ensures Distinct(VersionDiff(v, urls, before))
    ensures forall m :: m in VersionDiff(v, urls, before) <==> VersionOf(m) == v && Changed(urls, before, m)
  {
    match before
    case None =>
      PlusVersionFacts(v, urls);
    case Some(was) =>
      MinusFacts(was, urls);
      MinusFacts(urls, was);
      MinusUrlsFacts(v, Minus(was, urls));
      PlusUrlsFacts(v, Minus(urls, was));
      DistinctConcat(MinusUrls(v, Minus(was, urls)), PlusUrls(v, Minus(urls, was)));
  }

  /** The lines for the versions `ks` are exactly the changed lines naming one of them, each once. */
  lemma {:induction false} VersionDiffsFacts(pkg: VersionSet, previous: VersionSet, ks: seq<string>)
    requires Sane(pkg) && Sane(previous) && Distinct(ks)
    ensures Distinct(VersionDiffs(pkg, previous, ks))
    ensures forall m :: m in VersionDiffs(pkg, previous, ks) <==>
      VersionOf(m) in ks && Changed(UrlsIn(pkg, VersionOf(m)), Before(previous, VersionOf(m)), m)
  {
    if ks != [] {
      var init, v := ks[..|ks| - 1], ks[|ks| - 1];
      assert ks == init + [v];
      DistinctSplit(init, [v]);
      VersionDiffsFacts(pkg, previous, init);
      VersionDiffFacts(v, UrlsIn(pkg, v), Before(previous, v));
      DistinctConcat(VersionDiffs(pkg, previous, init), VersionDiff(v, UrlsIn(pkg, v), Before(previous, v)));
    }
  }

  /** The dropped versions among `ks`, each once. */
  lemma {:induction false} DroppedFacts(pkg: VersionSet, previous: VersionSet, ks: seq<string>)
    requires Distinct(ks)
    ensures Distinct(DroppedVersions(pkg, previous, ks))
    ensures forall m :: m in DroppedVersions(pkg, previous, ks) <==>
      m.VersionRemoved? && m.version in ks && m.version !in pkg.versions.m
  {
    if ks != [] {
      var init, v := ks[..|ks| - 1], ks[|ks| - 1];
      assert ks == init + [v];
      DistinctSplit(init, [v]);
      DroppedFacts(pkg, previous, init);
      DistinctConcat(DroppedVersions(pkg, previous, init), if v in pkg.versions.m then [] else [VersionRemoved(v)]);
    }
  }

  /**
   * For a package on both sides, each message occurs once when the
   * reference expects it and never otherwise.
   */
  lemma MessagesExact(pkg: VersionSet, previous: VersionSet, m: Msg)
    requires Sane(pkg) && Sane(previous)
    ensures multiset(Messages(pkg, previous))[m] == if Expected(pkg, previous, m) then 1 else 0
  {
    DroppedFacts(pkg, previous, previous.versions.keys);
    VersionDiffsFacts(pkg, previous, pkg.versions.keys);
    DistinctConcat(DroppedVersions(pkg, previous, previous.versions.keys), VersionDiffs(pkg, previous, pkg.versions.keys));
    DistinctCount(Messages(pkg, previous), m);
  }

  /** The messages of a new package's versions `ks`: each URL of each once. */
  lemma {:induction false} FreshFacts(pkg: VersionSet, ks: seq<string>)
    requires Sane(pkg) && Distinct(ks)
    ensures Distinct(FreshVersions(pkg, ks))
    ensures forall m :: m in FreshVersions(pkg, ks) <==> m.VersionAdded? && m.version in ks && m.url in UrlsIn(pkg, m.version)
  {
    if ks != [] {
      var init, v := ks[..|ks| - 1], ks[|ks| - 1];
      assert ks == init + [v];
      DistinctSplit(init, [v]);
      FreshFacts(pkg, init);
      PlusVersionFacts(v, UrlsIn(pkg, v));
      DistinctConcat(FreshVersions(pkg, init), PlusVersion(v, UrlsIn(pkg, v)));
    }
  }

  /** A new package gets one line per (version, URL) pair, and no other version line. */
  lemma FreshExact(pkg: VersionSet, m: Msg)
    requires Sane(pkg)
    ensures multiset(FreshVersions(pkg, pkg.versions.keys))[m]
      == if m.VersionAdded? && m.version in pkg.versions.m && m.url in pkg.versions.m[m.version] then 1 else 0
  {
    FreshFacts(pkg, pkg.versions.keys);
    DistinctCount(FreshVersions(pkg, pkg.versions.keys), m);
  }

  /** An unchanged package expects no message. */
  lemma SameExpectsNothing(pkg: VersionSet, previous: VersionSet, m: Msg)
    requires SameVersions(pkg, previous)
    ensures !Expected(pkg, previous, m)
  {
    match m
    case UrlRemoved(v, u) =>
      if v in pkg.versions.m {
        assert u in Elems(previous.versions.m[v]) <==> u in Elems(pkg.versions.m[v]);
      }
    case UrlAdded(v, u) =>
      if v in pkg.versions.m {
        assert u in Elems(previous.versions.m[v]) <==> u in Elems(pkg.versions.m[v]);
      }
    case _ =>
  }

  /** A changed package expects some message. */
  lemma ChangedExpectsOne(pkg: VersionSet, previous: VersionSet) returns (m: Msg)
    requires forall v :: v in pkg.versions.m ==> pkg.versions.m[v] != []
    requires !SameVersions(pkg, previous)
    ensures Expected(pkg, previous, m)
  {
    var now, was := pkg.versions.m, previous.versions.m;
    if v :| v in was && v !in now {
      m := VersionRemoved(v);
    } else if v :| v in now && v !in was {
      m := VersionAdded(v, now[v][0]);
    } else {
      var v :| v in now && Elems(now[v]) != Elems(was[v]);
      var u := ElemsDiffer(now[v], was[v]);
      m := if u in now[v] then UrlAdded(v, u) else UrlRemoved(v, u);
    }
  }

  /** A package on both sides gets no messages, and so no header, exactly when its versions and URLs are unchanged. */
  lemma NoMessagesIffSame(pkg: VersionSet, previous: VersionSet)
    requires Sane(pkg) && Sane(previous)
    requires forall v :: v in pkg.versions.m ==> pkg.versions.m[v] != []
    ensures Messages(pkg, previous) == [] <==> SameVersions(pkg, previous)
  {
    var ms := Messages(pkg, previous);
    if SameVersions(pkg, previous) {
      if ms != [] {
        MessagesExact(pkg, previous, ms[0]);
        SameExpectsNothing(pkg, previous, ms[0]);
      }
    } else {
      var m := ChangedExpectsOne(pkg, previous);
      MessagesExact(pkg, previous, m);
    }
  }

  /** The previous packages among `ks` that the current index lacks, each once. */
  lemma {:induction false} RemovalsFacts(cur: Index, ks: seq<string>)
    requires Distinct(ks)
    ensures Distinct(Removals(cur, ks))
    ensures forall m :: m in Removals(cur, ks) <==> m.PackageRemoved? && m.name in ks && m.name !in cur.m
  {
    if ks != [] {
      var init, n := ks[..|ks| - 1], ks[|ks| - 1];
      assert ks == init + [n];
      DistinctSplit(init, [n]);
      RemovalsFacts(cur, init);
      DistinctConcat(Removals(cur, init), if n in cur.m then [] else [PackageRemoved(n)]);
    }
  }

  /** A message about one version of a package. */
  predicate VersionLevel(m: Msg) {
    m.VersionRemoved? || m.VersionAdded? || m.UrlRemoved? || m.UrlAdded?
  }

  lemma FreshLevel(pkg: VersionSet)
    requires Sane(pkg)
    ensures forall m :: m in FreshVersions(pkg, pkg.versions.keys) ==> VersionLevel(m)
  {
    FreshFacts(pkg, pkg.versions.keys);
  }

  lemma MessagesLevel(pkg: VersionSet, previous: VersionSet)
    requires Sane(pkg) && Sane(previous)
    ensures forall m :: m in Messages(pkg, previous) ==> VersionLevel(m)
  {
    DroppedFacts(pkg, previous, previous.versions.keys);
    VersionDiffsFacts(pkg, previous, pkg.versions.keys);
  }

  /** A package's block holds no removal line and no other package's header, and its own header once unless it is empty. */
  lemma PackageMsgsShape(name: string, pkg: VersionSet, previous: Option<VersionSet>)
    requires Sane(pkg) && (previous.Some? ==> Sane(previous.value))
    ensures forall m :: m in PackageMsgs(name, pkg, previous) ==> !m.PackageRemoved? && (m.PackageName? ==> m.name == name)
    ensures multiset(PackageMsgs(name, pkg, previous))[PackageName(name)] == if PackageMsgs(name, pkg, previous) == [] then 0 else 1
  {
    var rest := if previous.None? then FreshVersions(pkg, pkg.versions.keys) else Messages(pkg, previous.value);
    if previous.None? {
      FreshLevel(pkg);
    } else {
      MessagesLevel(pkg, previous.value);
    }
    assert PackageName(name) !in rest;
    assert multiset(rest)[PackageName(name)] == 0;
    assert PackageMsgs(name, pkg, previous) == [] || PackageMsgs(name, pkg, previous) == [PackageName(name)] + rest;
  }

  /** The current package `n` has a block in the output. */
  ghost predicate Shown(prev: Index, cur: Index, n: string) {
    PackageMsgs(n, PackageOf(cur, n), PreviousOf(prev, n)) != []
  }

  /** The blocks of the current packages `ks`: no removal line, and each shown package's header once. */
  lemma {:induction false} CurrentFacts(prev: Index, cur: Index, ks: seq<string>, n: string)
    requires WellFormed(prev) && WellFormed(cur) && Distinct(ks)
    ensures forall m :: m in CurrentMsgs(prev, cur, ks) ==> !m.PackageRemoved?
    ensures multiset(CurrentMsgs(prev, cur, ks))[PackageName(n)] == if n in ks && Shown(prev, cur, n) then 1 else 0
  {
    if ks != [] {
      var init, k := ks[..|ks| - 1], ks[|ks| - 1];
      assert ks == init + [k];
      DistinctSplit(init, [k]);
      CurrentFacts(prev, cur, init, n);
      PackageMsgsShape(k, PackageOf(cur, k), PreviousOf(prev, k));
      var block := PackageMsgs(k, PackageOf(cur, k), PreviousOf(prev, k));
      assert CurrentMsgs(prev, cur, ks) == CurrentMsgs(prev, cur, init) + block;
      if k != n {
        assert PackageName(n) !in block;
      }
    }
  }

  /**
   * Lines 30-34 and 95-101: one removal line per package only the previous
   * index has; one header per current package that is new or whose
   * versions or URLs changed, and none for an unchanged one.
   */
  lemma HeadersExact(prev: Index, cur: Index, n: string)
    requires WellFormed(prev) && WellFormed(cur)
    ensures multiset(DiffMsgs(prev, cur))[PackageRemoved(n)] == if n in prev.m && n !in cur.m then 1 else 0
    ensures multiset(DiffMsgs(prev, cur))[PackageName(n)]
      == if n in cur.m && (n !in prev.m || !SameVersions(cur.m[n], prev.m[n])) then 1 else 0
  {
    var r: seq<Msg>, c: seq<Msg> := Removals(cur, prev.keys), CurrentMsgs(prev, cur, cur.keys);
    RemovalsFacts(cur, prev.keys);
    DistinctCount(r, PackageRemoved(n));
    CurrentFacts(prev, cur, cur.keys, n);
    assert PackageRemoved(n) !in c;
    assert PackageName(n) !in r;
    if n in cur.m && n in prev.m {
      NoMessagesIffSame(cur.m[n], prev.m[n]);
    }
  }

  /** Lines 30-34 run first: no removal line follows any other line. */
  lemma RemovalsFirst(prev: Index, cur: Index)
    requires WellFormed(prev) && WellFormed(cur)
    ensures forall i, j :: 0 <= i < j < |DiffMsgs(prev, cur)| && DiffMsgs(prev, cur)[j].PackageRemoved? ==> DiffMsgs(prev, cur)[i].PackageRemoved?
  {
    var r: seq<Msg>, c: seq<Msg> := Removals(cur, prev.keys), CurrentMsgs(prev, cur, cur.keys);
    RemovalsFacts(cur, prev.keys);
    CurrentFacts(prev, cur, cur.keys, "");
    forall i, j | 0 <= i < j < |r + c| && (r + c)[j].PackageRemoved?
      ensures (r + c)[i].PackageRemoved?
    {
      if j < |r| {
        assert (r + c)[i] == r[i];
      }
    }
  }

  lemma {:induction false} CurrentBlock(prev: Index, cur: Index, ks: seq<string>, i: nat) returns (pre: seq<Msg>, post: seq<Msg>)
    requires i < |ks|
    ensures CurrentMsgs(prev, cur, ks) == pre + PackageMsgs(ks[i], PackageOf(cur, ks[i]), PreviousOf(prev, ks[i])) + post
  {
    var init := ks[..|ks| - 1];
    if i == |ks| - 1 {
      pre, post := CurrentMsgs(prev, cur, init), [];
    } else {
      var pre', post' := CurrentBlock(prev, cur, init, i);
      var k := ks[|ks| - 1];
      var last := PackageMsgs(k, PackageOf(cur, k), PreviousOf(prev, k));
      AppendTwo(pre' + PackageMsgs(ks[i], PackageOf(cur, ks[i]), PreviousOf(prev, ks[i])), post', last);
      pre, post := pre', post' + last;
    }
  }

  /**
   * Each current package's lines form one piece of the output: for a new
   * package its name and every (version, URL) pair, for a package on both
   * sides its header and messages or nothing.
   */
  lemma PackageBlock(prev: Index, cur: Index, n: string) returns (pre: seq<Msg>, post: seq<Msg>)
    requires WellFormed(cur) && n in cur.m
    ensures DiffMsgs(prev, cur) == pre + PackageMsgs(n, cur.m[n], PreviousOf(prev, n)) + post
  {
    var i :| 0 <= i < |cur.keys| && cur.keys[i] == n;
    var pre', post' := CurrentBlock(prev, cur, cur.keys, i);
    var r := Removals(cur, prev.keys);
    Nested(r, pre', PackageMsgs(n, cur.m[n], PreviousOf(prev, n)), [], post');
    pre, post := r + pre', post';
  }

  lemma {:induction false} SelfCurrentEmpty(ix: Index, ks: seq<string>)
    requires WellFormed(ix) && forall k :: k in ks ==> k in ix.m
    ensures CurrentMsgs(ix, ix, ks) == []
  {
    if ks != [] {
      var init, k := ks[..|ks| - 1], ks[|ks| - 1];
      assert forall j :: j in init ==> j in ks;
      SelfCurrentEmpty(ix, init);
      NoMessagesIffSame(ix.m[k], ix.m[k]);
    }
  }

  /** Diffing an index against itself writes nothing. */
  lemma SelfDiffEmpty(ix: Index)
    requires WellFormed(ix)
    ensures DiffMsgs(ix, ix) == []
  {
    RemovalsFacts(ix, ix.keys);
    if Removals(ix, ix.keys) != [] {
      assert Removals(ix, ix.keys)[0] in Removals(ix, ix.keys);
    }
    SelfCurrentEmpty(ix, ix.keys);
  }
}
