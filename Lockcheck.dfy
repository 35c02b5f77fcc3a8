/**
 * src/lockcheck.ts: read and parse the lock file, choose the visitors (one
 * `DiffVisitor` in diff mode, the four checks otherwise), run each once in
 * order, and fail when any of them reports errors.
 *
 * Everything outside the program is a field of `World`: the lock file's
 * text (`None` when it cannot be read), `JSON.parse` (`None` when it
 * throws), the standard output of `git show <rev>` (`None` when the
 * subprocess fails), the parsed `package.json` the manifest check reads,
 * semver's `satisfies`, the URL parser's `origin`, and `hasErrors()`,
 * which no visitor defines, as a predicate over the visitor's kind, its
 * `errors` and its logger's error and warning counts.
 */
module Lockcheck {
  import opened Wrappers
  import opened Lock
  import opened Logging
  import opened VisitorBase
  import Walk
  import Versions
  import InsecureUriVisitor
  import ManifestInconsistencyVisitor
  import DuplicateVersionsVisitor
  import RegistryInconsistencyVisitor
  import DiffVisitor

  /** The command-line options `lockcheck` reads; an absent option is `None`. */
  datatype Options = Options(
    path: string,
    verbose: bool,
    diffMode: bool,
    diffCommit: Option<string>,
    diffSource: Option<string>)

  datatype World = World(
    lockFile: Option<string>,
    parse: string -> Option<PackageLock>,
    gitShow: string -> Option<string>,
    manifest: Option<PackageManifest>,
    satisfies: (string, string) -> bool,
    origin: string -> string,
    hasErrors: (VisitorKind, seq<PackageLockError>, nat, nat) -> bool)

  /** Why a run stops: each variant is one error `lockcheck` throws. */
  datatype Failure =
    | CouldNotRead(file: string)
    | CouldNotParse(file: string)
    | DiffSourceNotJson
    | InvalidCommit
    | CommitNotRetrieved
    | FailedValidation

  datatype Outcome = Passed | Failed(failure: Failure)

  /** The visitors of src/visitors/, a diff visitor with the lock it compares against. */
  datatype VisitorKind =
    | InsecureUri
    | ManifestInconsistency
    | DuplicateVersions
    | RegistryInconsistency
    | Diff(source: PackageLock)

  /** The lock and the visitors to run over it, or the error thrown before any visitor runs. */
  datatype Prepared = Ready(data: PackageLock, plan: seq<VisitorKind>) | Stopped(failure: Failure)

  /** Line 27, with the POSIX `path.sep`. */
  function LockFilePath(dir: string): string {
    dir + "/package-lock.json"
  }

  /** `\w` without the `u` flag, or `^`: the class of the commit pattern. */
  predicate CommitChar(c: char) {
    ('a' <= c <= 'z') || ('A' <= c <= 'Z') || ('0' <= c <= '9') || c == '_' || c == '^'
  }

  /**
   * Line 52, `/^[\w^]*$/` as a matcher: the starred class consumes the
   * text from the left and the anchor then needs the end of the text.
   */
  function MatchCommit(s: string): bool {
    if s == [] then true
    else CommitChar(s[0]) && MatchCommit(s[1..])
  }

  /** Lines 48-65: where the lock to compare against comes from. */
  function DiffSource(opts: Options, world: World): Result {
    if Truthy(opts.diffSource) then
      match world.parse(opts.diffSource.value)
      case None => Err(DiffSourceNotJson)
      case Some(d) => Ok(d)
    else
      var commit := if opts.diffCommit.Some? then opts.diffCommit.value else "";
      if !MatchCommit(commit) then Err(InvalidCommit)
      else
        match world.gitShow(commit + ":package-lock.json")
        case None => Err(CommitNotRetrieved)
        case Some(stdout) =>
          match world.parse(stdout)
          case None => Err(CommitNotRetrieved)
          case Some(d) => Ok(d)
  }

  datatype Result = Ok(lock: PackageLock) | Err(failure: Failure)

  /** The four checks of lines 69-74, in that order. */
  const Checks: seq<VisitorKind> := [InsecureUri, ManifestInconsistency, DuplicateVersions, RegistryInconsistency]

  /** Lines 27-75: read, parse, then choose the visitors. */
  function Prepare(opts: Options, world: World): Prepared {
    var file := LockFilePath(opts.path);
    match world.lockFile
    case None => Stopped(CouldNotRead(file))
    case Some(text) =>
      match world.parse(text)
      case None => Stopped(CouldNotParse(file))
      case Some(data) =>
        if !opts.diffMode then Ready(data, Checks)
        else
          match DiffSource(opts, world)
          case Err(f) => Stopped(f)
          case Ok(source) => Ready(data, [Diff(source)])
  }

  /** What one visit of a fresh visitor of kind `k` logs. */
  function LinesOf(k: VisitorKind, data: PackageLock, opts: Options, world: World): seq<Line> {
    var ix := Versions.VersionsOf(data.dependencies);
    match k
    case InsecureUri => InsecureUriVisitor.Blocks(InsecureUriVisitor.Visited(data.dependencies))
    case ManifestInconsistency => []
    case DuplicateVersions => DuplicateVersionsVisitor.DuplicateLines(ix)
    case RegistryInconsistency =>
      RegistryInconsistencyVisitor.RegistryLines(RegistryInconsistencyVisitor.Registries(ix, world.origin), opts.verbose)
    case Diff(source) => DiffVisitor.Untagged(DiffVisitor.DiffMsgs(Versions.VersionsOf(source.dependencies), ix))
  }

  /** The logger's error count after one visit of a fresh visitor of kind `k`. */
  function ErrorCountOf(k: VisitorKind, data: PackageLock): nat {
    if k.InsecureUri? then |Walk.InsecureOf(InsecureUriVisitor.AllNodes(data.dependencies))| else 0
  }

  /** The logger's warning count after one visit of a fresh visitor of kind `k`. */
  function WarningCountOf(k: VisitorKind, data: PackageLock, world: World): nat {
    var ix := Versions.VersionsOf(data.dependencies);
    match k
    case DuplicateVersions => |DuplicateVersionsVisitor.FlaggedPairs(ix)|
    case RegistryInconsistency =>
      if |RegistryInconsistencyVisitor.RegistrySet(ix, world.origin)| != 1 then 1 else 0
    case _ => 0
  }

  /** The `errors` collection after one visit of a fresh visitor of kind `k`. */
  function FindingsOf(k: VisitorKind, data: PackageLock, world: World): seq<PackageLockError> {
    if k.ManifestInconsistency? then ManifestInconsistencyVisitor.VisitFindings(data, world.manifest, world.satisfies) else []
  }

  /** `hasErrors()` of the visitor of kind `k` after its one visit. */
  predicate HasErrors(k: VisitorKind, data: PackageLock, world: World) {
    world.hasErrors(k, FindingsOf(k, data, world), ErrorCountOf(k, data), WarningCountOf(k, data, world))
  }

  /** Lines 81-83 over the states the visits leave behind. */
  function Verdict(data: PackageLock, plan: seq<VisitorKind>, world: World): Outcome {
    if exists i | 0 <= i < |plan| :: HasErrors(plan[i], data, world)
    then Failed(FailedValidation)
    else Passed
  }

  /** The whole run: the error thrown before the visitors, or the verdict after them. */
  function Run(opts: Options, world: World): Outcome {
    match Prepare(opts, world)
    case Stopped(f) => Failed(f)
    case Ready(data, plan) => Verdict(data, plan, world)
  }

  /** `v` is in the state one visit of kind `k` leaves a fresh visitor in. */
  ghost predicate Visited(v: Visitor, k: VisitorKind, data: PackageLock, opts: Options, world: World)
    reads v, v.log
  {
    && v.log.out == LinesOf(k, data, opts, world)
    && v.log.errors == ErrorCountOf(k, data)
    && v.log.warnings == WarningCountOf(k, data, world)
    && v.errors == FindingsOf(k, data, world)
  }

  /** Lines 77-79 for one visitor: dispatch to its `visit`. */
  method VisitOnce(v: Visitor, k: VisitorKind, data: PackageLock, opts: Options, world: World)
    requires v.log.out == [] && v.log.errors == 0 && v.log.warnings == 0 && v.errors == []
    modifies v, v.log
    ensures Visited(v, k, data, opts, world)
  {
    match k
    case InsecureUri => InsecureUriVisitor.Visit(v, data);
    case ManifestInconsistency => ManifestInconsistencyVisitor.Visit(v, data, world.manifest, world.satisfies);
    case DuplicateVersions => DuplicateVersionsVisitor.Visit(v, data);
    case RegistryInconsistency => RegistryInconsistencyVisitor.Visit(v, data, opts.verbose, world.origin);
    case Diff(source) => DiffVisitor.Visit(v, data, source);
  }

  /**
   * Lines 43-79: a fresh visitor per planned kind, each visiting the lock
   * once, in order. Constructing a visitor changes nothing another visitor
   * can see, so each is built just before its visit.
   */
  method VisitAll(plan: seq<VisitorKind>, data: PackageLock, opts: Options, world: World) returns (visitors: seq<Visitor>)
    ensures |visitors| == |plan|
    ensures forall i :: 0 <= i < |visitors| ==> fresh(visitors[i])
    ensures forall i :: 0 <= i < |visitors| ==> Visited(visitors[i], plan[i], data, opts, world)
  {
    visitors := [];
    for n := 0 to |plan|
      invariant |visitors| == n
      invariant forall i :: 0 <= i < n ==> fresh(visitors[i])
      invariant forall i :: 0 <= i < n ==> Visited(visitors[i], plan[i], data, opts, world)
    {
      var v := NewVisited(plan[n], data, opts, world);
      visitors := visitors + [v];
    }
  }

  /** Lines 69-79 for one kind: a fresh visitor that has visited the lock. */
  method NewVisited(k: VisitorKind, data: PackageLock, opts: Options, world: World) returns (v: Visitor)
    ensures fresh(v) && fresh(v.log)
    ensures Visited(v, k, data, opts, world)
  {
    v := new Visitor();
    VisitOnce(v, k, data, opts, world);
  }

  /** `lockcheck` (lines 26-84): the visitors it ran and how the run ended. */
  method Check(opts: Options, world: World) returns (outcome: Outcome, visitors: seq<Visitor>)
    ensures outcome == Run(opts, world)
    ensures Prepare(opts, world).Stopped? ==> visitors == []
    ensures Prepare(opts, world).Ready? ==>
      && |visitors| == |Prepare(opts, world).plan|
      && forall i :: 0 <= i < |visitors| ==>
        fresh(visitors[i]) && Visited(visitors[i], Prepare(opts, world).plan[i], Prepare(opts, world).data, opts, world)
  {
    visitors := [];
    var prepared := Prepare(opts, world);
    if prepared.Stopped? {
      return Failed(prepared.failure), visitors;
    }
    var data, plan := prepared.data, prepared.plan;
    visitors := VisitAll(plan, data, opts, world);
    if exists i | 0 <= i < |visitors| ::
        world.hasErrors(plan[i], visitors[i].errors, visitors[i].log.errors, visitors[i].log.warnings) {
      outcome := Failed(FailedValidation);
    } else {
      outcome := Passed;
    }
  }

  /** Line 52: a commit is accepted exactly when each of its characters is a word character or `^`. */
  lemma {:induction false} CommitAcceptedIff(s: string)
    ensures MatchCommit(s) <==> forall i :: 0 <= i < |s| ==> CommitChar(s[i])
  {
    if s != [] {
      CommitAcceptedIff(s[1..]);
      assert forall i :: 1 <= i < |s| ==> s[i] == s[1..][i - 1];
    }
  }

  /** Line 51: an absent commit is the empty one, which is accepted. */
  lemma AbsentCommitAccepted(opts: Options, world: World)
    requires opts.diffMode && !Truthy(opts.diffSource) && opts.diffCommit.None?
    ensures DiffSource(opts, world) != Err(InvalidCommit)
  {
    CommitAcceptedIff("");
  }

  /** Lines 48-49: a supplied source is used as is; the commit and `git` are never consulted. */
  lemma SourceBypassesCommit(opts: Options, world: World, commit: Option<string>, gitShow: string -> Option<string>)
    requires Truthy(opts.diffSource)
    ensures DiffSource(opts, world) == DiffSource(opts.(diffCommit := commit), world.(gitShow := gitShow))
    ensures DiffSource(opts, world) != Err(InvalidCommit) && DiffSource(opts, world) != Err(CommitNotRetrieved)
  {
  }

  /** Lines 51-54: a rejected commit stops the run before `git` is asked. */
  lemma InvalidCommitStops(opts: Options, world: World, gitShow: string -> Option<string>)
    requires opts.diffMode && !Truthy(opts.diffSource) && opts.diffCommit.Some?
    requires exists i :: 0 <= i < |opts.diffCommit.value| && !CommitChar(opts.diffCommit.value[i])
    ensures DiffSource(opts, world) == Err(InvalidCommit)
    ensures DiffSource(opts, world.(gitShow := gitShow)) == Err(InvalidCommit)
  {
    CommitAcceptedIff(opts.diffCommit.value);
  }

  /** Lines 31-41: without a readable, parsable lock no visitor runs, whatever the mode. */
  lemma LockFailsFirst(opts: Options, world: World)
    requires world.lockFile.None? || world.parse(world.lockFile.value).None?
    ensures Prepare(opts, world).Stopped?
    ensures Run(opts, world) == Failed(
      if world.lockFile.None? then CouldNotRead(LockFilePath(opts.path)) else CouldNotParse(LockFilePath(opts.path)))
  {
  }

  /** Lines 45-75: diff mode runs exactly one diff visitor; otherwise the four checks, each once, in order. */
  lemma PlanByMode(opts: Options, world: World)
    requires Prepare(opts, world).Ready?
    ensures opts.diffMode ==> |Prepare(opts, world).plan| == 1 && Prepare(opts, world).plan[0].Diff?
    ensures !opts.diffMode ==> Prepare(opts, world).plan == [InsecureUri, ManifestInconsistency, DuplicateVersions, RegistryInconsistency]
    ensures forall i, j :: 0 <= i < j < |Prepare(opts, world).plan| ==> Prepare(opts, world).plan[i] != Prepare(opts, world).plan[j]
  {
  }

  /** The errors `Prepare` throws are never the validation failure, which only the visitors' errors cause. */
  lemma ValidationFailureIff(opts: Options, world: World)
    ensures Run(opts, world) == Failed(FailedValidation) <==>
      Prepare(opts, world).Ready?
      && exists i | 0 <= i < |Prepare(opts, world).plan| ::
        world.hasErrors(Prepare(opts, world).plan[i],
          FindingsOf(Prepare(opts, world).plan[i], Prepare(opts, world).data, world),
          ErrorCountOf(Prepare(opts, world).plan[i], Prepare(opts, world).data),
          WarningCountOf(Prepare(opts, world).plan[i], Prepare(opts, world).data, world))
  {
  }

  /**
   * A lock without `dependencies`: the checks find nothing, except that
   * the registry check still warns, since no registry is not one registry.
   */
  lemma NoDependencies(data: PackageLock, opts: Options, world: World)
    requires data.dependencies.None?
    ensures LinesOf(InsecureUri, data, opts, world) == [] && ErrorCountOf(InsecureUri, data) == 0
    ensures FindingsOf(ManifestInconsistency, data, world) == []
    ensures LinesOf(DuplicateVersions, data, opts, world) == [] && WarningCountOf(DuplicateVersions, data, world) == 0
    ensures LinesOf(RegistryInconsistency, data, opts, world)
      == (if opts.verbose then [Line(NoTag, RegistriesUsed)] else []) + [Line(WarnTag, MultipleRegistries)]
    ensures WarningCountOf(RegistryInconsistency, data, world) == 1
  {
    var ix := Versions.VersionsOf(data.dependencies);
    assert RegistryInconsistencyVisitor.Registries(ix, world.origin) == [];
    assert RegistryInconsistencyVisitor.RegistrySet(ix, world.origin) == {};
    assert DuplicateVersionsVisitor.FlaggedPairs(ix) == {};
  }
}
