/**
 * The shapes of `package-lock.json` and `package.json` (src/PackageLock.ts,
 * src/PackageManifest.ts). Only the fields the checks read are kept:
 * `integrity`, `dev` and `requires` are never consulted.
 */
module Lock {
  import opened Wrappers

  /**
   * One dependency record. `resolved` is `None` when the key is absent.
   * An absent nested `dependencies` record is the empty `Tree`: every
   * consumer treats the two alike (a for-in over `{}` does nothing).
   */
  datatype Dep = Dep(version: string, resolved: Option<string>, deps: Tree)

  /** A `dependencies` record: its name/record pairs in for-in key order. */
  datatype Tree = Tree(entries: seq<(string, Dep)>)

  /** A parsed lock file; `dependencies` may be missing altogether. */
  datatype PackageLock = PackageLock(name: string, version: string, dependencies: Option<Tree>)

  /**
   * A parsed `package.json`; a missing `dependencies` or `devDependencies`
   * record is the empty map (spreading `undefined` adds nothing).
   */
  datatype PackageManifest = PackageManifest(
    name: string,
    dependencies: map<string, string>,
    devDependencies: map<string, string>)

  /** What a visitor adds to its `errors` collection; each variant is one message template. */
  datatype PackageLockError =
    | VersionMismatch(dep: string, lockVersion: string, range: string)
    | InsecureDependency(name: string, url: string)

  /** A JavaScript truthiness test on an optional string: present and non-empty. */
  predicate Truthy(s: Option<string>) {
    s.Some? && s.value != ""
  }

  /** `data.resolved && data.resolved.startsWith('http://')`. */
  predicate IsInsecure(d: Dep) {
    Truthy(d.resolved) && "http://" <= d.resolved.value
  }

  /** The records of the first `n` entries of `t` and of everything below them, each parent before its children. */
  function NodesUpTo(t: Tree, n: nat): seq<(string, Dep)>
    requires n <= |t.entries|
    decreases t, n
  {
    if n == 0 then []
    else
      var e := t.entries[n - 1];
      NodesUpTo(t, n - 1) + [e] + NodesUpTo(e.1.deps, |e.1.deps.entries|)
  }

  /** Every record of the tree at every depth, as a name/record pair. */
  function Nodes(t: Tree): seq<(string, Dep)> {
    NodesUpTo(t, |t.entries|)
  }

  /** Every top-level record is a node of the tree. */
  lemma {:induction false} TopLevelAreNodes(t: Tree, n: nat, i: nat)
    requires i < n <= |t.entries|
    ensures t.entries[i] in NodesUpTo(t, n)
    decreases n
  {
    if i < n - 1 {
      TopLevelAreNodes(t, n - 1, i);
    }
  }

  /** The children of a node are nodes too: the walk misses no depth. */
  lemma {:induction false} ChildrenAreNodes(t: Tree, n: nat, e: (string, Dep), i: nat)
    requires n <= |t.entries|
    requires e in NodesUpTo(t, n) && i < |e.1.deps.entries|
    ensures e.1.deps.entries[i] in NodesUpTo(t, n)
    decreases t, n
  {
    var f := t.entries[n - 1];
    if e in NodesUpTo(t, n - 1) {
      ChildrenAreNodes(t, n - 1, e, i);
    } else if e == f {
      TopLevelAreNodes(f.1.deps, |f.1.deps.entries|, i);
    } else {
      ChildrenAreNodes(f.1.deps, |f.1.deps.entries|, e, i);
    }
  }
}
