/**
 * src/visitors/InsecureUriVisitor.ts: an error for every record, at any
 * depth, whose `resolved` URL starts with `http://`.
 */
module InsecureUriVisitor {
  import opened Wrappers
  import opened Ordered
  import opened Lock
  import opened Walk
  import opened Logging
  import opened VisitorBase

  /** Lines 24-28 for one record: the error, the URL, an empty line; nothing for a secure record. */
  function Block(e: (string, Dep)): seq<Line> {
    if IsInsecure(e.1) then [Line(ErrorTag, InsecureUrl(e.0)), Line(NoTag, Item(e.1.resolved.value)), Line(NoTag, Blank)]
    else []
  }

  /** The blocks of the records `s`, in order. */
  function Blocks(s: seq<(string, Dep)>): seq<Line> {
    if s == [] then [] else Blocks(s[..|s| - 1]) + Block(s[|s| - 1])
  }

  /** What the walk writes for the first `n` entries of `t`: the blocks of `WalkUpTo(t, n)`. */
  function LinesUpTo(t: Tree, n: nat): seq<Line>
    requires n <= |t.entries|
    decreases t, n
  {
    if n == 0 then []
    else
      var e := t.entries[n - 1];
      LinesUpTo(t, n - 1) + LinesUpTo(e.1.deps, |e.1.deps.entries|) + Block(e)
  }

  /** The number of insecure records among the first `n` entries of `t` and below them. */
  function CountUpTo(t: Tree, n: nat): nat
    requires n <= |t.entries|
    decreases t, n
  {
    if n == 0 then 0
    else
      var e := t.entries[n - 1];
      CountUpTo(t, n - 1) + CountUpTo(e.1.deps, |e.1.deps.entries|) + (if IsInsecure(e.1) then 1 else 0)
  }

  /** The records of a lock's tree; none when `dependencies` is missing. */
  function AllNodes(deps: Option<Tree>): seq<(string, Dep)> {
    if deps.Some? then Nodes(deps.value) else []
  }

  /** The records of a lock's tree in visiting order; none when `dependencies` is missing. */
  function Visited(deps: Option<Tree>): seq<(string, Dep)> {
    if deps.Some? then WalkOf(deps.value) else []
  }

  /** `visit` (lines 9-13): one error per insecure record of the whole tree. */
  method Visit(visitor: Visitor, data: PackageLock)
    modifies visitor.log
    ensures visitor.log.out == old(visitor.log.out) + Blocks(Visited(data.dependencies))
    ensures visitor.log.errors == old(visitor.log.errors) + |InsecureOf(AllNodes(data.dependencies))|
    ensures visitor.log.warnings == old(visitor.log.warnings)
  {
    if data.dependencies.Some? {
      var t := data.dependencies.value;
      VisitDependencies(visitor.log, t);
      WalkLines(t, |t.entries|);
      WalkCount(t, |t.entries|);
      WalkMeetsEveryInsecure(t, |t.entries|);
    }
  }

  /** `_visitDependencies` (src/Visitor.ts:33-45) with this visitor's `visitDependency`, one entry after another. */
  method VisitDependencies(log: Logger, t: Tree)
    modifies log
    ensures log.out == old(log.out) + LinesUpTo(t, |t.entries|)
    ensures log.errors == old(log.errors) + CountUpTo(t, |t.entries|)
    ensures log.warnings == old(log.warnings)
    decreases t, 1
  {
    for i := 0 to |t.entries|
      invariant log.out == old(log.out) + LinesUpTo(t, i)
      invariant log.errors == old(log.errors) + CountUpTo(t, i)
      invariant log.warnings == old(log.warnings)
    {
      var e := t.entries[i];
      VisitDependency(log, e.0, e.1);
      AppendThree(old(log.out), LinesUpTo(t, i), LinesUpTo(e.1.deps, |e.1.deps.entries|), Block(e));
    }
  }

  /** `visitDependency` (lines 16-29): the children first, then the record itself. */
  method VisitDependency(log: Logger, name: string, d: Dep)
    modifies log
    ensures log.out == old(log.out) + LinesUpTo(d.deps, |d.deps.entries|) + Block((name, d))
    ensures log.errors == old(log.errors) + CountUpTo(d.deps, |d.deps.entries|) + (if IsInsecure(d) then 1 else 0)
    ensures log.warnings == old(log.warnings)
    decreases d.deps, 2
  {
    VisitDependencies(log, d.deps);
    if IsInsecure(d) {
      log.Error(InsecureUrl(name));
      log.Log(Item(d.resolved.value));
      log.Empty();
    }
  }

  /** The lines written are the blocks of the records in visiting order. */
  lemma {:induction false} WalkLines(t: Tree, n: nat)
    requires n <= |t.entries|
    ensures LinesUpTo(t, n) == Blocks(WalkUpTo(t, n))
    decreases t, n
  {
    if n > 0 {
      var e := t.entries[n - 1];
      var c := e.1.deps;
      var a, b := WalkUpTo(t, n - 1), WalkUpTo(c, |c.entries|);
      calc {
        LinesUpTo(t, n);
        LinesUpTo(t, n - 1) + LinesUpTo(c, |c.entries|) + Block(e);
        { WalkLines(t, n - 1); WalkLines(c, |c.entries|); }
        Blocks(a) + Blocks(b) + Block(e);
        { BlocksSnoc(a, b, e); }
        Blocks(a + b + [e]);
        Blocks(WalkUpTo(t, n));
      }
    }
  }

  /** The blocks of two runs of records and one more record. */
  lemma BlocksSnoc(a: seq<(string, Dep)>, b: seq<(string, Dep)>, e: (string, Dep))
    ensures Blocks(a + b + [e]) == Blocks(a) + Blocks(b) + Block(e)
  {
    assert (a + b + [e])[..|a + b + [e]| - 1] == a + b;
    BlocksAppend(a, b);
  }

  /** The errors counted are the insecure records in visiting order. */
  lemma {:induction false} WalkCount(t: Tree, n: nat)
    requires n <= |t.entries|
    ensures CountUpTo(t, n) == |InsecureOf(WalkUpTo(t, n))|
    decreases t, n
  {
    if n > 0 {
      var e := t.entries[n - 1];
      WalkCount(t, n - 1);
      WalkCount(e.1.deps, |e.1.deps.entries|);
      InsecureOfAppend(WalkUpTo(t, n - 1) + WalkUpTo(e.1.deps, |e.1.deps.entries|), [e]);
      InsecureOfAppend(WalkUpTo(t, n - 1), WalkUpTo(e.1.deps, |e.1.deps.entries|));
    }
  }

  lemma {:induction false} BlocksAppend(a: seq<(string, Dep)>, b: seq<(string, Dep)>)
    ensures Blocks(a + b) == Blocks(a) + Blocks(b)
    decreases |b|
  {
    if b == [] {
      assert a + b == a;
    } else {
      assert (a + b)[..|a + b| - 1] == a + b[..|b| - 1];
      BlocksAppend(a, b[..|b| - 1]);
    }
  }

  /** The error naming `name` is written exactly when some record of `s` named `name` is insecure. */
  lemma {:induction false} BlocksReport(s: seq<(string, Dep)>, name: string)
    ensures Line(ErrorTag, InsecureUrl(name)) in Blocks(s) <==> exists d :: (name, d) in s && IsInsecure(d)
  {
    if s != [] {
      var init, last := s[..|s| - 1], s[|s| - 1];
      assert s == init + [last];
      BlocksReport(init, name);
      if last.0 == name && IsInsecure(last.1) {
        assert (name, last.1) in s;
      }
    }
  }

  /** A record is reported iff the tree holds, at some depth, an insecure record of that name. */
  lemma ReportedIffInsecure(t: Tree, name: string)
    ensures Line(ErrorTag, InsecureUrl(name)) in Blocks(WalkOf(t)) <==> exists d :: (name, d) in Nodes(t) && IsInsecure(d)
  {
    BlocksReport(WalkOf(t), name);
    WalkVisitsEveryNode(t, |t.entries|);
    forall d ensures (name, d) in WalkOf(t) <==> (name, d) in Nodes(t) {
      assert (name, d) in WalkOf(t) <==> (name, d) in multiset(WalkOf(t));
    }
  }
}
