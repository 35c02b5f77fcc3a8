/**
 * The recursive walk of src/Visitor.ts `_visitDependencies` (lines 33-45)
 * as the visitors that override `visitDependency` drive it: every record of
 * a `dependencies` tree is visited, its own children before itself.
 */
module Walk {
  import opened Wrappers
  import opened Lock

  /** The records of the first `n` entries of `t` in visiting order: each entry's subtree, then the entry. */
  function WalkUpTo(t: Tree, n: nat): seq<(string, Dep)>
    requires n <= |t.entries|
    decreases t, n
  {
    if n == 0 then []
    else
      var e := t.entries[n - 1];
      WalkUpTo(t, n - 1) + WalkUpTo(e.1.deps, |e.1.deps.entries|) + [e]
  }

  /** Every record of `t` in visiting order. */
  function WalkOf(t: Tree): seq<(string, Dep)> {
    WalkUpTo(t, |t.entries|)
  }

  /** The records with an insecure `resolved`, in order. */
  function InsecureOf(s: seq<(string, Dep)>): seq<(string, Dep)> {
    if s == [] then [] else InsecureOf(s[..|s| - 1]) + (if IsInsecure(s[|s| - 1].1) then [s[|s| - 1]] else [])
  }

  lemma {:induction false} InsecureOfAppend(a: seq<(string, Dep)>, b: seq<(string, Dep)>)
    ensures InsecureOf(a + b) == InsecureOf(a) + InsecureOf(b)
    decreases |b|
  {
    if b == [] {
      assert a + b == a;
    } else {
      assert (a + b)[..|a + b| - 1] == a + b[..|b| - 1];
      InsecureOfAppend(a, b[..|b| - 1]);
    }
  }

  /** A record is kept exactly when it occurs and is insecure. */
  lemma {:induction false} InsecureOfIn(s: seq<(string, Dep)>, e: (string, Dep))
    ensures e in InsecureOf(s) <==> e in s && IsInsecure(e.1)
  {
    if s != [] {
      assert s == s[..|s| - 1] + [s[|s| - 1]];
      InsecureOfIn(s[..|s| - 1], e);
    }
  }

  /** The walk visits exactly the records of the tree, each as often as it occurs there. */
  lemma {:induction false} WalkVisitsEveryNode(t: Tree, n: nat)
    requires n <= |t.entries|
    ensures multiset(WalkUpTo(t, n)) == multiset(NodesUpTo(t, n))
  {
    WalkSameElems(t, n, WalkUpTo(t, n), NodesUpTo(t, n));
  }

  /** The induction behind `WalkVisitsEveryNode`, over the walk and the nodes as given sequences. */
  lemma {:induction false} WalkSameElems(t: Tree, n: nat, w: seq<(string, Dep)>, v: seq<(string, Dep)>)
    requires n <= |t.entries| && w == WalkUpTo(t, n) && v == NodesUpTo(t, n)
    ensures multiset(w) == multiset(v)
    decreases t, n
  {
    if n > 0 {
      var e := t.entries[n - 1];
      var c := e.1.deps;
      var a, b := WalkUpTo(t, n - 1), WalkUpTo(c, |c.entries|);
      var a', b' := NodesUpTo(t, n - 1), NodesUpTo(c, |c.entries|);
      WalkSameElems(t, n - 1, a, a');
      WalkSameElems(c, |c.entries|, b, b');
      WalkStep(t, n);
      NodesStep(t, n);
      SamePiecesOf(w, a, b, [e], v, a', b');
    }
  }

  /** One more entry: the walk so far, the entry's subtree, then the entry. */
  lemma WalkStep(t: Tree, n: nat)
    requires 0 < n <= |t.entries|
    ensures WalkUpTo(t, n) == WalkUpTo(t, n - 1) + WalkUpTo(t.entries[n - 1].1.deps, |t.entries[n - 1].1.deps.entries|) + [t.entries[n - 1]]
  {
  }

  /** One more entry: the nodes so far, the entry, then its subtree. */
  lemma NodesStep(t: Tree, n: nat)
    requires 0 < n <= |t.entries|
    ensures NodesUpTo(t, n) == NodesUpTo(t, n - 1) + [t.entries[n - 1]] + NodesUpTo(t.entries[n - 1].1.deps, |t.entries[n - 1].1.deps.entries|)
  {
  }

  /** A sequence made of pieces has the elements of one made of the same pieces in another order. */
  lemma SamePiecesOf<T>(w: seq<T>, a: seq<T>, b: seq<T>, c: seq<T>, v: seq<T>, a': seq<T>, b': seq<T>)
    requires w == a + b + c && v == a' + c + b'
    requires multiset(a) == multiset(a') && multiset(b) == multiset(b')
    ensures multiset(w) == multiset(v)
  {
    SamePieces(a, b, c, a', b');
  }

  /** Reordering pieces with the same elements keeps the elements. */
  lemma SamePieces<T>(a: seq<T>, b: seq<T>, c: seq<T>, a': seq<T>, b': seq<T>)
    requires multiset(a) == multiset(a') && multiset(b) == multiset(b')
    ensures multiset(a + b + c) == multiset(a' + c + b')
  {
    calc {
      multiset(a + b + c);
      multiset(a) + multiset(b) + multiset(c);
      multiset(a') + multiset(b') + multiset(c);
      multiset(a') + multiset(c) + multiset(b');
      multiset(a' + c + b');
    }
  }

  /** The walk meets as many insecure records as the tree holds. */
  lemma {:induction false} WalkMeetsEveryInsecure(t: Tree, n: nat)
    requires n <= |t.entries|
    ensures |InsecureOf(WalkUpTo(t, n))| == |InsecureOf(NodesUpTo(t, n))|
  {
    WalkInsecureCount(t, n, WalkUpTo(t, n), NodesUpTo(t, n));
  }

  /** The induction behind `WalkMeetsEveryInsecure`, over the walk and the nodes as given sequences. */
  lemma {:induction false} WalkInsecureCount(t: Tree, n: nat, w: seq<(string, Dep)>, v: seq<(string, Dep)>)
    requires n <= |t.entries| && w == WalkUpTo(t, n) && v == NodesUpTo(t, n)
    ensures |InsecureOf(w)| == |InsecureOf(v)|
    decreases t, n
  {
    if n > 0 {
      var e := t.entries[n - 1];
      var c := e.1.deps;
      var a, b := WalkUpTo(t, n - 1), WalkUpTo(c, |c.entries|);
      var a', b' := NodesUpTo(t, n - 1), NodesUpTo(c, |c.entries|);
      WalkInsecureCount(t, n - 1, a, a');
      WalkInsecureCount(c, |c.entries|, b, b');
      WalkStep(t, n);
      NodesStep(t, n);
      InsecureCount3(a, b, [e]);
      InsecureCount3(a', [e], b');
    }
  }

  /** The insecure records of three runs add up. */
  lemma InsecureCount3(a: seq<(string, Dep)>, b: seq<(string, Dep)>, c: seq<(string, Dep)>)
    ensures |InsecureOf(a + b + c)| == |InsecureOf(a)| + |InsecureOf(b)| + |InsecureOf(c)|
  {
    InsecureOfAppend(a + b, c);
    InsecureOfAppend(a, b);
  }

  /** Each top-level entry is visited. */
  lemma {:induction false} TopLevelVisited(t: Tree, n: nat, i: nat)
    requires i < n <= |t.entries|
    ensures t.entries[i] in WalkUpTo(t, n)
    decreases n
  {
    if i < n - 1 {
      TopLevelVisited(t, n - 1, i);
    }
  }

  /** Every child of a visited record is visited before it. */
  lemma {:induction false} ChildrenFirst(t: Tree, n: nat, i: nat, j: nat)
    requires n <= |t.entries| && i < |WalkUpTo(t, n)|
    requires j < |WalkUpTo(t, n)[i].1.deps.entries|
    ensures WalkUpTo(t, n)[i].1.deps.entries[j] in WalkUpTo(t, n)[..i]
    decreases t, n
  {
    var e := t.entries[n - 1];
    var sub := |e.1.deps.entries|;
    var a, b := WalkUpTo(t, n - 1), WalkUpTo(e.1.deps, sub);
    var w := WalkUpTo(t, n);
    assert w == a + b + [e];
    if i < |a| {
      ChildrenFirst(t, n - 1, i, j);
      assert a[..i] == w[..i];
    } else if i < |a| + |b| {
      assert w[i] == b[i - |a|];
      ChildrenFirst(e.1.deps, sub, i - |a|, j);
      assert w[..i] == a + b[..i - |a|];
    } else {
      TopLevelVisited(e.1.deps, sub, j);
      assert w[..i] == a + b;
    }
  }

  /** An `https://` URL never passes the `startsWith('http://')` test. */
  lemma HttpsIsSecure(d: Dep)
    requires d.resolved.Some? && "https://" <= d.resolved.value
    ensures !IsInsecure(d)
  {
    assert d.resolved.value[4] == 's';
  }
}
