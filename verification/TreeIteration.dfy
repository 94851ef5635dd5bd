/** Iterating over a directory tree, breadth first: the stored paths that end at an empty dictionary. */
module TreeIteration {
  import opened Common
  import opened PathTrees

  const SEPARATOR := "/"

  /** The stored paths that iteration is to yield. */
  ghost predicate IsYielded(paths: set<Path>, p: Path) {
    IsLeaf(paths, p) && SEPARATOR !in p
  }

  /** The children that are stored paths themselves. */
  ghost function LeafKids(paths: set<Path>, p: Path, keys: seq<string>): seq<Path>
    decreases |keys|
  {
    if keys == [] then [] else
      var k := keys[|keys| - 1];
      LeafKids(paths, p, keys[..|keys| - 1]) + if k != SEPARATOR && !HasChild(paths, p + [k]) then [p + [k]] else []
  }

  /** The children that have children. */
  ghost function InnerKids(paths: set<Path>, p: Path, keys: seq<string>): seq<Path>
    decreases |keys|
  {
    if keys == [] then [] else
      var k := keys[|keys| - 1];
      InnerKids(paths, p, keys[..|keys| - 1]) + if k != SEPARATOR && HasChild(paths, p + [k]) then [p + [k]] else []
  }

  ghost predicate AreKids(kids: seq<Path>, p: Path, keys: seq<string>) {
    && (forall i :: 0 <= i < |kids| ==> |kids[i]| == |p| + 1 && kids[i][..|p|] == p && kids[i][|p|] in keys)
    && (forall i, j :: 0 <= i < j < |kids| ==> kids[i] != kids[j])
  }

  lemma {:induction false} LeafKidsAre(paths: set<Path>, p: Path, keys: seq<string>)
    requires NoDuplicates(keys)
    ensures AreKids(LeafKids(paths, p, keys), p, keys)
    ensures forall k :: p + [k] in LeafKids(paths, p, keys) <==> k in keys && k != SEPARATOR && !HasChild(paths, p + [k])
    decreases |keys|
  {
    if keys != [] {
      var front, last := keys[..|keys| - 1], keys[|keys| - 1];
      LeafKidsAre(paths, p, front);
      assert keys == front + [last] && last !in front;
      assert forall k :: p + [k] == p + [last] ==> (p + [k])[|p|] == k;
      assert (p + [last])[..|p|] == p;
    }
  }

  lemma {:induction false} InnerKidsAre(paths: set<Path>, p: Path, keys: seq<string>)
    requires NoDuplicates(keys)
    ensures AreKids(InnerKids(paths, p, keys), p, keys)
    ensures forall k :: p + [k] in InnerKids(paths, p, keys) <==> k in keys && k != SEPARATOR && HasChild(paths, p + [k])
    decreases |keys|
  {
    if keys != [] {
      var front, last := keys[..|keys| - 1], keys[|keys| - 1];
      InnerKidsAre(paths, p, front);
      assert keys == front + [last] && last !in front;
      assert forall k :: p + [k] == p + [last] ==> (p + [k])[|p|] == k;
      assert (p + [last])[..|p|] == p;
    }
  }

  // ---------- What holds of the queue and of what was yielded ----------

  /** Is the path below a queued one, or queued itself? */
  ghost predicate Waits(queue: seq<Path>, p: Path) {
    exists i :: 0 <= i < |queue| && queue[i] <= p
  }

  /** No queued path is a prefix of another. */
  ghost predicate AreApart(queue: seq<Path>) {
    forall i, j :: 0 <= i < |queue| && 0 <= j < |queue| && i != j ==> !(queue[i] <= queue[j])
  }

  /** Everything to be yielded is yielded or waits, and nothing does both. */
  ghost predicate IsSplit(paths: set<Path>, queue: seq<Path>, yielded: seq<Path>) {
    && (forall p :: IsYielded(paths, p) ==> p in yielded || Waits(queue, p))
    && (forall p :: p in yielded ==> IsYielded(paths, p) && !Waits(queue, p))
    && NoDuplicates(yielded)
  }

  /** Queued paths can be expanded: they are dictionaries with children, or the tree itself. */
  ghost predicate AreInner(paths: set<Path>, queue: seq<Path>) {
    forall i :: 0 <= i < |queue| ==> queue[i] in paths && SEPARATOR !in queue[i] && !IsLeaf(paths, queue[i])
  }

  /** By depth: the queue spans two levels, and what was yielded is not deeper than the next level. */
  ghost predicate IsLevelled(queue: seq<Path>, yielded: seq<Path>) {
    && (forall i, j :: 0 <= i < j < |queue| ==> |queue[i]| <= |queue[j]|)
    && (forall i :: 0 <= i < |queue| ==> |queue[i]| <= |queue[0]| + 1)
    && (forall i, j :: 0 <= i < j < |yielded| ==> |yielded[i]| <= |yielded[j]|)
    && (forall i :: 0 <= i < |yielded| && queue != [] ==> |yielded[i]| <= |queue[0]| + 1)
  }

  lemma LevelsStep(p: Path, rest: seq<Path>, yielded: seq<Path>, keys: seq<string>, inner: seq<Path>, leaves: seq<Path>)
    requires IsLevelled([p] + rest, yielded) && AreKids(inner, p, keys) && AreKids(leaves, p, keys)
    ensures IsLevelled(rest + inner, yielded + leaves)
  {
    var queue := [p] + rest;
    assert queue[0] == p && forall i :: 0 <= i < |rest| ==> rest[i] == queue[i + 1];
  }

  lemma ApartStep(p: Path, rest: seq<Path>, keys: seq<string>, inner: seq<Path>)
    requires AreApart([p] + rest) && AreKids(inner, p, keys)
    ensures AreApart(rest + inner)
  {
    var queue, next := [p] + rest, rest + inner;
    assert queue[0] == p && forall i :: 0 <= i < |rest| ==> rest[i] == queue[i + 1];
    forall i, j | 0 <= i < |next| && 0 <= j < |next| && i != j
      ensures !(next[i] <= next[j])
    {
      if i < |rest| && j >= |rest| {
        KidIsAfter(p, next[j], next[i]);
      } else if i >= |rest| && j < |rest| {
        assert next[i][..|p|] == p;
        PrefixOfPrefix(p, next[i], next[j]);
      } else if i >= |rest| && j >= |rest| {
        SameLengthPrefix(next[i], next[j]);
      }
    }
  }

  lemma PrefixOfPrefix(p: Path, q: Path, r: Path)
    requires |p| <= |q| && q[..|p|] == p
    ensures q <= r ==> p <= r
  {
  }

  lemma SameLengthPrefix(q: Path, r: Path)
    requires |q| == |r|
    ensures q <= r ==> q == r
  {
  }

  /** A prefix of a child is a prefix of the parent, or the child. */
  lemma KidIsAfter(p: Path, kid: Path, q: Path)
    requires |kid| == |p| + 1 && kid[..|p|] == p
    ensures q <= kid ==> q <= p || p <= q
  {
    if q <= kid {
      if |q| <= |p| {
        assert q == kid[..|q|] == p[..|q|];
      } else {
        assert q == kid;
      }
    }
  }

  /** Are these the two kinds of children of a path? */
  ghost predicate Expands(paths: set<Path>, p: Path, keys: seq<string>, inner: seq<Path>, leaves: seq<Path>) {
    && AreKids(inner, p, keys) && AreKids(leaves, p, keys)
    && (forall k :: k in keys <==> p + [k] in paths)
    && (forall k :: p + [k] in leaves <==> k in keys && k != SEPARATOR && !HasChild(paths, p + [k]))
    && (forall k :: p + [k] in inner <==> k in keys && k != SEPARATOR && HasChild(paths, p + [k]))
  }

  /** What is to be yielded below `p` is a child, or below a child that has children. */
  lemma BelowIsExpanded(paths: set<Path>, p: Path, keys: seq<string>, inner: seq<Path>, leaves: seq<Path>, l: Path)
    requires PrefixClosed(paths) && Expands(paths, p, keys, inner, leaves)
    requires IsYielded(paths, l) && p <= l && !IsLeaf(paths, p) && p in paths
    ensures l in leaves || Waits(inner, l)
  {
    assert p != l && |p| < |l|;
    var k := l[|p|];
    StepTowards(paths, p, l);
    if HasChild(paths, p + [k]) {
      assert p + [k] in inner && p + [k] <= l;
    } else {
      if |p + [k]| < |l| {
        StepTowards(paths, p + [k], l);
      }
      assert l == p + [k];
    }
  }

  /** The next path on the way to a stored path. */
  lemma StepTowards(paths: set<Path>, p: Path, l: Path)
    requires PrefixClosed(paths) && l in paths && p <= l && |p| < |l|
    ensures p + [l[|p|]] in paths && p + [l[|p|]] <= l
  {
    PrefixesAreIn(paths, l, |p| + 1);
    assert l[..|p| + 1] == p + [l[|p|]];
  }

  lemma WaitsAfter(p: Path, rest: seq<Path>, inner: seq<Path>, q: Path)
    ensures Waits(rest + inner, q) <==> Waits(rest, q) || Waits(inner, q)
    ensures Waits([p] + rest, q) <==> p <= q || Waits(rest, q)
  {
    var queue := [p] + rest;
    assert queue[0] == p && forall i :: 0 <= i < |rest| ==> rest[i] == queue[i + 1];
    var next := rest + inner;
    assert forall i :: 0 <= i < |rest| ==> next[i] == rest[i];
    assert forall i :: 0 <= i < |inner| ==> next[|rest| + i] == inner[i];
  }

  /** What waits below the children waited below the parent. */
  lemma KidsWaitBelow(p: Path, keys: seq<string>, kids: seq<Path>, q: Path)
    requires AreKids(kids, p, keys)
    ensures Waits(kids, q) ==> p <= q && p != q
  {
    if Waits(kids, q) {
      var i :| 0 <= i < |kids| && kids[i] <= q;
      PrefixOfPrefix(p, kids[i], q);
    }
  }

  /** A new leaf is below nothing that is still queued. */
  lemma LeafDoesNotWait(paths: set<Path>, p: Path, rest: seq<Path>, keys: seq<string>, inner: seq<Path>, leaves: seq<Path>, l: Path)
    requires AreApart([p] + rest) && Expands(paths, p, keys, inner, leaves) && l in leaves
    ensures !Waits(rest + inner, l)
  {
    var queue := [p] + rest;
    WaitsAfter(p, rest, inner, l);
    var a :| 0 <= a < |leaves| && leaves[a] == l;
    forall i | 0 <= i < |rest|
      ensures !(rest[i] <= l)
    {
      assert queue[0] == p && queue[i + 1] == rest[i];
      KidIsAfter(p, l, rest[i]);
    }
    forall i | 0 <= i < |inner|
      ensures !(inner[i] <= l)
    {
      SameLengthPrefix(inner[i], l);
      KidNames(p, l);
      KidNames(p, inner[i]);
    }
  }

  lemma KidNames(p: Path, kid: Path)
    requires |kid| == |p| + 1 && kid[..|p|] == p
    ensures kid == p + [kid[|p|]]
  {
  }

  lemma LeafIsYielded(paths: set<Path>, p: Path, keys: seq<string>, inner: seq<Path>, leaves: seq<Path>, l: Path)
    requires Expands(paths, p, keys, inner, leaves) && SEPARATOR !in p && l in leaves
    ensures IsYielded(paths, l)
  {
    var a :| 0 <= a < |leaves| && leaves[a] == l;
    KidNames(p, l);
  }

  lemma SplitStep(paths: set<Path>, p: Path, rest: seq<Path>, yielded: seq<Path>, keys: seq<string>, inner: seq<Path>, leaves: seq<Path>)
    requires PrefixClosed(paths) && p in paths && !IsLeaf(paths, p) && SEPARATOR !in p
    requires IsSplit(paths, [p] + rest, yielded) && AreApart([p] + rest) && Expands(paths, p, keys, inner, leaves)
    ensures IsSplit(paths, rest + inner, yielded + leaves)
  {
    forall l | IsYielded(paths, l)
      ensures l in yielded + leaves || Waits(rest + inner, l)
    {
      WaitsAfter(p, rest, inner, l);
      if p <= l {
        BelowIsExpanded(paths, p, keys, inner, leaves, l);
      }
    }
    forall l | l in yielded + leaves
      ensures IsYielded(paths, l) && !Waits(rest + inner, l)
    {
      if l in leaves {
        LeafIsYielded(paths, p, keys, inner, leaves, l);
        LeafDoesNotWait(paths, p, rest, keys, inner, leaves, l);
      } else {
        WaitsAfter(p, rest, inner, l);
        KidsWaitBelow(p, keys, inner, l);
      }
    }
    forall a | 0 <= a < |leaves|
      ensures leaves[a] !in yielded
    {
      WaitsAfter(p, rest, inner, leaves[a]);
      assert p <= leaves[a];
    }
    AppendDistinct(yielded, leaves);
  }

  lemma AppendDistinct(a: seq<Path>, b: seq<Path>)
    requires NoDuplicates(a) && NoDuplicates(b) && forall i :: 0 <= i < |b| ==> b[i] !in a
    ensures NoDuplicates(a + b)
  {
  }

  lemma InnerStep(paths: set<Path>, p: Path, rest: seq<Path>, keys: seq<string>, inner: seq<Path>, leaves: seq<Path>)
    requires AreInner(paths, [p] + rest) && Expands(paths, p, keys, inner, leaves)
    ensures AreInner(paths, rest + inner)
  {
    var queue := [p] + rest;
    assert queue[0] == p && forall i :: 0 <= i < |rest| ==> rest[i] == queue[i + 1];
    forall i | 0 <= i < |inner|
      ensures inner[i] in paths && SEPARATOR !in inner[i] && !IsLeaf(paths, inner[i])
    {
      KidNames(p, inner[i]);
      assert inner[i] in inner;
    }
  }

  /** The stored paths that are still to be looked at. */
  ghost function Waiting(paths: set<Path>, queue: seq<Path>): set<Path> {
    set p | p in paths && Waits(queue, p)
  }

  lemma WaitingShrinks(paths: set<Path>, p: Path, rest: seq<Path>, keys: seq<string>, inner: seq<Path>)
    requires p in paths && AreApart([p] + rest) && AreKids(inner, p, keys)
    ensures Waiting(paths, rest + inner) < Waiting(paths, [p] + rest)
  {
    var queue := [p] + rest;
    assert queue[0] == p && forall i :: 0 <= i < |rest| ==> rest[i] == queue[i + 1];
    forall q | q in Waiting(paths, rest + inner)
      ensures q in Waiting(paths, queue) && q != p
    {
      WaitsAfter(p, rest, inner, q);
      KidsWaitBelow(p, keys, inner, q);
      assert !Waits(rest, p);
    }
    WaitsAfter(p, rest, inner, p);
    assert p in Waiting(paths, queue);
  }

  /** All of it, for one turn of the loop. */
  ghost predicate IsUnderway(paths: set<Path>, queue: seq<Path>, yielded: seq<Path>) {
    && PrefixClosed(paths) && AreInner(paths, queue) && AreApart(queue)
    && IsSplit(paths, queue, yielded) && IsLevelled(queue, yielded)
  }

  lemma Turn(paths: set<Path>, p: Path, rest: seq<Path>, yielded: seq<Path>, keys: seq<string>, inner: seq<Path>, leaves: seq<Path>)
    requires IsUnderway(paths, [p] + rest, yielded) && Expands(paths, p, keys, inner, leaves)
    ensures IsUnderway(paths, rest + inner, yielded + leaves)
    ensures Waiting(paths, rest + inner) < Waiting(paths, [p] + rest)
  {
    assert ([p] + rest)[0] == p;
    InnerStep(paths, p, rest, keys, inner, leaves);
    ApartStep(p, rest, keys, inner);
    SplitStep(paths, p, rest, yielded, keys, inner, leaves);
    LevelsStep(p, rest, yielded, keys, inner, leaves);
    WaitingShrinks(paths, p, rest, keys, inner);
  }

  lemma Begin(paths: set<Path>)
    requires PrefixClosed(paths)
    ensures IsUnderway(paths, [[]], [])
  {
    var queue: seq<Path> := [[]];
    forall p | IsYielded(paths, p)
      ensures Waits(queue, p)
    {
      assert queue[0] <= p;
    }
  }

  // ---------- The iteration ----------

  /** The queue pairs the dictionaries at these paths with the paths. */
  ghost predicate IsQueueOf(tree: DirectoryTree, queue: seq<(Node, Path)>, ps: seq<Path>)
    reads tree
  {
    && |queue| == |ps|
    && forall i :: 0 <= i < |queue| ==> ps[i] in tree.nodes && queue[i] == (tree.nodes[ps[i]], ps[i])
  }

  lemma QueueConcat(tree: DirectoryTree, a: seq<(Node, Path)>, ps: seq<Path>, b: seq<(Node, Path)>, qs: seq<Path>)
    requires IsQueueOf(tree, a, ps) && IsQueueOf(tree, b, qs)
    ensures IsQueueOf(tree, a + b, ps + qs)
  {
  }

  lemma QueueTail(tree: DirectoryTree, a: seq<(Node, Path)>, ps: seq<Path>, b: seq<(Node, Path)>, qs: seq<Path>)
    requires a != [] && IsQueueOf(tree, a, ps) && IsQueueOf(tree, b, qs)
    ensures IsQueueOf(tree, a[1..] + b, ps[1..] + qs)
  {
    QueueConcat(tree, a[1..], ps[1..], b, qs);
  }

  /** The keys of a dictionary name its children, which are there; a child is empty exactly if its path has no children. */
  lemma KeysAre(tree: DirectoryTree, p: Path)
    requires tree.Valid() && p in tree.Paths()
    ensures NoDuplicates(tree.nodes[p].keys)
    ensures forall k :: k in tree.nodes[p].keys <==> p + [k] in tree.Paths()
    ensures forall k :: k in tree.nodes[p].keys ==> k in tree.nodes[p].children && tree.nodes[p].children[k] == tree.nodes[p + [k]]
    ensures tree.nodes[p].keys == [] <==> !HasChild(tree.Paths(), p)
  {
    var contents := tree.Look();
    assert contents[p] == (tree.nodes[p].keys, tree.nodes[p].children);
    forall k
      ensures k in tree.nodes[p].keys <==> p + [k] in tree.Paths()
    {
      var q := p + [k];
      assert q[..|q| - 1] == p && q[|q| - 1] == k;
    }
    if tree.nodes[p].keys != [] {
      assert tree.nodes[p].keys[0] in tree.nodes[p].keys;
    }
  }

  lemma KeyIs(tree: DirectoryTree, p: Path, k: string)
    requires tree.Valid() && p in tree.Paths() && k in tree.nodes[p].keys
    ensures k in tree.nodes[p].children && p + [k] in tree.Paths() && tree.nodes[p].children[k] == tree.nodes[p + [k]]
    ensures tree.nodes[p].children[k].keys != [] <==> HasChild(tree.Paths(), p + [k])
  {
    KeysAre(tree, p);
    KeysAre(tree, p + [k]);
  }

  lemma KidsSnoc(paths: set<Path>, p: Path, keys: seq<string>, k: string)
    ensures InnerKids(paths, p, keys + [k]) ==
            InnerKids(paths, p, keys) + if k != SEPARATOR && HasChild(paths, p + [k]) then [p + [k]] else []
    ensures LeafKids(paths, p, keys + [k]) ==
            LeafKids(paths, p, keys) + if k != SEPARATOR && !HasChild(paths, p + [k]) then [p + [k]] else []
  {
    assert (keys + [k])[..|keys|] == keys;
  }

  lemma OneIsQueue(tree: DirectoryTree, node: Node, p: Path)
    requires p in tree.nodes && tree.nodes[p] == node
    ensures IsQueueOf(tree, [(node, p)], [p])
  {
  }

  /** One key: its child is queued if it has children, and yielded if not. */
  method VisitKey(tree: DirectoryTree, node: Node, p: Path, key: string) returns (inner: seq<(Node, Path)>, leaves: seq<Path>)
    requires tree.Valid() && p in tree.Paths() && node == tree.nodes[p] && key in node.keys
    ensures IsQueueOf(tree, inner, if key != SEPARATOR && HasChild(tree.Paths(), p + [key]) then [p + [key]] else [])
    ensures leaves == if key != SEPARATOR && !HasChild(tree.Paths(), p + [key]) then [p + [key]] else []
  {
    KeyIs(tree, p, key);
    if key == SEPARATOR {
      return [], [];
    }
    var value := node.children[key];
    if value.keys != [] {
      OneIsQueue(tree, value, p + [key]);
      return [(value, p + [key])], [];
    } else {
      return [], [p + [key]];
    }
  }

  /** The body of the loop: the children that have children are queued, the others yielded. */
  method Expand(tree: DirectoryTree, node: Node, p: Path) returns (inner: seq<(Node, Path)>, leaves: seq<Path>)
    requires tree.Valid() && p in tree.Paths() && node == tree.nodes[p]
    ensures IsQueueOf(tree, inner, InnerKids(tree.Paths(), p, node.keys))
    ensures leaves == LeafKids(tree.Paths(), p, node.keys)
  {
    inner, leaves := [], [];
    ghost var paths, keys := tree.Paths(), node.keys;
    for i := 0 to |node.keys|
      invariant IsQueueOf(tree, inner, InnerKids(paths, p, keys[..i]))
      invariant leaves == LeafKids(paths, p, keys[..i])
    {
      var innerNow, leavesNow := VisitKey(tree, node, p, node.keys[i]);
      TakeNext(keys, i);
      KidsSnoc(paths, p, keys[..i], keys[i]);
      QueueConcat(tree, inner, InnerKids(paths, p, keys[..i]), innerNow,
                  if keys[i] != SEPARATOR && HasChild(paths, p + [keys[i]]) then [p + [keys[i]]] else []);
      inner, leaves := inner + innerNow, leaves + leavesNow;
    }
    assert keys[..|keys|] == keys;
  }

  lemma KidsExpand(tree: DirectoryTree, p: Path)
    requires tree.Valid() && p in tree.Paths()
    ensures var keys := tree.nodes[p].keys;
            Expands(tree.Paths(), p, keys, InnerKids(tree.Paths(), p, keys), LeafKids(tree.Paths(), p, keys))
  {
    KeysAre(tree, p);
    InnerKidsAre(tree.Paths(), p, tree.nodes[p].keys);
    LeafKidsAre(tree.Paths(), p, tree.nodes[p].keys);
  }

  lemma TurnOfQueue(tree: DirectoryTree, ps: seq<Path>, yielded: seq<Path>)
    requires tree.Valid() && ps != [] && ps[0] in tree.Paths() && IsUnderway(tree.Paths(), ps, yielded)
    ensures var paths, keys := tree.Paths(), tree.nodes[ps[0]].keys;
            && IsUnderway(paths, ps[1..] + InnerKids(paths, ps[0], keys), yielded + LeafKids(paths, ps[0], keys))
            && Waiting(paths, ps[1..] + InnerKids(paths, ps[0], keys)) < Waiting(paths, ps)
  {
    var paths, keys := tree.Paths(), tree.nodes[ps[0]].keys;
    assert ps == [ps[0]] + ps[1..];
    KidsExpand(tree, ps[0]);
    Turn(paths, ps[0], ps[1..], yielded, keys, InnerKids(paths, ps[0], keys), LeafKids(paths, ps[0], keys));
  }

  /** One turn of the loop: the first path of the queue is expanded. */
  method TakeTurn(tree: DirectoryTree, queue: seq<(Node, Path)>, ghost ps: seq<Path>, yielded: seq<Path>)
    returns (next: seq<(Node, Path)>, ghost nextPaths: seq<Path>, moreYielded: seq<Path>)
    requires tree.Valid() && queue != [] && IsQueueOf(tree, queue, ps) && IsUnderway(tree.Paths(), ps, yielded)
    ensures IsQueueOf(tree, next, nextPaths) && IsUnderway(tree.Paths(), nextPaths, moreYielded)
    ensures Waiting(tree.Paths(), nextPaths) < Waiting(tree.Paths(), ps)
  {
    var (data, parents) := queue[0];
    var inner, leaves := Expand(tree, data, parents);
    ghost var innerPaths := InnerKids(tree.Paths(), parents, data.keys);
    TurnOfQueue(tree, ps, yielded);
    QueueTail(tree, queue, ps, inner, innerPaths);
    next, nextPaths, moreYielded := queue[1..] + inner, ps[1..] + innerPaths, yielded + leaves;
  }

  /** `__iter__`: every path to be yielded, once each, in nondecreasing depth. */
  method Iterate(tree: DirectoryTree) returns (yielded: seq<Path>)
    requires tree.Valid()
    ensures forall p :: p in yielded <==> IsYielded(tree.Paths(), p)
    ensures NoDuplicates(yielded)
    ensures forall i, j :: 0 <= i < j < |yielded| ==> |yielded[i]| <= |yielded[j]|
  {
    yielded := [];
    var queue: seq<(Node, Path)> := [(tree.root, [])];
    ghost var ps: seq<Path> := [[]];
    Begin(tree.Paths());
    while queue != []
      invariant IsQueueOf(tree, queue, ps) && IsUnderway(tree.Paths(), ps, yielded)
      decreases Waiting(tree.Paths(), ps)
    {
      queue, ps, yielded := TakeTurn(tree, queue, ps, yielded);
    }
    Finished(tree.Paths(), yielded);
  }

  lemma Finished(paths: set<Path>, yielded: seq<Path>)
    requires IsUnderway(paths, [], yielded)
    ensures forall p :: p in yielded <==> IsYielded(paths, p)
    ensures NoDuplicates(yielded) && forall i, j :: 0 <= i < j < |yielded| ==> |yielded[i]| <= |yielded[j]|
  {
  }

  // ---------- Built from a list ----------

  /** Is a path inserted: listed, and neither empty nor the root directory? */
  ghost predicate IsInserted(values: seq<Path>, p: Path) {
    p in values && p != [] && p != [SEPARATOR]
  }

  /** A tree built from a list holds, and so `get` finds, exactly the prefixes of inserted paths. */
  lemma {:induction false} AllPrefixesAre(values: seq<Path>, p: Path)
    ensures p in AllPrefixes(values) <==> p == [] || exists v :: IsInserted(values, v) && p <= v
    decreases |values|
  {
    if values == [] {
    } else {
      var front, last := values[..|values| - 1], values[|values| - 1];
      AllPrefixesAre(front, p);
      PrefixesAre(last, p);
      assert forall v :: v in values <==> v in front || v == last;
      if p in AllPrefixes(values) && p != [] {
        if v :| IsInserted(front, v) && p <= v {
          assert IsInserted(values, v);
        } else {
          assert IsInserted(values, last) && p <= last;
        }
      }
      if v :| IsInserted(values, v) && p <= v {
        assert v != last ==> IsInserted(front, v);
      }
    }
  }

  lemma PrefixesAre(v: Path, p: Path)
    ensures p in Prefixes(v) <==> p <= v
  {
    if p <= v {
      assert p == v[..|p|];
    }
  }

  lemma ChildMeansLonger(values: seq<Path>, p: Path)
    ensures HasChild(AllPrefixes(values), p) <==> exists v :: IsInserted(values, v) && p < v
  {
    if k :| p + [k] in AllPrefixes(values) {
      AllPrefixesAre(values, p + [k]);
      var v :| IsInserted(values, v) && p + [k] <= v;
      assert p < v;
    }
    if v :| IsInserted(values, v) && p < v {
      var k := v[|p|];
      assert p + [k] <= v;
      AllPrefixesAre(values, p + [k]);
      assert p + [k] in AllPrefixes(values);
    }
  }

  /** A path is yielded exactly if it is inserted and is no strict prefix of another inserted one (and has no `/` component). */
  lemma YieldedAreMaximal(values: seq<Path>, p: Path)
    ensures IsYielded(AllPrefixes(values), p) <==>
            IsInserted(values, p) && SEPARATOR !in p && !exists v :: IsInserted(values, v) && p < v
  {
    AllPrefixesAre(values, p);
    ChildMeansLonger(values, p);
    if v :| IsInserted(values, v) && p <= v {
      assert p < v || p == v;
    }
  }
}
