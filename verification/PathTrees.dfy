/** `DirectoryTree`: nested dictionaries of path components, and their breadth-first iteration. */
module PathTrees {
  import opened Common

  type Path = seq<string>

  // ---------- Sets of paths ----------

  ghost predicate PrefixClosed(paths: set<Path>) {
    [] in paths && forall p :: p in paths && p != [] ==> p[..|p| - 1] in paths
  }

  /** Every prefix of a path. */
  ghost function Prefixes(path: Path): set<Path> {
    set i | 0 <= i <= |path| :: path[..i]
  }

  ghost predicate HasChild(paths: set<Path>, p: Path) {
    exists k :: p + [k] in paths
  }

  /** A path that ends at an empty dictionary, other than the tree itself. */
  ghost predicate IsLeaf(paths: set<Path>, p: Path) {
    p in paths && p != [] && !HasChild(paths, p)
  }

  lemma {:induction false} PrefixesAreIn(paths: set<Path>, p: Path, i: nat)
    requires PrefixClosed(paths) && p in paths && i <= |p|
    ensures p[..i] in paths
    decreases |p|
  {
    if i < |p| {
      assert p[..|p| - 1][..i] == p[..i];
      PrefixesAreIn(paths, p[..|p| - 1], i);
    } else {
      assert p[..i] == p;
    }
  }

  // ---------- The tree ----------

  /** A dictionary; `keys` is its insertion order. */
  class Node {
    ghost const path: Path
    var keys: seq<string>
    var children: map<string, Node>

    constructor (ghost path: Path)
      ensures this.path == path && keys == [] && children == map[]
    {
      this.path := path;
      keys, children := [], map[];
    }
  }

  /** What every dictionary holds. */
  type Contents = map<Path, (seq<string>, map<string, Node>)>

  /** The nodes form a tree: every node is the child of the node of its parent path, and of no other. */
  ghost predicate IsTree(nodes: map<Path, Node>, contents: Contents) {
    AreNamed(nodes, contents) && PrefixClosed(nodes.Keys) && Linked(nodes, contents) && Parented(contents)
  }

  ghost predicate IsDictionary(content: (seq<string>, map<string, Node>)) {
    NoDuplicates(content.0) && forall k :: k in content.0 <==> k in content.1
  }

  ghost predicate Linked(nodes: map<Path, Node>, contents: Contents) {
    forall p, k :: p in contents && k in contents[p].1 ==> p + [k] in nodes && contents[p].1[k] == nodes[p + [k]]
  }

  ghost predicate Parented(contents: Contents) {
    forall q :: q in contents && q != [] ==> q[..|q| - 1] in contents && q[|q| - 1] in contents[q[..|q| - 1]].1
  }

  /** The contents with a new, empty dictionary under a key of the one at `p`. */
  ghost function Grown(contents: Contents, p: Path, key: string, child: Node): Contents
    requires p in contents
  {
    contents[p := (contents[p].0 + [key], contents[p].1[key := child])][p + [key] := ([], map[])]
  }

  lemma NotThereYet(contents: Contents, p: Path, key: string)
    requires Parented(contents) && p in contents && key !in contents[p].1
    ensures p + [key] !in contents
  {
    var q := p + [key];
    assert q[..|q| - 1] == p && q[|q| - 1] == key;
  }

  ghost predicate AreNamed(nodes: map<Path, Node>, contents: Contents) {
    nodes.Keys == contents.Keys && forall p :: p in nodes ==> nodes[p].path == p && IsDictionary(contents[p])
  }

  lemma GrownIsTree(nodes: map<Path, Node>, contents: Contents, p: Path, key: string, child: Node)
    requires IsTree(nodes, contents) && p in nodes && key !in contents[p].1 && child.path == p + [key]
    ensures p + [key] !in nodes
    ensures IsTree(nodes[p + [key] := child], Grown(contents, p, key, child))
  {
    NotThereYet(contents, p, key);
    GrownIsLinked(nodes, contents, p, key, child);
    GrownIsParented(contents, p, key, child);
    GrownAreDictionaries(nodes, contents, p, key, child);
    PrefixClosedGrows(nodes.Keys, p, key);
    assert nodes[p + [key] := child].Keys == nodes.Keys + {p + [key]};
  }

  lemma PrefixClosedGrows(paths: set<Path>, p: Path, key: string)
    requires PrefixClosed(paths) && p in paths
    ensures PrefixClosed(paths + {p + [key]})
  {
    assert (p + [key])[..|p|] == p;
  }

  lemma DictionaryGrows(content: (seq<string>, map<string, Node>), key: string, child: Node)
    requires IsDictionary(content) && key !in content.1
    ensures IsDictionary((content.0 + [key], content.1[key := child]))
  {
  }

  lemma GrownAreDictionaries(nodes: map<Path, Node>, contents: Contents, p: Path, key: string, child: Node)
    requires AreNamed(nodes, contents) && p in nodes && key !in contents[p].1 && child.path == p + [key]
    ensures AreNamed(nodes[p + [key] := child], Grown(contents, p, key, child))
  {
    DictionaryGrows(contents[p], key, child);
  }

  lemma GrownIsLinked(nodes: map<Path, Node>, contents: Contents, p: Path, key: string, child: Node)
    requires Linked(nodes, contents) && nodes.Keys == contents.Keys && p in nodes && p + [key] !in nodes
    ensures Linked(nodes[p + [key] := child], Grown(contents, p, key, child))
  {
    var grown := Grown(contents, p, key, child);
    forall r, k | r in grown && k in grown[r].1
      ensures r + [k] in nodes[p + [key] := child] && grown[r].1[k] == nodes[p + [key] := child][r + [k]]
    {
      if r != p + [key] && !(r == p && k == key) {
        assert r in contents && k in contents[r].1;
      }
    }
  }

  lemma GrownIsParented(contents: Contents, p: Path, key: string, child: Node)
    requires Parented(contents) && p in contents && p + [key] !in contents
    ensures Parented(Grown(contents, p, key, child))
  {
    var grown := Grown(contents, p, key, child);
    var extended := p + [key];
    assert extended[..|extended| - 1] == p && extended[|extended| - 1] == key;
    forall q | q in grown && q != []
      ensures q[..|q| - 1] in grown && q[|q| - 1] in grown[q[..|q| - 1]].1
    {
      if q != extended {
        assert q in contents;
      }
    }
  }

  lemma ChildIsThere(nodes: map<Path, Node>, contents: Contents, p: Path, key: string)
    requires IsTree(nodes, contents) && p in nodes && key in contents[p].1
    ensures p + [key] in nodes && contents[p].1[key] == nodes[p + [key]]
    ensures nodes.Keys == nodes.Keys + {p + [key]}
  {
  }

  lemma AddedUnder(before: map<Path, Node>, after: map<Path, Node>, q: Path, child: Node)
    requires after == before[q := child]
    ensures after.Keys == before.Keys + {q}
    ensures forall n :: n in after.Values ==> n in before.Values || n == child
  {
  }

  class DirectoryTree {
    const root: Node
    ghost var nodes: map<Path, Node>

    ghost function Look(): Contents
      reads this, nodes.Values
    {
      map p | p in nodes :: (nodes[p].keys, nodes[p].children)
    }

    ghost predicate Valid()
      reads this, nodes.Values
    {
      IsTree(nodes, Look()) && nodes[[]] == root
    }

    ghost function Paths(): set<Path>
      reads this
    {
      nodes.Keys
    }

    constructor ()
      ensures Valid() && Paths() == {[]} && fresh(nodes.Values)
    {
      var node := new Node([]);
      root := node;
      nodes := map[[] := node];
    }

    /** `get`: the subtree at a path, if there is one. */
    method Get(path: Path) returns (subtree: Node?)
      requires Valid()
      ensures subtree != null <==> path in Paths()
      ensures subtree != null ==> subtree == nodes[path]
    {
      subtree := root;
      for i := 0 to |path|
        invariant path[..i] in nodes && subtree == nodes[path[..i]]
      {
        TakeNext(path, i);
        assert path[..i + 1][..i] == path[..i];
        assert Look()[path[..i]] == (subtree.keys, subtree.children);
        if path[i] !in subtree.children {
          if path in nodes {
            PrefixesAreIn(nodes.Keys, path, i + 1);
          }
          return null;
        }
        subtree := subtree.children[path[i]];
      }
      assert path[..|path|] == path;
    }

    /** A new, empty dictionary under a key. */
    method Attach(ghost p: Path, destination: Node, part: string) returns (child: Node)
      requires AreNamed(nodes, Look()) && p in nodes && nodes[p] == destination && p + [part] !in nodes
      modifies this`nodes, destination
      ensures nodes == old(nodes)[p + [part] := child] && fresh(child) && child.path == p + [part]
      ensures Look() == Grown(old(Look()), p, part, child)
    {
      ghost var contents := Look();
      ghost var q := p + [part];
      child := new Node(q);
      destination.keys := destination.keys + [part];
      destination.children := destination.children[part := child];
      nodes := nodes[q := child];
      forall r | r in nodes
        ensures Look()[r] == Grown(contents, p, part, child)[r]
      {
        if r != p && r != q {
          assert nodes[r] != destination && contents[r] == (nodes[r].keys, nodes[r].children);
        }
      }
    }

    method Insert(ghost p: Path, destination: Node, part: string) returns (child: Node)
      requires Valid() && p in nodes && nodes[p] == destination && part !in destination.children
      modifies this`nodes, destination
      ensures Valid() && nodes == old(nodes)[p + [part] := child] && fresh(child)
    {
      ghost var before, contents := nodes, Look();
      assert contents[p] == (destination.keys, destination.children);
      NotThereYet(contents, p, part);
      child := Attach(p, destination, part);
      GrownIsTree(before, contents, p, part, child);
    }

    /** `setdefault(part, DirectoryTree())`. */
    method SetDefault(ghost p: Path, destination: Node, part: string) returns (child: Node)
      requires Valid() && p in nodes && nodes[p] == destination
      modifies this`nodes, destination
      ensures Valid() && Paths() == old(Paths()) + {p + [part]}
      ensures child == nodes[p + [part]] && (forall n :: n in nodes.Values ==> n in old(nodes.Values) || fresh(n))
    {
      ghost var before, contents := nodes, Look();
      assert contents[p] == (destination.keys, destination.children);
      if part in destination.children {
        ChildIsThere(before, contents, p, part);
        return destination.children[part];
      }
      child := Insert(p, destination, part);
      AddedUnder(before, nodes, p + [part], child);
    }

    /** One turn of the loop of `add`. */
    method AddPart(path: Path, i: nat, destination: Node, ghost before: set<Path>) returns (child: Node)
      requires Valid() && i < |path| && path[..i] in nodes && destination == nodes[path[..i]]
      requires Paths() == before + Prefixes(path[..i])
      modifies this`nodes, nodes.Values
      ensures Valid() && path[..i + 1] in nodes && child == nodes[path[..i + 1]]
      ensures Paths() == before + Prefixes(path[..i + 1])
      ensures forall n :: n in nodes.Values ==> n in old(nodes.Values) || fresh(n)
    {
      PrefixesGrow(before, path, i);
      child := SetDefault(path[..i], destination, path[i]);
    }

    /** `add`: a dictionary for every prefix of the path. */
    method Add(path: Path)
      requires Valid()
      modifies this`nodes, nodes.Values
      ensures Valid() && Paths() == old(Paths()) + (if path == ["/"] then {} else Prefixes(path))
      ensures forall n :: n in nodes.Values ==> n in old(nodes.Values) || fresh(n)
    {
      NoPrefixes();
      if path == ["/"] || path == [] {
        return;
      }
      var destination := root;
      ghost var before := Paths();
      for i := 0 to |path|
        invariant Valid() && path[..i] in nodes && destination == nodes[path[..i]]
        invariant Paths() == before + Prefixes(path[..i])
        invariant forall n :: n in nodes.Values ==> n in old(nodes.Values) || fresh(n)
      {
        destination := AddPart(path, i, destination, before);
      }
      assert path[..|path|] == path;
    }
  }

  lemma NoPrefixes()
    ensures Prefixes([]) == {[]}
  {
    var empty: Path := [];
    assert empty[..0] == [] && empty in Prefixes([]);
  }

  lemma PrefixesGrow(before: set<Path>, path: Path, i: nat)
    requires i < |path|
    ensures path[..i + 1] == path[..i] + [path[i]]
    ensures before + Prefixes(path[..i]) + {path[..i] + [path[i]]} == before + Prefixes(path[..i + 1])
  {
    PrefixesNext(path, i);
  }

  lemma PrefixesNext(path: Path, i: nat)
    requires i < |path|
    ensures path[..i + 1] == path[..i] + [path[i]]
    ensures Prefixes(path[..i + 1]) == Prefixes(path[..i]) + {path[..i + 1]}
  {
    var longer, shorter := path[..i + 1], path[..i];
    assert longer[..i + 1] == longer;
    forall j | 0 <= j <= i
      ensures shorter[..j] == longer[..j]
    {
    }
    assert longer[..i + 1] in Prefixes(longer);
    forall p | p in Prefixes(longer)
      ensures p in Prefixes(shorter) + {longer}
    {
      var j :| 0 <= j <= i + 1 && p == longer[..j];
      assert j <= i ==> p == shorter[..j];
    }
    forall p | p in Prefixes(shorter)
      ensures p in Prefixes(longer)
    {
      var j :| 0 <= j <= i && p == shorter[..j];
      assert p == longer[..j];
    }
  }

  /** The root, and every prefix of a path that is inserted; the path `/` is not. */
  ghost function AllPrefixes(values: seq<Path>): set<Path> {
    if values == [] then {[]} else
      var last := values[|values| - 1];
      AllPrefixes(values[..|values| - 1]) + if last == ["/"] then {} else Prefixes(last)
  }

  /** `from_list`. */
  method FromList(values: seq<Path>) returns (tree: DirectoryTree)
    ensures fresh(tree) && tree.Valid() && tree.Paths() == AllPrefixes(values)
  {
    tree := new DirectoryTree();
    for i := 0 to |values|
      invariant tree.Valid() && tree.Paths() == AllPrefixes(values[..i])
      invariant forall n :: n in tree.nodes.Values ==> fresh(n)
    {
      assert values[..i + 1][..i] == values[..i];
      tree.Add(values[i]);
    }
    assert values[..|values|] == values;
  }
}
