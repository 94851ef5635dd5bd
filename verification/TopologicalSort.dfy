/** `topological`: depth-first topological sorting of a graph given as a node's parents. */
module TopologicalSort {
  import opened Common

  type Graph<T> = map<T, seq<T>>

  datatype Color = Gray | Black

  function Parents<T>(nodes: Graph<T>, x: T): seq<T> {
    if x in nodes then nodes[x] else []
  }

  /** Every key, and every parent that is mentioned. */
  function Mentioned<T>(nodes: Graph<T>): set<T> {
    nodes.Keys + set x, p | x in nodes && p in nodes[x] :: p
  }

  /** Each element of the sequence is followed by one of its parents. */
  ghost predicate Chain<T>(nodes: Graph<T>, path: seq<T>) {
    forall i :: 0 <= i < |path| - 1 ==> path[i + 1] in Parents(nodes, path[i])
  }

  ghost predicate Cycle<T>(nodes: Graph<T>, path: seq<T>) {
    path != [] && Chain(nodes, path) && path[0] in Parents(nodes, path[|path| - 1])
  }

  ghost predicate Cyclic<T(!new)>(nodes: Graph<T>) {
    exists path :: Cycle(nodes, path)
  }

  /** No repetition, and every node stands before all of its parents. */
  ghost predicate Ordered<T>(nodes: Graph<T>, order: seq<T>) {
    && NoDuplicates(order)
    && forall i, p :: 0 <= i < |order| && p in Parents(nodes, order[i]) ==> p in order[i + 1..]
  }

  lemma {:induction false} ChainGoesForward<T>(nodes: Graph<T>, order: seq<T>, path: seq<T>, i: nat)
    requires Ordered(nodes, order) && Chain(nodes, path)
    requires path != [] && i < |order| && order[i] == path[0]
    ensures exists j :: i + |path| - 1 <= j < |order| && order[j] == path[|path| - 1]
    decreases |path|
  {
    if |path| == 1 {
      assert order[i] == path[|path| - 1];
    } else {
      assert path[1] in order[i + 1..];
      var k :| 0 <= k < |order[i + 1..]| && order[i + 1..][k] == path[1];
      assert Chain(nodes, path[1..]);
      ChainGoesForward(nodes, order, path[1..], i + 1 + k);
    }
  }

  lemma OrderExcludesCycle<T>(nodes: Graph<T>, order: seq<T>, path: seq<T>)
    requires Ordered(nodes, order)
    requires forall x :: x in Mentioned(nodes) ==> x in order
    ensures !Cycle(nodes, path)
  {
    if Cycle(nodes, path) {
      var last := path[|path| - 1];
      assert last in nodes && path[0] in Mentioned(nodes);
      var i :| 0 <= i < |order| && order[i] == path[0];
      ChainGoesForward(nodes, order, path, i);
    }
  }

  /** A graph that can be put in order has no cycle. */
  lemma OrderedIsAcyclic<T(!new)>(nodes: Graph<T>, order: seq<T>)
    requires Ordered(nodes, order)
    requires forall x :: x in Mentioned(nodes) ==> x in order
    ensures !Cyclic(nodes)
  {
    forall path | Cycle(nodes, path) ensures false {
      OrderExcludesCycle(nodes, order, path);
    }
  }

  /** The tail of a path from a node it already contains is a cycle. */
  lemma BackEdgeIsCycle<T>(nodes: Graph<T>, path: seq<T>, p: T)
    requires path != [] && Chain(nodes, path) && p in path && p in Parents(nodes, path[|path| - 1])
    ensures exists cycle :: Cycle(nodes, cycle)
  {
    var i :| 0 <= i < |path| && path[i] == p;
    assert Cycle(nodes, path[i..]);
  }

  /** Gray nodes are those on the path, black ones those in order, and the rest of the keys wait or are held. */
  ghost predicate Consistent<T(!new)>(nodes: Graph<T>, order: seq<T>, enter: set<T>, state: map<T, Color>, path: seq<T>, held: set<T>) {
    && NoDuplicates(path) && Chain(nodes, path)
    && (forall x :: x in path <==> x in state && state[x].Gray?)
    && (forall x :: x in order <==> x in state && state[x].Black?)
    && state.Keys <= Mentioned(nodes)
    && Ordered(nodes, order)
    && (forall x :: x in enter ==> x !in state && x in nodes)
    && (forall x :: x in nodes ==> x in enter || x in state || x in held)
  }

  lemma MeetingNode<T(!new)>(nodes: Graph<T>, order: seq<T>, enter: set<T>, state: map<T, Color>, path: seq<T>, node: T)
    requires Consistent(nodes, order, enter, state, path, {node})
    requires node !in state && node !in enter && node in Mentioned(nodes)
    requires path != [] ==> node in Parents(nodes, path[|path| - 1])
    ensures Consistent(nodes, order, enter, state[node := Gray], path + [node], {})
  {
    var longer := path + [node];
    assert forall x :: x in longer <==> x in path || x == node;
  }

  lemma LeavingNode<T(!new)>(nodes: Graph<T>, order: seq<T>, enter: set<T>, state: map<T, Color>, path: seq<T>, node: T)
    requires Consistent(nodes, order, enter, state, path + [node], {})
    requires forall p :: p in Parents(nodes, node) ==> p in state && state[p].Black?
    ensures Consistent(nodes, [node] + order, enter, state[node := Black], path, {})
  {
    var longer := path + [node];
    assert longer[|path|] == node;
    assert forall i :: 0 <= i < |path| ==> longer[i] == path[i];
    assert forall x :: x in longer <==> x in path || x == node;
    AddingInFront(nodes, order, node);
  }

  lemma ParentIsMentioned<T>(nodes: Graph<T>, x: T, p: T)
    requires p in Parents(nodes, x)
    ensures p in Mentioned(nodes)
  {
  }

  class Sorter<T(==, !new)> {
    const nodes: Graph<T>
    var order: seq<T>
    var enter: set<T>
    var state: map<T, Color>

    constructor (nodes: Graph<T>)
      ensures this.nodes == nodes && order == [] && enter == nodes.Keys && state == map[]
    {
      this.nodes := nodes;
      order, enter, state := [], nodes.Keys, map[];
    }

    /** Nodes on the path are being visited; `held` was just taken from `enter`. */
    ghost predicate Visiting(path: seq<T>, held: set<T>)
      reads this
    {
      Consistent(nodes, order, enter, state, path, held)
    }

    /** Everything met before is as it was, but for nodes that are now done. */
    ghost predicate Later(before: map<T, Color>, waiting: set<T>)
      reads this
    {
      && (forall x :: x in before ==> x in state && state[x] == before[x])
      && enter <= waiting
    }

    /** Visits a node not met yet, and what it reaches. Returns false when it raises. */
    method Visit(node: T, ghost path: seq<T>) returns (ok: bool)
      requires Visiting(path, {node}) && node !in state && node !in enter && node in Mentioned(nodes)
      requires path != [] ==> node in Parents(nodes, path[|path| - 1])
      modifies this`order, this`enter, this`state
      ensures !ok ==> Cyclic(nodes)
      ensures ok ==> Visiting(path, {}) && node in state && state[node].Black?
      ensures ok ==> Later(old(state), old(enter))
      decreases Mentioned(nodes) - state.Keys, 0
    {
      MeetingNode(nodes, order, enter, state, path, node);
      state := state[node := Gray];
      ok := VisitParents(node, path + [node]);
      if ok {
        LeavingNode(nodes, order, enter, state, path, node);
        order := [node] + order;
        state := state[node := Black];
      }
    }

    /** The loop over the parents of the node at the end of the path. */
    method VisitParents(node: T, ghost here: seq<T>) returns (ok: bool)
      requires Visiting(here, {}) && here != [] && here[|here| - 1] == node
      modifies this`order, this`enter, this`state
      ensures !ok ==> Cyclic(nodes)
      ensures ok ==> Visiting(here, {}) && forall p :: p in Parents(nodes, node) ==> p in state && state[p].Black?
      ensures ok ==> Later(old(state), old(enter))
      decreases Mentioned(nodes) - state.Keys, 2
    {
      var parents := Parents(nodes, node);
      for i := 0 to |parents|
        invariant Visiting(here, {})
        invariant Later(old(state), old(enter))
        invariant forall k :: 0 <= k < i ==> parents[k] in state && state[parents[k]].Black?
      {
        ghost var before := state;
        ok := VisitParent(node, parents[i], here);
        if !ok {
          return;
        }
        assert forall x :: x in before ==> x in state && state[x] == before[x];
      }
      return true;
    }

    /** One parent of the node at the end of the path: it is done, or is visited, or closes a cycle. */
    method VisitParent(node: T, parent: T, ghost here: seq<T>) returns (ok: bool)
      requires Visiting(here, {}) && here != [] && here[|here| - 1] == node && parent in Parents(nodes, node)
      modifies this`order, this`enter, this`state
      ensures !ok ==> Cyclic(nodes)
      ensures ok ==> Visiting(here, {}) && parent in state && state[parent].Black?
      ensures ok ==> Later(old(state), old(enter))
      decreases Mentioned(nodes) - state.Keys, 1
    {
      ParentIsMentioned(nodes, node, parent);
      if parent in state {
        if state[parent].Gray? {
          BackEdgeIsCycle(nodes, here, parent);
          return false;
        }
        return true;
      }
      enter := enter - {parent};
      ok := Visit(parent, here);
    }

    /** `topological`. */
    method Sort() returns (ok: bool)
      requires order == [] && enter == nodes.Keys && state == map[]
      modifies this`order, this`enter, this`state
      ensures ok <==> !Cyclic(nodes)
      ensures ok ==> Ordered(nodes, order) && forall x :: x in order <==> x in Mentioned(nodes)
    {
      while enter != {}
        invariant Visiting([], {})
        decreases enter
      {
        var node :| node in enter;
        enter := enter - {node};
        var visited := Visit(node, []);
        if !visited {
          return false;
        }
      }
      OrderCoversGraph(nodes, order);
      OrderedIsAcyclic(nodes, order);
      return true;
    }
  }

  /** A node goes in front of an order that has all of its parents. */
  lemma AddingInFront<T>(nodes: Graph<T>, order: seq<T>, node: T)
    requires Ordered(nodes, order) && node !in order
    requires forall p :: p in Parents(nodes, node) ==> p in order
    ensures Ordered(nodes, [node] + order)
  {
    var longer := [node] + order;
    forall i, p | 0 <= i < |longer| && p in Parents(nodes, longer[i]) ensures p in longer[i + 1..] {
      if i > 0 {
        assert p in order[i - 1 + 1..] && longer[i + 1..] == order[i..];
      } else {
        assert longer[1..] == order;
      }
    }
  }

  lemma OrderCoversGraph<T>(nodes: Graph<T>, order: seq<T>)
    requires Ordered(nodes, order) && forall x :: x in nodes ==> x in order
    ensures forall x :: x in Mentioned(nodes) ==> x in order
  {
    forall x, p | x in nodes && p in nodes[x] ensures p in order {
      var i :| 0 <= i < |order| && order[i] == x;
      assert p in Parents(nodes, order[i]);
    }
  }
}
