/** `_find_cycle`: a three-colour depth-first search over a dictionary of edges, with early exit.
    A Python dictionary is its keys in insertion order together with a map. */
module CycleFinding {
  import opened Common

  type Graph = map<string, seq<string>>

  datatype Color = Unseen | Active | Done

  ghost predicate Edge(g: Graph, a: string, b: string) {
    a in g && b in g[a] && b in g
  }

  ghost predicate Walk(g: Graph, p: seq<string>) {
    forall k :: 0 <= k < |p| - 1 ==> Edge(g, p[k], p[k + 1])
  }

  /** A closed walk of at least one edge between known nodes. */
  ghost predicate IsCycle(g: Graph, p: seq<string>) {
    2 <= |p| && p[0] == p[|p| - 1] && Walk(g, p)
  }

  ghost predicate Acyclic(g: Graph) {
    forall p :: !IsCycle(g, p)
  }

  /** Every known successor of a node stands before it: the finish order of a completed search. */
  ghost predicate SuccessorsFirst(g: Graph, order: seq<string>) {
    && Distinct(order)
    && forall i, b :: 0 <= i < |order| && Edge(g, order[i], b) ==> b in order[..i]
  }

  lemma {:induction false} WalkDescends(g: Graph, order: seq<string>, p: seq<string>, k: nat)
    requires SuccessorsFirst(g, order)
    requires Walk(g, p) && k < |p| && p[0] in order
    ensures p[k] in order && IndexOf(order, p[k]) + k <= IndexOf(order, p[0])
  {
    if k > 0 {
      WalkDescends(g, order, p, k - 1);
      var i := IndexOf(order, p[k - 1]);
      assert Edge(g, p[k - 1], p[k - 1 + 1]);
      assert p[k] in order[..i];
    }
  }

  /** A finish order of all known nodes rules out every cycle. */
  lemma FinishOrderIsAcyclic(g: Graph, order: seq<string>)
    requires SuccessorsFirst(g, order)
    requires forall n :: n in g ==> n in order
    ensures Acyclic(g)
  {
    forall p ensures !IsCycle(g, p) {
      if IsCycle(g, p) {
        assert Edge(g, p[0], p[0 + 1]);
        WalkDescends(g, order, p, |p| - 1);
      }
    }
  }

  /** What a search keeps between two steps: the stack holds the active nodes along a walk, and
      the finished nodes are in finish order. */
  ghost predicate SearchState(g: Graph, color: map<string, Color>, stack: seq<string>, finished: seq<string>) {
    && color.Keys == g.Keys
    && Distinct(stack)
    && (forall n :: n in stack <==> n in color && color[n] == Active)
    && Walk(g, stack)
    && (forall n :: n in finished <==> n in color && color[n] == Done)
    && SuccessorsFirst(g, finished)
  }

  lemma EnterKeepsState(g: Graph, color: map<string, Color>, stack: seq<string>, finished: seq<string>, node: string)
    requires SearchState(g, color, stack, finished)
    requires node in g && color[node] == Unseen
    requires stack != [] ==> Edge(g, stack[|stack| - 1], node)
    ensures SearchState(g, color[node := Active], stack + [node], finished)
  {
  }

  lemma LeaveKeepsState(g: Graph, color: map<string, Color>, stack: seq<string>, finished: seq<string>, node: string)
    requires SearchState(g, color, stack + [node], finished)
    requires forall b :: b in g[node] && b in g ==> color[b] == Done
    ensures SearchState(g, color[node := Done], stack, finished + [node])
  {
    var s, f := stack + [node], finished + [node];
    assert s[|stack|] == node && node in s && color[node] == Active;
    assert forall k :: 0 <= k < |stack| ==> s[k] == stack[k];
    assert node !in stack;
    assert forall n :: n in s <==> n in stack || n == node;
    forall k | 0 <= k < |stack| - 1 ensures Edge(g, stack[k], stack[k + 1]) {
      assert Edge(g, s[k], s[k + 1]);
    }
    forall i, b | 0 <= i < |f| && Edge(g, f[i], b) ensures b in f[..i] {
      if i < |finished| {
        assert b in finished[..i] && f[..i] == finished[..i];
      } else {
        assert f[..i] == finished && color[b] == Done;
      }
    }
  }

  lemma {:induction false} ClosesCycle(g: Graph, color: map<string, Color>, stack: seq<string>, finished: seq<string>, nxt: string)
    requires SearchState(g, color, stack, finished)
    requires nxt in color && color[nxt] == Active
    requires stack != [] && Edge(g, stack[|stack| - 1], nxt)
    ensures nxt in stack && IsCycle(g, stack[IndexOf(stack, nxt)..] + [nxt])
  {
    var from := IndexOf(stack, nxt);
    var p := stack[from..] + [nxt];
    forall k | 0 <= k < |p| - 1 ensures Edge(g, p[k], p[k + 1]) {
      if k < |p| - 2 {
        var j := from + k;
        assert Edge(g, stack[j], stack[j + 1]);
      }
    }
  }

  /** A later colouring of the same nodes: only unseen nodes have changed colour. */
  ghost predicate Later(before: map<string, Color>, after: map<string, Color>) {
    before.Keys == after.Keys && forall n :: n in before && before[n] != Unseen ==> after[n] == before[n]
  }

  ghost function UnseenNodes(color: map<string, Color>): set<string> {
    set n | n in color && color[n] == Unseen
  }

  lemma UnseenShrinks(before: map<string, Color>, node: string, after: map<string, Color>)
    requires node in before && before[node] == Unseen && Later(before[node := Active], after)
    ensures UnseenNodes(after) < UnseenNodes(before)
    ensures Later(before, after) && Later(before, after[node := Done])
  {
    assert node in UnseenNodes(before) && node !in UnseenNodes(after);
  }

  class CycleFinder {
    const edges: Graph
    var color: map<string, Color>
    var stack: seq<string>
    ghost var finished: seq<string>

    constructor (edges: Graph)
      ensures this.edges == edges && Valid() && stack == []
      ensures forall n :: n in edges ==> color[n] == Unseen
    {
      this.edges := edges;
      color := map n | n in edges :: Unseen;
      stack, finished := [], [];
    }

    ghost predicate Valid()
      reads this
    {
      SearchState(edges, color, stack, finished) && color.Keys == edges.Keys
    }

    /** Either a cycle comes back, or the search below `node` is complete, the stack is as it was
        and no colour but `Unseen` has changed. */
    method Visit(node: string) returns (found: Option<seq<string>>)
      requires Valid()
      requires node in edges && color[node] == Unseen
      requires stack != [] ==> Edge(edges, stack[|stack| - 1], node)
      modifies this
      ensures found.Some? ==> IsCycle(edges, found.value)
      ensures found.None? ==> Valid() && stack == old(stack) && color[node] == Done && Later(old(color), color)
      decreases UnseenNodes(color)
    {
      hide SearchState, IsCycle;
      EnterKeepsState(edges, color, stack, finished, node);
      color := color[node := Active];
      stack := stack + [node];
      ghost var entered := color;
      var targets := edges[node];
      var k := 0;
      while k < |targets|
        invariant 0 <= k <= |targets|
        invariant Valid() && stack == old(stack) + [node] && Later(entered, color)
        invariant forall j :: 0 <= j < k && targets[j] in edges ==> color[targets[j]] == Done
      {
        var nxt := targets[k];
        if nxt in color {
          assert Edge(edges, stack[|stack| - 1], nxt);
          if color[nxt] == Active {
            ClosesCycle(edges, color, stack, finished, nxt);
            return Some(stack[IndexOf(stack, nxt)..] + [nxt]);
          }
          if color[nxt] == Unseen {
            UnseenShrinks(old(color), node, color);
            var found := Visit(nxt);
            if found.Some? {
              return found;
            }
          }
        }
        k := k + 1;
      }
      LeaveKeepsState(edges, color, old(stack), finished, node);
      UnseenShrinks(old(color), node, color);
      color := color[node := Done];
      stack := stack[..|stack| - 1];
      assert stack == old(stack);
      finished := finished + [node];
      return None;
    }

    /** Every node is known by its colour; the search is sound and complete: a returned list is a
        cycle, and nothing is returned exactly when the graph on its known nodes has none. */
    static method FindCycle(nodes: seq<string>, edges: Graph) returns (found: Option<seq<string>>)
      requires forall n :: n in nodes <==> n in edges
      ensures found.Some? ==> IsCycle(edges, found.value)
      ensures found.None? <==> Acyclic(edges)
    {
      var finder := new CycleFinder(edges);
      var k := 0;
      while k < |nodes|
        invariant 0 <= k <= |nodes|
        invariant fresh(finder) && finder.Valid() && finder.edges == edges && finder.stack == []
        invariant forall j :: 0 <= j < k ==> finder.color[nodes[j]] == Done
      {
        if finder.color[nodes[k]] == Unseen {
          found := finder.Visit(nodes[k]);
          if found.Some? {
            return;
          }
        }
        k := k + 1;
      }
      FinishOrderIsAcyclic(edges, finder.finished);
      return None;
    }
  }
}
