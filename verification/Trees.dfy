/**
 Automata that grow as trees: each node is reached by one path from the root.
 */
module Trees {
  import opened Common
  import opened Automata

  /** A tree under construction, with the path that leads to each of its nodes. */
  datatype Tree = Tree(nodes: seq<Node>, paths: seq<string>)

  ghost predicate TreeShape(t: Tree) {
    && |t.nodes| == |t.paths| > 0 && t.paths[0] == []
    && (forall o, c :: 0 <= o < |t.nodes| && c in t.nodes[o].edges ==>
          t.nodes[o].edges[c] < |t.nodes| && t.paths[t.nodes[o].edges[c]] == t.paths[o] + [c])
  }

  /** The tree only grows: edges stay, final flags are never taken back. */
  ghost predicate Grows(t: Tree, t': Tree) {
    && |t.nodes| == |t.paths| <= |t'.nodes| == |t'.paths| && t.paths <= t'.paths
    && (forall o, c :: 0 <= o < |t.nodes| && c in t.nodes[o].edges ==>
          c in t'.nodes[o].edges && t'.nodes[o].edges[c] == t.nodes[o].edges[c])
    && (forall o :: 0 <= o < |t.nodes| && t.nodes[o].final ==> t'.nodes[o].final)
  }

  lemma GrowsOn(a: Tree, b: Tree, c: Tree)
    requires Grows(a, b) && Grows(b, c)
    ensures Grows(a, c)
  {
  }

  lemma {:induction false} WalkSpellsPath(t: Tree, o: nat, w: string)
    requires TreeShape(t) && o < |t.nodes| && Walk(t.nodes, o, w).Some?
    ensures t.paths[Walk(t.nodes, o, w).value] == t.paths[o] + w
    decreases |w|
  {
    if w == [] {
      assert t.paths[o] + w == t.paths[o];
    } else {
      WalkSpellsPath(t, t.nodes[o].edges[w[0]], w[1..]);
      assert t.paths[o] + [w[0]] + w[1..] == t.paths[o] + w;
    }
  }
}
