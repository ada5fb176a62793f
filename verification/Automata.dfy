/**
 Token sets as they lie in memory: nodes that refer to one another by number, shared and updated
 in place while an automaton is built. The number of a node is its place in the sequence.
 */
module Automata {
  import opened Common

  datatype Node = Node(final: bool, edges: map<char, nat>)

  ghost predicate WellFormed(nodes: seq<Node>) {
    forall n, c :: 0 <= n < |nodes| && c in nodes[n].edges ==> nodes[n].edges[c] < |nodes|
  }

  /** The node at the end of the path labelled p. */
  function Walk(nodes: seq<Node>, n: nat, p: string): (end: Option<nat>)
    ensures end.Some? ==> end.value < |nodes|
    decreases |p|
  {
    if n >= |nodes| then None
    else if p == [] then Some(n)
    else if p[0] in nodes[n].edges then Walk(nodes, nodes[n].edges[p[0]], p[1..])
    else None
  }

  predicate Accepts(nodes: seq<Node>, n: nat, w: string)
    decreases |w|
  {
    n < |nodes| &&
    if w == [] then nodes[n].final
    else w[0] in nodes[n].edges && Accepts(nodes, nodes[n].edges[w[0]], w[1..])
  }

  ghost predicate Alive(nodes: seq<Node>, n: nat) {
    exists w :: Accepts(nodes, n, w)
  }

  ghost predicate Reaches(nodes: seq<Node>, n: nat, m: nat) {
    exists p :: Walk(nodes, n, p) == Some(m)
  }

  /** No path from n is longer than d: the automaton under n has no cycle. */
  ghost predicate DepthWithin(nodes: seq<Node>, n: nat, d: nat) {
    forall p :: Walk(nodes, n, p).Some? ==> |p| <= d
  }

  lemma {:induction false} AcceptsIsWalk(nodes: seq<Node>, n: nat, w: string)
    ensures Accepts(nodes, n, w) <==> Walk(nodes, n, w).Some? && nodes[Walk(nodes, n, w).value].final
    decreases |w|
  {
    if n < |nodes| && w != [] && w[0] in nodes[n].edges {
      AcceptsIsWalk(nodes, nodes[n].edges[w[0]], w[1..]);
    }
  }

  lemma {:induction false} WalkOn(nodes: seq<Node>, n: nat, p: string, q: string)
    ensures Walk(nodes, n, p + q) ==
            if Walk(nodes, n, p).Some? then Walk(nodes, Walk(nodes, n, p).value, q) else None
    decreases |p|
  {
    if p == [] {
      assert p + q == q;
    } else if n < |nodes| && p[0] in nodes[n].edges {
      WalkOn(nodes, nodes[n].edges[p[0]], p[1..], q);
      assert (p + q)[1..] == p[1..] + q;
    }
  }

  lemma AcceptsAfterWalk(nodes: seq<Node>, n: nat, p: string, w: string)
    requires Walk(nodes, n, p).Some?
    ensures Accepts(nodes, n, p + w) <==> Accepts(nodes, Walk(nodes, n, p).value, w)
  {
    WalkOn(nodes, n, p, w);
    AcceptsIsWalk(nodes, n, p + w);
    AcceptsIsWalk(nodes, Walk(nodes, n, p).value, w);
  }

  /** One more edge at the end of a path. */
  lemma WalkOneMore(nodes: seq<Node>, n: nat, p: string, c: char)
    ensures Walk(nodes, n, p + [c]) ==
            if Walk(nodes, n, p).Some? && c in nodes[Walk(nodes, n, p).value].edges
               && nodes[Walk(nodes, n, p).value].edges[c] < |nodes|
            then Some(nodes[Walk(nodes, n, p).value].edges[c]) else None
  {
    WalkOn(nodes, n, p, [c]);
    AcceptsIsWalk(nodes, n, p);
  }

  // ----- words in the order of the language's `<`

  predicate Less(a: string, b: string) {
    b != [] && (a == [] || a[0] < b[0] || (a[0] == b[0] && Less(a[1..], b[1..])))
  }

  /** Each word is not smaller than the one before it. */
  predicate InOrder(words: seq<string>) {
    forall i :: 0 < i < |words| ==> !Less(words[i], words[i - 1])
  }

  /** Where a word that is not smaller leaves its predecessor. */
  lemma {:induction false} LeavesUpwards(word: string, previous: string, k: nat)
    requires !Less(word, previous) && k <= |word| && k <= |previous| && word[..k] == previous[..k]
    requires k < |word| && k < |previous| ==> word[k] != previous[k]
    ensures k == |previous| || (k < |word| && previous[k] < word[k])
    decreases k
  {
    if k > 0 {
      assert word[0] == word[..k][0] && previous[0] == previous[..k][0];
      assert word[1..][..k - 1] == word[..k][1..] && previous[1..][..k - 1] == previous[..k][1..];
      LeavesUpwards(word[1..], previous[1..], k - 1);
    }
  }
}
