/** Listing the words of an acyclic token set. */
module TokenSetWords {
  import opened Common
  import opened Automata
  import opened Stacks
  import opened TokenSets

  /** `Object.keys`: each key once; nothing is said about their order. */
  method ObjectKeys(edges: map<char, nat>) returns (keys: seq<char>)
    ensures Lists(keys, edges) && |keys| == |edges|
  {
    keys := [];
    var rest := edges.Keys;
    while rest != {}
      invariant forall c :: c in edges <==> c in keys || c in rest
      invariant forall c :: c in keys ==> c !in rest
      invariant forall i, j :: 0 <= i < j < |keys| ==> keys[i] != keys[j]
      invariant |keys| + |rest| == |edges|
      decreases rest
    {
      var c :| c in rest;
      keys := keys + [c];
      rest := rest - {c};
    }
  }

  datatype Frame = Frame(prefix: string, node: nat)

  /** The labels of all paths of at most d edges. */
  ghost function PathsWithin(nodes: seq<Node>, n: nat, d: nat): set<string>
    decreases d
  {
    if n >= |nodes| then {}
    else if d == 0 then {[]}
    else {[]} + set c, p | c in nodes[n].edges.Keys && p in PathsWithin(nodes, nodes[n].edges[c], d - 1) :: [c] + p
  }

  lemma {:induction false} WalkIsWithin(nodes: seq<Node>, n: nat, p: string, d: nat)
    requires Walk(nodes, n, p).Some? && |p| <= d
    ensures p in PathsWithin(nodes, n, d)
    decreases |p|
  {
    if p != [] {
      WalkIsWithin(nodes, nodes[n].edges[p[0]], p[1..], d - 1);
      assert p == [p[0]] + p[1..];
    }
  }

  ghost predicate OnStack(stack: seq<Frame>, p: string) {
    exists i :: 0 <= i < |stack| && stack[i].prefix == p
  }

  /** The children of a visited path are visited or on the stack. */
  ghost predicate ChildrenKnown(nodes: seq<Node>, root: nat, stack: seq<Frame>, seen: set<string>, p: string) {
    forall c :: Walk(nodes, root, p + [c]).Some? ==> p + [c] in seen || OnStack(stack, p + [c])
  }

  function Parent(p: string): string
    requires p != []
  {
    p[..|p| - 1]
  }

  /** Frames stand for distinct unvisited paths whose parents were visited. */
  ghost predicate StackShape(nodes: seq<Node>, root: nat, stack: seq<Frame>, seen: set<string>) {
    && (forall i :: 0 <= i < |stack| ==> Walk(nodes, root, stack[i].prefix) == Some(stack[i].node))
    && (forall i :: 0 <= i < |stack| ==> stack[i].prefix !in seen)
    && (forall i :: 0 <= i < |stack| && stack[i].prefix != [] ==> Parent(stack[i].prefix) in seen)
    && (forall i, j :: 0 <= i < j < |stack| ==> stack[i].prefix != stack[j].prefix)
  }

  ghost predicate SeenShape(nodes: seq<Node>, root: nat, stack: seq<Frame>, seen: set<string>) {
    && (forall p :: p in seen ==> Walk(nodes, root, p).Some? && ChildrenKnown(nodes, root, stack, seen, p))
    && (forall p :: p in seen && p != [] ==> Parent(p) in seen)
    && ([] in seen || OnStack(stack, []))
  }

  ghost predicate Traversal(nodes: seq<Node>, root: nat, stack: seq<Frame>, seen: set<string>) {
    StackShape(nodes, root, stack, seen) && SeenShape(nodes, root, stack, seen)
  }

  function Children(nodes: seq<Node>, frame: Frame, keys: seq<char>): (s: seq<Frame>)
    requires frame.node < |nodes| && forall c :: c in keys ==> c in nodes[frame.node].edges
    ensures |s| == |keys|
    ensures forall i :: 0 <= i < |keys| ==> s[i] == Frame(frame.prefix + [keys[i]], nodes[frame.node].edges[keys[i]])
  {
    seq(|keys|, i requires 0 <= i < |keys| => Frame(frame.prefix + [keys[i]], nodes[frame.node].edges[keys[i]]))
  }

  predicate Lists(keys: seq<char>, edges: map<char, nat>) {
    && (forall c :: c in keys <==> c in edges)
    && (forall i, j :: 0 <= i < j < |keys| ==> keys[i] != keys[j])
  }

  lemma ChildIsNew(nodes: seq<Node>, root: nat, rest: seq<Frame>, frame: Frame, c: char, seen: set<string>)
    requires WellFormed(nodes) && Traversal(nodes, root, rest + [frame], seen)
    requires frame.node < |nodes| && c in nodes[frame.node].edges
    ensures Walk(nodes, root, frame.prefix + [c]) == Some(nodes[frame.node].edges[c])
    ensures frame.prefix + [c] !in seen && frame.prefix + [c] != frame.prefix
    ensures forall i :: 0 <= i < |rest| ==> rest[i].prefix != frame.prefix + [c]
  {
    var stack, p := rest + [frame], frame.prefix + [c];
    assert stack[|rest|] == frame;
    WalkOneMore(nodes, root, frame.prefix, c);
    assert Parent(p) == frame.prefix;
    assert |p| == |frame.prefix| + 1;
    forall i | 0 <= i < |rest| ensures rest[i].prefix != p {
      assert stack[i] == rest[i];
    }
  }

  lemma VisitKeepsStack(nodes: seq<Node>, root: nat, rest: seq<Frame>, frame: Frame, keys: seq<char>, seen: set<string>)
    requires WellFormed(nodes) && Traversal(nodes, root, rest + [frame], seen) && frame.node < |nodes|
    requires Lists(keys, nodes[frame.node].edges)
    ensures StackShape(nodes, root, rest + Children(nodes, frame, keys), seen + {frame.prefix})
  {
    var old', children := rest + [frame], Children(nodes, frame, keys);
    var stack, seen' := rest + children, seen + {frame.prefix};
    assert old'[|rest|] == frame;
    forall i | 0 <= i < |stack|
      ensures Walk(nodes, root, stack[i].prefix) == Some(stack[i].node) && stack[i].prefix !in seen'
      ensures stack[i].prefix != [] ==> Parent(stack[i].prefix) in seen'
    {
      if i < |rest| {
        assert old'[i] == stack[i];
      } else {
        ChildIsNew(nodes, root, rest, frame, keys[i - |rest|], seen);
        assert Parent(stack[i].prefix) == frame.prefix;
      }
    }
    forall i, j | 0 <= i < j < |stack| ensures stack[i].prefix != stack[j].prefix {
      if j < |rest| {
        assert old'[i] == stack[i] && old'[j] == stack[j];
      } else if i < |rest| {
        ChildIsNew(nodes, root, rest, frame, keys[j - |rest|], seen);
      } else {
        assert stack[i].prefix[|frame.prefix|] == keys[i - |rest|];
        assert stack[j].prefix[|frame.prefix|] == keys[j - |rest|];
      }
    }
  }

  lemma VisitKeepsSeen(nodes: seq<Node>, root: nat, rest: seq<Frame>, frame: Frame, keys: seq<char>, seen: set<string>)
    requires WellFormed(nodes) && Traversal(nodes, root, rest + [frame], seen) && frame.node < |nodes|
    requires Lists(keys, nodes[frame.node].edges)
    ensures SeenShape(nodes, root, rest + Children(nodes, frame, keys), seen + {frame.prefix})
  {
    var old', children := rest + [frame], Children(nodes, frame, keys);
    var stack, seen' := rest + children, seen + {frame.prefix};
    assert old'[|rest|] == frame;
    forall p | OnStack(old', p) ensures p in seen' || OnStack(stack, p) {
      var i :| 0 <= i < |old'| && old'[i].prefix == p;
      assert i < |rest| ==> stack[i] == old'[i];
    }
    forall p | p in seen ensures ChildrenKnown(nodes, root, stack, seen', p) {
      assert ChildrenKnown(nodes, root, old', seen, p);
    }
    forall c | Walk(nodes, root, frame.prefix + [c]).Some? ensures OnStack(stack, frame.prefix + [c]) {
      WalkOneMore(nodes, root, frame.prefix, c);
      var i :| 0 <= i < |keys| && keys[i] == c;
      assert stack[|rest| + i] == children[i];
    }
  }

  /** With an empty stack every path has been visited. */
  lemma {:induction false} AllVisited(nodes: seq<Node>, root: nat, seen: set<string>, p: string)
    requires Traversal(nodes, root, [], seen) && Walk(nodes, root, p).Some?
    ensures p in seen
    decreases |p|
  {
    if p != [] {
      var most, c := Parent(p), p[|p| - 1];
      assert most + [c] == p;
      WalkOn(nodes, root, most, [c]);
      AllVisited(nodes, root, seen, most);
      assert ChildrenKnown(nodes, root, [], seen, most);
    }
  }

  predicate Distinct(words: seq<string>) {
    forall i, j :: 0 <= i < j < |words| ==> words[i] != words[j]
  }

  /** The words found so far: the accepted ones among the visited paths. */
  ghost predicate Collected(nodes: seq<Node>, root: nat, words: seq<string>, seen: set<string>) {
    Distinct(words) && forall w :: w in words <==> w in seen && Accepts(nodes, root, w)
  }

  lemma CollectOne(nodes: seq<Node>, root: nat, words: seq<string>, seen: set<string>, frame: Frame)
    requires Collected(nodes, root, words, seen) && frame.prefix !in seen
    requires frame.node < |nodes| && Walk(nodes, root, frame.prefix) == Some(frame.node)
    ensures Collected(nodes, root, if nodes[frame.node].final then words + [frame.prefix] else words, seen + {frame.prefix})
  {
    AcceptsIsWalk(nodes, root, frame.prefix);
  }

  /** The inner loop: one frame for each edge. */
  method PushChildren(nodes: seq<Node>, frame: Frame, edges: seq<char>, rest: seq<Frame>) returns (stack: seq<Frame>)
    requires frame.node < |nodes| && forall c :: c in edges ==> c in nodes[frame.node].edges
    ensures stack == rest + Children(nodes, frame, edges)
  {
    stack := rest;
    for i := 0 to |edges|
      invariant stack == rest + Children(nodes, frame, edges)[..i]
    {
      stack := stack + [Frame(frame.prefix + [edges[i]], nodes[frame.node].edges[edges[i]])];
    }
  }

  /** Lists each accepted word once. On a cyclic token set the loop of the original does not end. */
  method ToArray(nodes: seq<Node>, root: nat) returns (words: seq<string>)
    requires WellFormed(nodes) && root < |nodes| && Acyclic(nodes, root)
    ensures Distinct(words)
    ensures forall w :: w in words <==> Accepts(nodes, root, w)
  {
    ghost var d: nat :| DepthWithin(nodes, root, d);
    ghost var universe := PathsWithin(nodes, root, d);
    ghost var seen: set<string> := {};
    words := [];
    var stack := [Frame([], root)];
    TraversalBegins(nodes, root);
    while |stack| > 0
      invariant Traversal(nodes, root, stack, seen)
      invariant seen <= universe && Collected(nodes, root, words, seen)
      decreases universe - seen
    {
      var frame, rest := stack[|stack| - 1], stack[..|stack| - 1];
      PopSplits(stack);
      WalkIsWithin(nodes, root, frame.prefix, d);
      CollectOne(nodes, root, words, seen, frame);
      var edges := ObjectKeys(nodes[frame.node].edges);
      if nodes[frame.node].final {
        words := words + [frame.prefix];
      }
      VisitKeepsStack(nodes, root, rest, frame, edges, seen);
      VisitKeepsSeen(nodes, root, rest, frame, edges, seen);
      stack := PushChildren(nodes, frame, edges, rest);
      seen := seen + {frame.prefix};
    }
    AllCollected(nodes, root, words, seen);
  }

  lemma TraversalBegins(nodes: seq<Node>, root: nat)
    requires root < |nodes|
    ensures Traversal(nodes, root, [Frame([], root)], {})
  {
    assert [Frame([], root)][0].prefix == [];
    assert OnStack([Frame([], root)], []);
  }

  lemma AllCollected(nodes: seq<Node>, root: nat, words: seq<string>, seen: set<string>)
    requires Traversal(nodes, root, [], seen) && Collected(nodes, root, words, seen)
    ensures forall w :: w in words <==> Accepts(nodes, root, w)
  {
    forall w | Accepts(nodes, root, w) ensures w in seen {
      AcceptsIsWalk(nodes, root, w);
      AllVisited(nodes, root, seen, w);
    }
  }
}
