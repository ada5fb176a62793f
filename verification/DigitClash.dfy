/**
 What digits do to token sets. With a digit and a smaller letter there is a list of three words
 whose token set loses one of them, because two different nodes have the same key.
 */
module DigitClash {
  import opened Common
  import opened Automata
  import opened Decimals
  import opened NodeKeys
  import opened BuilderSteps
  import opened TokenSetBuilder

  /** A node that is not final. */
  function N(edges: map<char, nat>): Node {
    Node(false, edges)
  }

  const LEAF: Node := Node(true, map[])

  /** A digit and a smaller letter. */
  predicate Clash(c: char, d: char) {
    c < d && IsDigit(d)
  }

  function Run(d: char, j: nat): (run: string)
    ensures |run| == j && forall i :: 0 <= i < j ==> run[i] == d
  {
    seq(j, i => d)
  }

  /** The length of the run behind which the first c leads to the node with id 304 when d is 0, 314 when d is 1, ... */
  function Length(d: char): nat
    requires IsDigit(d)
  {
    298 + 10 * DigitValue(d)
  }

  function LastWord(c: char, d: char): string
    requires IsDigit(d)
  {
    Run(d, Length(d)) + [c, c]
  }

  function Words(c: char, d: char): seq<string>
    requires IsDigit(d)
  {
    [[c, c], [c, d, d], LastWord(c, d)]
  }

  // ----- keys

  lemma KeyOfLeaf()
    ensures Key(LEAF, 1) == "1"
  {
    assert SortedLabels({}) == [];
    assert LEAF.edges.Keys == {};
  }

  lemma KeyOfEdge(c: char, n: nat)
    ensures Key(N(map[c := n]), 1) == ['0'] + ([c] + Decimal(1 + n))
  {
    KeyOfOne(N(map[c := n]), c, 1);
  }

  lemma DecimalOfClash(d: char)
    requires IsDigit(d)
    ensures Decimal(304 + 10 * DigitValue(d)) == ['3'] + [d] + ['4']
  {
    var n := 304 + 10 * DigitValue(d);
    assert Decimal(n) == Decimal(30 + DigitValue(d)) + ['4'];
    assert Decimal(30 + DigitValue(d)) == Decimal(3) + [d];
    assert Decimal(3) == ['3'];
  }

  /** The text that two nodes share. */
  function SharedKey(c: char, d: char): string {
    ['0'] + ([c] + (['3'] + [d] + ['4']))
  }

  /** The two nodes that are taken for one. */
  lemma KeyOfFork(c: char, d: char)
    requires Clash(c, d)
    ensures Key(N(map[c := 2, d := 3]), 1) == SharedKey(c, d)
  {
    var node := N(map[c := 2, d := 3]);
    KeyOfTwo(node, c, d, 1);
    assert node.edges[c] == 2 && node.edges[d] == 3 && !node.final;
    assert Decimal(1 + 2) == ['3'] && Decimal(1 + 3) == ['4'];
  }

  lemma KeyOfFarEdge(c: char, d: char, n: nat)
    requires Clash(c, d) && n == 5 + Length(d)
    ensures Key(N(map[c := n]), 1) == SharedKey(c, d)
  {
    KeyOfEdge(c, n);
    DecimalOfClash(d);
  }

  // ----- the first two words

  function AfterOne(c: char): Build {
    Build(1, [N(map[c := 1]), N(map[c := 2]), LEAF], [Unchecked(0, c, 1), Unchecked(1, c, 2)], map[], [])
  }

  function AfterTwo(c: char, d: char): Build {
    Build(1, [N(map[c := 1]), N(map[c := 2, d := 3]), LEAF, N(map[d := 4]), LEAF],
          [Unchecked(0, c, 1), Unchecked(1, d, 3), Unchecked(3, d, 4)], map["1" := 2], [2])
  }

  function BaseNodes(c: char, d: char): seq<Node> {
    [N(map[c := 1]), N(map[c := 2, d := 3]), LEAF, N(map[d := 2]), LEAF]
  }

  /** Before the third word everything is frozen. */
  function Base(c: char, d: char): Build {
    Build(1, BaseNodes(c, d), [], map["1" := 2]["0" + ([d] + "3") := 3][SharedKey(c, d) := 1], [2, 3, 1])
  }

  lemma FirstWord(c: char)
    ensures Inserted(Fresh(1), "", [c, c]) == AfterOne(c)
  {
    var b0 := Fresh(1);
    var b1 := Grow(b0, c);
    assert b1 == Build(1, [N(map[c := 1]), N(map[])], [Unchecked(0, c, 1)], map[], []);
    var b2 := Grow(b1, c);
    assert b2 == Build(1, [N(map[c := 1]), N(map[c := 2]), N(map[])], [Unchecked(0, c, 1), Unchecked(1, c, 2)], map[], []);
    assert FreezeDown(b0, 0) == b0;
    assert GrowAlong(b2, [c, c]) == b2;
    assert GrowAlong(b1, [c, c]) == GrowAlong(b2, [c, c]);
    assert GrowAlong(b0, [c, c]) == GrowAlong(b1, [c, c]);
  }

  lemma SecondWord(c: char, d: char)
    requires Clash(c, d)
    ensures Inserted(AfterOne(c), [c, c], [c, d, d]) == AfterTwo(c, d)
  {
    KeyOfLeaf();
    var b := AfterOne(c);
    assert CommonPrefix([d, d], [c]) == 0;
    assert [c, d, d][1..] == [d, d] && [c, c][1..] == [c];
    assert CommonPrefix([c, d, d], [c, c]) == 1;
    var b0 := Freeze(b);
    assert b0 == Build(1, b.nodes, [Unchecked(0, c, 1)], map["1" := 2], [2]);
    assert FreezeDown(b0, 1) == b0;
    assert FreezeDown(b, 1) == FreezeDown(b0, 1);
    SecondGrowth(c, d, b0);
  }

  lemma SecondGrowth(c: char, d: char, b0: Build)
    requires Clash(c, d)
    requires b0 == Build(1, AfterOne(c).nodes, [Unchecked(0, c, 1)], map["1" := 2], [2])
    ensures GrowAlong(b0, [c, d, d]).(nodes := AfterTwo(c, d).nodes) == AfterTwo(c, d)
    ensures Tip(GrowAlong(b0, [c, d, d]).path) < |GrowAlong(b0, [c, d, d]).nodes|
    ensures Finalize(GrowAlong(b0, [c, d, d])) == AfterTwo(c, d)
  {
    var w := [c, d, d];
    var b1 := Grow(b0, d);
    assert b1.nodes == [N(map[c := 1]), N(map[c := 2, d := 3]), LEAF, N(map[])];
    assert b1.path == [Unchecked(0, c, 1), Unchecked(1, d, 3)];
    var b2 := Grow(b1, d);
    assert b2.nodes == [N(map[c := 1]), N(map[c := 2, d := 3]), LEAF, N(map[d := 4]), N(map[])];
    assert b2.path == [Unchecked(0, c, 1), Unchecked(1, d, 3), Unchecked(3, d, 4)];
    assert GrowAlong(b2, w) == b2;
    assert GrowAlong(b1, w) == GrowAlong(b2, w);
    assert GrowAlong(b0, w) == GrowAlong(b1, w);
  }

  lemma FirstFreeze(c: char, d: char)
    requires Clash(c, d)
    ensures Freeze(AfterTwo(c, d)) ==
            Build(1, BaseNodes(c, d), [Unchecked(0, c, 1), Unchecked(1, d, 3)], map["1" := 2], [2])
  {
    KeyOfLeaf();
    assert map[d := 4][d := 2] == map[d := 2];
    assert Freeze(AfterTwo(c, d)).nodes == BaseNodes(c, d);
    assert Freeze(AfterTwo(c, d)).path == [Unchecked(0, c, 1), Unchecked(1, d, 3)];
  }

  lemma SecondFreeze(c: char, d: char, b: Build)
    requires Clash(c, d)
    requires b == Build(1, BaseNodes(c, d), [Unchecked(0, c, 1), Unchecked(1, d, 3)], map["1" := 2], [2])
    ensures Freeze(b) == Build(1, BaseNodes(c, d), [Unchecked(0, c, 1)], map["1" := 2]["0" + ([d] + "3") := 3], [2, 3])
  {
    KeyOfEdge(d, 2);
    assert Decimal(3) == "3";
    assert Freeze(b).path == [Unchecked(0, c, 1)];
  }

  lemma FreezeNew(b: Build, tip: nat, key: string)
    requires CanFreeze(b) && tip == b.path[|b.path| - 1].child && key == Key(b.nodes[tip], b.firstId) && key !in b.register
    ensures Freeze(b) ==
            Build(b.firstId, b.nodes, b.path[..|b.path| - 1], b.register[key := tip], b.frozen + [tip])
  {
    assert tip == Tip(b.path);
  }

  lemma SharedKeyIsNew(c: char, d: char)
    ensures SharedKey(c, d) !in map["1" := 2]["0" + ([d] + "3") := 3]
  {
    assert |SharedKey(c, d)| == 5 && |"0" + ([d] + "3")| == 3;
  }

  lemma ThirdFreeze(c: char, d: char, b: Build)
    requires Clash(c, d)
    requires b == Build(1, BaseNodes(c, d), [Unchecked(0, c, 1)], map["1" := 2]["0" + ([d] + "3") := 3], [2, 3])
    ensures Freeze(b) == Base(c, d)
  {
    var fork := BaseNodes(c, d)[1];
    assert fork == N(map[c := 2, d := 3]);
    KeyOfFork(c, d);
    SharedKeyIsNew(c, d);
    FreezeNew(b, 1, SharedKey(c, d));
  }

  lemma AllFrozen(c: char, d: char)
    requires Clash(c, d)
    ensures FreezeDown(AfterTwo(c, d), 0) == Base(c, d)
  {
    var b := AfterTwo(c, d);
    FirstFreeze(c, d);
    SecondFreeze(c, d, Freeze(b));
    ThirdFreeze(c, d, Freeze(Freeze(b)));
    OneFreeze(Base(c, d));
    OneFreeze(Freeze(Freeze(b)));
    OneFreeze(Freeze(b));
    OneFreeze(b);
  }

  lemma OneFreeze(b: Build)
    ensures FreezeDown(b, 0) == if b.path != [] && CanFreeze(b) then FreezeDown(Freeze(b), 0) else b
  {
  }

  // ----- growing the third word

  /** A path to grow: a word that begins with d. */
  predicate Starts(c: char, d: char, w: string) {
    Clash(c, d) && w != [] && w[0] == d
  }

  /** Base with the first i letters of w grown. */
  function Chain(c: char, d: char, w: string, i: nat): (b: Build)
    requires Starts(c, d, w) && i <= |w|
    ensures Tip(b.path) < |b.nodes|
  {
    if i == 0 then Base(c, d) else Grow(Chain(c, d, w, i - 1), w[i - 1])
  }

  /** The k-th edge of the new path. */
  function Edge(w: string, k: nat): Unchecked
    requires k < |w|
  {
    Unchecked(if k == 0 then 0 else 4 + k, w[k], 5 + k)
  }

  ghost predicate NodesOfChain(c: char, d: char, w: string, i: nat, nodes: seq<Node>)
    requires i <= |w|
  {
    && |nodes| == 5 + i
    && nodes[0] == (if i == 0 then N(map[c := 1]) else N(map[c := 1, d := 5]))
    && (forall m :: 1 <= m < 5 ==> nodes[m] == BaseNodes(c, d)[m])
    && (forall k :: 1 <= k < i ==> nodes[4 + k] == N(map[w[k] := 5 + k]))
    && (i > 0 ==> nodes[4 + i] == N(map[]))
  }

  ghost predicate PathOfChain(w: string, i: nat, path: seq<Unchecked>)
    requires i <= |w|
  {
    |path| == i && forall k :: 0 <= k < i ==> path[k] == Edge(w, k)
  }

  ghost predicate IsChain(c: char, d: char, w: string, i: nat, b: Build)
    requires i <= |w|
  {
    b.firstId == 1 && b.register == Base(c, d).register && NodesOfChain(c, d, w, i, b.nodes) && PathOfChain(w, i, b.path)
  }

  lemma {:induction false} ChainIsChain(c: char, d: char, w: string, i: nat)
    requires Starts(c, d, w) && i <= |w|
    ensures IsChain(c, d, w, i, Chain(c, d, w, i))
  {
    if i > 0 {
      ChainIsChain(c, d, w, i - 1);
      var b := Chain(c, d, w, i - 1);
      GrowNodes(c, d, w, i - 1, b.nodes);
      GrowPath(w, i - 1, b.path);
    }
  }

  lemma GrowPath(w: string, i: nat, path: seq<Unchecked>)
    requires i < |w| && PathOfChain(w, i, path)
    ensures Tip(path) == (if i == 0 then 0 else 4 + i) && PathOfChain(w, i + 1, path + [Unchecked(Tip(path), w[i], 5 + i)])
  {
  }

  lemma GrowNodes(c: char, d: char, w: string, i: nat, nodes: seq<Node>)
    requires Starts(c, d, w) && i < |w| && NodesOfChain(c, d, w, i, nodes)
    ensures var tip := if i == 0 then 0 else 4 + i;
            NodesOfChain(c, d, w, i + 1, Redirected(nodes, tip, w[i], 5 + i) + [N(map[])])
  {
  }

  lemma {:induction false} GrowsToChain(c: char, d: char, w: string, i: nat)
    requires Starts(c, d, w) && i <= |w|
    ensures GrowAlong(Chain(c, d, w, i), w) == Chain(c, d, w, |w|)
    decreases |w| - i
  {
    ChainIsChain(c, d, w, i);
    if i < |w| {
      GrowsToChain(c, d, w, i + 1);
    }
  }

  // ----- freezing the third word

  /** The third word is grown; of its own edges the first ones, up to upTo, are as they were made. */
  ghost predicate NodesOfWord(c: char, d: char, w: string, upTo: nat, nodes: seq<Node>)
    requires upTo <= |w|
  {
    && |nodes| == 5 + |w|
    && nodes[0] == N(map[c := 1, d := 5])
    && (forall m :: 1 <= m < 5 ==> nodes[m] == BaseNodes(c, d)[m])
    && (forall k :: 1 <= k < upTo ==> nodes[4 + k] == N(map[w[k] := 5 + k]))
  }

  /** The third word ends like this: d, then c twice. */
  predicate Third(c: char, d: char, w: string, j: nat) {
    Starts(c, d, w) && j > 1 && |w| == j + 2 && w[j - 1] == d && w[j] == c && w[j + 1] == c
  }

  /** The leaf of the new word is the leaf of the first. */
  lemma FreezeLeaf(c: char, d: char, w: string, j: nat, b: Build)
    requires Third(c, d, w, j) && b.firstId == 1 && b.register == Base(c, d).register
    requires PathOfChain(w, j + 2, b.path) && NodesOfWord(c, d, w, j + 2, b.nodes) && b.nodes[6 + j] == LEAF
    ensures CanFreeze(b)
    ensures var t := Freeze(b);
            && t.firstId == 1 && t.register == b.register && PathOfChain(w, j + 1, t.path)
            && NodesOfWord(c, d, w, j + 1, t.nodes) && t.nodes[5 + j] == N(map[c := 2])
  {
    KeyOfLeaf();
    assert b.path[j + 1] == Edge(w, j + 1);
    assert b.nodes[4 + (j + 1)] == N(map[c := 5 + (j + 1)]);
    assert map[c := 6 + j][c := 2] == map[c := 2];
  }

  /** The node before it is new. */
  lemma FreezeLastButOne(c: char, d: char, w: string, j: nat, b: Build)
    requires Third(c, d, w, j) && b.firstId == 1 && b.register == Base(c, d).register
    requires PathOfChain(w, j + 1, b.path) && NodesOfWord(c, d, w, j + 1, b.nodes) && b.nodes[5 + j] == N(map[c := 2])
    ensures CanFreeze(b)
    ensures var t := Freeze(b);
            && t.firstId == 1 && t.register == b.register["0" + ([c] + "3") := 5 + j] && PathOfChain(w, j, t.path)
            && t.nodes == b.nodes
  {
    KeyOfEdge(c, 2);
    assert Decimal(3) == "3";
    assert b.path[j] == Edge(w, j);
    assert |SharedKey(c, d)| == 5 && ("0" + ([c] + "3"))[1] == c && ("0" + ([d] + "3"))[1] == d;
  }

  lemma FreezeOld(b: Build, last: Unchecked, key: string, target: nat)
    requires CanFreeze(b) && last == b.path[|b.path| - 1] && last.child < |b.nodes|
    requires key == Key(b.nodes[last.child], b.firstId) && key in b.register && b.register[key] == target
    ensures Freeze(b) ==
            b.(nodes := Redirected(b.nodes, last.parent, last.symbol, target), path := b.path[..|b.path| - 1])
  {
    assert last.child == Tip(b.path);
  }

  lemma RedirectRun(c: char, d: char, w: string, j: nat, nodes: seq<Node>)
    requires Third(c, d, w, j) && NodesOfWord(c, d, w, j + 1, nodes)
    ensures var t := Redirected(nodes, 3 + j, d, 1);
            NodesOfWord(c, d, w, j - 1, t) && t[3 + j] == N(map[d := 1])
  {
    assert nodes[4 + (j - 1)] == N(map[w[j - 1] := 5 + (j - 1)]);
    assert map[d := 4 + j][d := 1] == map[d := 1];
  }

  /** The node before that is taken for the fork of the first two words. */
  lemma FreezeClash(c: char, d: char, w: string, j: nat, b: Build)
    requires Third(c, d, w, j) && j == Length(d) && b.firstId == 1
    requires b.register == Base(c, d).register["0" + ([c] + "3") := 5 + j]
    requires PathOfChain(w, j, b.path) && NodesOfWord(c, d, w, j + 1, b.nodes)
    ensures CanFreeze(b)
    ensures var t := Freeze(b);
            && t.firstId == 1 && t.register == b.register && PathOfChain(w, j - 1, t.path)
            && NodesOfWord(c, d, w, j - 1, t.nodes) && t.nodes[3 + j] == N(map[d := 1])
  {
    var last := Unchecked(3 + j, d, 4 + j);
    assert b.path[j - 1] == Edge(w, j - 1) == last;
    assert b.nodes[4 + j] == N(map[w[j] := 5 + j]);
    KeyOfFarEdge(c, d, 5 + j);
    SharedKeyIsRegistered(c, d, 5 + j);
    FreezeOld(b, last, SharedKey(c, d), 1);
    RedirectRun(c, d, w, j, b.nodes);
    ShorterPath(w, j, b.path);
  }

  lemma ShorterPath(w: string, i: nat, path: seq<Unchecked>)
    requires 0 < i <= |w| && PathOfChain(w, i, path)
    ensures PathOfChain(w, i - 1, path[..|path| - 1])
  {
  }

  lemma SharedKeyIsRegistered(c: char, d: char, n: nat)
    ensures var register := Base(c, d).register["0" + ([c] + "3") := n];
            SharedKey(c, d) in register && register[SharedKey(c, d)] == 1
  {
    assert |SharedKey(c, d)| == 5 && |"0" + ([c] + "3")| == 3;
  }

  /** The keys of the nodes on the path are new, and differ. */
  ghost predicate NewKeys(b: Build) {
    && (forall i :: 0 <= i < |b.path| ==> b.path[i].child < |b.nodes| && b.path[i].parent < |b.nodes|)
    && (forall i :: 0 <= i < |b.path| ==> Key(b.nodes[b.path[i].child], b.firstId) !in b.register)
    && (forall i, k :: 0 <= i < k < |b.path| ==>
          Key(b.nodes[b.path[i].child], b.firstId) != Key(b.nodes[b.path[k].child], b.firstId))
  }

  lemma {:induction false} NewKeysMergeNothing(b: Build)
    requires NewKeys(b)
    ensures FreezeDown(b, 0).nodes == b.nodes
    decreases |b.path|
  {
    if b.path != [] {
      var last := b.path[|b.path| - 1];
      assert Tip(b.path) == last.child;
      NewKeysMergeNothing(Freeze(b));
    }
  }

  /** Where the k-th node of the run of d leads. */
  function Target(j: nat, k: nat): nat {
    if k == j - 1 then 1 else 5 + k
  }

  /** All other nodes of the third word are new. */
  lemma RunIsNew(c: char, d: char, w: string, j: nat, b: Build)
    requires Third(c, d, w, j) && (forall k :: 0 <= k < j ==> w[k] == d) && b.firstId == 1
    requires b.register == Base(c, d).register["0" + ([c] + "3") := 5 + j]
    requires PathOfChain(w, j - 1, b.path) && NodesOfWord(c, d, w, j - 1, b.nodes) && b.nodes[3 + j] == N(map[d := 1])
    ensures NewKeys(b)
  {
    forall i | 0 <= i < |b.path|
      ensures b.path[i].child < |b.nodes| && b.path[i].parent < |b.nodes|
      ensures Key(b.nodes[b.path[i].child], b.firstId) !in b.register
    {
      KeyInRun(c, d, w, j, b, i);
      RunKeyIsNew(c, d, j, i + 1);
    }
    forall i, k | 0 <= i < k < |b.path|
      ensures Key(b.nodes[b.path[i].child], b.firstId) != Key(b.nodes[b.path[k].child], b.firstId)
    {
      KeyInRun(c, d, w, j, b, i);
      KeyInRun(c, d, w, j, b, k);
      RunKeysDiffer(d, j, i + 1, k + 1);
    }
  }

  lemma KeyInRun(c: char, d: char, w: string, j: nat, b: Build, i: nat)
    requires Third(c, d, w, j) && (forall k :: 0 <= k < j ==> w[k] == d) && i < j - 1
    requires PathOfChain(w, j - 1, b.path) && NodesOfWord(c, d, w, j - 1, b.nodes) && b.nodes[3 + j] == N(map[d := 1])
    ensures b.path[i] == Edge(w, i) && Key(b.nodes[b.path[i].child], 1) == RunKey(d, j, i + 1)
  {
    assert b.path[i].child == 4 + (i + 1);
    assert i + 1 < j - 1 ==> b.nodes[4 + (i + 1)] == N(map[w[i + 1] := 5 + (i + 1)]);
    KeyOfEdge(d, Target(j, i + 1));
  }

  function RunKey(d: char, j: nat, k: nat): string {
    ['0'] + ([d] + Decimal(1 + Target(j, k)))
  }

  lemma RunKeysDiffer(d: char, j: nat, i: nat, k: nat)
    requires i < k < j && j > 1
    ensures RunKey(d, j, i) != RunKey(d, j, k)
  {
    if RunKey(d, j, i) == RunKey(d, j, k) {
      assert RunKey(d, j, i)[2..] == Decimal(1 + Target(j, i)) && RunKey(d, j, k)[2..] == Decimal(1 + Target(j, k));
      DecimalIsInjective(1 + Target(j, i), 1 + Target(j, k));
    }
  }

  lemma RunKeyIsNew(c: char, d: char, j: nat, k: nat)
    requires Clash(c, d) && 0 < k < j
    ensures RunKey(d, j, k) !in Base(c, d).register["0" + ([c] + "3") := 5 + j]
  {
    var key := RunKey(d, j, k);
    assert key[1] == d && |key| >= 3;
    assert SharedKey(c, d)[1] == c && ("0" + ([c] + "3"))[1] == c;
    if key == "0" + ([d] + "3") {
      assert key[2..] == Decimal(1 + Target(j, k)) && ("0" + ([d] + "3"))[2..] == "3" == Decimal(3);
      DecimalIsInjective(1 + Target(j, k), 3);
    }
  }

  // ----- what is lost

  lemma {:induction false} RunLeadsToFork(c: char, d: char, w: string, j: nat, nodes: seq<Node>, k: nat)
    requires Third(c, d, w, j) && (forall i :: 0 <= i < j ==> w[i] == d) && 1 <= k < j
    requires NodesOfWord(c, d, w, j - 1, nodes) && nodes[3 + j] == N(map[d := 1])
    ensures Accepts(nodes, 4 + k, w[k..]) == Accepts(nodes, 1, w[j..])
    decreases j - k
  {
    assert w[k..][0] == d && w[k..][1..] == w[k + 1..];
    if k < j - 1 {
      assert nodes[4 + k] == N(map[w[k] := 5 + k]);
      RunLeadsToFork(c, d, w, j, nodes, k + 1);
    }
  }

  lemma WordIsLost(c: char, d: char, w: string, j: nat, nodes: seq<Node>)
    requires Third(c, d, w, j) && (forall i :: 0 <= i < j ==> w[i] == d)
    requires NodesOfWord(c, d, w, j - 1, nodes) && nodes[3 + j] == N(map[d := 1])
    ensures !Accepts(nodes, 0, w)
  {
    assert w[1..] == w[1..];
    assert w[0] in nodes[0].edges && nodes[0].edges[w[0]] == 5;
    RunLeadsToFork(c, d, w, j, nodes, 1);
    assert w[j..][0] == c && w[j..][1..] == [c];
    assert nodes[1] == N(map[c := 2, d := 3]) && nodes[2] == LEAF;
    assert !Accepts(nodes, 2, [c]);
  }

  /** The third word, inserted and frozen. */
  lemma ThirdWord(c: char, d: char, w: string, j: nat)
    requires Third(c, d, w, j) && (forall i :: 0 <= i < j ==> w[i] == d) && j == Length(d)
    ensures !Accepts(FreezeDown(Inserted(AfterTwo(c, d), [c, d, d], w), 0).nodes, 0, w)
  {
    ThirdGrown(c, d, w, j);
    var b := Inserted(AfterTwo(c, d), [c, d, d], w);
    FreezeLeaf(c, d, w, j, b);
    var b1 := Freeze(b);
    FreezeLastButOne(c, d, w, j, b1);
    var b2 := Freeze(b1);
    FreezeClash(c, d, w, j, b2);
    var b3 := Freeze(b2);
    RunIsNew(c, d, w, j, b3);
    NewKeysMergeNothing(b3);
    WordIsLost(c, d, w, j, b3.nodes);
    OneFreeze(b);
    OneFreeze(b1);
    OneFreeze(b2);
  }

  /** The third word, before its nodes are frozen. */
  lemma ThirdGrown(c: char, d: char, w: string, j: nat)
    requires Third(c, d, w, j)
    ensures var b := Inserted(AfterTwo(c, d), [c, d, d], w);
            && b.firstId == 1 && b.register == Base(c, d).register
            && PathOfChain(w, j + 2, b.path) && NodesOfWord(c, d, w, j + 2, b.nodes) && b.nodes[6 + j] == LEAF
  {
    assert CommonPrefix(w, [c, d, d]) == 0;
    AllFrozen(c, d);
    GrowsToChain(c, d, w, 0);
    ChainIsChain(c, d, w, |w|);
    assert Tip(Chain(c, d, w, |w|).path) == 6 + j;
  }

  /** Words in order, over two letters, of which the token set loses one. */
  lemma DigitsLoseWords(c: char, d: char)
    requires Clash(c, d)
    ensures InOrder(Words(c, d)) && AllLetters(Words(c, d)) <= {c, d} && LastWord(c, d) in Words(c, d)
    ensures !Accepts(TokenSetOf(Words(c, d), 1), 0, LastWord(c, d))
  {
    var w := LastWord(c, d);
    LastWordIsThird(c, d);
    ThirdWord(c, d, w, Length(d));
    FirstTwoWords(c, d);
    BuiltOneMore([[c, c], [c, d, d]], w, 1);
    assert Words(c, d) == [[c, c], [c, d, d]] + [w];
    WordsAreInOrder(c, d);
    LettersOfWords(c, d);
  }

  lemma LastWordIsThird(c: char, d: char)
    requires Clash(c, d)
    ensures Third(c, d, LastWord(c, d), Length(d)) && forall i :: 0 <= i < Length(d) ==> LastWord(c, d)[i] == d
  {
  }

  lemma WordsAreInOrder(c: char, d: char)
    requires Clash(c, d)
    ensures InOrder(Words(c, d))
  {
    assert [c, d, d][1..] == [d, d] && [c, c][1..] == [c];
    assert LastWord(c, d)[0] == d;
  }

  lemma LettersOfWords(c: char, d: char)
    requires Clash(c, d)
    ensures AllLetters(Words(c, d)) <= {c, d}
  {
    assert forall l :: l in LastWord(c, d) ==> l == c || l == d;
  }

  lemma FirstTwoWords(c: char, d: char)
    requires Clash(c, d)
    ensures Built([[c, c], [c, d, d]], 1) == AfterTwo(c, d)
  {
    FirstWord(c);
    BuiltOneMore([], [c, c], 1);
    assert [] + [[c, c]] == [[c, c]];
    SecondWord(c, d);
    BuiltOneMore([[c, c]], [c, d, d], 1);
    assert [[c, c]] + [[c, d, d]] == [[c, c], [c, d, d]];
  }

  /** Over these letters every list of words in order becomes a token set for exactly these words. */
  ghost predicate AlwaysExact(letters: set<char>) {
    forall words, firstId: nat, w | InOrder(words) && AllLetters(words) <= letters ::
      Accepts(TokenSetOf(words, firstId), 0, w) <==> w in words
  }

  /** Token sets are exact for all words over some letters if and only if no digit has a smaller letter beside it. */
  lemma ExactForSeparableLetters(letters: set<char>)
    ensures AlwaysExact(letters) <==> Separable(letters)
  {
    if Separable(letters) {
      forall words, firstId: nat, w | InOrder(words) && AllLetters(words) <= letters
        ensures Accepts(TokenSetOf(words, firstId), 0, w) <==> w in words
      {
        SmallerSeparable(AllLetters(words), letters);
        TokenSetIsExact(words, firstId);
      }
    } else {
      var d, c :| d in letters && IsDigit(d) && c in letters && c < d;
      DigitsLoseWords(c, d);
      assert AllLetters(Words(c, d)) <= letters;
    }
  }
}
