/**
 The three ways in which the builder changes its nodes: freezing the last unchecked node,
 growing the path by a fresh node, and marking the tip of the path final. What each keeps.
 */
module BuilderSteps {
  import opened Common
  import opened Automata
  import opened NodeKeys

  /** An edge on the path of the previous word; its child may still change. */
  datatype Unchecked = Unchecked(parent: nat, symbol: char, child: nat)

  /** The i-th node of a path; the root, number 0, comes first. */
  function At(path: seq<Unchecked>, i: nat): nat
    requires i <= |path|
  {
    if i == 0 then 0 else path[i - 1].child
  }

  function Tip(path: seq<Unchecked>): nat {
    At(path, |path|)
  }

  // ----- the registered nodes

  /** The registered nodes, in the order of their registration. */
  ghost predicate IsFrozen(frozen: seq<nat>, n: nat) {
    exists j :: 0 <= j < |frozen| && frozen[j] == n
  }

  ghost predicate FrozenBefore(frozen: seq<nat>, n: nat, i: nat)
    requires i <= |frozen|
  {
    exists j :: 0 <= j < i && frozen[j] == n
  }

  /** Registered nodes lead to nodes registered before them, and accept some word. */
  ghost predicate FrozenShape(nodes: seq<Node>, frozen: seq<nat>) {
    && (forall i :: 0 <= i < |frozen| ==> frozen[i] < |nodes|)
    && (forall i, c :: 0 <= i < |frozen| && c in nodes[frozen[i]].edges ==>
          FrozenBefore(frozen, nodes[frozen[i]].edges[c], i))
  }

  ghost predicate FrozenAlive(nodes: seq<Node>, frozen: seq<nat>) {
    forall i :: 0 <= i < |frozen| ==> Alive(nodes, frozen[i])
  }

  /** The register maps each key to the registered node that has it. */
  ghost predicate RegisterShape(firstId: nat, nodes: seq<Node>, frozen: seq<nat>, register: map<string, nat>)
    requires FrozenShape(nodes, frozen)
  {
    && (forall i :: 0 <= i < |frozen| ==>
          Key(nodes[frozen[i]], firstId) in register && register[Key(nodes[frozen[i]], firstId)] == frozen[i])
    && (forall key :: key in register ==>
          IsFrozen(frozen, register[key]) && Key(nodes[register[key]], firstId) == key)
  }

  ghost predicate Registered(firstId: nat, nodes: seq<Node>, frozen: seq<nat>, register: map<string, nat>) {
    FrozenShape(nodes, frozen) && FrozenAlive(nodes, frozen) && RegisterShape(firstId, nodes, frozen, register)
  }

  /** A registered node keeps its language as long as registered nodes are left alone. */
  lemma {:induction false} FrozenKeepLanguage(nodes: seq<Node>, frozen: seq<nat>, nodes': seq<Node>, n: nat, w: string)
    requires FrozenShape(nodes, frozen) && IsFrozen(frozen, n) && |nodes| <= |nodes'|
    requires forall i :: 0 <= i < |frozen| ==> nodes'[frozen[i]] == nodes[frozen[i]]
    ensures Accepts(nodes', n, w) <==> Accepts(nodes, n, w)
    decreases |w|
  {
    var i :| 0 <= i < |frozen| && frozen[i] == n;
    if w != [] && w[0] in nodes[n].edges {
      assert FrozenBefore(frozen, nodes[n].edges[w[0]], i);
      FrozenKeepLanguage(nodes, frozen, nodes', nodes[n].edges[w[0]], w[1..]);
    }
  }

  lemma RegisteredKept(firstId: nat, nodes: seq<Node>, frozen: seq<nat>, register: map<string, nat>, nodes': seq<Node>)
    requires Registered(firstId, nodes, frozen, register) && |nodes| <= |nodes'|
    requires forall i :: 0 <= i < |frozen| ==> nodes'[frozen[i]] == nodes[frozen[i]]
    ensures Registered(firstId, nodes', frozen, register)
  {
    forall i | 0 <= i < |frozen| ensures Alive(nodes', frozen[i]) {
      assert Alive(nodes, frozen[i]);
      var w :| Accepts(nodes, frozen[i], w);
      FrozenKeepLanguage(nodes, frozen, nodes', frozen[i], w);
    }
  }

  lemma FrozenOneMore(frozen: seq<nat>, n: nat, m: nat)
    ensures IsFrozen(frozen + [n], m) <==> IsFrozen(frozen, m) || m == n
    ensures IsFrozen(frozen, m) <==> FrozenBefore(frozen + [n], m, |frozen|)
  {
    var frozen' := frozen + [n];
    assert frozen'[|frozen|] == n;
    if j :| 0 <= j < |frozen| && frozen[j] == m {
      assert frozen'[j] == m;
    }
  }

  lemma FrozenShapeOneMore(nodes: seq<Node>, frozen: seq<nat>, n: nat)
    requires FrozenShape(nodes, frozen) && n < |nodes|
    requires forall c :: c in nodes[n].edges ==> IsFrozen(frozen, nodes[n].edges[c])
    ensures FrozenShape(nodes, frozen + [n])
  {
    var frozen' := frozen + [n];
    forall i, c | 0 <= i < |frozen'| && c in nodes[frozen'[i]].edges
      ensures FrozenBefore(frozen', nodes[frozen'[i]].edges[c], i)
    {
      var m := nodes[frozen'[i]].edges[c];
      if i < |frozen| {
        assert FrozenBefore(frozen, m, i);
        var j :| 0 <= j < i && frozen[j] == m;
        assert frozen'[j] == m;
      } else {
        FrozenOneMore(frozen, n, m);
      }
    }
  }

  lemma RegisterOneMore(firstId: nat, nodes: seq<Node>, frozen: seq<nat>, register: map<string, nat>, n: nat)
    requires Registered(firstId, nodes, frozen, register) && n < |nodes| && Alive(nodes, n)
    requires Key(nodes[n], firstId) !in register
    requires FrozenShape(nodes, frozen + [n])
    ensures Registered(firstId, nodes, frozen + [n], register[Key(nodes[n], firstId) := n])
  {
    var frozen' := frozen + [n];
    forall i | 0 <= i < |frozen'| ensures Alive(nodes, frozen'[i]) {
      assert i < |frozen| ==> frozen'[i] == frozen[i];
    }
    RegisterShapeOneMore(firstId, nodes, frozen, register, n, Key(nodes[n], firstId));
  }

  lemma RegisterShapeOneMore(firstId: nat, nodes: seq<Node>, frozen: seq<nat>, register: map<string, nat>, n: nat, key: string)
    requires FrozenShape(nodes, frozen) && RegisterShape(firstId, nodes, frozen, register) && n < |nodes|
    requires key == Key(nodes[n], firstId) && key !in register && FrozenShape(nodes, frozen + [n])
    ensures RegisterShape(firstId, nodes, frozen + [n], register[key := n])
  {
    var frozen', register' := frozen + [n], register[key := n];
    forall i | 0 <= i < |frozen'|
      ensures Key(nodes[frozen'[i]], firstId) in register' && register'[Key(nodes[frozen'[i]], firstId)] == frozen'[i]
    {
      assert i < |frozen| ==> frozen'[i] == frozen[i];
    }
    forall k | k in register' ensures IsFrozen(frozen', register'[k]) && Key(nodes[register'[k]], firstId) == k {
      FrozenOneMore(frozen, n, register'[k]);
    }
  }

  // ----- the path

  /** An edge of the node at place i is the path's own edge, or leads to a registered node. */
  ghost predicate OnPathOrFrozen(nodes: seq<Node>, path: seq<Unchecked>, frozen: seq<nat>, i: nat)
    requires i <= |path|
  {
    && At(path, i) < |nodes|
    && (i < |path| ==>
          && path[i].parent == At(path, i)
          && path[i].symbol in nodes[At(path, i)].edges
          && nodes[At(path, i)].edges[path[i].symbol] == path[i].child)
    && (forall c :: c in nodes[At(path, i)].edges ==>
          (i < |path| && c == path[i].symbol) || IsFrozen(frozen, nodes[At(path, i)].edges[c]))
  }

  /** The path is a chain of unregistered nodes; everything beside it is registered. */
  ghost predicate PathShape(nodes: seq<Node>, path: seq<Unchecked>, frozen: seq<nat>) {
    && Tip(path) < |nodes|
    && (forall i :: 0 <= i <= |path| ==> !IsFrozen(frozen, At(path, i)))
    && (forall i, j :: 0 <= i < j <= |path| ==> At(path, i) != At(path, j))
    && (forall i :: 0 <= i <= |path| ==> OnPathOrFrozen(nodes, path, frozen, i))
  }

  /** The builder's fields. */
  datatype Build = Build(
    firstId: nat,
    nodes: seq<Node>,
    path: seq<Unchecked>,
    register: map<string, nat>,
    frozen: seq<nat>
  )

  ghost predicate Shape(b: Build) {
    && WellFormed(b.nodes)
    && Registered(b.firstId, b.nodes, b.frozen, b.register)
    && PathShape(b.nodes, b.path, b.frozen)
  }

  // ----- freezing the last unchecked node

  /** An edge sent to another node. */
  function Redirected(nodes: seq<Node>, p: nat, c: char, m: nat): seq<Node>
    requires p < |nodes|
  {
    nodes[p := Node(nodes[p].final, nodes[p].edges[c := m])]
  }

  lemma {:induction false} RedirectKeepsLanguage(nodes: seq<Node>, p: nat, c: char, m: nat, n: nat, w: string)
    requires p < |nodes| && m < |nodes| && c in nodes[p].edges
    requires nodes[p].edges[c] < |nodes| && nodes[nodes[p].edges[c]] == nodes[m]
    ensures Accepts(Redirected(nodes, p, c, m), n, w) <==> Accepts(nodes, n, w)
    decreases |w|
  {
    if n < |nodes| && w != [] && w[0] in nodes[n].edges {
      if n == p && w[0] == c {
        RedirectKeepsLanguage(nodes, p, c, m, m, w[1..]);
        assert Accepts(nodes, m, w[1..]) <==> Accepts(nodes, nodes[p].edges[c], w[1..]);
      } else {
        RedirectKeepsLanguage(nodes, p, c, m, nodes[n].edges[w[0]], w[1..]);
      }
    }
  }

  predicate CanFreeze(b: Build) {
    b.path != [] && Tip(b.path) < |b.nodes| && b.path[|b.path| - 1].parent < |b.nodes|
  }

  /** Whether a node with the tip's key is registered already. */
  predicate Merges(b: Build)
    requires CanFreeze(b)
  {
    Key(b.nodes[Tip(b.path)], b.firstId) in b.register
  }

  /** One turn of the loop of `minimize`. */
  function Freeze(b: Build): Build
    requires CanFreeze(b)
  {
    var last := b.path[|b.path| - 1];
    var key := Key(b.nodes[last.child], b.firstId);
    if Merges(b) then
      b.(nodes := Redirected(b.nodes, last.parent, last.symbol, b.register[key]), path := b.path[..|b.path| - 1])
    else
      b.(register := b.register[key := last.child], frozen := b.frozen + [last.child], path := b.path[..|b.path| - 1])
  }

  lemma ShapeCanFreeze(b: Build)
    requires Shape(b) && b.path != []
    ensures CanFreeze(b) && b.path[|b.path| - 1].parent == At(b.path, |b.path| - 1)
  {
    assert OnPathOrFrozen(b.nodes, b.path, b.frozen, |b.path| - 1);
  }

  lemma MergeKeepsPath(nodes: seq<Node>, path: seq<Unchecked>, frozen: seq<nat>, m: nat)
    requires PathShape(nodes, path, frozen) && path != [] && IsFrozen(frozen, m)
    ensures path[|path| - 1].parent == At(path, |path| - 1) < |nodes|
    ensures PathShape(Redirected(nodes, path[|path| - 1].parent, path[|path| - 1].symbol, m), path[..|path| - 1], frozen)
  {
    var k := |path| - 1;
    assert OnPathOrFrozen(nodes, path, frozen, k);
    var nodes', path' := Redirected(nodes, path[k].parent, path[k].symbol, m), path[..k];
    assert forall i :: 0 <= i <= k ==> At(path', i) == At(path, i);
    forall i | 0 <= i <= k ensures OnPathOrFrozen(nodes', path', frozen, i) {
      assert OnPathOrFrozen(nodes, path, frozen, i);
      assert i < k ==> At(path, i) != At(path, k);
    }
  }

  lemma MergeKeepsShape(b: Build)
    requires Shape(b) && CanFreeze(b) && Merges(b)
    ensures Shape(Freeze(b))
  {
    var k, m := |b.path| - 1, b.register[Key(b.nodes[Tip(b.path)], b.firstId)];
    MergeKeepsPath(b.nodes, b.path, b.frozen, m);
    RedirectKeepsRegistered(b, At(b.path, k), b.path[k].symbol, m);
  }

  lemma RedirectKeepsRegistered(b: Build, p: nat, c: char, m: nat)
    requires Shape(b) && p < |b.nodes| && !IsFrozen(b.frozen, p) && m < |b.nodes|
    ensures WellFormed(Redirected(b.nodes, p, c, m))
    ensures Registered(b.firstId, Redirected(b.nodes, p, c, m), b.frozen, b.register)
  {
    RegisteredKept(b.firstId, b.nodes, b.frozen, b.register, Redirected(b.nodes, p, c, m));
  }

  lemma KeepKeepsPath(nodes: seq<Node>, path: seq<Unchecked>, frozen: seq<nat>)
    requires PathShape(nodes, path, frozen) && path != []
    requires forall m :: IsFrozen(frozen + [Tip(path)], m) <==> IsFrozen(frozen, m) || m == Tip(path)
    ensures PathShape(nodes, path[..|path| - 1], frozen + [Tip(path)])
  {
    var k := |path| - 1;
    var path', frozen' := path[..k], frozen + [Tip(path)];
    forall i | 0 <= i <= k
      ensures !IsFrozen(frozen', At(path', i)) && OnPathOrFrozen(nodes, path', frozen', i)
    {
      assert OnPathOrFrozen(nodes, path, frozen, i);
      assert At(path', i) == At(path, i) != At(path, k + 1);
    }
    assert forall i :: 0 <= i <= k ==> At(path', i) == At(path, i);
  }

  lemma KeepKeepsShape(b: Build)
    requires Shape(b) && CanFreeze(b) && !Merges(b) && Alive(b.nodes, Tip(b.path))
    ensures Shape(Freeze(b))
  {
    assert OnPathOrFrozen(b.nodes, b.path, b.frozen, |b.path|);
    FrozenShapeOneMore(b.nodes, b.frozen, Tip(b.path));
    forall m ensures IsFrozen(b.frozen + [Tip(b.path)], m) <==> IsFrozen(b.frozen, m) || m == Tip(b.path) {
      FrozenOneMore(b.frozen, Tip(b.path), m);
    }
    RegisterOneMore(b.firstId, b.nodes, b.frozen, b.register, Tip(b.path));
    KeepKeepsPath(b.nodes, b.path, b.frozen);
  }

  lemma AliveThroughEdge(nodes: seq<Node>, n: nat, c: char)
    requires n < |nodes| && c in nodes[n].edges && Alive(nodes, nodes[n].edges[c])
    ensures Alive(nodes, n)
  {
    var w :| Accepts(nodes, nodes[n].edges[c], w);
    assert ([c] + w)[1..] == w;
    assert Accepts(nodes, n, [c] + w);
  }

  /** The new tip leads to the frozen child, or to the node that replaced it. */
  lemma NewTipLeadsToFrozen(b: Build)
    requires PathShape(b.nodes, b.path, b.frozen) && CanFreeze(b)
    requires Merges(b) ==> IsFrozen(b.frozen, b.register[Key(b.nodes[Tip(b.path)], b.firstId)])
    ensures var t, c := Freeze(b), b.path[|b.path| - 1].symbol;
            && Tip(t.path) < |t.nodes| && c in t.nodes[Tip(t.path)].edges
            && IsFrozen(t.frozen, t.nodes[Tip(t.path)].edges[c])
  {
    var k, t := |b.path| - 1, Freeze(b);
    assert OnPathOrFrozen(b.nodes, b.path, b.frozen, k);
    assert Tip(t.path) == At(b.path, k);
    if !Merges(b) {
      FrozenOneMore(b.frozen, Tip(b.path), Tip(b.path));
    }
  }

  lemma FreezeKeepsTipAlive(b: Build)
    requires Shape(b) && CanFreeze(b) && Shape(Freeze(b))
    ensures Alive(Freeze(b).nodes, Tip(Freeze(b).path))
  {
    var t, c := Freeze(b), b.path[|b.path| - 1].symbol;
    NewTipLeadsToFrozen(b);
    FrozenIsAlive(t, t.nodes[Tip(t.path)].edges[c]);
    AliveThroughEdge(t.nodes, Tip(t.path), c);
  }

  lemma FrozenIsAlive(b: Build, n: nat)
    requires Shape(b) && IsFrozen(b.frozen, n)
    ensures n < |b.nodes| && Alive(b.nodes, n)
  {
  }

  ghost predicate LabelsWithin(nodes: seq<Node>, letters: set<char>) {
    forall n :: 0 <= n < |nodes| ==> nodes[n].edges.Keys <= letters
  }

  /** Over separable letters, merging replaces a node by one just like it. */
  lemma FreezeKeepsLanguage(b: Build, letters: set<char>, n: nat, w: string)
    requires Shape(b) && CanFreeze(b) && LabelsWithin(b.nodes, letters) && Separable(letters)
    ensures Accepts(Freeze(b).nodes, n, w) <==> Accepts(b.nodes, n, w)
  {
    if Merges(b) {
      var last := b.path[|b.path| - 1];
      var m := b.register[Key(b.nodes[last.child], b.firstId)];
      assert OnPathOrFrozen(b.nodes, b.path, b.frozen, |b.path| - 1);
      assert IsFrozen(b.frozen, m);
      KeyDeterminesNode(b.nodes[last.child], b.nodes[m], letters, b.firstId);
      RedirectKeepsLanguage(b.nodes, last.parent, last.symbol, m, n, w);
    }
  }

  // ----- growing the path

  function Grow(b: Build, c: char): Build
    requires Tip(b.path) < |b.nodes|
  {
    b.(nodes := Redirected(b.nodes, Tip(b.path), c, |b.nodes|) + [Node(false, map[])],
       path := b.path + [Unchecked(Tip(b.path), c, |b.nodes|)])
  }

  lemma GrowKeepsPath(b: Build, c: char)
    requires Shape(b)
    ensures PathShape(Grow(b, c).nodes, Grow(b, c).path, b.frozen)
  {
    var t, k := Grow(b, c), |b.path|;
    forall i | 0 <= i <= k + 1
      ensures At(t.path, i) < |t.nodes| && !IsFrozen(b.frozen, At(t.path, i)) && OnPathOrFrozen(t.nodes, t.path, b.frozen, i)
    {
      if i <= k {
        GrowKeepsPlace(b, c, i);
      }
    }
    assert forall i :: 0 <= i <= k ==> At(t.path, i) == At(b.path, i);
  }

  lemma GrowKeepsPlace(b: Build, c: char, i: nat)
    requires Tip(b.path) < |b.nodes| && PathShape(b.nodes, b.path, b.frozen) && i <= |b.path|
    ensures var t := Grow(b, c);
            && At(t.path, i) == At(b.path, i) < |t.nodes| && !IsFrozen(b.frozen, At(t.path, i))
            && OnPathOrFrozen(t.nodes, t.path, b.frozen, i)
  {
    var t := Grow(b, c);
    assert At(t.path, i) == At(b.path, i);
    assert OnPathOrFrozen(b.nodes, b.path, b.frozen, i);
  }

  lemma GrowKeepsShape(b: Build, c: char)
    requires Shape(b)
    ensures Shape(Grow(b, c))
  {
    var t := Grow(b, c);
    forall i | 0 <= i < |b.frozen| ensures t.nodes[b.frozen[i]] == b.nodes[b.frozen[i]] {
      assert !IsFrozen(b.frozen, At(b.path, |b.path|));
    }
    RegisteredKept(b.firstId, b.nodes, b.frozen, b.register, t.nodes);
    GrowKeepsPath(b, c);
    GrowKeepsWellFormed(b, c);
  }

  lemma GrowKeepsWellFormed(b: Build, c: char)
    requires WellFormed(b.nodes) && Tip(b.path) < |b.nodes|
    ensures WellFormed(Grow(b, c).nodes)
  {
  }

  /** A fresh node accepts nothing, so leading there under a new label changes no language. */
  lemma {:induction false} GrowKeepsLanguage(b: Build, c: char, n: nat, w: string)
    requires WellFormed(b.nodes) && Tip(b.path) < |b.nodes| && c !in b.nodes[Tip(b.path)].edges && n < |b.nodes|
    ensures Accepts(Grow(b, c).nodes, n, w) <==> Accepts(b.nodes, n, w)
    decreases |w|
  {
    var t := Grow(b, c);
    if w != [] && w[0] in t.nodes[n].edges {
      if n == Tip(b.path) && w[0] == c {
        assert !Accepts(t.nodes, |b.nodes|, w[1..]);
      } else {
        GrowKeepsLanguage(b, c, b.nodes[n].edges[w[0]], w[1..]);
      }
    }
  }

  // ----- marking the tip final

  function Finalize(b: Build): Build
    requires Tip(b.path) < |b.nodes|
  {
    b.(nodes := b.nodes[Tip(b.path) := Node(true, b.nodes[Tip(b.path)].edges)])
  }

  lemma FinalizeKeepsShape(b: Build)
    requires Shape(b)
    ensures Shape(Finalize(b)) && Alive(Finalize(b).nodes, Tip(b.path))
  {
    var t := Finalize(b);
    forall i | 0 <= i < |b.frozen| ensures t.nodes[b.frozen[i]] == b.nodes[b.frozen[i]] {
      assert !IsFrozen(b.frozen, At(b.path, |b.path|));
    }
    RegisteredKept(b.firstId, b.nodes, b.frozen, b.register, t.nodes);
    forall i | 0 <= i <= |b.path| ensures OnPathOrFrozen(t.nodes, b.path, b.frozen, i) {
      assert OnPathOrFrozen(b.nodes, b.path, b.frozen, i);
    }
    assert Accepts(t.nodes, Tip(b.path), []);
  }

  predicate Spells(path: seq<Unchecked>, word: string) {
    |path| <= |word| && forall i :: 0 <= i < |path| ==> path[i].symbol == word[i]
  }

  lemma SuffixStep(word: string, i: nat, w: string)
    requires i < |word| && w != [] && w[0] == word[i]
    ensures w == word[i..] <==> w[1..] == word[i + 1..]
  {
    assert word[i..] == [word[i]] + word[i + 1..];
    assert w == [w[0]] + w[1..];
  }

  /** The node at place i of the path gains exactly the rest of the word. */
  lemma {:induction false} FinalizeAddsWord(b: Build, word: string, i: nat, w: string)
    requires Shape(b) && Spells(b.path, word) && |b.path| == |word| && i <= |word|
    ensures Accepts(Finalize(b).nodes, At(b.path, i), w) <==> Accepts(b.nodes, At(b.path, i), w) || w == word[i..]
    decreases |w|
  {
    var t, n := Finalize(b), At(b.path, i);
    assert OnPathOrFrozen(b.nodes, b.path, b.frozen, i);
    assert i < |word| ==> n != Tip(b.path);
    if w != [] && w[0] in b.nodes[n].edges {
      if i < |word| && w[0] == word[i] {
        FinalizeAddsWord(b, word, i + 1, w[1..]);
        SuffixStep(word, i, w);
      } else {
        OffPathKept(b, n, w[0], w[1..]);
      }
    }
  }

  lemma OffPathKept(b: Build, n: nat, c: char, w: string)
    requires Shape(b) && n < |b.nodes| && c in b.nodes[n].edges && IsFrozen(b.frozen, b.nodes[n].edges[c])
    ensures Accepts(Finalize(b).nodes, b.nodes[n].edges[c], w) <==> Accepts(b.nodes, b.nodes[n].edges[c], w)
  {
    FinalizeKeepsFrozen(b);
    FrozenKeepLanguage(b.nodes, b.frozen, Finalize(b).nodes, b.nodes[n].edges[c], w);
  }

  lemma FinalizeKeepsFrozen(b: Build)
    requires Shape(b)
    ensures Tip(b.path) < |b.nodes| && |Finalize(b).nodes| == |b.nodes| && FrozenShape(b.nodes, b.frozen)
    ensures forall i :: 0 <= i < |b.frozen| ==> Finalize(b).nodes[b.frozen[i]] == b.nodes[b.frozen[i]]
  {
    TipIsNotFrozen(b);
  }

  lemma TipIsNotFrozen(b: Build)
    requires Shape(b)
    ensures forall i :: 0 <= i < |b.frozen| ==> b.frozen[i] != Tip(b.path)
  {
    assert !IsFrozen(b.frozen, At(b.path, |b.path|));
  }

  // ----- a whole build

  function CommonPrefix(a: string, b: string): nat {
    if a != [] && b != [] && a[0] == b[0] then 1 + CommonPrefix(a[1..], b[1..]) else 0
  }

  /** Freezing until the path has this length. */
  function FreezeDown(b: Build, downTo: nat): Build
    decreases |b.path|
  {
    if |b.path| > downTo && CanFreeze(b) then FreezeDown(Freeze(b), downTo) else b
  }

  /** Growing along a word until the path spells it. */
  function GrowAlong(b: Build, word: string): Build
    decreases |word| - |b.path|
  {
    if |b.path| < |word| && Tip(b.path) < |b.nodes| then GrowAlong(Grow(b, word[|b.path|]), word) else b
  }

  function Inserted(b: Build, previous: string, word: string): Build {
    var grown := GrowAlong(FreezeDown(b, CommonPrefix(word, previous)), word);
    if Tip(grown.path) < |grown.nodes| then Finalize(grown) else grown
  }

  function Fresh(firstId: nat): Build {
    Build(firstId, [Node(false, map[])], [], map[], [])
  }

  /** The builder after these words. */
  function Built(words: seq<string>, firstId: nat): Build {
    if words == [] then Fresh(firstId)
    else
      var n := |words| - 1;
      Inserted(Built(words[..n], firstId), if n == 0 then "" else words[n - 1], words[n])
  }

  /** The nodes of the token set made from these words. */
  function TokenSetOf(words: seq<string>, firstId: nat): seq<Node> {
    FreezeDown(Built(words, firstId), 0).nodes
  }
}
