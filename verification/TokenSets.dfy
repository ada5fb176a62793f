/**
 Token sets made from arrays of words: which words they hold, and that no automaton for the same
 words has fewer states.
 */
module TokenSets {
  import opened Common
  import opened Automata
  import opened NodeKeys
  import opened BuilderSteps
  import opened TokenSetBuilder

  ghost predicate Acyclic(nodes: seq<Node>, n: nat) {
    exists d: nat :: DepthWithin(nodes, n, d)
  }

  /** Some word is accepted by one of the two nodes and not by the other. */
  ghost predicate Differ(nodes: seq<Node>, n: nat, m: nat) {
    exists w :: Accepts(nodes, n, w) != Accepts(nodes, m, w)
  }

  /** No two states accept the same suffixes. */
  ghost predicate Minimal(nodes: seq<Node>) {
    forall n: nat, m: nat :: Reaches(nodes, 0, n) && Reaches(nodes, 0, m) && n != m ==> Differ(nodes, n, m)
  }

  /** Every state is on the way to some word, unless there is no word. */
  ghost predicate Trim(nodes: seq<Node>) {
    Alive(nodes, 0) ==> forall n: nat :: Reaches(nodes, 0, n) ==> Alive(nodes, n)
  }

  // ----- from the invariant of the builder

  lemma {:induction false} FrozenDescend(nodes: seq<Node>, frozen: seq<nat>, i: nat, p: string)
    requires FrozenShape(nodes, frozen) && i < |frozen| && Walk(nodes, frozen[i], p).Some?
    ensures |p| <= i && IsFrozen(frozen, Walk(nodes, frozen[i], p).value)
    decreases |p|
  {
    if p != [] {
      var m := nodes[frozen[i]].edges[p[0]];
      assert FrozenBefore(frozen, m, i);
      var j :| 0 <= j < i && frozen[j] == m;
      FrozenDescend(nodes, frozen, j, p[1..]);
    }
  }

  lemma BelowRoot(b: Build, p: string)
    requires Shape(b) && b.path == [] && p != [] && Walk(b.nodes, 0, p).Some?
    ensures |p| <= |b.frozen| && IsFrozen(b.frozen, Walk(b.nodes, 0, p).value)
  {
    assert OnPathOrFrozen(b.nodes, b.path, b.frozen, 0);
    var m := b.nodes[0].edges[p[0]];
    var j :| 0 <= j < |b.frozen| && b.frozen[j] == m;
    FrozenDescend(b.nodes, b.frozen, j, p[1..]);
  }

  lemma BuiltIsAcyclic(b: Build)
    requires Shape(b) && b.path == []
    ensures DepthWithin(b.nodes, 0, |b.frozen|)
  {
    forall p | Walk(b.nodes, 0, p).Some? ensures |p| <= |b.frozen| {
      if p != [] {
        BelowRoot(b, p);
      }
    }
  }

  lemma BuiltIsTrim(b: Build)
    requires Shape(b) && b.path == []
    ensures Trim(b.nodes)
  {
    if Alive(b.nodes, 0) {
      forall n: nat | Reaches(b.nodes, 0, n) ensures Alive(b.nodes, n) {
        var p :| Walk(b.nodes, 0, p) == Some(n);
        if p != [] {
          BelowRoot(b, p);
        }
      }
    }
  }

  lemma DifferIsSymmetric(nodes: seq<Node>, n: nat, m: nat)
    requires Differ(nodes, n, m)
    ensures Differ(nodes, m, n)
  {
    var w :| Accepts(nodes, n, w) != Accepts(nodes, m, w);
    assert Accepts(nodes, m, w) != Accepts(nodes, n, w);
  }

  /** An edge that only one of two nodes has tells them apart when it leads anywhere. */
  lemma MissingEdgeDiffers(nodes: seq<Node>, n: nat, m: nat, c: char)
    requires n < |nodes| && m < |nodes| && c in nodes[n].edges && c !in nodes[m].edges
    requires Alive(nodes, nodes[n].edges[c])
    ensures Differ(nodes, n, m)
  {
    var w :| Accepts(nodes, nodes[n].edges[c], w);
    assert ([c] + w)[1..] == w;
    assert Accepts(nodes, n, [c] + w) && !Accepts(nodes, m, [c] + w);
  }

  /** So does an edge that leads to states that differ. */
  lemma TargetsDiffer(nodes: seq<Node>, n: nat, m: nat, c: char)
    requires n < |nodes| && m < |nodes| && c in nodes[n].edges && c in nodes[m].edges
    requires Differ(nodes, nodes[n].edges[c], nodes[m].edges[c])
    ensures Differ(nodes, n, m)
  {
    var w :| Accepts(nodes, nodes[n].edges[c], w) != Accepts(nodes, nodes[m].edges[c], w);
    assert ([c] + w)[1..] == w;
    assert Accepts(nodes, n, [c] + w) != Accepts(nodes, m, [c] + w);
  }

  lemma DifferentEdges(e: map<char, nat>, f: map<char, nat>)
    requires e != f && (forall c :: c in e ==> c in f) && (forall c :: c in f ==> c in e)
    ensures exists c :: c in e && c in f && e[c] != f[c]
  {
    assert e.Keys == f.Keys;
  }

  lemma RegisteredNodesAreDifferent(b: Build, i: nat, j: nat)
    requires Shape(b) && i < |b.frozen| && j < |b.frozen| && b.frozen[i] != b.frozen[j]
    ensures b.frozen[i] < |b.nodes| && b.frozen[j] < |b.nodes| && b.nodes[b.frozen[i]] != b.nodes[b.frozen[j]]
  {
  }

  lemma EdgeOfFrozen(b: Build, i: nat, c: char) returns (j: nat)
    requires Shape(b) && i < |b.frozen| && c in b.nodes[b.frozen[i]].edges
    ensures j < i && b.frozen[j] == b.nodes[b.frozen[i]].edges[c] && Alive(b.nodes, b.frozen[j])
  {
    assert FrozenBefore(b.frozen, b.nodes[b.frozen[i]].edges[c], i);
    j :| 0 <= j < i && b.frozen[j] == b.nodes[b.frozen[i]].edges[c];
  }

  /** Two registered nodes accept different suffixes: by induction on the order of registration. */
  lemma {:induction false} FrozenDiffer(b: Build, i: nat, j: nat)
    requires Shape(b) && i < |b.frozen| && j < |b.frozen| && b.frozen[i] != b.frozen[j]
    ensures Differ(b.nodes, b.frozen[i], b.frozen[j])
    decreases i + j
  {
    var n, m := b.frozen[i], b.frozen[j];
    RegisteredNodesAreDifferent(b, i, j);
    if b.nodes[n].final != b.nodes[m].final {
      assert Accepts(b.nodes, n, []) != Accepts(b.nodes, m, []);
    } else if c :| c in b.nodes[n].edges && c !in b.nodes[m].edges {
      var _ := EdgeOfFrozen(b, i, c);
      MissingEdgeDiffers(b.nodes, n, m, c);
    } else if c :| c in b.nodes[m].edges && c !in b.nodes[n].edges {
      var _ := EdgeOfFrozen(b, j, c);
      MissingEdgeDiffers(b.nodes, m, n, c);
      DifferIsSymmetric(b.nodes, m, n);
    } else {
      DifferentEdges(b.nodes[n].edges, b.nodes[m].edges);
      var c :| c in b.nodes[n].edges && c in b.nodes[m].edges && b.nodes[n].edges[c] != b.nodes[m].edges[c];
      var i' := EdgeOfFrozen(b, i, c);
      var j' := EdgeOfFrozen(b, j, c);
      FrozenDiffer(b, i', j');
      TargetsDiffer(b.nodes, n, m, c);
    }
  }

  /** If a state below the root accepted what the root accepts, its words could be made ever longer. */
  lemma {:induction false} EverLonger(nodes: seq<Node>, p: string, n: nat, k: nat) returns (w: string)
    requires p != [] && Walk(nodes, 0, p) == Some(n) && Alive(nodes, n)
    requires forall u :: Accepts(nodes, 0, u) <==> Accepts(nodes, n, u)
    ensures Accepts(nodes, n, w) && |w| >= k
  {
    if k == 0 {
      w :| Accepts(nodes, n, w);
    } else {
      var u := EverLonger(nodes, p, n, k - 1);
      AcceptsAfterWalk(nodes, 0, p, u);
      w := p + u;
    }
  }

  lemma RootDiffers(b: Build, p: string, n: nat)
    requires Shape(b) && b.path == [] && p != [] && Walk(b.nodes, 0, p) == Some(n)
    ensures Differ(b.nodes, 0, n)
  {
    BelowRoot(b, p);
    FrozenIsAlive(b, n);
    if forall u :: Accepts(b.nodes, 0, u) <==> Accepts(b.nodes, n, u) {
      var w := EverLonger(b.nodes, p, n, |b.frozen| + 1);
      AcceptsIsWalk(b.nodes, 0, w);
      BuiltIsAcyclic(b);
      assert false;
    }
  }

  lemma BuiltIsMinimal(b: Build)
    requires Shape(b) && b.path == []
    ensures Minimal(b.nodes)
  {
    forall n: nat, m: nat | Reaches(b.nodes, 0, n) && Reaches(b.nodes, 0, m) && n != m ensures Differ(b.nodes, n, m) {
      var p :| Walk(b.nodes, 0, p) == Some(n);
      var q :| Walk(b.nodes, 0, q) == Some(m);
      if p == [] {
        RootDiffers(b, q, m);
      } else if q == [] {
        RootDiffers(b, p, n);
        DifferIsSymmetric(b.nodes, 0, n);
      } else {
        BelowRoot(b, p);
        BelowRoot(b, q);
        var i :| 0 <= i < |b.frozen| && b.frozen[i] == n;
        var j :| 0 <= j < |b.frozen| && b.frozen[j] == m;
        FrozenDiffer(b, i, j);
      }
    }
  }

  // ----- fewest states

  /** The states that can be reached from a node. */
  ghost function States(nodes: seq<Node>, root: nat): set<nat> {
    set n | 0 <= n < |nodes| && Reaches(nodes, root, n)
  }

  ghost predicate SameLanguage(a: seq<Node>, b: seq<Node>, r: nat) {
    forall w :: Accepts(a, 0, w) <==> Accepts(b, r, w)
  }

  /** State m of b is where a path leads that leads to state n of a. */
  ghost predicate Mates(a: seq<Node>, b: seq<Node>, r: nat, n: nat, m: nat) {
    exists p :: Walk(a, 0, p) == Some(n) && Walk(b, r, p) == Some(m)
  }

  lemma HasMate(a: seq<Node>, b: seq<Node>, r: nat, n: nat) returns (m: nat)
    requires SameLanguage(a, b, r) && Reaches(a, 0, n) && Alive(a, n)
    ensures m in States(b, r) && Mates(a, b, r, n, m)
  {
    var p :| Walk(a, 0, p) == Some(n);
    var w :| Accepts(a, n, w);
    AcceptsAfterWalk(a, 0, p, w);
    AcceptsIsWalk(b, r, p + w);
    WalkOn(b, r, p, w);
    m := Walk(b, r, p).value;
  }

  lemma MatesAccept(a: seq<Node>, b: seq<Node>, r: nat, n: nat, m: nat, w: string)
    requires SameLanguage(a, b, r) && Mates(a, b, r, n, m)
    ensures Accepts(a, n, w) <==> Accepts(b, m, w)
  {
    var p :| Walk(a, 0, p) == Some(n) && Walk(b, r, p) == Some(m);
    AcceptsAfterWalk(a, 0, p, w);
    AcceptsAfterWalk(b, r, p, w);
  }

  lemma MateIsUnshared(a: seq<Node>, b: seq<Node>, r: nat, n: nat, n': nat, m: nat)
    requires SameLanguage(a, b, r) && Minimal(a) && Mates(a, b, r, n, m) && Mates(a, b, r, n', m)
    ensures n == n'
  {
    if n != n' {
      assert Reaches(a, 0, n) && Reaches(a, 0, n');
      var w :| Accepts(a, n, w) != Accepts(a, n', w);
      MatesAccept(a, b, r, n, m, w);
      MatesAccept(a, b, r, n', m, w);
      assert false;
    }
  }

  lemma {:induction false} MatesCount(a: seq<Node>, b: seq<Node>, r: nat, some: set<nat>, left: set<nat>)
    requires SameLanguage(a, b, r) && Minimal(a)
    requires forall n :: n in some ==> Reaches(a, 0, n) && Alive(a, n)
    requires forall n, m :: n in some && m in States(b, r) && Mates(a, b, r, n, m) ==> m in left
    ensures |some| <= |left|
    decreases |some|
  {
    if some != {} {
      var n :| n in some;
      var m := HasMate(a, b, r, n);
      forall n', m' | n' in some - {n} && m' in States(b, r) && Mates(a, b, r, n', m')
        ensures m' in left - {m}
      {
        if m' == m {
          MateIsUnshared(a, b, r, n, n', m);
        }
      }
      MatesCount(a, b, r, some - {n}, left - {m});
    }
  }

  lemma AliveBelowAlive(a: seq<Node>, n: nat)
    requires Reaches(a, 0, n)
    ensures Alive(a, n) ==> Alive(a, 0)
  {
    if Alive(a, n) {
      var p :| Walk(a, 0, p) == Some(n);
      var w :| Accepts(a, n, w);
      AcceptsAfterWalk(a, 0, p, w);
    }
  }

  /** A minimal trim automaton has as few states as any deterministic automaton for its language. */
  lemma FewestStates(a: seq<Node>, b: seq<Node>, r: nat)
    requires |a| > 0 && r < |b| && Minimal(a) && Trim(a) && SameLanguage(a, b, r)
    ensures |States(a, 0)| <= |States(b, r)|
  {
    if Alive(a, 0) {
      MatesCount(a, b, r, States(a, 0), States(b, r));
    } else {
      forall n | n in States(a, 0) ensures n == 0 {
        assert Walk(a, 0, []) == Some(0);
        if n != 0 {
          assert Reaches(a, 0, 0) && Differ(a, 0, n);
          AliveBelowAlive(a, n);
          assert false;
        }
      }
      assert States(a, 0) <= {0};
      SubsetCount(States(a, 0), {0});
      assert Walk(b, r, []) == Some(r);
      assert r in States(b, r);
      SubsetCount({r}, States(b, r));
    }
  }

  lemma SubsetCount(s: set<nat>, t: set<nat>)
    requires s <= t
    ensures |s| <= |t|
  {
    assert t == s + (t - s);
  }

  // ----- fromArray

  /** What can be said of a token set made from any words in order. */
  lemma TokenSetIsMinimal(words: seq<string>, firstId: nat)
    requires InOrder(words)
    ensures var nodes := TokenSetOf(words, firstId);
            |nodes| > 0 && WellFormed(nodes) && Acyclic(nodes, 0) && Minimal(nodes) && Trim(nodes)
  {
    TokenSetIsCut(words, firstId);
    var b := FreezeDown(Built(words, firstId), 0);
    BuiltIsAcyclic(b);
    BuiltIsMinimal(b);
    BuiltIsTrim(b);
  }

  lemma InOrderOneMore(words: seq<string>, word: string)
    requires InOrder(words) && !Less(word, Latest(words))
    ensures InOrder(words + [word])
  {
    var all := words + [word];
    forall i | 0 < i < |all| ensures !Less(all[i], all[i - 1]) {
      if i < |words| {
        assert all[i] == words[i] && all[i - 1] == words[i - 1];
      }
    }
  }

  lemma NextWord(words: seq<string>, i: nat)
    requires i < |words|
    ensures words[..i + 1] == words[..i] + [words[i]]
    ensures Latest(words[..i]) == if i == 0 then "" else words[i - 1]
    ensures Latest(words[..i + 1]) == words[i]
  {
  }

  lemma AllWords(words: seq<string>)
    ensures words[..|words|] == words
  {
  }

  /** Nothing where the original throws because the words are out of order. */
  method FromArray(words: seq<string>, firstId: nat) returns (set': Option<seq<Node>>)
    ensures set'.Some? <==> InOrder(words)
    ensures set'.Some? ==> |set'.value| > 0 && WellFormed(set'.value)
    ensures set'.Some? ==> Acyclic(set'.value, 0) && Minimal(set'.value) && Trim(set'.value)
    ensures set'.Some? ==> set'.value == TokenSetOf(words, firstId)
    ensures set'.Some? && Separable(AllLetters(words)) ==>
              forall w :: Accepts(set'.value, 0, w) <==> w in words
  {
    var builder := new Builder(firstId);
    for i := 0 to |words|
      invariant builder.Valid() && builder.State() == Built(words[..i], firstId)
      invariant builder.previousWord == Latest(words[..i]) && InOrder(words[..i])
    {
      NextWord(words, i);
      var ok := builder.Insert(words[i]);
      if !ok {
        return None;
      }
      BuiltOneMore(words[..i], words[i], firstId);
      InOrderOneMore(words[..i], words[i]);
    }
    AllWords(words);
    builder.Finish();
    TokenSetIsMinimal(words, firstId);
    TokenSetIsExact(words, firstId);
    return Some(builder.nodes);
  }
}
