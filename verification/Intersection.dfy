/**
 The product of a token set with a query automaton: a deterministic tree that accepts the words
 both accept, the empty word excepted.
 */
module Intersection {
  import opened Common
  import opened Automata
  import opened Wildcards
  import opened TokenSets
  import opened TokenSetWords
  import opened Stacks
  import opened Trees

  /** A node of the query, a node of the output and a node of the token set, met along one path. */
  datatype Trio = Trio(query: nat, output: nat, node: nat)

  /** The two automata that are intersected. */
  datatype Operands = Operands(nodes: seq<Node>, query: seq<Node>)

  predicate Wanted(ops: Operands, w: string) {
    w != [] && Accepts(ops.nodes, 0, w) && WildAccepts(ops.query, 0, w)
  }

  /** Only wanted words are accepted. */
  ghost predicate Sound(ops: Operands, t: Tree)
    requires TreeShape(t)
  {
    forall o :: 0 <= o < |t.nodes| && t.nodes[o].final ==> Wanted(ops, t.paths[o])
  }

  /** Every node of the output stands for a path of the token set. */
  ghost predicate Rooted(ops: Operands, t: Tree)
    requires TreeShape(t)
  {
    forall o :: 0 <= o < |t.nodes| ==> Walk(ops.nodes, 0, t.paths[o]).Some?
  }

  /** A trio stands for one path, read by all three. */
  ghost predicate Met(ops: Operands, t: Tree, f: Trio)
    requires TreeShape(t)
  {
    && f.output < |t.nodes| && f.node < |ops.nodes| && f.query < |ops.query|
    && Walk(ops.nodes, 0, t.paths[f.output]) == Some(f.node)
    && WildReaches(ops.query, 0, t.paths[f.output], f.query)
  }

  /** Labels e of the query and c of the token set that go together. */
  predicate Pairs(ops: Operands, f: Trio, e: char, c: char)
    requires f.node < |ops.nodes| && f.query < |ops.query|
  {
    e in ops.query[f.query].edges && c in ops.nodes[f.node].edges && (c == e || e == WILDCARD)
  }

  /** The step for labels e and c was taken: the output has the edge, the final flag and the next trio. */
  ghost predicate Taken(ops: Operands, t: Tree, seen: set<Trio>, f: Trio, e: char, c: char)
    requires f.node < |ops.nodes| && f.query < |ops.query| && f.output < |t.nodes|
    requires Pairs(ops, f, e, c)
  {
    var q, n := ops.query[f.query].edges[e], ops.nodes[f.node].edges[c];
    c in t.nodes[f.output].edges &&
    var o := t.nodes[f.output].edges[c];
    && Trio(q, o, n) in seen
    && o < |t.nodes| && q < |ops.query| && n < |ops.nodes|
    && (ops.nodes[n].final && ops.query[q].final ==> t.nodes[o].final)
  }

  ghost predicate Handled(ops: Operands, t: Tree, seen: set<Trio>, f: Trio)
    requires f.node < |ops.nodes| && f.query < |ops.query| && f.output < |t.nodes|
  {
    forall e, c :: Pairs(ops, f, e, c) ==> Taken(ops, t, seen, f, e, c)
  }

  /** Every trio seen is handled or waits on the stack. */
  ghost predicate Product(ops: Operands, t: Tree, stack: seq<Trio>, seen: set<Trio>) {
    && TreeShape(t) && Sound(ops, t) && Rooted(ops, t)
    && (forall f :: f in seen ==> Met(ops, t, f))
    && (forall f :: f in seen ==> f in stack || Handled(ops, t, seen, f))
    && (forall f :: f in stack ==> f in seen)
    && Trio(0, 0, 0) in seen
  }

  // ----- one step

  /** What the inner loop does to the output for labels e and c. */
  function Advance(ops: Operands, t: Tree, f: Trio, e: char, c: char): (Tree, Trio)
    requires f.node < |ops.nodes| && f.query < |ops.query| && f.output < |t.nodes| == |t.paths|
    requires Pairs(ops, f, e, c)
    requires ops.query[f.query].edges[e] < |ops.query| && ops.nodes[f.node].edges[c] < |ops.nodes|
    requires c in t.nodes[f.output].edges ==> t.nodes[f.output].edges[c] < |t.nodes|
  {
    var q, n := ops.query[f.query].edges[e], ops.nodes[f.node].edges[c];
    var final := ops.nodes[n].final && ops.query[q].final;
    if c in t.nodes[f.output].edges then
      var o := t.nodes[f.output].edges[c];
      (t.(nodes := t.nodes[o := Node(t.nodes[o].final || final, t.nodes[o].edges)]), Trio(q, o, n))
    else
      var o := |t.nodes|;
      var here := t.nodes[f.output];
      (Tree(t.nodes[f.output := Node(here.final, here.edges[c := o])] + [Node(final, map[])],
            t.paths + [t.paths[f.output] + [c]]),
       Trio(q, o, n))
  }

  lemma TakenLasts(ops: Operands, t: Tree, t': Tree, seen: set<Trio>, seen': set<Trio>, f: Trio, e: char, c: char)
    requires f.node < |ops.nodes| && f.query < |ops.query| && f.output < |t.nodes| && Pairs(ops, f, e, c)
    requires Grows(t, t') && seen <= seen' && Taken(ops, t, seen, f, e, c)
    ensures Taken(ops, t', seen', f, e, c)
  {
  }

  lemma HandledLasts(ops: Operands, t: Tree, t': Tree, seen: set<Trio>, seen': set<Trio>, f: Trio)
    requires f.node < |ops.nodes| && f.query < |ops.query| && f.output < |t.nodes|
    requires Grows(t, t') && seen <= seen' && Handled(ops, t, seen, f)
    ensures Handled(ops, t', seen', f)
  {
    forall e, c | Pairs(ops, f, e, c) ensures Taken(ops, t', seen', f, e, c) {
      TakenLasts(ops, t, t', seen, seen', f, e, c);
    }
  }

  ghost predicate GoodOperands(ops: Operands) {
    WellFormed(ops.nodes) && WellFormed(ops.query) && |ops.nodes| > 0 && |ops.query| > 0
  }

  lemma AdvanceGrows(ops: Operands, t: Tree, f: Trio, e: char, c: char)
    requires GoodOperands(ops) && TreeShape(t) && Met(ops, t, f) && Pairs(ops, f, e, c)
    ensures var (t', g) := Advance(ops, t, f, e, c);
            && Grows(t, t') && TreeShape(t')
            && g.output < |t'.nodes| && t'.paths[g.output] == t.paths[f.output] + [c]
            && c in t'.nodes[f.output].edges && t'.nodes[f.output].edges[c] == g.output
  {
    if c !in t.nodes[f.output].edges {
      NewEdgeGrows(t, f.output, c, Advance(ops, t, f, e, c).0.nodes[|t.nodes|].final);
    }
  }

  lemma NewEdgeGrows(t: Tree, o: nat, c: char, final: bool)
    requires TreeShape(t) && o < |t.nodes| && c !in t.nodes[o].edges
    ensures var here := t.nodes[o];
            var t' := Tree(t.nodes[o := Node(here.final, here.edges[c := |t.nodes|])] + [Node(final, map[])],
                           t.paths + [t.paths[o] + [c]]);
            Grows(t, t') && TreeShape(t')
  {
  }

  lemma AdvanceMeets(ops: Operands, t: Tree, f: Trio, e: char, c: char)
    requires GoodOperands(ops) && TreeShape(t) && Met(ops, t, f) && Pairs(ops, f, e, c)
    requires TreeShape(Advance(ops, t, f, e, c).0)
    requires Advance(ops, t, f, e, c).1.output < |Advance(ops, t, f, e, c).0.nodes|
    requires Advance(ops, t, f, e, c).0.paths[Advance(ops, t, f, e, c).1.output] == t.paths[f.output] + [c]
    ensures Met(ops, Advance(ops, t, f, e, c).0, Advance(ops, t, f, e, c).1)
  {
    WalkOneMore(ops.nodes, 0, t.paths[f.output], c);
    WildReachesOneMore(ops.query, 0, t.paths[f.output], f.query, c, e);
  }

  lemma MetIsWanted(ops: Operands, t: Tree, f: Trio)
    requires TreeShape(t) && Met(ops, t, f) && t.paths[f.output] != []
    requires ops.nodes[f.node].final && ops.query[f.query].final
    ensures Wanted(ops, t.paths[f.output])
  {
    AcceptsIsWalk(ops.nodes, 0, t.paths[f.output]);
    WildAcceptsThere(ops.query, 0, t.paths[f.output], f.query, []);
    assert t.paths[f.output] + [] == t.paths[f.output];
  }

  lemma AdvanceIsSound(ops: Operands, t: Tree, f: Trio, e: char, c: char)
    requires GoodOperands(ops) && TreeShape(t) && Met(ops, t, f) && Pairs(ops, f, e, c) && Sound(ops, t)
    ensures TreeShape(Advance(ops, t, f, e, c).0) && Sound(ops, Advance(ops, t, f, e, c).0)
  {
    var (t', g) := Advance(ops, t, f, e, c);
    AdvanceGrows(ops, t, f, e, c);
    AdvanceMeets(ops, t, f, e, c);
    forall o | 0 <= o < |t'.nodes| && t'.nodes[o].final ensures Wanted(ops, t'.paths[o]) {
      if o < |t.nodes| && t.nodes[o].final {
        assert t'.paths[o] == t.paths[o];
      } else {
        assert o == g.output;
        MetIsWanted(ops, t', g);
      }
    }
  }

  lemma AdvanceIsRooted(ops: Operands, t: Tree, f: Trio, e: char, c: char)
    requires GoodOperands(ops) && TreeShape(t) && Met(ops, t, f) && Pairs(ops, f, e, c) && Rooted(ops, t)
    ensures TreeShape(Advance(ops, t, f, e, c).0) && Rooted(ops, Advance(ops, t, f, e, c).0)
  {
    var (t', g) := Advance(ops, t, f, e, c);
    AdvanceGrows(ops, t, f, e, c);
    AdvanceMeets(ops, t, f, e, c);
    forall o | 0 <= o < |t'.nodes| ensures Walk(ops.nodes, 0, t'.paths[o]).Some? {
      assert o < |t.nodes| ==> t'.paths[o] == t.paths[o];
    }
  }

  lemma MetLasts(ops: Operands, t: Tree, t': Tree, f: Trio)
    requires TreeShape(t) && TreeShape(t') && Grows(t, t') && Met(ops, t, f)
    ensures Met(ops, t', f)
  {
    assert t'.paths[f.output] == t.paths[f.output];
  }

  /** The invariant with one trio off the stack whose steps are being taken. */
  ghost predicate Working(ops: Operands, t: Tree, stack: seq<Trio>, seen: set<Trio>, f: Trio) {
    && GoodOperands(ops) && f in seen && Product(ops, t, stack + [f], seen)
  }

  lemma AdvanceKeepsWorking(ops: Operands, t: Tree, stack: seq<Trio>, seen: set<Trio>, f: Trio, e: char, c: char)
    requires Working(ops, t, stack, seen, f) && Met(ops, t, f) && Pairs(ops, f, e, c)
    ensures var (t', g) := Advance(ops, t, f, e, c);
            && Working(ops, t', stack + [g], seen + {g}, f) && Met(ops, t', f)
            && Grows(t, t') && Taken(ops, t', seen + {g}, f, e, c)
  {
    var (t', g) := Advance(ops, t, f, e, c);
    AdvanceGrows(ops, t, f, e, c);
    AdvanceMeets(ops, t, f, e, c);
    AdvanceIsSound(ops, t, f, e, c);
    AdvanceIsRooted(ops, t, f, e, c);
    forall h | h in seen + {g}
      ensures Met(ops, t', h)
      ensures h in stack + [g] + [f] || Handled(ops, t', seen + {g}, h)
    {
      if h in seen {
        MetLasts(ops, t, t', h);
        if h !in stack + [f] {
          HandledLasts(ops, t, t', seen, seen + {g}, h);
        }
      }
    }
  }

  // ----- when the stack is empty

  /** Each state of the query that a path can lead to was met at the node the path leads to. */
  lemma {:induction false} AllMet(ops: Operands, t: Tree, seen: set<Trio>, f: Trio, w: string)
    requires GoodOperands(ops) && Product(ops, t, [], seen) && f in seen && w != []
    requires Accepts(ops.nodes, f.node, w) && WildAccepts(ops.query, f.query, w)
    ensures Accepts(t.nodes, f.output, w)
    decreases |w|
  {
    var c := w[0];
    assert Met(ops, t, f) && Handled(ops, t, seen, f);
    var e := if c in ops.query[f.query].edges && WildAccepts(ops.query, ops.query[f.query].edges[c], w[1..]) then c
             else WILDCARD;
    assert Pairs(ops, f, e, c) && Taken(ops, t, seen, f, e, c);
    var g := Trio(ops.query[f.query].edges[e], t.nodes[f.output].edges[c], ops.nodes[f.node].edges[c]);
    if |w| > 1 {
      AllMet(ops, t, seen, g, w[1..]);
    }
  }

  lemma ProductIsExact(ops: Operands, t: Tree, seen: set<Trio>, w: string)
    requires GoodOperands(ops) && Product(ops, t, [], seen)
    ensures Accepts(t.nodes, 0, w) <==> Wanted(ops, w)
  {
    if Wanted(ops, w) {
      AllMet(ops, t, seen, Trio(0, 0, 0), w);
    }
    if Accepts(t.nodes, 0, w) {
      AcceptsIsWalk(t.nodes, 0, w);
      WalkSpellsPath(t, 0, w);
      assert t.paths[0] + w == w;
    }
  }

  lemma ProductIsAcyclic(ops: Operands, t: Tree)
    requires TreeShape(t) && Rooted(ops, t) && Acyclic(ops.nodes, 0)
    ensures WellFormed(t.nodes) && Acyclic(t.nodes, 0)
  {
    var d: nat :| DepthWithin(ops.nodes, 0, d);
    forall p | Walk(t.nodes, 0, p).Some? ensures |p| <= d {
      WalkSpellsPath(t, 0, p);
      assert t.paths[0] + p == p;
    }
    assert DepthWithin(t.nodes, 0, d);
  }

  // ----- the loops

  /** How many more edges a trio can take, when no path of the token set is longer than d. */
  function Left(t: Tree, d: nat, f: Trio): nat {
    if f.output < |t.paths| && |t.paths[f.output]| <= d then d - |t.paths[f.output]| else 0
  }

  function LeftOf(t: Tree, d: nat, stack: seq<Trio>): (left: seq<nat>)
    ensures |left| == |stack| && forall i :: 0 <= i < |stack| ==> left[i] == Left(t, d, stack[i])
  {
    seq(|stack|, i requires 0 <= i < |stack| => Left(t, d, stack[i]))
  }

  /** What one visit does to the stack: it pushes trios one edge further down. */
  ghost predicate Pushed(t: Tree, t': Tree, d: nat, f: Trio, stack: seq<Trio>, stack': seq<Trio>, most: nat) {
    && |stack| <= |stack'| <= |stack| + most && stack == stack'[..|stack|]
    && (forall i :: 0 <= i < |stack| ==> Left(t', d, stack'[i]) == Left(t, d, stack[i]))
    && (forall i :: |stack| <= i < |stack'| ==> Left(t', d, stack'[i]) + 1 == Left(t, d, f))
  }

  lemma LeftLasts(ops: Operands, t: Tree, t': Tree, d: nat, f: Trio)
    requires TreeShape(t) && TreeShape(t') && Grows(t, t') && Met(ops, t, f)
    ensures Left(t', d, f) == Left(t, d, f)
  {
    assert t'.paths[f.output] == t.paths[f.output];
  }

  lemma AdvancePushes(ops: Operands, t: Tree, stack: seq<Trio>, seen: set<Trio>, f: Trio, e: char, c: char, d: nat)
    requires Working(ops, t, stack, seen, f) && Met(ops, t, f) && Pairs(ops, f, e, c) && DepthWithin(ops.nodes, 0, d)
    ensures var (t', g) := Advance(ops, t, f, e, c);
            && Left(t', d, g) + 1 == Left(t, d, f)
            && Left(t', d, f) == Left(t, d, f)
            && forall i :: 0 <= i < |stack| ==> Left(t', d, stack[i]) == Left(t, d, stack[i])
  {
    var (t', g) := Advance(ops, t, f, e, c);
    AdvanceGrows(ops, t, f, e, c);
    AdvanceMeets(ops, t, f, e, c);
    LeftLasts(ops, t, t', d, f);
    forall i | 0 <= i < |stack| ensures Left(t', d, stack[i]) == Left(t, d, stack[i]) {
      assert stack[i] in stack + [f];
      LeftLasts(ops, t, t', d, stack[i]);
    }
  }

  lemma PushedOneMore(t0: Tree, t: Tree, t': Tree, d: nat, f: Trio, stack0: seq<Trio>, stack: seq<Trio>, g: Trio, most: nat)
    requires Pushed(t0, t, d, f, stack0, stack, most)
    requires Left(t', d, g) + 1 == Left(t0, d, f)
    requires forall i :: 0 <= i < |stack| ==> Left(t', d, stack[i]) == Left(t, d, stack[i])
    ensures Pushed(t0, t', d, f, stack0, stack + [g], most + 1)
  {
  }

  /** The steps of f for label e and the first n labels of the token set were taken. */
  ghost predicate TakenUpTo(ops: Operands, t: Tree, seen: set<Trio>, f: Trio, e: char, nEdges: seq<char>, n: nat)
    requires f.node < |ops.nodes| && f.query < |ops.query| && f.output < |t.nodes| && n <= |nEdges|
  {
    forall j :: 0 <= j < n && Pairs(ops, f, e, nEdges[j]) ==> Taken(ops, t, seen, f, e, nEdges[j])
  }

  lemma TakenUpToLasts(ops: Operands, t: Tree, t': Tree, seen: set<Trio>, seen': set<Trio>, f: Trio, e: char,
                       nEdges: seq<char>, n: nat)
    requires f.node < |ops.nodes| && f.query < |ops.query| && f.output < |t.nodes| && n <= |nEdges|
    requires Grows(t, t') && seen <= seen' && TakenUpTo(ops, t, seen, f, e, nEdges, n)
    ensures TakenUpTo(ops, t', seen', f, e, nEdges, n)
  {
    forall j | 0 <= j < n && Pairs(ops, f, e, nEdges[j]) ensures Taken(ops, t', seen', f, e, nEdges[j]) {
      TakenLasts(ops, t, t', seen, seen', f, e, nEdges[j]);
    }
  }

  lemma TakenUpToOneMore(ops: Operands, t: Tree, seen: set<Trio>, f: Trio, e: char, nEdges: seq<char>, n: nat)
    requires f.node < |ops.nodes| && f.query < |ops.query| && f.output < |t.nodes| && n < |nEdges|
    requires TakenUpTo(ops, t, seen, f, e, nEdges, n)
    requires Pairs(ops, f, e, nEdges[n]) ==> Taken(ops, t, seen, f, e, nEdges[n])
    ensures TakenUpTo(ops, t, seen, f, e, nEdges, n + 1)
  {
  }

  /** Where the visit of f stands, compared with where it began. */
  ghost predicate Visiting(ops: Operands, d: nat, f: Trio, t0: Tree, stack0: seq<Trio>, seen0: set<Trio>,
                           t: Tree, stack: seq<Trio>, seen: set<Trio>, most: nat) {
    && Working(ops, t, stack, seen, f) && Met(ops, t, f) && DepthWithin(ops.nodes, 0, d)
    && Grows(t0, t) && seen0 <= seen && Left(t, d, f) == Left(t0, d, f)
    && Pushed(t0, t, d, f, stack0, stack, most)
  }

  lemma VisitOne(ops: Operands, d: nat, f: Trio, t0: Tree, stack0: seq<Trio>, seen0: set<Trio>,
                 t: Tree, stack: seq<Trio>, seen: set<Trio>, most: nat, e: char, c: char)
    requires Visiting(ops, d, f, t0, stack0, seen0, t, stack, seen, most) && Pairs(ops, f, e, c)
    ensures var (t', g) := Advance(ops, t, f, e, c);
            && Visiting(ops, d, f, t0, stack0, seen0, t', stack + [g], seen + {g}, most + 1)
            && Grows(t, t') && Taken(ops, t', seen + {g}, f, e, c)
  {
    var (t', g) := Advance(ops, t, f, e, c);
    AdvanceKeepsWorking(ops, t, stack, seen, f, e, c);
    AdvancePushes(ops, t, stack, seen, f, e, c, d);
    GrowsOn(t0, t, t');
    PushedOneMore(t0, t, t', d, f, stack0, stack, g, most);
  }

  lemma VisitedOneMore(ops: Operands, f: Trio, t1: Tree, t: Tree, next: Tree, seen: set<Trio>, seen': set<Trio>, e: char,
                       nEdges: seq<char>, n: nat)
    requires f.node < |ops.nodes| && f.query < |ops.query| && f.output < |t.nodes| && n < |nEdges|
    requires Grows(t1, t) && Grows(t, next) && seen <= seen' && TakenUpTo(ops, t, seen, f, e, nEdges, n)
    requires Pairs(ops, f, e, nEdges[n]) && Taken(ops, next, seen', f, e, nEdges[n])
    ensures Grows(t1, next) && TakenUpTo(ops, next, seen', f, e, nEdges, n + 1)
  {
    TakenUpToLasts(ops, t, next, seen, seen', f, e, nEdges, n);
    GrowsOn(t1, t, next);
    TakenUpToOneMore(ops, next, seen', f, e, nEdges, n);
  }

  lemma PushedRoom(t: Tree, t': Tree, d: nat, f: Trio, stack: seq<Trio>, stack': seq<Trio>, most: nat, more: nat)
    requires Pushed(t, t', d, f, stack, stack', most) && most <= more
    ensures Pushed(t, t', d, f, stack, stack', more)
  {
  }

  /** The inner loop: one label of the query against every label of the token set. */
  method VisitLabel(ops: Operands, ghost d: nat, f: Trio, ghost t0: Tree, ghost stack0: seq<Trio>, ghost seen0: set<Trio>,
                    t1: Tree, stack1: seq<Trio>, ghost seen1: set<Trio>, ghost most: nat, e: char, nEdges: seq<char>)
    returns (t: Tree, stack: seq<Trio>, ghost seen: set<Trio>)
    requires Visiting(ops, d, f, t0, stack0, seen0, t1, stack1, seen1, most)
    requires e in ops.query[f.query].edges && forall c :: c in nEdges ==> c in ops.nodes[f.node].edges
    ensures Visiting(ops, d, f, t0, stack0, seen0, t, stack, seen, most + |nEdges|)
    ensures Grows(t1, t) && seen1 <= seen && TakenUpTo(ops, t, seen, f, e, nEdges, |nEdges|)
  {
    t, stack, seen := t1, stack1, seen1;
    for n := 0 to |nEdges|
      invariant LabelVisited(ops, d, f, t0, stack0, seen0, t, stack, seen, most + n, t1, seen1, e, nEdges, n)
    {
      var c := nEdges[n];
      if c == e || e == WILDCARD {
        VisitPair(ops, d, f, t0, stack0, seen0, t, stack, seen, most + n, t1, seen1, e, nEdges, n);
        var (next, g) := Advance(ops, t, f, e, c);
        t, stack, seen := next, stack + [g], seen + {g};
      } else {
        SkipPair(ops, d, f, t0, stack0, seen0, t, stack, seen, most + n, t1, seen1, e, nEdges, n);
      }
    }
  }

  /** The invariant of the inner loop. */
  ghost predicate LabelVisited(ops: Operands, d: nat, f: Trio, t0: Tree, stack0: seq<Trio>, seen0: set<Trio>,
                               t: Tree, stack: seq<Trio>, seen: set<Trio>, most: nat,
                               t1: Tree, seen1: set<Trio>, e: char, nEdges: seq<char>, n: nat) {
    && Visiting(ops, d, f, t0, stack0, seen0, t, stack, seen, most)
    && Grows(t1, t) && seen1 <= seen && n <= |nEdges| && TakenUpTo(ops, t, seen, f, e, nEdges, n)
  }

  lemma VisitPair(ops: Operands, d: nat, f: Trio, t0: Tree, stack0: seq<Trio>, seen0: set<Trio>,
                  t: Tree, stack: seq<Trio>, seen: set<Trio>, most: nat,
                  t1: Tree, seen1: set<Trio>, e: char, nEdges: seq<char>, n: nat)
    requires LabelVisited(ops, d, f, t0, stack0, seen0, t, stack, seen, most, t1, seen1, e, nEdges, n)
    requires n < |nEdges| && Pairs(ops, f, e, nEdges[n])
    ensures var (next, g) := Advance(ops, t, f, e, nEdges[n]);
            LabelVisited(ops, d, f, t0, stack0, seen0, next, stack + [g], seen + {g}, most + 1, t1, seen1, e, nEdges, n + 1)
  {
    var (next, g) := Advance(ops, t, f, e, nEdges[n]);
    VisitOne(ops, d, f, t0, stack0, seen0, t, stack, seen, most, e, nEdges[n]);
    VisitedOneMore(ops, f, t1, t, next, seen, seen + {g}, e, nEdges, n);
  }

  lemma SkipPair(ops: Operands, d: nat, f: Trio, t0: Tree, stack0: seq<Trio>, seen0: set<Trio>,
                 t: Tree, stack: seq<Trio>, seen: set<Trio>, most: nat,
                 t1: Tree, seen1: set<Trio>, e: char, nEdges: seq<char>, n: nat)
    requires LabelVisited(ops, d, f, t0, stack0, seen0, t, stack, seen, most, t1, seen1, e, nEdges, n)
    requires n < |nEdges| && !Pairs(ops, f, e, nEdges[n])
    ensures LabelVisited(ops, d, f, t0, stack0, seen0, t, stack, seen, most + 1, t1, seen1, e, nEdges, n + 1)
  {
    PushedRoom(t0, t, d, f, stack0, stack, most, most + 1);
    TakenUpToOneMore(ops, t, seen, f, e, nEdges, n);
  }

  ghost predicate LabelsTaken(ops: Operands, t: Tree, seen: set<Trio>, f: Trio, qEdges: seq<char>, q: nat, nEdges: seq<char>)
    requires f.node < |ops.nodes| && f.query < |ops.query| && f.output < |t.nodes| && q <= |qEdges|
  {
    forall i :: 0 <= i < q ==> TakenUpTo(ops, t, seen, f, qEdges[i], nEdges, |nEdges|)
  }

  lemma LabelsTakenOneMore(ops: Operands, t: Tree, t': Tree, seen: set<Trio>, seen': set<Trio>, f: Trio,
                           qEdges: seq<char>, q: nat, nEdges: seq<char>)
    requires f.node < |ops.nodes| && f.query < |ops.query| && f.output < |t.nodes| && q < |qEdges|
    requires Grows(t, t') && seen <= seen' && LabelsTaken(ops, t, seen, f, qEdges, q, nEdges)
    requires TakenUpTo(ops, t', seen', f, qEdges[q], nEdges, |nEdges|)
    ensures LabelsTaken(ops, t', seen', f, qEdges, q + 1, nEdges)
  {
    forall i | 0 <= i < q + 1 ensures TakenUpTo(ops, t', seen', f, qEdges[i], nEdges, |nEdges|) {
      if i < q {
        TakenUpToLasts(ops, t, t', seen, seen', f, qEdges[i], nEdges, |nEdges|);
      }
    }
  }

  lemma LabelsTakenIsHandled(ops: Operands, t: Tree, seen: set<Trio>, f: Trio, qEdges: seq<char>, nEdges: seq<char>)
    requires f.node < |ops.nodes| && f.query < |ops.query| && f.output < |t.nodes|
    requires Lists(qEdges, ops.query[f.query].edges) && Lists(nEdges, ops.nodes[f.node].edges)
    requires LabelsTaken(ops, t, seen, f, qEdges, |qEdges|, nEdges)
    ensures Handled(ops, t, seen, f)
  {
    forall e, c | Pairs(ops, f, e, c) ensures Taken(ops, t, seen, f, e, c) {
      var i :| 0 <= i < |qEdges| && qEdges[i] == e;
      assert TakenUpTo(ops, t, seen, f, qEdges[i], nEdges, |nEdges|);
      var j :| 0 <= j < |nEdges| && nEdges[j] == c;
    }
  }

  /** The outer loop over the labels of the query. */
  method Visit(ops: Operands, ghost d: nat, f: Trio, t0: Tree, stack0: seq<Trio>, ghost seen0: set<Trio>,
               qEdges: seq<char>, nEdges: seq<char>)
    returns (t: Tree, stack: seq<Trio>, ghost seen: set<Trio>)
    requires Visiting(ops, d, f, t0, stack0, seen0, t0, stack0, seen0, 0)
    requires Lists(qEdges, ops.query[f.query].edges) && Lists(nEdges, ops.nodes[f.node].edges)
    ensures Visiting(ops, d, f, t0, stack0, seen0, t, stack, seen, |qEdges| * |nEdges|)
    ensures LabelsTaken(ops, t, seen, f, qEdges, |qEdges|, nEdges)
  {
    t, stack, seen := t0, stack0, seen0;
    ghost var most: nat := 0;
    for q := 0 to |qEdges|
      invariant Visiting(ops, d, f, t0, stack0, seen0, t, stack, seen, most)
      invariant most == q * |nEdges|
      invariant LabelsTaken(ops, t, seen, f, qEdges, q, nEdges)
    {
      ghost var before, seenBefore := t, seen;
      t, stack, seen := VisitLabel(ops, d, f, t0, stack0, seen0, t, stack, seen, most, qEdges[q], nEdges);
      LabelsTakenOneMore(ops, before, t, seenBefore, seen, f, qEdges, q, nEdges);
      most := most + |nEdges|;
    }
  }

  ghost function MaxEdges(nodes: seq<Node>): nat {
    if nodes == [] then 0
    else
      var rest := MaxEdges(nodes[..|nodes| - 1]);
      if |nodes[|nodes| - 1].edges| > rest then |nodes[|nodes| - 1].edges| else rest
  }

  lemma {:induction false} MaxEdgesBounds(nodes: seq<Node>, n: nat)
    requires n < |nodes|
    ensures |nodes[n].edges| <= MaxEdges(nodes)
    decreases |nodes|
  {
    if n < |nodes| - 1 {
      MaxEdgesBounds(nodes[..|nodes| - 1], n);
    }
  }

  lemma ProductBound(a: nat, b: nat, c: nat, d: nat)
    requires a <= c && b <= d
    ensures a * b <= c * d
  {
    assert a * b <= c * b by { assert (c - a) * b >= 0; }
    assert c * b <= c * d by { assert c * (d - b) >= 0; }
  }

  /** More pairs of labels than any two nodes have. */
  ghost function Fanout(ops: Operands): nat {
    MaxEdges(ops.query) * MaxEdges(ops.nodes) + 1
  }

  lemma VisitLowersLoad(ops: Operands, d: nat, f: Trio, t: Tree, rest: seq<Trio>, t': Tree, stack': seq<Trio>, most: nat)
    requires Pushed(t, t', d, f, rest, stack', most) && most < Fanout(ops)
    ensures Load(LeftOf(t', d, stack'), Fanout(ops)) < Load(LeftOf(t, d, rest + [f]), Fanout(ops))
  {
    var left, before, base := LeftOf(t', d, stack'), LeftOf(t, d, rest), Fanout(ops);
    assert left == before + left[|rest|..];
    assert LeftOf(t, d, rest + [f]) == before + [Left(t, d, f)];
    LoadFalls(before, Left(t, d, f), left[|rest|..], base);
  }

  lemma VisitBegins(ops: Operands, d: nat, t: Tree, rest: seq<Trio>, seen: set<Trio>, f: Trio)
    requires GoodOperands(ops) && DepthWithin(ops.nodes, 0, d) && Product(ops, t, rest + [f], seen)
    ensures Visiting(ops, d, f, t, rest, seen, t, rest, seen, 0)
  {
    assert f in rest + [f];
  }

  lemma VisitEnds(ops: Operands, t: Tree, stack: seq<Trio>, seen: set<Trio>, f: Trio)
    requires Working(ops, t, stack, seen, f) && Met(ops, t, f) && Handled(ops, t, seen, f)
    ensures Product(ops, t, stack, seen)
  {
    forall h | h in seen ensures h in stack || Handled(ops, t, seen, h) {
      assert h in stack + [f] ==> h in stack || h == f;
    }
    forall h | h in stack ensures h in seen {
      assert h in stack + [f];
    }
  }

  lemma ProductBegins(ops: Operands)
    requires GoodOperands(ops)
    ensures Product(ops, Tree([Node(false, map[])], [[]]), [Trio(0, 0, 0)], {Trio(0, 0, 0)})
  {
    var t := Tree([Node(false, map[])], [[]]);
    assert t.paths[0] == [];
    assert Met(ops, t, Trio(0, 0, 0));
  }

  /** Both operands start at node 0. On a cyclic token set the loop of the original does not end. */
  method Intersect(nodes: seq<Node>, query: seq<Node>) returns (output: seq<Node>)
    requires GoodOperands(Operands(nodes, query)) && Acyclic(nodes, 0)
    ensures |output| > 0 && WellFormed(output) && Acyclic(output, 0)
    ensures forall w :: Accepts(output, 0, w) <==> w != [] && Accepts(nodes, 0, w) && WildAccepts(query, 0, w)
  {
    var ops := Operands(nodes, query);
    ghost var d: nat :| DepthWithin(nodes, 0, d);
    var t, stack := Tree([Node(false, map[])], [[]]), [Trio(0, 0, 0)];
    ghost var seen := {Trio(0, 0, 0)};
    ProductBegins(ops);
    while |stack| > 0
      invariant Product(ops, t, stack, seen)
      decreases Load(LeftOf(t, d, stack), Fanout(ops))
    {
      var f, rest := stack[|stack| - 1], stack[..|stack| - 1];
      PopSplits(stack);
      VisitBegins(ops, d, t, rest, seen, f);
      var qEdges := ObjectKeys(query[f.query].edges);
      var nEdges := ObjectKeys(nodes[f.node].edges);
      MaxEdgesBounds(query, f.query);
      MaxEdgesBounds(nodes, f.node);
      ProductBound(|qEdges|, |nEdges|, MaxEdges(query), MaxEdges(nodes));
      ghost var before := t;
      t, stack, seen := Visit(ops, d, f, t, rest, seen, qEdges, nEdges);
      LabelsTakenIsHandled(ops, t, seen, f, qEdges, nEdges);
      VisitEnds(ops, t, stack, seen, f);
      VisitLowersLoad(ops, d, f, before, rest, t, stack, |qEdges| * |nEdges|);
    }
    ProductIsAcyclic(ops, t);
    forall w ensures Accepts(t.nodes, 0, w) <==> Wanted(ops, w) {
      ProductIsExact(ops, t, seen, w);
    }
    output := t.nodes;
  }
}
