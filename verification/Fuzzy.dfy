/**
 Automata for words at a small edit distance. They are grown as trees from a stack of frames;
 the label '*' stands for any one character.
 */
module Fuzzy {
  import opened Common
  import opened Automata
  import opened Wildcards
  import opened Trees
  import opened Stacks

  /** At `node`, with this many edits and this rest of the string to go. */
  datatype Frame = Frame(node: nat, editsRemaining: nat, str: string)

  /** What a frame adds to its node: a final flag, or an edge behind which the rest is to be read. */
  datatype Step = Stop | Go(label': char, edits: nat, rest: string)

  function NoEdit(t: string, e: nat): seq<Step> {
    if t == [] then [] else [Go(t[0], e, t[1..])]
  }

  function Deletion(t: string, e: nat): seq<Step> {
    if e > 0 && |t| > 1 then [Go(t[1], e - 1, t[2..])] else []
  }

  function LastDeletion(t: string, e: nat): seq<Step> {
    if e > 0 && |t| == 1 then [Stop] else []
  }

  function Substitution(t: string, e: nat): seq<Step> {
    if e > 0 && t != [] then [Go(WILDCARD, e - 1, t[1..])] else []
  }

  function Insertion(t: string, e: nat): seq<Step> {
    if e > 0 then [Go(WILDCARD, e - 1, t)] else []
  }

  function Transposition(t: string, e: nat): seq<Step> {
    if e > 0 && |t| > 1 then [Go(t[1], e - 1, [t[0]] + t[2..])] else []
  }

  function Steps(t: string, e: nat): seq<Step> {
    NoEdit(t, e) + (Deletion(t, e) + (LastDeletion(t, e) + (Substitution(t, e) + (Insertion(t, e) + Transposition(t, e)))))
  }

  /** The label strings that step leads to: behind the last letter nothing more is read. */
  predicate StepEmits(step: Step, p: string)
    decreases |p|, 0
  {
    match step
    case Stop => p == []
    case Go(c, e, rest) => p != [] && p[0] == c && if rest == [] then p[1..] == [] else Emits(rest, e, p[1..])
  }

  /** The label strings that the frames for t and e lead to. */
  predicate Emits(t: string, e: nat, p: string)
    decreases |p|, 1
  {
    exists step :: step in Steps(t, e) && StepEmits(step, p)
  }

  // ----- the loop

  /** Where the edge labelled c leads, made if it is not there. */
  function Descend(t: Tree, o: nat, c: char): (Tree, nat)
    requires o < |t.nodes| == |t.paths|
  {
    if c in t.nodes[o].edges then (t, t.nodes[o].edges[c])
    else
      var next := |t.nodes|;
      (Tree(t.nodes[o := Node(t.nodes[o].final, t.nodes[o].edges[c := next])] + [Node(false, map[])],
            t.paths + [t.paths[o] + [c]]), next)
  }

  function MarkFinal(t: Tree, o: nat): Tree
    requires o < |t.nodes|
  {
    t.(nodes := t.nodes[o := Node(true, t.nodes[o].edges)])
  }

  lemma DescendGrows(t: Tree, o: nat, c: char)
    requires TreeShape(t) && o < |t.nodes|
    ensures var (t', n) := Descend(t, o, c);
            TreeShape(t') && Grows(t, t') && n < |t'.nodes| && t'.paths[n] == t.paths[o] + [c]
    ensures var (t', n) := Descend(t, o, c);
            forall m :: 0 <= m < |t'.nodes| && t'.nodes[m].final ==> m < |t.nodes| && t.nodes[m].final
  {
  }

  lemma MarkFinalGrows(t: Tree, o: nat)
    requires TreeShape(t) && o < |t.nodes|
    ensures TreeShape(MarkFinal(t, o)) && Grows(t, MarkFinal(t, o)) && MarkFinal(t, o).nodes[o].final
  {
  }

  /** One of the blocks of the loop. */
  function Perform(t: Tree, stack: seq<Frame>, f: Frame, step: Step): (Tree, seq<Frame>)
    requires TreeShape(t) && f.node < |t.nodes|
  {
    match step
    case Stop => (MarkFinal(t, f.node), stack)
    case Go(c, e, rest) =>
      DescendGrows(t, f.node, c);
      var (t', n) := Descend(t, f.node, c);
      if rest == [] then (MarkFinal(t', n), stack) else (t', stack + [Frame(n, e, rest)])
  }

  predicate StartsWith(p: string, prefix: string) {
    |prefix| <= |p| && p[..|prefix|] == prefix
  }

  /** p passes through the frame and is among what the frame leads to. */
  predicate Awaits(t: Tree, f: Frame, p: string) {
    f.node < |t.paths| && StartsWith(p, t.paths[f.node]) && Emits(f.str, f.editsRemaining, p[|t.paths[f.node]|..])
  }

  ghost predicate OnStack(t: Tree, stack: seq<Frame>, p: string) {
    exists f :: f in stack && Awaits(t, f, p)
  }

  /** p is among what the steps that the frame has yet to take lead to. */
  predicate AwaitsStep(t: Tree, f: Frame, todo: seq<Step>, p: string) {
    && f.node < |t.paths| && StartsWith(p, t.paths[f.node])
    && exists step :: step in todo && StepEmits(step, p[|t.paths[f.node]|..])
  }

  /** The frames and final nodes lead to nothing but what the string and its edits lead to. */
  ghost predicate FrameFits(s: string, k: nat, t: Tree, f: Frame) {
    f.node < |t.nodes| == |t.paths| &&
    forall q :: Emits(f.str, f.editsRemaining, q) ==> Emits(s, k, t.paths[f.node] + q)
  }

  ghost predicate FinalsFit(s: string, k: nat, t: Tree)
    requires TreeShape(t)
  {
    forall o :: 0 <= o < |t.nodes| && t.nodes[o].final ==> Emits(s, k, t.paths[o])
  }

  ghost predicate Grown(s: string, k: nat, t: Tree, stack: seq<Frame>) {
    TreeShape(t) && FinalsFit(s, k, t) && forall f :: f in stack ==> FrameFits(s, k, t, f)
  }

  ghost predicate Complete(s: string, k: nat, t: Tree, stack: seq<Frame>, f: Frame, todo: seq<Step>) {
    forall p :: Emits(s, k, p) ==> Accepts(t.nodes, 0, p) || OnStack(t, stack, p) || AwaitsStep(t, f, todo, p)
  }

  // ----- one block keeps the invariant

  lemma FrameFitsLasts(s: string, k: nat, t: Tree, t': Tree, f: Frame)
    requires Grows(t, t') && FrameFits(s, k, t, f)
    ensures FrameFits(s, k, t', f)
  {
    assert t'.paths[f.node] == t.paths[f.node];
  }

  lemma {:induction false} AcceptsLasts(t: Tree, t': Tree, o: nat, p: string)
    requires Grows(t, t') && Accepts(t.nodes, o, p)
    ensures Accepts(t'.nodes, o, p)
    decreases |p|
  {
    if p != [] {
      AcceptsLasts(t, t', t.nodes[o].edges[p[0]], p[1..]);
    }
  }

  lemma {:induction false} LeadsBack(t: Tree, o: nat, p: string)
    requires TreeShape(t) && Reached(t) && o < |t.nodes| && t.nodes[o].final && p == t.paths[o]
    ensures Accepts(t.nodes, 0, p)
  {
    AcceptsIsWalk(t.nodes, 0, p);
  }

  /** Each node is where its path leads. */
  ghost predicate Reached(t: Tree)
    requires |t.nodes| == |t.paths|
  {
    forall o: nat :: o < |t.nodes| ==> Walk(t.nodes, 0, t.paths[o]) == Some(o)
  }

  lemma {:induction false} WalkLasts(t: Tree, t': Tree, o: nat, p: string)
    requires Grows(t, t') && Walk(t.nodes, o, p).Some?
    ensures Walk(t'.nodes, o, p) == Walk(t.nodes, o, p)
    decreases |p|
  {
    if p != [] {
      WalkLasts(t, t', t.nodes[o].edges[p[0]], p[1..]);
    }
  }

  lemma DescendReaches(t: Tree, o: nat, c: char)
    requires TreeShape(t) && Reached(t) && o < |t.nodes|
    ensures |Descend(t, o, c).0.nodes| == |Descend(t, o, c).0.paths| && Reached(Descend(t, o, c).0)
  {
    var (t', n) := Descend(t, o, c);
    DescendGrows(t, o, c);
    forall m: nat | m < |t'.nodes| ensures Walk(t'.nodes, 0, t'.paths[m]) == Some(m) {
      if m < |t.nodes| {
        WalkLasts(t, t', 0, t.paths[m]);
      } else {
        WalkLasts(t, t', 0, t.paths[o]);
        WalkOneMore(t'.nodes, 0, t.paths[o], c);
      }
    }
  }

  lemma MarkFinalReaches(t: Tree, o: nat)
    requires TreeShape(t) && Reached(t) && o < |t.nodes|
    ensures Reached(MarkFinal(t, o))
  {
    var t' := MarkFinal(t, o);
    MarkFinalGrows(t, o);
    forall m: nat | m < |t'.nodes| ensures Walk(t'.nodes, 0, t'.paths[m]) == Some(m) {
      WalkLasts(t, t', 0, t.paths[m]);
    }
  }

  /** The frame allows the step: it leads to nothing new. */
  ghost predicate StepFits(s: string, k: nat, t: Tree, f: Frame, step: Step) {
    f.node < |t.nodes| == |t.paths| &&
    forall q :: StepEmits(step, q) ==> Emits(s, k, t.paths[f.node] + q)
  }

  lemma StepOfFrame(s: string, k: nat, t: Tree, f: Frame, step: Step)
    requires FrameFits(s, k, t, f) && step in Steps(f.str, f.editsRemaining)
    ensures StepFits(s, k, t, f, step)
  {
    forall q | StepEmits(step, q) ensures Emits(s, k, t.paths[f.node] + q) {
      assert Emits(f.str, f.editsRemaining, q);
    }
  }

  lemma PerformGrows(t: Tree, stack: seq<Frame>, f: Frame, step: Step)
    requires TreeShape(t) && Reached(t) && f.node < |t.nodes|
    ensures var (t', stack') := Perform(t, stack, f, step);
            Grows(t, t') && TreeShape(t') && Reached(t')
  {
    match step
    case Stop =>
      MarkFinalGrows(t, f.node);
      MarkFinalReaches(t, f.node);
    case Go(c, e, rest) =>
      DescendGrows(t, f.node, c);
      DescendReaches(t, f.node, c);
      var (t', n) := Descend(t, f.node, c);
      if rest == [] {
        MarkFinalGrows(t', n);
        MarkFinalReaches(t', n);
        GrowsOn(t, t', MarkFinal(t', n));
      }
  }

  lemma MarkFinalFits(s: string, k: nat, t: Tree, o: nat)
    requires TreeShape(t) && FinalsFit(s, k, t) && o < |t.nodes| && Emits(s, k, t.paths[o])
    ensures TreeShape(MarkFinal(t, o)) && FinalsFit(s, k, MarkFinal(t, o))
  {
    MarkFinalGrows(t, o);
  }

  lemma DescendFits(s: string, k: nat, t: Tree, o: nat, c: char)
    requires TreeShape(t) && FinalsFit(s, k, t) && o < |t.nodes|
    ensures TreeShape(Descend(t, o, c).0) && FinalsFit(s, k, Descend(t, o, c).0)
  {
    DescendGrows(t, o, c);
    var (t', n) := Descend(t, o, c);
    forall m | 0 <= m < |t'.nodes| && t'.nodes[m].final ensures Emits(s, k, t'.paths[m]) {
      assert t'.paths[m] == t.paths[m];
    }
  }

  lemma PerformFits(s: string, k: nat, t: Tree, stack: seq<Frame>, f: Frame, step: Step)
    requires TreeShape(t) && Reached(t) && FinalsFit(s, k, t) && StepFits(s, k, t, f, step)
    ensures TreeShape(Perform(t, stack, f, step).0) && FinalsFit(s, k, Perform(t, stack, f, step).0)
  {
    var path := t.paths[f.node];
    match step
    case Stop =>
      assert StepEmits(step, []);
      assert path + [] == path;
      MarkFinalFits(s, k, t, f.node);
    case Go(c, e, rest) =>
      DescendGrows(t, f.node, c);
      DescendFits(s, k, t, f.node, c);
      if rest == [] {
        assert StepEmits(step, [c]);
        var (t', n) := Descend(t, f.node, c);
        MarkFinalFits(s, k, t', n);
      }
  }

  lemma PushedFits(s: string, k: nat, t: Tree, f: Frame, step: Step)
    requires TreeShape(t) && StepFits(s, k, t, f, step) && step.Go? && step.rest != []
    ensures var (t', n) := Descend(t, f.node, step.label');
            FrameFits(s, k, t', Frame(n, step.edits, step.rest))
  {
    DescendGrows(t, f.node, step.label');
    var (t', n) := Descend(t, f.node, step.label');
    forall q | Emits(step.rest, step.edits, q) ensures Emits(s, k, t'.paths[n] + q) {
      assert ([step.label'] + q)[1..] == q;
      assert StepEmits(step, [step.label'] + q);
      assert t'.paths[n] + q == t.paths[f.node] + ([step.label'] + q);
    }
  }

  lemma PerformKeepsGrown(s: string, k: nat, t: Tree, stack: seq<Frame>, f: Frame, step: Step)
    requires Grown(s, k, t, stack) && Reached(t) && StepFits(s, k, t, f, step)
    ensures var (t', stack') := Perform(t, stack, f, step);
            Grown(s, k, t', stack')
  {
    var (t', stack') := Perform(t, stack, f, step);
    PerformGrows(t, stack, f, step);
    PerformFits(s, k, t, stack, f, step);
    forall g | g in stack' ensures FrameFits(s, k, t', g) {
      if g in stack {
        FrameFitsLasts(s, k, t, t', g);
      } else {
        PushedFits(s, k, t, f, step);
      }
    }
  }

  lemma SplitAt(p: string, n: nat)
    requires n <= |p|
    ensures p == p[..n] + p[n..]
  {
  }

  /** What the step leads to is accepted or awaited once the step is taken. */
  lemma PerformCovers(t: Tree, stack: seq<Frame>, f: Frame, step: Step, p: string)
    requires TreeShape(t) && Reached(t) && f.node < |t.nodes|
    requires StartsWith(p, t.paths[f.node]) && StepEmits(step, p[|t.paths[f.node]|..])
    ensures var (t', stack') := Perform(t, stack, f, step);
            Accepts(t'.nodes, 0, p) || OnStack(t', stack', p)
  {
    var (t', stack') := Perform(t, stack, f, step);
    var path := t.paths[f.node];
    PerformGrows(t, stack, f, step);
    SplitAt(p, |path|);
    match step
    case Stop =>
      assert p == path;
      LeadsBack(t', f.node, p);
    case Go(c, e, rest) =>
      DescendGrows(t, f.node, c);
      var n := Descend(t, f.node, c).1;
      assert p[|path| + 1..] == p[|path|..][1..];
      SplitAt(p, |path| + 1);
      assert p[..|path| + 1] == path + [c];
      assert t'.paths[n] == path + [c];
      if rest == [] {
        assert p == path + [c];
        LeadsBack(t', n, p);
      } else {
        var g := Frame(n, e, rest);
        assert g in stack' && Awaits(t', g, p);
      }
  }

  lemma CoverLasts(t: Tree, t': Tree, stack: seq<Frame>, stack': seq<Frame>, p: string)
    requires Grows(t, t') && forall f :: f in stack ==> f in stack'
    requires Accepts(t.nodes, 0, p) || OnStack(t, stack, p)
    ensures Accepts(t'.nodes, 0, p) || OnStack(t', stack', p)
  {
    if Accepts(t.nodes, 0, p) {
      AcceptsLasts(t, t', 0, p);
    } else {
      var f :| f in stack && Awaits(t, f, p);
      assert t'.paths[f.node] == t.paths[f.node];
      assert Awaits(t', f, p);
    }
  }

  lemma PerformKeepsComplete(s: string, k: nat, t: Tree, stack: seq<Frame>, f: Frame, step: Step, todo: seq<Step>)
    requires TreeShape(t) && Reached(t) && f.node < |t.nodes| && Complete(s, k, t, stack, f, [step] + todo)
    ensures var (t', stack') := Perform(t, stack, f, step);
            Complete(s, k, t', stack', f, todo)
  {
    var (t', stack') := Perform(t, stack, f, step);
    PerformGrows(t, stack, f, step);
    assert t'.paths[f.node] == t.paths[f.node];
    forall p | Emits(s, k, p)
      ensures Accepts(t'.nodes, 0, p) || OnStack(t', stack', p) || AwaitsStep(t', f, todo, p)
    {
      if Accepts(t.nodes, 0, p) || OnStack(t, stack, p) {
        CoverLasts(t, t', stack, stack', p);
      } else {
        var q := p[|t.paths[f.node]|..];
        var some :| some in [step] + todo && StepEmits(some, q);
        if some == step {
          PerformCovers(t, stack, f, step, p);
        }
      }
    }
  }

  // ----- the loop

  function Work(stack: seq<Frame>): (left: seq<nat>)
    ensures |left| == |stack| && forall i :: 0 <= i < |stack| ==> left[i] == stack[i].editsRemaining + |stack[i].str|
  {
    seq(|stack|, i requires 0 <= i < |stack| => stack[i].editsRemaining + |stack[i].str|)
  }

  /** Frames pushed while f was worked on: at most `most`, each with less to do. */
  ghost predicate Pushed(f: Frame, rest: seq<Frame>, stack: seq<Frame>, most: nat) {
    && |rest| <= |stack| <= |rest| + most && stack[..|rest|] == rest
    && forall i :: |rest| <= i < |stack| ==> stack[i].editsRemaining + |stack[i].str| < f.editsRemaining + |f.str|
  }

  /** Where the work on f stands. */
  ghost predicate Working(s: string, k: nat, f: Frame, rest: seq<Frame>, t: Tree, stack: seq<Frame>, todo: seq<Step>, most: nat) {
    && Grown(s, k, t, stack) && Reached(t) && FrameFits(s, k, t, f)
    && Complete(s, k, t, stack, f, todo) && Pushed(f, rest, stack, most)
  }

  lemma StepHasLessToDo(t: string, e: nat, step: Step)
    requires step in Steps(t, e) && step.Go?
    ensures step.edits + |step.rest| < e + |t|
  {
    assert step in NoEdit(t, e) || step in Deletion(t, e) || step in Substitution(t, e) || step in Insertion(t, e)
        || step in Transposition(t, e);
  }

  lemma PerformPushes(f: Frame, rest: seq<Frame>, t: Tree, stack: seq<Frame>, step: Step, most: nat)
    requires TreeShape(t) && f.node < |t.nodes| && step in Steps(f.str, f.editsRemaining)
    requires Pushed(f, rest, stack, most)
    ensures Pushed(f, rest, Perform(t, stack, f, step).1, most + 1)
  {
    if step.Go? {
      StepHasLessToDo(f.str, f.editsRemaining, step);
    }
  }

  lemma PerformKeepsWorking(s: string, k: nat, f: Frame, rest: seq<Frame>, t: Tree, stack: seq<Frame>, step: Step,
                            todo: seq<Step>, most: nat)
    requires Working(s, k, f, rest, t, stack, [step] + todo, most) && step in Steps(f.str, f.editsRemaining)
    ensures var (t', stack') := Perform(t, stack, f, step);
            Working(s, k, f, rest, t', stack', todo, most + 1)
  {
    StepOfFrame(s, k, t, f, step);
    PerformGrows(t, stack, f, step);
    PerformKeepsGrown(s, k, t, stack, f, step);
    PerformKeepsComplete(s, k, t, stack, f, step, todo);
    FrameFitsLasts(s, k, t, Perform(t, stack, f, step).0, f);
    PerformPushes(f, rest, t, stack, step, most);
  }

  lemma SkipKeepsWorking(s: string, k: nat, f: Frame, rest: seq<Frame>, t: Tree, stack: seq<Frame>, block: seq<Step>,
                         todo: seq<Step>, most: nat)
    requires Working(s, k, f, rest, t, stack, block + todo, most) && block == []
    ensures Working(s, k, f, rest, t, stack, todo, most + 1)
  {
    assert block + todo == todo;
  }

  lemma WorkBegins(s: string, k: nat, f: Frame, rest: seq<Frame>, t: Tree, none: Frame)
    requires Grown(s, k, t, rest + [f]) && Reached(t) && Complete(s, k, t, rest + [f], none, [])
    ensures Working(s, k, f, rest, t, rest, Steps(f.str, f.editsRemaining), 0)
  {
    forall p | Emits(s, k, p)
      ensures Accepts(t.nodes, 0, p) || OnStack(t, rest, p) || AwaitsStep(t, f, Steps(f.str, f.editsRemaining), p)
    {
      if !Accepts(t.nodes, 0, p) {
        var g :| g in rest + [f] && Awaits(t, g, p);
        assert g in rest || g == f;
      }
    }
    assert f in rest + [f];
  }

  lemma WorkAppends(rest: seq<Frame>, more: seq<Frame>)
    ensures Work(rest + more) == Work(rest) + Work(more)
  {
  }

  lemma WorkLowersLoad(f: Frame, rest: seq<Frame>, stack: seq<Frame>)
    requires Pushed(f, rest, stack, 6)
    ensures Load(Work(stack), 7) < Load(Work(rest + [f]), 7)
  {
    var more := stack[|rest|..];
    assert stack == rest + more;
    forall i | 0 <= i < |more| ensures Work(more)[i] < f.editsRemaining + |f.str| {
      assert more[i] == stack[|rest| + i];
    }
    WorkAppends(rest, more);
    WorkAppends(rest, [f]);
    var before, pushed, left := Work(rest), Work(more), f.editsRemaining + |f.str|;
    assert Work([f]) == [left];
    LoadFalls(before, left, pushed, 7);
  }

  /** The body of the loop: the six blocks in turn. */
  method Expand(ghost s: string, ghost k: nat, f: Frame, t0: Tree, rest: seq<Frame>) returns (t: Tree, stack: seq<Frame>)
    requires Working(s, k, f, rest, t0, rest, Steps(f.str, f.editsRemaining), 0)
    ensures Working(s, k, f, rest, t, stack, [], 6)
  {
    t, stack := t0, rest;
    var str, edits := f.str, f.editsRemaining;
    ghost var c, d, e, g, h, i := NoEdit(str, edits), Deletion(str, edits), LastDeletion(str, edits),
                                  Substitution(str, edits), Insertion(str, edits), Transposition(str, edits);
    StepsInclude(str, edits);
    if |str| > 0 {
      t, stack := ExpandOne(s, k, f, rest, t, stack, Go(str[0], edits, str[1..]), c, d + (e + (g + (h + i))), 0);
    } else {
      SkipKeepsWorking(s, k, f, rest, t, stack, c, d + (e + (g + (h + i))), 0);
    }
    if edits > 0 && |str| > 1 {
      t, stack := ExpandOne(s, k, f, rest, t, stack, Go(str[1], edits - 1, str[2..]), d, e + (g + (h + i)), 1);
    } else {
      SkipKeepsWorking(s, k, f, rest, t, stack, d, e + (g + (h + i)), 1);
    }
    if edits > 0 && |str| == 1 {
      t, stack := ExpandOne(s, k, f, rest, t, stack, Stop, e, g + (h + i), 2);
    } else {
      SkipKeepsWorking(s, k, f, rest, t, stack, e, g + (h + i), 2);
    }
    if edits > 0 && |str| >= 1 {
      t, stack := ExpandOne(s, k, f, rest, t, stack, Go(WILDCARD, edits - 1, str[1..]), g, h + i, 3);
    } else {
      SkipKeepsWorking(s, k, f, rest, t, stack, g, h + i, 3);
    }
    if edits > 0 {
      t, stack := ExpandOne(s, k, f, rest, t, stack, Go(WILDCARD, edits - 1, str), h, i, 4);
    } else {
      SkipKeepsWorking(s, k, f, rest, t, stack, h, i, 4);
    }
    NothingAfter(i);
    if edits > 0 && |str| > 1 {
      t, stack := ExpandOne(s, k, f, rest, t, stack, Go(str[1], edits - 1, [str[0]] + str[2..]), i, [], 5);
    } else {
      SkipKeepsWorking(s, k, f, rest, t, stack, i, [], 5);
    }
  }

  lemma NothingAfter(steps: seq<Step>)
    ensures steps == steps + []
  {
  }

  lemma StepsInclude(t: string, e: nat)
    ensures forall step :: step in Steps(t, e) <==>
              || step in NoEdit(t, e) || step in Deletion(t, e) || step in LastDeletion(t, e)
              || step in Substitution(t, e) || step in Insertion(t, e) || step in Transposition(t, e)
  {
  }

  /** One block whose condition holds. */
  method ExpandOne(ghost s: string, ghost k: nat, f: Frame, ghost rest: seq<Frame>, t0: Tree, stack0: seq<Frame>, step: Step,
                   ghost block: seq<Step>, ghost todo: seq<Step>, ghost most: nat) returns (t: Tree, stack: seq<Frame>)
    requires Working(s, k, f, rest, t0, stack0, block + todo, most)
    requires block == [step] && step in Steps(f.str, f.editsRemaining)
    ensures Working(s, k, f, rest, t, stack, todo, most + 1)
  {
    PerformKeepsWorking(s, k, f, rest, t0, stack0, step, todo, most);
    var (t', stack') := Perform(t0, stack0, f, step);
    t, stack := t', stack';
  }

  lemma TreeBegins(s: string, k: nat, none: Frame)
    ensures var t := Tree([Node(false, map[])], [[]]);
            var stack := [Frame(0, k, s)];
            Grown(s, k, t, stack) && Reached(t) && Complete(s, k, t, stack, none, [])
  {
    var t, f := Tree([Node(false, map[])], [[]]), Frame(0, k, s);
    assert t.paths[0] == [];
    forall q | Emits(s, k, q) ensures Emits(s, k, t.paths[0] + q) && Awaits(t, f, q) {
      assert t.paths[0] + q == q && q[0..] == q;
    }
    assert f in [f];
  }

  lemma TreeEnds(s: string, k: nat, t: Tree, none: Frame, p: string)
    requires Grown(s, k, t, []) && Reached(t) && Complete(s, k, t, [], none, [])
    ensures Accepts(t.nodes, 0, p) <==> Emits(s, k, p)
  {
    if Accepts(t.nodes, 0, p) {
      AcceptsIsWalk(t.nodes, 0, p);
      WalkSpellsPath(t, 0, p);
      assert t.paths[0] + p == p;
    }
  }

  method FromFuzzyString(str: string, editDistance: nat) returns (nodes: seq<Node>)
    ensures |nodes| > 0 && WellFormed(nodes)
    ensures forall p :: Accepts(nodes, 0, p) <==> Emits(str, editDistance, p)
    ensures forall w :: WildAccepts(nodes, 0, w) <==> Reads(str, editDistance, w)
  {
    var t, stack := Tree([Node(false, map[])], [[]]), [Frame(0, editDistance, str)];
    ghost var none := stack[0];
    TreeBegins(str, editDistance, none);
    while |stack| > 0
      invariant Grown(str, editDistance, t, stack) && Reached(t) && Complete(str, editDistance, t, stack, none, [])
      decreases Load(Work(stack), 7)
    {
      var f, rest := stack[|stack| - 1], stack[..|stack| - 1];
      PopSplits(stack);
      WorkBegins(str, editDistance, f, rest, t, none);
      t, stack := Expand(str, editDistance, f, t, rest);
      WorkLowersLoad(f, rest, stack);
    }
    nodes := t.nodes;
    forall p ensures Accepts(nodes, 0, p) <==> Emits(str, editDistance, p) {
      TreeEnds(str, editDistance, t, none, p);
    }
    forall w ensures WildAccepts(nodes, 0, w) <==> Reads(str, editDistance, w) {
      WildAcceptsByLabels(nodes, 0, w);
    }
  }

  // ----- from label strings to words

  /** Each label is the letter at its place, or '*'. */
  predicate Fits(p: string, w: string) {
    |p| == |w| && forall i :: 0 <= i < |p| ==> p[i] == w[i] || p[i] == WILDCARD
  }

  /** The words for which the frames for t and e lead to a label string that fits. */
  ghost predicate Reads(t: string, e: nat, w: string) {
    exists p :: Fits(p, w) && Emits(t, e, p)
  }

  ghost predicate SomeLabelsAccepted(nodes: seq<Node>, n: nat, w: string) {
    exists p :: Fits(p, w) && Accepts(nodes, n, p)
  }

  lemma LabelsOneMore(nodes: seq<Node>, n: nat, c: char, w: string)
    requires n < |nodes| && w != [] && (c == w[0] || c == WILDCARD) && c in nodes[n].edges
    requires SomeLabelsAccepted(nodes, nodes[n].edges[c], w[1..])
    ensures SomeLabelsAccepted(nodes, n, w)
  {
    var p :| Fits(p, w[1..]) && Accepts(nodes, nodes[n].edges[c], p);
    assert ([c] + p)[1..] == p;
    assert Fits([c] + p, w) && Accepts(nodes, n, [c] + p);
  }

  lemma {:induction false} WildAcceptsByLabels(nodes: seq<Node>, n: nat, w: string)
    ensures WildAccepts(nodes, n, w) <==> SomeLabelsAccepted(nodes, n, w)
    decreases |w|
  {
    if w == [] {
      assert Fits([], w);
    } else {
      if n < |nodes| && WildAccepts(nodes, n, w) {
        var c := if w[0] in nodes[n].edges && WildAccepts(nodes, nodes[n].edges[w[0]], w[1..]) then w[0] else WILDCARD;
        WildAcceptsByLabels(nodes, nodes[n].edges[c], w[1..]);
        LabelsOneMore(nodes, n, c, w);
      }
      if SomeLabelsAccepted(nodes, n, w) {
        var p :| Fits(p, w) && Accepts(nodes, n, p);
        assert Fits(p[1..], w[1..]);
        WildAcceptsByLabels(nodes, nodes[n].edges[p[0]], w[1..]);
      }
    }
  }
}
