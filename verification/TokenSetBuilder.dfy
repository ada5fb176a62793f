/**
 The builder of token sets: words come in order, nodes off the path of the latest word are
 frozen and shared. At every moment the root accepts the words inserted so far.
 */
module TokenSetBuilder {
  import opened Common
  import opened Automata
  import opened NodeKeys
  import opened Decimals
  import opened BuilderSteps

  function AllLetters(words: seq<string>): set<char> {
    set i, c | 0 <= i < |words| && c in words[i] :: c
  }

  /** The root accepts the words, provided that keys tell nodes over their letters apart. */
  ghost predicate Exact(nodes: seq<Node>, words: seq<string>) {
    Separable(AllLetters(words)) ==> forall w :: Accepts(nodes, 0, w) <==> w in words
  }

  /** No node of the path has a label above the one the path takes. */
  ghost predicate Ordered(nodes: seq<Node>, path: seq<Unchecked>) {
    forall i, c :: 0 <= i < |path| && At(path, i) < |nodes| && c in nodes[At(path, i)].edges ==> c <= path[i].symbol
  }

  /** Labels of the tip lie at or below the next letter of the word; there are none after the last letter. */
  ghost predicate TipBelow(nodes: seq<Node>, path: seq<Unchecked>, word: string) {
    forall c :: Tip(path) < |nodes| && c in nodes[Tip(path)].edges ==> |path| < |word| && c <= word[|path|]
  }

  ghost predicate TipStrictlyBelow(nodes: seq<Node>, path: seq<Unchecked>, word: string) {
    forall c :: Tip(path) < |nodes| && c in nodes[Tip(path)].edges ==> |path| < |word| && c < word[|path|]
  }

  /** The builder with the path cut back to a prefix of the latest word. */
  ghost predicate Cut(b: Build, latest: string, words: seq<string>) {
    && Shape(b) && Spells(b.path, latest) && Ordered(b.nodes, b.path) && TipBelow(b.nodes, b.path, latest)
    && LabelsWithin(b.nodes, AllLetters(words)) && Exact(b.nodes, words)
    && (words != [] ==> Alive(b.nodes, Tip(b.path)))
    && (words == [] ==> b.path == [] && !Alive(b.nodes, 0))
  }

  /** The builder on its way down a new word. */
  ghost predicate Growing(b: Build, word: string, words: seq<string>) {
    && Shape(b) && Spells(b.path, word) && Ordered(b.nodes, b.path) && TipStrictlyBelow(b.nodes, b.path, word)
    && LabelsWithin(b.nodes, AllLetters(words + [word])) && Exact(b.nodes, words)
  }

  /** Cutting the path back by one edge, whatever that edge leads to afterwards. */
  lemma OrderAfterPop(nodes: seq<Node>, nodes': seq<Node>, path: seq<Unchecked>, path': seq<Unchecked>, latest: string)
    requires path != [] && path' == path[..|path| - 1] && |nodes'| == |nodes|
    requires forall n :: 0 <= n < |nodes| ==> nodes'[n].edges.Keys == nodes[n].edges.Keys
    requires Spells(path, latest) && Ordered(nodes, path)
    ensures Ordered(nodes', path') && TipBelow(nodes', path', latest)
  {
    var k := |path| - 1;
    forall i, c | 0 <= i <= k && At(path', i) < |nodes'| && c in nodes'[At(path', i)].edges ensures c <= path[i].symbol {
      assert At(path', i) == At(path, i);
      assert c in nodes[At(path, i)].edges.Keys;
    }
    assert path[k].symbol == latest[k];
  }

  lemma RedirectKeepsKeys(nodes: seq<Node>, p: nat, c: char, m: nat, n: nat)
    requires p < |nodes| && c in nodes[p].edges && n < |nodes|
    ensures Redirected(nodes, p, c, m)[n].edges.Keys == nodes[n].edges.Keys
  {
  }

  lemma RedirectKeepsAllKeys(nodes: seq<Node>, p: nat, c: char, m: nat)
    requires p < |nodes| && c in nodes[p].edges
    ensures |Redirected(nodes, p, c, m)| == |nodes|
    ensures forall n :: 0 <= n < |nodes| ==> Redirected(nodes, p, c, m)[n].edges.Keys == nodes[n].edges.Keys
  {
    forall n | 0 <= n < |nodes| ensures Redirected(nodes, p, c, m)[n].edges.Keys == nodes[n].edges.Keys {
      RedirectKeepsKeys(nodes, p, c, m, n);
    }
  }

  /** Freezing changes where edges lead, not their labels. */
  lemma FreezeKeepsKeys(b: Build)
    requires PathShape(b.nodes, b.path, b.frozen) && b.path != [] && CanFreeze(b)
    ensures Freeze(b).path == b.path[..|b.path| - 1] && |Freeze(b).nodes| == |b.nodes|
    ensures forall n :: 0 <= n < |b.nodes| ==> Freeze(b).nodes[n].edges.Keys == b.nodes[n].edges.Keys
  {
    var last := b.path[|b.path| - 1];
    assert OnPathOrFrozen(b.nodes, b.path, b.frozen, |b.path| - 1);
    if Merges(b) {
      RedirectKeepsAllKeys(b.nodes, last.parent, last.symbol, b.register[Key(b.nodes[last.child], b.firstId)]);
    }
  }

  lemma FreezeKeepsOrder(b: Build, latest: string)
    requires PathShape(b.nodes, b.path, b.frozen) && b.path != [] && CanFreeze(b)
    requires Spells(b.path, latest) && Ordered(b.nodes, b.path)
    ensures Ordered(Freeze(b).nodes, Freeze(b).path) && TipBelow(Freeze(b).nodes, Freeze(b).path, latest)
  {
    FreezeKeepsKeys(b);
    OrderAfterPop(b.nodes, Freeze(b).nodes, b.path, Freeze(b).path, latest);
  }

  lemma FreezeKeepsLabels(b: Build, letters: set<char>)
    requires PathShape(b.nodes, b.path, b.frozen) && b.path != [] && CanFreeze(b) && LabelsWithin(b.nodes, letters)
    ensures LabelsWithin(Freeze(b).nodes, letters)
  {
    FreezeKeepsKeys(b);
    SameKeysSameLabels(b.nodes, Freeze(b).nodes, letters);
  }

  lemma SameKeysSameLabels(nodes: seq<Node>, nodes': seq<Node>, letters: set<char>)
    requires |nodes'| == |nodes| && LabelsWithin(nodes, letters)
    requires forall n :: 0 <= n < |nodes| ==> nodes'[n].edges.Keys == nodes[n].edges.Keys
    ensures LabelsWithin(nodes', letters)
  {
  }

  lemma FreezeKeepsShape(b: Build)
    requires Shape(b) && b.path != [] && Alive(b.nodes, Tip(b.path))
    ensures CanFreeze(b) && Shape(Freeze(b)) && Alive(Freeze(b).nodes, Tip(Freeze(b).path))
  {
    ShapeCanFreeze(b);
    if Merges(b) {
      MergeKeepsShape(b);
    } else {
      KeepKeepsShape(b);
    }
    FreezeKeepsTipAlive(b);
  }

  lemma FreezeKeepsExact(b: Build, words: seq<string>)
    requires Shape(b) && CanFreeze(b) && LabelsWithin(b.nodes, AllLetters(words)) && Exact(b.nodes, words)
    ensures Exact(Freeze(b).nodes, words)
  {
    if Separable(AllLetters(words)) {
      forall w ensures Accepts(Freeze(b).nodes, 0, w) <==> w in words {
        FreezeKeepsLanguage(b, AllLetters(words), 0, w);
      }
    }
  }

  lemma PrefixSpells(path: seq<Unchecked>, latest: string)
    requires Spells(path, latest) && path != []
    ensures Spells(path[..|path| - 1], latest)
  {
  }

  lemma FreezeKeepsCut(b: Build, latest: string, words: seq<string>)
    requires Cut(b, latest, words) && b.path != []
    ensures CanFreeze(b) && Cut(Freeze(b), latest, words)
  {
    FreezeKeepsShape(b);
    FreezeKeepsKeys(b);
    PrefixSpells(b.path, latest);
    FreezeKeepsOrder(b, latest);
    FreezeKeepsLabels(b, AllLetters(words));
    FreezeKeepsExact(b, words);
  }

  lemma MoreLetters(words: seq<string>, word: string)
    ensures AllLetters(words) <= AllLetters(words + [word])
    ensures forall c :: c in word ==> c in AllLetters(words + [word])
  {
    assert (words + [word])[|words|] == word;
    forall c | c in AllLetters(words) ensures c in AllLetters(words + [word]) {
      var i :| 0 <= i < |words| && c in words[i];
      assert (words + [word])[i] == words[i];
    }
  }

  /** Having cut back to the common prefix, the builder turns to the new word. */
  lemma TurnToWord(b: Build, latest: string, word: string, words: seq<string>)
    requires Cut(b, latest, words) && !Less(word, latest) && |b.path| <= |word|
    requires word[..|b.path|] == latest[..|b.path|]
    requires |b.path| < |word| && |b.path| < |latest| ==> word[|b.path|] != latest[|b.path|]
    ensures Growing(b, word, words)
  {
    LeavesUpwards(word, latest, |b.path|);
    MoreLetters(words, word);
    forall i | 0 <= i < |b.path| ensures b.path[i].symbol == word[i] {
      assert word[i] == word[..|b.path|][i] == latest[..|b.path|][i];
    }
    forall n | 0 <= n < |b.nodes| ensures b.nodes[n].edges.Keys <= AllLetters(words + [word]) {
    }
  }

  lemma GrowKeepsGrowing(b: Build, word: string, words: seq<string>)
    requires Growing(b, word, words) && |b.path| < |word|
    ensures Growing(Grow(b, word[|b.path|]), word, words)
  {
    var c, t := word[|b.path|], Grow(b, word[|b.path|]);
    GrowKeepsShape(b, c);
    forall i | 0 <= i < |b.path| ensures At(b.path, i) != Tip(b.path) && At(b.path, i) < |b.nodes| {
      assert OnPathOrFrozen(b.nodes, b.path, b.frozen, i);
      assert At(b.path, i) != At(b.path, |b.path|);
    }
    GrowKeepsOrder(b, c);
    MoreLetters(words, word);
    if Separable(AllLetters(words)) {
      forall w ensures Accepts(t.nodes, 0, w) <==> w in words {
        GrowKeepsLanguage(b, c, 0, w);
      }
    }
  }

  lemma GrowKeepsOrder(b: Build, c: char)
    requires Tip(b.path) < |b.nodes| && Ordered(b.nodes, b.path)
    requires forall i :: 0 <= i < |b.path| ==> At(b.path, i) != Tip(b.path) && At(b.path, i) < |b.nodes|
    requires forall d :: d in b.nodes[Tip(b.path)].edges ==> d < c
    ensures Ordered(Grow(b, c).nodes, Grow(b, c).path)
  {
    var t, k := Grow(b, c), |b.path|;
    forall i, d | 0 <= i < |t.path| && At(t.path, i) < |t.nodes| && d in t.nodes[At(t.path, i)].edges
      ensures d <= t.path[i].symbol
    {
      assert At(t.path, i) == At(b.path, i);
      if i == k {
        assert d == c || d in b.nodes[Tip(b.path)].edges;
      } else {
        assert t.nodes[At(b.path, i)] == b.nodes[At(b.path, i)] && t.path[i] == b.path[i];
      }
    }
  }

  lemma SmallerSeparable(small: set<char>, large: set<char>)
    requires small <= large && Separable(large)
    ensures Separable(small)
  {
  }

  /** The word is in: the builder stands at the end of its path. */
  lemma FinalizeIsCut(b: Build, word: string, words: seq<string>)
    requires Growing(b, word, words) && |b.path| == |word|
    ensures Cut(Finalize(b), word, words + [word])
  {
    var t := Finalize(b);
    FinalizeKeepsShape(b);
    assert forall n :: 0 <= n < |b.nodes| ==> t.nodes[n].edges == b.nodes[n].edges;
    if Separable(AllLetters(words + [word])) {
      MoreLetters(words, word);
      SmallerSeparable(AllLetters(words), AllLetters(words + [word]));
      forall w ensures Accepts(t.nodes, 0, w) <==> w in words + [word] {
        FinalizeAddsWord(b, word, 0, w);
        assert word[0..] == word;
      }
    }
  }

  lemma FreshIsCut(firstId: nat)
    ensures Cut(Fresh(firstId), "", [])
  {
    var b := Fresh(firstId);
    assert OnPathOrFrozen(b.nodes, b.path, b.frozen, 0);
  }

  // ----- a whole build

  /** One turn of the loop of minimize. */
  lemma FreezeTurn(b: Build, downTo: nat, latest: string, words: seq<string>)
    requires Cut(b, latest, words) && downTo < |b.path|
    ensures CanFreeze(b) && Cut(Freeze(b), latest, words)
    ensures FreezeDown(b, downTo) == FreezeDown(Freeze(b), downTo)
    ensures |Freeze(b).path| == |b.path| - 1 && Freeze(b).path <= b.path && Freeze(b).path[..downTo] == b.path[..downTo]
  {
    FreezeKeepsCut(b, latest, words);
    PrefixOfPrefix(b.path, |b.path| - 1, downTo);
  }

  lemma PrefixOfPrefix(path: seq<Unchecked>, n: nat, m: nat)
    requires m <= n <= |path|
    ensures path[..n][..m] == path[..m]
  {
  }

  lemma {:induction false} FreezeDownKeepsCut(b: Build, downTo: nat, latest: string, words: seq<string>)
    requires Cut(b, latest, words) && downTo <= |b.path|
    ensures Cut(FreezeDown(b, downTo), latest, words) && FreezeDown(b, downTo).path == b.path[..downTo]
    decreases |b.path|
  {
    if |b.path| > downTo {
      FreezeTurn(b, downTo, latest, words);
      FreezeDownKeepsCut(Freeze(b), downTo, latest, words);
    }
  }

  /** Freezing down to n is freezing down to n + 1 and one turn more. */
  lemma {:induction false} FreezeOneMore(b: Build, n: nat, latest: string, words: seq<string>)
    requires Cut(b, latest, words) && n < |b.path|
    ensures CanFreeze(FreezeDown(b, n + 1)) && Freeze(FreezeDown(b, n + 1)) == FreezeDown(b, n)
    ensures |FreezeDown(b, n).path| == n
    decreases |b.path|
  {
    FreezeTurn(b, n, latest, words);
    if |b.path| > n + 1 {
      FreezeOneMore(Freeze(b), n, latest, words);
    }
  }

  lemma {:induction false} GrowAlongKeepsGrowing(b: Build, word: string, words: seq<string>)
    requires Growing(b, word, words) && |b.path| <= |word|
    ensures Growing(GrowAlong(b, word), word, words) && |GrowAlong(b, word).path| == |word|
    decreases |word| - |b.path|
  {
    if |b.path| < |word| {
      GrowKeepsGrowing(b, word, words);
      GrowAlongKeepsGrowing(Grow(b, word[|b.path|]), word, words);
    }
  }

  lemma {:induction false} CommonPrefixAgrees(a: string, b: string)
    ensures var n := CommonPrefix(a, b);
            n <= |a| && n <= |b| && a[..n] == b[..n] && (n < |a| && n < |b| ==> a[n] != b[n])
  {
    if a != [] && b != [] && a[0] == b[0] {
      CommonPrefixAgrees(a[1..], b[1..]);
      var n := CommonPrefix(a[1..], b[1..]);
      assert a[..n + 1] == [a[0]] + a[1..][..n] && b[..n + 1] == [b[0]] + b[1..][..n];
    }
  }

  /** Inserting the next word keeps the builder exact. */
  lemma InsertedIsCut(b: Build, previous: string, word: string, words: seq<string>)
    requires Cut(b, previous, words) && |b.path| == |previous| && !Less(word, previous)
    ensures Cut(Inserted(b, previous, word), word, words + [word])
    ensures |Inserted(b, previous, word).path| == |word|
  {
    var n := CommonPrefix(word, previous);
    CommonPrefixAgrees(word, previous);
    FreezeDownKeepsCut(b, n, previous, words);
    var cut := FreezeDown(b, n);
    TurnToWord(cut, previous, word, words);
    GrowAlongKeepsGrowing(cut, word, words);
    FinalizeIsCut(GrowAlong(cut, word), word, words);
  }

  function Latest(words: seq<string>): string {
    if words == [] then "" else words[|words| - 1]
  }

  /** The builder holds these words, and its path spells the latest. */
  ghost predicate Holds(b: Build, words: seq<string>) {
    Cut(b, Latest(words), words) && |b.path| == |Latest(words)|
  }

  lemma InsertedHolds(b: Build, words: seq<string>, word: string)
    requires Holds(b, words) && !Less(word, Latest(words))
    ensures Holds(Inserted(b, Latest(words), word), words + [word])
  {
    InsertedIsCut(b, Latest(words), word, words);
  }

  lemma BuiltOneMore(words: seq<string>, word: string, firstId: nat)
    ensures Built(words + [word], firstId) == Inserted(Built(words, firstId), Latest(words), word)
  {
    assert (words + [word])[..|words|] == words;
  }

  lemma InOrderOneLess(words: seq<string>, word: string)
    requires InOrder(words + [word])
    ensures InOrder(words) && !Less(word, Latest(words))
  {
    var all := words + [word];
    forall i | 0 < i < |words| ensures !Less(words[i], words[i - 1]) {
      assert all[i] == words[i] && all[i - 1] == words[i - 1];
    }
    if words != [] {
      assert all[|words|] == word && all[|words| - 1] == Latest(words);
    }
  }

  /** After any words in order the builder holds them. */
  lemma {:induction false} BuiltHolds(words: seq<string>, firstId: nat)
    requires InOrder(words)
    ensures Holds(Built(words, firstId), words)
  {
    if words == [] {
      FreshIsCut(firstId);
    } else {
      var init, word := words[..|words| - 1], words[|words| - 1];
      assert init + [word] == words;
      InOrderOneLess(init, word);
      BuiltHolds(init, firstId);
      BuiltOneMore(init, word, firstId);
      InsertedHolds(Built(init, firstId), init, word);
    }
  }

  lemma TokenSetIsCut(words: seq<string>, firstId: nat)
    requires InOrder(words)
    ensures Cut(FreezeDown(Built(words, firstId), 0), Latest(words), words)
    ensures FreezeDown(Built(words, firstId), 0).path == []
  {
    BuiltHolds(words, firstId);
    FreezeDownKeepsCut(Built(words, firstId), 0, Latest(words), words);
  }

  lemma TokenSetIsExact(words: seq<string>, firstId: nat)
    requires InOrder(words)
    ensures Exact(TokenSetOf(words, firstId), words)
  {
    TokenSetIsCut(words, firstId);
  }

  // ----- the text of a node, as the loop puts it together

  /** A text to which the first i labels have been added. */
  ghost function TextUpTo(flag: string, labels: seq<char>, edges: map<char, nat>, firstId: nat, i: nat): string
    requires i <= |labels| && forall c :: c in labels ==> c in edges
  {
    if i == 0 then flag
    else TextUpTo(flag, labels, edges, firstId, i - 1) + ([labels[i - 1]] + Decimal(firstId + edges[labels[i - 1]]))
  }

  lemma {:induction false} TextUpToSplits(flag: string, labels: seq<char>, edges: map<char, nat>, firstId: nat, i: nat)
    requires i <= |labels| && forall c :: c in labels ==> c in edges
    ensures flag + LabelText(labels, edges, firstId) ==
            TextUpTo(flag, labels, edges, firstId, i) + LabelText(labels[i..], edges, firstId)
    decreases i
  {
    if i == 0 {
      assert labels[0..] == labels;
    } else {
      TextUpToSplits(flag, labels, edges, firstId, i - 1);
      assert labels[i - 1..][1..] == labels[i..];
      ConcatAssociates(TextUpTo(flag, labels, edges, firstId, i - 1), [labels[i - 1]] + Decimal(firstId + edges[labels[i - 1]]),
                       LabelText(labels[i..], edges, firstId));
    }
  }

  lemma ConcatAssociates(a: string, b: string, c: string)
    ensures a + b + c == a + (b + c)
  {
  }

  lemma TextUpToEnd(flag: string, labels: seq<char>, edges: map<char, nat>, firstId: nat)
    requires forall c :: c in labels ==> c in edges
    ensures flag + LabelText(labels, edges, firstId) == TextUpTo(flag, labels, edges, firstId, |labels|)
  {
    TextUpToSplits(flag, labels, edges, firstId, |labels|);
    NothingLeft(labels);
    EmptyText(edges, firstId);
    AppendNothing(TextUpTo(flag, labels, edges, firstId, |labels|));
  }

  lemma NothingLeft(labels: seq<char>)
    ensures labels[|labels|..] == []
  {
  }

  lemma EmptyText(edges: map<char, nat>, firstId: nat)
    ensures LabelText([], edges, firstId) == []
  {
  }

  lemma AppendNothing(text: string)
    ensures text + [] == text
  {
  }

  class Builder {
    const firstId: nat            // _nextId when the root was created
    var nodes: seq<Node>          // the token sets created since; the root is number 0
    var previousWord: string
    var uncheckedNodes: seq<Unchecked>
    var minimizedNodes: map<string, nat>
    ghost var frozen: seq<nat>
    ghost var words: seq<string>

    ghost function State(): Build
      reads this
    {
      Build(firstId, nodes, uncheckedNodes, minimizedNodes, frozen)
    }

    /** Between insertions. */
    ghost predicate Valid()
      reads this
    {
      Cut(State(), previousWord, words) && |uncheckedNodes| == |previousWord|
    }

    /** After the last one. */
    ghost predicate Finished()
      reads this
    {
      Cut(State(), previousWord, words) && uncheckedNodes == []
    }

    constructor (firstId: nat)
      ensures Valid() && words == [] && previousWord == "" && State() == Fresh(firstId)
    {
      this.firstId := firstId;
      previousWord := "";
      nodes := [Node(false, map[])];
      uncheckedNodes := [];
      minimizedNodes := map[];
      frozen := [];
      words := [];
      new;
      FreshIsCut(firstId);
    }

    /** The text of a node: flag, then labels in order with the ids they lead to. */
    method KeyOf(n: nat) returns (text: string)
      requires n < |nodes|
      ensures text == Key(nodes[n], firstId)
    {
      text := [if nodes[n].final then '1' else '0'];
      var labels, edges := SortedLabels(nodes[n].edges.Keys), nodes[n].edges;
      ghost var flag := text;
      var i := 0;
      while i < |labels|
        invariant i <= |labels| && text == TextUpTo(flag, labels, edges, firstId, i)
      {
        text := text + ([labels[i]] + Decimal(firstId + edges[labels[i]]));
        i := i + 1;
      }
      TextUpToEnd(flag, labels, edges, firstId);
    }

    /** One turn of the loop of minimize. */
    method FreezeLast()
      requires CanFreeze(State())
      modifies `nodes, `uncheckedNodes, `minimizedNodes, `frozen
      ensures State() == Freeze(old(State()))
    {
      var node := uncheckedNodes[|uncheckedNodes| - 1];
      var childKey := KeyOf(node.child);
      if childKey in minimizedNodes {
        nodes := nodes[node.parent := Node(nodes[node.parent].final,
                                           nodes[node.parent].edges[node.symbol := minimizedNodes[childKey]])];
      } else {
        minimizedNodes := minimizedNodes[childKey := node.child];
        frozen := frozen + [node.child];
      }
      uncheckedNodes := uncheckedNodes[..|uncheckedNodes| - 1];
    }

    method Minimize(downTo: nat)
      requires Cut(State(), previousWord, words) && downTo <= |uncheckedNodes|
      modifies `nodes, `uncheckedNodes, `minimizedNodes, `frozen
      ensures Cut(State(), previousWord, words) && State() == FreezeDown(old(State()), downTo)
      ensures uncheckedNodes == old(uncheckedNodes)[..downTo]
    {
      ghost var b := State();
      while |uncheckedNodes| > downTo
        invariant downTo <= |uncheckedNodes| <= |b.path| && State() == FreezeDown(b, |uncheckedNodes|)
      {
        FreezeOneMore(b, |uncheckedNodes| - 1, previousWord, words);
        FreezeLast();
      }
      FreezeDownKeepsCut(b, downTo, previousWord, words);
    }

    /** New nodes for the letters of the word beyond the path. */
    method Extend(word: string) returns (node: nat)
      requires Growing(State(), word, words) && |uncheckedNodes| <= |word|
      modifies `nodes, `uncheckedNodes
      ensures Growing(State(), word, words) && |uncheckedNodes| == |word| && node == Tip(uncheckedNodes)
      ensures State() == GrowAlong(old(State()), word)
    {
      node := if |uncheckedNodes| == 0 then 0 else uncheckedNodes[|uncheckedNodes| - 1].child;
      var i := |uncheckedNodes|;
      while i < |word|
        invariant i == |uncheckedNodes| <= |word| && node == Tip(uncheckedNodes)
        invariant Growing(State(), word, words) && GrowAlong(State(), word) == GrowAlong(old(State()), word)
      {
        ghost var before := State();
        GrowKeepsGrowing(before, word, words);
        var nextNode, symbol := |nodes|, word[i];
        nodes := nodes[node := Node(nodes[node].final, nodes[node].edges[symbol := nextNode])] + [Node(false, map[])];
        uncheckedNodes := uncheckedNodes + [Unchecked(node, symbol, nextNode)];
        node := nextNode;
        i := i + 1;
        assert State() == Grow(before, symbol);
      }
    }

    /** How far the word agrees with the one before it. */
    method AgreesUpTo(word: string) returns (commonPrefix: nat)
      ensures commonPrefix == CommonPrefix(word, previousWord)
      ensures commonPrefix <= |word| && commonPrefix <= |previousWord|
      ensures word[..commonPrefix] == previousWord[..commonPrefix]
      ensures commonPrefix < |word| && commonPrefix < |previousWord| ==> word[commonPrefix] != previousWord[commonPrefix]
    {
      commonPrefix := 0;
      while commonPrefix < |word| && commonPrefix < |previousWord| && word[commonPrefix] == previousWord[commonPrefix]
        invariant commonPrefix <= |word| && commonPrefix <= |previousWord|
        invariant word[..commonPrefix] == previousWord[..commonPrefix]
        invariant CommonPrefix(word, previousWord) ==
                  commonPrefix + CommonPrefix(word[commonPrefix..], previousWord[commonPrefix..])
      {
        assert word[..commonPrefix + 1] == word[..commonPrefix] + [word[commonPrefix]];
        assert previousWord[..commonPrefix + 1] == previousWord[..commonPrefix] + [previousWord[commonPrefix]];
        assert word[commonPrefix..][1..] == word[commonPrefix + 1..];
        assert previousWord[commonPrefix..][1..] == previousWord[commonPrefix + 1..];
        commonPrefix := commonPrefix + 1;
      }
    }

    /** The last node of the word is final. */
    method EndWord(node: nat, word: string)
      requires Growing(State(), word, words) && |uncheckedNodes| == |word| && node == Tip(uncheckedNodes)
      modifies `nodes, `previousWord, `words
      ensures Valid() && State() == Finalize(old(State())) && words == old(words) + [word] && previousWord == word
    {
      FinalizeIsCut(State(), word, words);
      nodes := nodes[node := Node(true, nodes[node].edges)];
      previousWord := word;
      words := words + [word];
    }

    /** False where the original throws "Out of order word insertion"; then nothing changed. */
    method Insert(word: string) returns (ok: bool)
      requires Valid()
      modifies this
      ensures Valid()
      ensures ok <==> !Less(word, old(previousWord))
      ensures ok ==> words == old(words) + [word] && previousWord == word
      ensures ok ==> State() == Inserted(old(State()), old(previousWord), word)
      ensures !ok ==> State() == old(State()) && words == old(words) && previousWord == old(previousWord)
    {
      if Less(word, previousWord) {
        return false;
      }
      var commonPrefix := AgreesUpTo(word);
      Minimize(commonPrefix);
      TurnToWord(State(), previousWord, word, words);
      var node := Extend(word);
      EndWord(node, word);
      return true;
    }

    method Finish()
      requires Valid()
      modifies this
      ensures Finished() && words == old(words) && State() == FreezeDown(old(State()), 0)
    {
      Minimize(0);
    }
  }
}
