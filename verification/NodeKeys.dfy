/**
 The text under which the builder registers a node: its final flag, then each label in order
 followed by the decimal number of the node it leads to.
 */
module NodeKeys {
  import opened Common
  import opened Automata
  import opened Decimals

  // ----- labels in order

  lemma {:induction false} LeastExists(s: set<char>)
    requires s != {}
    ensures exists c :: c in s && forall d :: d in s ==> c <= d
    decreases |s|
  {
    var x :| x in s;
    var rest := s - {x};
    assert s == rest + {x};
    if rest == {} {
    } else {
      LeastExists(rest);
      var y :| y in rest && forall d :: d in rest ==> y <= d;
      var z := if x <= y then x else y;
      assert forall d :: d in s ==> d == x || d in rest;
      assert z in s && forall d :: d in s ==> z <= d;
    }
  }

  function Least(s: set<char>): (c: char)
    requires s != {}
    ensures c in s && forall d :: d in s ==> c <= d
  {
    LeastExists(s);
    var c :| c in s && forall d :: d in s ==> c <= d;
    c
  }

  /** `Object.keys(edges).sort()` */
  function SortedLabels(s: set<char>): (labels: seq<char>)
    ensures forall c :: c in labels <==> c in s
    ensures forall i, j :: 0 <= i < j < |labels| ==> labels[i] < labels[j]
    decreases |s|
  {
    if s == {} then []
    else
      var c := Least(s);
      var rest := SortedLabels(s - {c});
      assert forall d :: d in s <==> d == c || d in s - {c};
      assert forall i :: 0 <= i < |rest| ==> rest[i] in s - {c};
      [c] + rest
  }

  // ----- keys

  function LabelText(labels: seq<char>, edges: map<char, nat>, firstId: nat): string
    requires forall c :: c in labels ==> c in edges
  {
    if labels == [] then []
    else [labels[0]] + Decimal(firstId + edges[labels[0]]) + LabelText(labels[1..], edges, firstId)
  }

  /** Ids are given out in the order of creation, from the value the counter had at the start. */
  function Key(node: Node, firstId: nat): string {
    [if node.final then '1' else '0'] + LabelText(SortedLabels(node.edges.Keys), node.edges, firstId)
  }

  /** No digit has a smaller label beside it; in particular, any set without digits. */
  predicate Separable(letters: set<char>) {
    forall d, c :: d in letters && IsDigit(d) && c in letters ==> d <= c
  }

  /** Labels after the first are not digits. */
  predicate Parses(labels: seq<char>) {
    forall i :: 0 < i < |labels| ==> !IsDigit(labels[i])
  }

  lemma TextSplits(a: seq<char>, ea: map<char, nat>, firstId: nat)
    requires a != [] && Parses(a) && forall c :: c in a ==> c in ea
    ensures var text, rest := LabelText(a, ea, firstId), LabelText(a[1..], ea, firstId);
            && text != [] && text[0] == a[0] && text[1..] == Decimal(firstId + ea[a[0]]) + rest
            && (rest == [] || !IsDigit(rest[0]))
  {
    var number, rest := Decimal(firstId + ea[a[0]]), LabelText(a[1..], ea, firstId);
    FirstOfText(a[1..], ea, firstId);
    DropFirst(a[0], number, rest);
  }

  lemma FirstOfText(a: seq<char>, ea: map<char, nat>, firstId: nat)
    requires forall c :: c in a ==> c in ea
    ensures a == [] ==> LabelText(a, ea, firstId) == []
    ensures a != [] ==> LabelText(a, ea, firstId) != [] && LabelText(a, ea, firstId)[0] == a[0]
  {
  }

  lemma DropFirst(c: char, a: string, b: string)
    ensures ([c] + a + b)[0] == c && ([c] + a + b)[1..] == a + b
  {
  }

  lemma {:induction false} TextDeterminesEdges(
    a: seq<char>, ea: map<char, nat>, b: seq<char>, eb: map<char, nat>, firstId: nat)
    requires (forall c :: c in a ==> c in ea) && (forall c :: c in b ==> c in eb)
    requires Parses(a) && Parses(b)
    requires LabelText(a, ea, firstId) == LabelText(b, eb, firstId)
    ensures a == b && forall c :: c in a ==> ea[c] == eb[c]
    decreases |a|
  {
    if a != [] && b != [] {
      TextSplits(a, ea, firstId);
      TextSplits(b, eb, firstId);
      DigitsEnd(Decimal(firstId + ea[a[0]]), LabelText(a[1..], ea, firstId),
                Decimal(firstId + eb[b[0]]), LabelText(b[1..], eb, firstId));
      DecimalIsInjective(firstId + ea[a[0]], firstId + eb[b[0]]);
      TextDeterminesEdges(a[1..], ea, b[1..], eb, firstId);
      assert a == [a[0]] + a[1..] && b == [b[0]] + b[1..];
    }
  }

  lemma SeparableParses(labels: set<char>, letters: set<char>)
    requires Separable(letters) && labels <= letters
    ensures Parses(SortedLabels(labels))
  {
    var l := SortedLabels(labels);
    forall i | 0 < i < |l| ensures !IsDigit(l[i]) {
      assert l[0] in labels && l[i] in labels && l[0] < l[i];
    }
  }

  /** Over separable letters, the key of a node determines the node. */
  lemma KeyDeterminesNode(a: Node, b: Node, letters: set<char>, firstId: nat)
    requires Separable(letters) && a.edges.Keys <= letters && b.edges.Keys <= letters
    requires Key(a, firstId) == Key(b, firstId)
    ensures a == b
  {
    var la, lb := SortedLabels(a.edges.Keys), SortedLabels(b.edges.Keys);
    SeparableParses(a.edges.Keys, letters);
    SeparableParses(b.edges.Keys, letters);
    assert Key(a, firstId)[0] == Key(b, firstId)[0];
    assert LabelText(la, a.edges, firstId) == Key(a, firstId)[1..];
    assert LabelText(lb, b.edges, firstId) == Key(b, firstId)[1..];
    TextDeterminesEdges(la, a.edges, lb, b.edges, firstId);
    SameEdges(a.edges, b.edges);
  }

  lemma SameEdges(ea: map<char, nat>, eb: map<char, nat>)
    requires SortedLabels(ea.Keys) == SortedLabels(eb.Keys)
    requires forall c :: c in SortedLabels(ea.Keys) ==> ea[c] == eb[c]
    ensures ea == eb
  {
    var labels := SortedLabels(ea.Keys);
    assert forall c :: c in labels <==> c in ea.Keys;
    assert forall c :: c in labels <==> c in eb.Keys;
    assert ea.Keys == eb.Keys;
  }

  lemma LabelsOfOne(c: char)
    ensures SortedLabels({c}) == [c]
  {
    assert {c} - {c} == {};
    assert SortedLabels({c}) == [c] + SortedLabels({});
  }

  lemma LabelsOfTwo(c: char, d: char)
    requires c < d
    ensures SortedLabels({c, d}) == [c, d]
  {
    assert {c, d} - {c} == {d};
    LabelsOfOne(d);
    assert SortedLabels({c, d}) == [c] + SortedLabels({d});
  }

  lemma KeyOfOne(node: Node, c: char, firstId: nat)
    requires node.edges.Keys == {c}
    ensures Key(node, firstId) == [if node.final then '1' else '0'] + ([c] + Decimal(firstId + node.edges[c]))
  {
    LabelsOfOne(c);
    assert LabelText([c], node.edges, firstId) == [c] + Decimal(firstId + node.edges[c]) + [];
  }

  lemma KeyOfTwo(node: Node, c: char, d: char, firstId: nat)
    requires node.edges.Keys == {c, d} && c < d
    ensures Key(node, firstId) ==
            [if node.final then '1' else '0']
            + ([c] + (Decimal(firstId + node.edges[c]) + [d] + Decimal(firstId + node.edges[d])))
  {
    LabelsOfTwo(c, d);
    TextOfTwo(node.edges, c, d, firstId);
  }

  lemma TextOfTwo(edges: map<char, nat>, c: char, d: char, firstId: nat)
    requires c in edges && d in edges
    ensures LabelText([c, d], edges, firstId) ==
            [c] + (Decimal(firstId + edges[c]) + [d] + Decimal(firstId + edges[d]))
  {
    var dc, dd := Decimal(firstId + edges[c]), Decimal(firstId + edges[d]);
    assert [c, d][1..] == [d] && [d][1..] == [];
    assert LabelText([d], edges, firstId) == [d] + dd;
    Regroup([c], dc, [d], dd);
  }

  lemma Regroup(a: string, b: string, c: string, d: string)
    ensures a + b + (c + d) == a + (b + c + d)
  {
  }

  /** A digit with a smaller label beside it makes two different nodes share a key. */
  lemma ClashingNodes(c: char, d: char, firstId: nat) returns (a: Node, b: Node)
    requires IsDigit(d) && c < d
    ensures a != b && a.edges.Keys == {c, d} && b.edges.Keys == {c} && Key(a, firstId) == Key(b, firstId)
  {
    var k := ReadsAsOne(firstId + 1, d, firstId);
    a := KeyedFork(c, d, firstId);
    b := KeyedEdge(c, firstId, k);
    assert d in a.edges && d !in b.edges;
  }

  lemma KeyedFork(c: char, d: char, firstId: nat) returns (a: Node)
    requires c < d
    ensures a.edges.Keys == {c, d} && Key(a, firstId) == ['0'] + ([c] + (Decimal(firstId + 1) + [d] + Decimal(firstId)))
  {
    a := Node(false, map[c := 1, d := 0]);
    KeyOfTwo(a, c, d, firstId);
  }

  lemma KeyedEdge(c: char, firstId: nat, k: nat) returns (b: Node)
    requires k >= firstId
    ensures b.edges.Keys == {c} && Key(b, firstId) == ['0'] + ([c] + Decimal(k))
  {
    b := Node(false, map[c := k - firstId]);
    KeyOfOne(b, c, firstId);
  }

  /** Two numbers with a digit between them read as one number. */
  lemma ReadsAsOne(n: nat, d: char, m: nat) returns (k: nat)
    requires n > 0 && IsDigit(d)
    ensures k >= n && Decimal(k) == Decimal(n) + [d] + Decimal(m)
  {
    var j := DecimalsJoin(n, DigitValue(d));
    assert Decimal(DigitValue(d)) == [d];
    k := DecimalsJoin(j, m);
  }

  /** Keys tell nodes over the given letters apart exactly when the letters are separable. */
  lemma KeysAreFaithfulExactly(letters: set<char>, firstId: nat)
    ensures Separable(letters) <==>
            forall a: Node, b: Node | a.edges.Keys <= letters && b.edges.Keys <= letters ::
              Key(a, firstId) == Key(b, firstId) ==> a == b
  {
    if Separable(letters) {
      forall a: Node, b: Node | a.edges.Keys <= letters && b.edges.Keys <= letters && Key(a, firstId) == Key(b, firstId)
        ensures a == b
      {
        KeyDeterminesNode(a, b, letters, firstId);
      }
    } else {
      var d, c :| d in letters && IsDigit(d) && c in letters && c < d;
      var a, b := ClashingNodes(c, d, firstId);
    }
  }
}
