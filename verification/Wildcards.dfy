/**
 Query automata: the label '*' stands for any one character, and a node may have both a
 literal and a wildcard edge for the next character.
 */
module Wildcards {
  import opened Common
  import opened Automata

  const WILDCARD: char := '*'

  predicate WildAccepts(nodes: seq<Node>, q: nat, w: string)
    decreases |w|
  {
    q < |nodes| &&
    if w == [] then nodes[q].final
    else
      || (w[0] in nodes[q].edges && WildAccepts(nodes, nodes[q].edges[w[0]], w[1..]))
      || (WILDCARD in nodes[q].edges && WildAccepts(nodes, nodes[q].edges[WILDCARD], w[1..]))
  }

  /** Reading p can lead from q to r. */
  predicate WildReaches(nodes: seq<Node>, q: nat, p: string, r: nat)
    decreases |p|
  {
    q < |nodes| && r < |nodes| &&
    if p == [] then q == r
    else
      || (p[0] in nodes[q].edges && WildReaches(nodes, nodes[q].edges[p[0]], p[1..], r))
      || (WILDCARD in nodes[q].edges && WildReaches(nodes, nodes[q].edges[WILDCARD], p[1..], r))
  }

  lemma {:induction false} WildReachesOneMore(nodes: seq<Node>, q: nat, p: string, r: nat, c: char, e: char)
    requires WildReaches(nodes, q, p, r) && (e == c || e == WILDCARD)
    requires e in nodes[r].edges && nodes[r].edges[e] < |nodes|
    ensures WildReaches(nodes, q, p + [c], nodes[r].edges[e])
    decreases |p|
  {
    var s := nodes[r].edges[e];
    if p == [] {
      assert (p + [c])[1..] == [];
      assert WildReaches(nodes, s, [], s);
    } else {
      assert (p + [c])[1..] == p[1..] + [c];
      if p[0] in nodes[q].edges && WildReaches(nodes, nodes[q].edges[p[0]], p[1..], r) {
        WildReachesOneMore(nodes, nodes[q].edges[p[0]], p[1..], r, c, e);
      } else {
        WildReachesOneMore(nodes, nodes[q].edges[WILDCARD], p[1..], r, c, e);
      }
    }
  }

  lemma {:induction false} WildAcceptsThere(nodes: seq<Node>, q: nat, p: string, r: nat, w: string)
    requires WildReaches(nodes, q, p, r) && WildAccepts(nodes, r, w)
    ensures WildAccepts(nodes, q, p + w)
    decreases |p|
  {
    if p == [] {
      assert p + w == w;
    } else {
      assert (p + w)[1..] == p[1..] + w;
      if p[0] in nodes[q].edges && WildReaches(nodes, nodes[q].edges[p[0]], p[1..], r) {
        WildAcceptsThere(nodes, nodes[q].edges[p[0]], p[1..], r, w);
      } else {
        WildAcceptsThere(nodes, nodes[q].edges[WILDCARD], p[1..], r, w);
      }
    }
  }

  // ----- patterns

  /** Whether a word matches a pattern in which '*' stands for any run of characters. */
  predicate Matches(pattern: string, w: string)
    decreases |pattern| + |w|
  {
    if pattern == [] then w == []
    else if pattern[0] == WILDCARD then Matches(pattern[1..], w) || (w != [] && Matches(pattern, w[1..]))
    else w != [] && w[0] == pattern[0] && Matches(pattern[1..], w[1..])
  }

  /** A leading wildcard swallows any run. */
  lemma {:induction false} WildcardSwallows(pattern: string, u: string, w: string)
    requires pattern != [] && pattern[0] == WILDCARD && Matches(pattern, w)
    ensures Matches(pattern, u + w)
    decreases |u|
  {
    if u == [] {
      assert u + w == w;
    } else {
      WildcardSwallows(pattern, u[1..], w);
      assert (u + w)[1..] == u[1..] + w;
    }
  }

  // ----- the automaton of a pattern

  /** The state of the loop of `fromString`. */
  datatype Reader = Reader(nodes: seq<Node>, node: nat, wildcardFound: bool)

  function Read(r: Reader, c: char, last: bool): (r': Reader)
    requires r.node < |r.nodes|
    ensures r'.node < |r'.nodes|
  {
    var here := r.nodes[r.node];
    if c == WILDCARD then
      Reader(r.nodes[r.node := Node(last, here.edges[c := r.node])], r.node, true)
    else
      var next := |r.nodes|;
      Reader(r.nodes[r.node := Node(here.final, here.edges[c := next])]
             + [Node(last, if r.wildcardFound then map[WILDCARD := 0] else map[])],
             next, r.wildcardFound)
  }

  /** The state after i characters. */
  function Reading(pattern: string, i: nat): (r: Reader)
    requires i <= |pattern|
    ensures r.node < |r.nodes|
  {
    if i == 0 then Reader([Node(false, map[])], 0, false)
    else Read(Reading(pattern, i - 1), pattern[i - 1], i == |pattern|)
  }

  /** The node reached after i characters: wildcards stay where they are. */
  function Place(pattern: string, i: nat): nat
    requires i <= |pattern|
  {
    if i == 0 then 0 else Place(pattern, i - 1) + (if pattern[i - 1] == WILDCARD then 0 else 1)
  }

  lemma {:induction false} PlaceGrows(pattern: string, i: nat, j: nat)
    requires i <= j <= |pattern|
    ensures Place(pattern, i) <= Place(pattern, j)
    ensures Place(pattern, i) == Place(pattern, j) ==> forall t :: i <= t < j ==> pattern[t] == WILDCARD
    decreases j - i
  {
    if i < j {
      PlaceGrows(pattern, i, j - 1);
    }
  }

  predicate StarBefore(pattern: string, i: nat)
    requires i <= |pattern|
  {
    exists t :: 0 <= t < i && pattern[t] == WILDCARD
  }

  /** One of the first i characters is c, read at node k. */
  ghost predicate ReadAt(pattern: string, i: nat, k: nat, c: char)
    requires i <= |pattern|
  {
    exists j :: 0 <= j < i && pattern[j] == c && Place(pattern, j) == k
  }

  /** One of the first i characters is a wildcard, read at a node before k. */
  ghost predicate StarReadBefore(pattern: string, i: nat, k: nat)
    requires i <= |pattern|
  {
    exists j :: 0 <= j < i && pattern[j] == WILDCARD && Place(pattern, j) < k
  }

  /** Why an edge is there: a literal, a wildcard that loops, or the extra wildcard edge to the root. */
  ghost predicate EdgeShape(pattern: string, i: nat, k: nat, c: char, target: nat)
    requires i <= |pattern|
  {
    if c != WILDCARD then target == k + 1 && ReadAt(pattern, i, k, c)
    else (target == k && ReadAt(pattern, i, k, c)) || (target == 0 && StarReadBefore(pattern, i, k))
  }

  ghost predicate EdgesShaped(pattern: string, i: nat, nodes: seq<Node>)
    requires i <= |pattern|
  {
    forall k, c :: 0 <= k < |nodes| && c in nodes[k].edges ==> EdgeShape(pattern, i, k, c, nodes[k].edges[c])
  }

  /** The j-th character has its edge. */
  predicate HasEdge(pattern: string, nodes: seq<Node>, j: nat)
    requires j < |pattern|
  {
    var k := Place(pattern, j);
    k < |nodes| && pattern[j] in nodes[k].edges && nodes[k].edges[pattern[j]] == Place(pattern, j + 1)
  }

  ghost predicate ReaderShape(pattern: string, i: nat, r: Reader)
    requires i <= |pattern|
  {
    && r.node == Place(pattern, i) && |r.nodes| == r.node + 1
    && (r.wildcardFound <==> StarBefore(pattern, i))
    && (forall j :: 0 <= j < i ==> HasEdge(pattern, r.nodes, j))
    && EdgesShaped(pattern, i, r.nodes)
    && (forall k :: 0 <= k < |r.nodes| ==> (r.nodes[k].final <==> k == r.node && i > 0 && i == |pattern|))
  }

  lemma EdgeShapeLasts(pattern: string, i: nat, k: nat, c: char, target: nat)
    requires i < |pattern| && EdgeShape(pattern, i, k, c, target)
    ensures EdgeShape(pattern, i + 1, k, c, target)
  {
    if ReadAt(pattern, i, k, c) {
      var j :| 0 <= j < i && pattern[j] == c && Place(pattern, j) == k;
      assert ReadAt(pattern, i + 1, k, c);
    }
    if StarReadBefore(pattern, i, k) {
      var j :| 0 <= j < i && pattern[j] == WILDCARD && Place(pattern, j) < k;
      assert StarReadBefore(pattern, i + 1, k);
    }
  }

  lemma {:induction false} ReadingHasShape(pattern: string, i: nat)
    requires i <= |pattern|
    ensures ReaderShape(pattern, i, Reading(pattern, i))
    decreases i
  {
    if i > 0 {
      ReadingHasShape(pattern, i - 1);
      if pattern[i - 1] == WILDCARD {
        ReadStar(pattern, i - 1, Reading(pattern, i - 1));
      } else {
        ReadLiteral(pattern, i - 1, Reading(pattern, i - 1));
      }
    }
  }

  lemma StarOneMore(pattern: string, i: nat)
    requires i < |pattern|
    ensures StarBefore(pattern, i + 1) <==> StarBefore(pattern, i) || pattern[i] == WILDCARD
  {
  }

  lemma ReadStar(pattern: string, i: nat, r: Reader)
    requires i < |pattern| && pattern[i] == WILDCARD && ReaderShape(pattern, i, r)
    ensures ReaderShape(pattern, i + 1, Read(r, pattern[i], i + 1 == |pattern|))
  {
    var r' := Read(r, pattern[i], i + 1 == |pattern|);
    StarOneMore(pattern, i);
    forall j | 0 <= j < i + 1 ensures HasEdge(pattern, r'.nodes, j) {
      PlaceGrows(pattern, j, i);
      assert j < i ==> HasEdge(pattern, r.nodes, j);
    }
    forall k, c | 0 <= k < |r'.nodes| && c in r'.nodes[k].edges
      ensures EdgeShape(pattern, i + 1, k, c, r'.nodes[k].edges[c])
    {
      if k == r.node && c == WILDCARD {
        assert ReadAt(pattern, i + 1, k, c);
      } else {
        EdgeShapeLasts(pattern, i, k, c, r.nodes[k].edges[c]);
      }
    }
  }

  lemma ReadLiteral(pattern: string, i: nat, r: Reader)
    requires i < |pattern| && pattern[i] != WILDCARD && ReaderShape(pattern, i, r)
    ensures ReaderShape(pattern, i + 1, Read(r, pattern[i], i + 1 == |pattern|))
  {
    var r' := Read(r, pattern[i], i + 1 == |pattern|);
    StarOneMore(pattern, i);
    forall j | 0 <= j < i + 1 ensures HasEdge(pattern, r'.nodes, j) {
      PlaceGrows(pattern, j, i);
      assert j < i ==> HasEdge(pattern, r.nodes, j);
    }
    LiteralEdges(pattern, i, r);
  }

  lemma LiteralEdges(pattern: string, i: nat, r: Reader)
    requires i < |pattern| && pattern[i] != WILDCARD && ReaderShape(pattern, i, r)
    ensures EdgesShaped(pattern, i + 1, Read(r, pattern[i], i + 1 == |pattern|).nodes)
  {
    var r' := Read(r, pattern[i], i + 1 == |pattern|);
    forall k, c | 0 <= k < |r'.nodes| && c in r'.nodes[k].edges
      ensures EdgeShape(pattern, i + 1, k, c, r'.nodes[k].edges[c])
    {
      if k == |r.nodes| {
        var j :| 0 <= j < i && pattern[j] == WILDCARD;
        PlaceGrows(pattern, j, i);
        assert StarReadBefore(pattern, i + 1, k);
      } else if k == r.node && c == pattern[i] {
        assert ReadAt(pattern, i + 1, k, c);
      } else {
        EdgeShapeLasts(pattern, i, k, c, r.nodes[k].edges[c]);
      }
    }
  }

  lemma ReadingIsWellFormed(pattern: string)
    ensures WellFormed(Reading(pattern, |pattern|).nodes)
  {
    var nodes := Reading(pattern, |pattern|).nodes;
    ReadingHasShape(pattern, |pattern|);
    forall k, c | 0 <= k < |nodes| && c in nodes[k].edges ensures nodes[k].edges[c] < |nodes| {
      assert EdgeShape(pattern, |pattern|, k, c, nodes[k].edges[c]);
      if c != WILDCARD {
        var j :| 0 <= j < |pattern| && pattern[j] == c && Place(pattern, j) == k;
        PlaceGrows(pattern, j + 1, |pattern|);
      }
    }
  }

  // ----- what the automaton accepts

  /** Everything that matches is accepted. */
  lemma {:induction false} MatchesAreAccepted(pattern: string, r: Reader, i: nat, w: string)
    requires pattern != [] && ReaderShape(pattern, |pattern|, r) && i <= |pattern| && Matches(pattern[i..], w)
    ensures WildAccepts(r.nodes, Place(pattern, i), w)
    decreases |pattern| - i + |w|
  {
    PlaceGrows(pattern, i, |pattern|);
    if i < |pattern| {
      assert pattern[i..][1..] == pattern[i + 1..] && pattern[i..][0] == pattern[i];
      assert HasEdge(pattern, r.nodes, i);
      if pattern[i] == WILDCARD {
        if Matches(pattern[i + 1..], w) {
          MatchesAreAccepted(pattern, r, i + 1, w);
        } else {
          MatchesAreAccepted(pattern, r, i, w[1..]);
        }
      } else {
        MatchesAreAccepted(pattern, r, i + 1, w[1..]);
      }
    }
  }

  lemma {:induction false} SkipStars(pattern: string, i: nat, j: nat, w: string)
    requires i <= j <= |pattern| && (forall t :: i <= t < j ==> pattern[t] == WILDCARD) && Matches(pattern[j..], w)
    ensures Matches(pattern[i..], w)
    decreases j - i
  {
    if i < j {
      SkipStars(pattern, i + 1, j, w);
      assert pattern[i..][1..] == pattern[i + 1..];
    }
  }

  /** Before the first wildcard a pattern is matched letter by letter. */
  lemma {:induction false} LiteralPrefix(pattern: string, i: nat, v: string)
    requires i <= |pattern| && !StarBefore(pattern, i) && Matches(pattern, v)
    ensures |v| >= i && Matches(pattern[i..], v[i..])
    decreases i
  {
    if i > 0 {
      LiteralPrefix(pattern, i - 1, v);
      assert pattern[i - 1..][1..] == pattern[i..] && pattern[i - 1..][0] == pattern[i - 1];
      assert pattern[i - 1] != WILDCARD;
      assert v[i - 1..][1..] == v[i..];
    }
  }

  /** Some proper rest of w matches the whole pattern. */
  ghost predicate RestMatches(pattern: string, w: string) {
    exists j :: 0 < j <= |w| && Matches(pattern, w[j..])
  }

  lemma RestOfRest(pattern: string, w: string)
    requires w != [] && (RestMatches(pattern, w[1..]) || Matches(pattern, w[1..]))
    ensures RestMatches(pattern, w)
  {
    if j :| 0 < j <= |w[1..]| && Matches(pattern, w[1..][j..]) {
      assert w[1..][j..] == w[j + 1..];
    }
  }

  /** At the first wildcard, a match of the whole pattern further on is a match from here. */
  lemma FirstStarSwallows(pattern: string, i: nat, w: string)
    requires i < |pattern| && pattern[i] == WILDCARD && !StarBefore(pattern, i) && RestMatches(pattern, w)
    ensures Matches(pattern[i..], w)
  {
    var j :| 0 < j <= |w| && Matches(pattern, w[j..]);
    var v := w[j..];
    LiteralPrefix(pattern, i, v);
    WildcardSwallows(pattern[i..], w[..j] + v[..i], v[i..]);
    assert w[..j] + v[..i] + v[i..] == w;
  }

  /** A position to which the previous character led by its own edge. */
  predicate Arrived(pattern: string, i: nat)
    requires i <= |pattern|
  {
    i == 0 || pattern[i - 1] != WILDCARD
  }

  lemma ArrivedIsHigher(pattern: string, i: nat, j: nat)
    requires j < i <= |pattern| && Arrived(pattern, i)
    ensures Place(pattern, j) < Place(pattern, i)
  {
    PlaceGrows(pattern, j, i - 1);
  }

  lemma ArrivedIsFirst(pattern: string, i: nat, j: nat)
    requires i <= |pattern| && j <= |pattern| && Arrived(pattern, i) && Place(pattern, j) == Place(pattern, i)
    ensures i <= j && forall t :: i <= t < j ==> pattern[t] == WILDCARD
  {
    if j < i {
      ArrivedIsHigher(pattern, i, j);
    } else {
      PlaceGrows(pattern, i, j);
    }
  }

  /** What the node of position i accepts: matches from there on, or restarts after a wildcard. */
  ghost predicate Covered(pattern: string, i: nat, w: string)
    requires i <= |pattern|
  {
    Matches(pattern[i..], w) || (StarBefore(pattern, i) && RestMatches(pattern, w))
  }

  lemma CoveredAfterLiteral(pattern: string, i: nat, j: nat, w: string)
    requires j < |pattern| && i <= |pattern| && Arrived(pattern, i) && Place(pattern, j) == Place(pattern, i)
    requires w != [] && w[0] == pattern[j] != WILDCARD && Covered(pattern, j + 1, w[1..])
    ensures Covered(pattern, i, w)
  {
    ArrivedIsFirst(pattern, i, j);
    assert pattern[j..][1..] == pattern[j + 1..];
    if Matches(pattern[j + 1..], w[1..]) {
      SkipStars(pattern, i, j, w);
    } else {
      RestOfRest(pattern, w);
      if !StarBefore(pattern, i) {
        assert i < j;
        FirstStarSwallows(pattern, i, w);
      }
    }
  }

  lemma CoveredAfterLoop(pattern: string, i: nat, j: nat, w: string)
    requires j < |pattern| && i <= |pattern| && Arrived(pattern, i) && Place(pattern, j) == Place(pattern, i)
    requires w != [] && pattern[j] == WILDCARD && Covered(pattern, i, w[1..])
    ensures Covered(pattern, i, w)
  {
    ArrivedIsFirst(pattern, i, j);
    assert pattern[i..][0] == pattern[i] == WILDCARD;
    if !Matches(pattern[i..], w[1..]) {
      RestOfRest(pattern, w);
    }
  }

  lemma CoveredAfterReturn(pattern: string, i: nat, w: string)
    requires i <= |pattern| && StarReadBefore(pattern, |pattern|, Place(pattern, i))
    requires w != [] && Covered(pattern, 0, w[1..])
    ensures Covered(pattern, i, w)
  {
    var j :| 0 <= j < |pattern| && pattern[j] == WILDCARD && Place(pattern, j) < Place(pattern, i);
    if i <= j {
      PlaceGrows(pattern, i, j);
    }
    assert pattern[0..] == pattern;
    RestOfRest(pattern, w);
  }

  /**
   Everything accepted matches. After a wildcard, the extra edges to the root may have restarted
   the pattern; what they accept is covered by the wildcard.
   */
  lemma {:induction false} AcceptedIsCovered(pattern: string, r: Reader, i: nat, w: string)
    requires ReaderShape(pattern, |pattern|, r) && i <= |pattern| && Arrived(pattern, i)
    requires WildAccepts(r.nodes, Place(pattern, i), w)
    ensures Covered(pattern, i, w)
    decreases |w|
  {
    var k := Place(pattern, i);
    if w == [] {
      ArrivedIsFirst(pattern, i, |pattern|);
      assert pattern[|pattern|..] == [];
      SkipStars(pattern, i, |pattern|, []);
    } else if w[0] != WILDCARD && w[0] in r.nodes[k].edges && WildAccepts(r.nodes, r.nodes[k].edges[w[0]], w[1..]) {
      assert EdgeShape(pattern, |pattern|, k, w[0], r.nodes[k].edges[w[0]]);
      var j :| 0 <= j < |pattern| && pattern[j] == w[0] && Place(pattern, j) == k;
      AcceptedIsCovered(pattern, r, j + 1, w[1..]);
      CoveredAfterLiteral(pattern, i, j, w);
    } else {
      assert EdgeShape(pattern, |pattern|, k, WILDCARD, r.nodes[k].edges[WILDCARD]);
      if r.nodes[k].edges[WILDCARD] == k && ReadAt(pattern, |pattern|, k, WILDCARD) {
        var j :| 0 <= j < |pattern| && pattern[j] == WILDCARD && Place(pattern, j) == k;
        AcceptedIsCovered(pattern, r, i, w[1..]);
        CoveredAfterLoop(pattern, i, j, w);
      } else {
        AcceptedIsCovered(pattern, r, 0, w[1..]);
        CoveredAfterReturn(pattern, i, w);
      }
    }
  }

  /** The automaton of a non-empty pattern accepts exactly the words that match it; that of the empty one accepts none. */
  lemma PatternAutomatonIsExact(pattern: string, w: string)
    ensures WildAccepts(Reading(pattern, |pattern|).nodes, 0, w) <==> pattern != [] && Matches(pattern, w)
  {
    var r := Reading(pattern, |pattern|);
    ReadingHasShape(pattern, |pattern|);
    assert pattern[0..] == pattern;
    if pattern != [] && Matches(pattern, w) {
      MatchesAreAccepted(pattern, r, 0, w);
    }
    if pattern != [] && WildAccepts(r.nodes, 0, w) {
      AcceptedIsCovered(pattern, r, 0, w);
    }
  }

  method FromString(pattern: string) returns (nodes: seq<Node>)
    ensures nodes == Reading(pattern, |pattern|).nodes
    ensures |nodes| > 0 && WellFormed(nodes)
    ensures forall w :: WildAccepts(nodes, 0, w) <==> pattern != [] && Matches(pattern, w)
  {
    nodes := [Node(false, map[])];
    var node: nat, wildcardFound := 0, false;
    var i := 0;
    while i < |pattern|
      invariant i <= |pattern| && Reader(nodes, node, wildcardFound) == Reading(pattern, i)
    {
      var c, final := pattern[i], i == |pattern| - 1;
      if c == WILDCARD {
        wildcardFound := true;
        nodes := nodes[node := Node(nodes[node].final, nodes[node].edges[c := node])];
        nodes := nodes[node := Node(final, nodes[node].edges)];
      } else {
        var next := |nodes|;
        nodes := nodes + [Node(final, map[])];
        nodes := nodes[node := Node(nodes[node].final, nodes[node].edges[c := next])];
        node := next;
        if wildcardFound {
          nodes := nodes[node := Node(nodes[node].final, nodes[node].edges[WILDCARD := 0])];
        }
      }
      i := i + 1;
    }
    ReadingIsWellFormed(pattern);
    forall w ensures WildAccepts(nodes, 0, w) <==> pattern != [] && Matches(pattern, w) {
      PatternAutomatonIsExact(pattern, w);
    }
  }
}
