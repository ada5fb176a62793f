/**
 What a search term finds: the words of the index that its automaton and the index have in common.
 */
module Search {
  import opened Common
  import opened Automata
  import opened NodeKeys
  import opened BuilderSteps
  import opened TokenSetBuilder
  import opened TokenSets
  import opened TokenSetWords
  import opened Wildcards
  import opened Fuzzy
  import opened FuzzyEdits
  import opened Intersection

  /** What a clause with this term asks of a word; without an edit distance the term is a pattern. */
  ghost predicate AskedFor(term: string, editDistance: Option<nat>, w: string) {
    match editDistance
    case None => Matches(term, w)
    case Some(k) => Reads(term, k, w)
  }

  method FromClause(term: string, editDistance: Option<nat>) returns (query: seq<Node>)
    ensures |query| > 0 && WellFormed(query)
    ensures forall w :: w != [] ==> (WildAccepts(query, 0, w) <==> AskedFor(term, editDistance, w))
  {
    match editDistance
    case Some(k) =>
      query := FromFuzzyString(term, k);
    case None =>
      query := FromString(term);
  }

  /** The words of an index that a clause is expanded to. */
  method ExpandTerm(words: seq<string>, firstId: nat, term: string, editDistance: Option<nat>)
    returns (found: Option<seq<string>>)
    ensures found.Some? <==> InOrder(words)
    ensures found.Some? ==> Distinct(found.value)
    ensures found.Some? ==>
              forall w :: w in found.value <==>
                w != [] && Accepts(TokenSetOf(words, firstId), 0, w) && AskedFor(term, editDistance, w)
    ensures found.Some? && Separable(AllLetters(words)) ==>
              forall w :: w in found.value <==> w != [] && w in words && AskedFor(term, editDistance, w)
  {
    var set' := FromArray(words, firstId);
    if set'.None? {
      return None;
    }
    var query := FromClause(term, editDistance);
    var common := Intersect(set'.value, query);
    var listed := ToArray(common, 0);
    return Some(listed);
  }

  /** A token set lists the words it was made from, each once. */
  method ListAgain(words: seq<string>, firstId: nat) returns (listed: Option<seq<string>>)
    ensures listed.Some? <==> InOrder(words)
    ensures listed.Some? ==> Distinct(listed.value)
    ensures listed.Some? ==> forall w :: w in listed.value <==> Accepts(TokenSetOf(words, firstId), 0, w)
    ensures listed.Some? && Separable(AllLetters(words)) ==> forall w :: w in listed.value <==> w in words
  {
    var set' := FromArray(words, firstId);
    if set'.None? {
      return None;
    }
    var array' := ToArray(set'.value, 0);
    return Some(array');
  }

  /** A fuzzy search finds nothing further away than it was asked to look. */
  lemma FuzzySearchStaysNear(term: string, k: nat, w: string)
    requires WILDCARD !in term && AskedFor(term, Some(k), w)
    ensures Within(k, term, w)
  {
    FuzzyIsSound(term, k, w);
  }
}
