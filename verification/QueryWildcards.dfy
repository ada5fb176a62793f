/**
 What the automatic wildcards of a clause ask for: the term somewhere in the word.
 */
module QueryWildcards {
  import opened Common
  import opened Wildcards
  import opened QueryParsers

  /** w is a word for p followed by a word for q. */
  ghost predicate MatchesInTwo(p: string, q: string, w: string) {
    exists i :: 0 <= i <= |w| && Matches(p, w[..i]) && Matches(q, w[i..])
  }

  lemma InTwo(p: string, q: string, u: string, v: string)
    requires Matches(p, u) && Matches(q, v)
    ensures MatchesInTwo(p, q, u + v)
  {
    assert (u + v)[..|u|] == u && (u + v)[|u|..] == v;
  }

  /** A letter more in front of the first part. */
  lemma InTwoLonger(p: string, p': string, q: string, w: string)
    requires w != [] && MatchesInTwo(p, q, w[1..])
    requires forall u :: Matches(p, u) ==> Matches(p', [w[0]] + u)
    ensures MatchesInTwo(p', q, w)
  {
    var i :| 0 <= i <= |w[1..]| && Matches(p, w[1..][..i]) && Matches(q, w[1..][i..]);
    InTwo(p', q, [w[0]] + w[1..][..i], w[1..][i..]);
    assert [w[0]] + w[1..][..i] + w[1..][i..] == w;
  }

  lemma {:induction false} Splits(p: string, q: string, w: string)
    requires Matches(p + q, w)
    ensures MatchesInTwo(p, q, w)
    decreases |p| + |w|
  {
    if p == [] {
      assert p + q == q;
      assert w[..0] == [] && w[0..] == w;
    } else {
      assert (p + q)[1..] == p[1..] + q;
      if p[0] != WILDCARD {
        Splits(p[1..], q, w[1..]);
        LetterInFront(p, w[0]);
        InTwoLonger(p[1..], p, q, w);
      } else if Matches(p[1..] + q, w) {
        Splits(p[1..], q, w);
        var i :| 0 <= i <= |w| && Matches(p[1..], w[..i]) && Matches(q, w[i..]);
        assert Matches(p, w[..i]);
      } else {
        Splits(p, q, w[1..]);
        LetterInFront(p, w[0]);
        InTwoLonger(p, p, q, w);
      }
    }
  }

  lemma LetterInFront(p: string, c: char)
    requires p != []
    ensures p[0] == WILDCARD ==> forall u :: Matches(p, u) ==> Matches(p, [c] + u)
    ensures p[0] == c != WILDCARD ==> forall u :: Matches(p[1..], u) ==> Matches(p, [c] + u)
  {
    assert forall u: string :: ([c] + u)[1..] == u;
  }

  lemma {:induction false} Joins(p: string, q: string, u: string, v: string)
    requires Matches(p, u) && Matches(q, v)
    ensures Matches(p + q, u + v)
    decreases |p| + |u|
  {
    if p == [] {
      assert p + q == q && u + v == v;
    } else {
      assert (p + q)[1..] == p[1..] + q;
      if p[0] == WILDCARD && Matches(p[1..], u) {
        Joins(p[1..], q, u, v);
      } else {
        assert (u + v)[1..] == u[1..] + v;
        Joins(if p[0] == WILDCARD then p else p[1..], q, u[1..], v);
      }
    }
  }

  lemma {:induction false} StarMatches(w: string)
    ensures Matches("*", w)
  {
    if w != [] {
      StarMatches(w[1..]);
    }
  }

  /** A pattern without wildcards is matched by itself alone. */
  lemma {:induction false} LiteralMatchesItself(p: string, w: string)
    requires WILDCARD !in p
    ensures Matches(p, w) <==> w == p
    decreases |p|
  {
    if p != [] {
      assert p[0] in p;
      if w != [] {
        LiteralMatchesItself(p[1..], w[1..]);
        assert p == [p[0]] + p[1..] && w == [w[0]] + w[1..];
      }
    }
  }

  /** A pattern in two parts is matched by what is in two parts. */
  lemma MatchesInTwoExactly(p: string, q: string, w: string)
    ensures Matches(p + q, w) <==> MatchesInTwo(p, q, w)
  {
    if Matches(p + q, w) {
      Splits(p, q, w);
    }
    if MatchesInTwo(p, q, w) {
      var i :| 0 <= i <= |w| && Matches(p, w[..i]) && Matches(q, w[i..]);
      Joins(p, q, w[..i], w[i..]);
      assert w == w[..i] + w[i..];
    }
  }

  lemma SplitWord(w: string, i: nat)
    requires i <= |w|
    ensures w == w[..i] + w[i..]
  {
  }

  ghost predicate MatchesPrefix(term: string, w: string) {
    exists i :: 0 <= i <= |w| && Matches(term, w[..i])
  }

  ghost predicate MatchesSuffix(term: string, w: string) {
    exists i :: 0 <= i <= |w| && Matches(term, w[i..])
  }

  /** With a trailing wildcard, inserted or there already, a term matches what it matches a prefix of. */
  lemma TrailingMatchesPrefixes(term: string, w: string)
    ensures Matches(WithTrailing(term, TRAILING), w) <==> MatchesPrefix(term, w)
  {
    var completed := WithTrailing(term, TRAILING);
    var body := completed[..|completed| - 1];
    assert completed == body + "*";
    if Matches(completed, w) {
      if completed == term {
        assert w[..|w|] == w;
      } else {
        Splits(term, "*", w);
      }
    }
    if MatchesPrefix(term, w) {
      var i :| 0 <= i <= |w| && Matches(term, w[..i]);
      SplitWord(w, i);
      if completed == term {
        Splits(body, "*", w[..i]);
        var j :| 0 <= j <= i && Matches(body, w[..i][..j]);
        StarMatches(w[j..]);
        assert w[..i][..j] == w[..j];
        SplitWord(w, j);
        Joins(body, "*", w[..j], w[j..]);
      } else {
        StarMatches(w[i..]);
        Joins(term, "*", w[..i], w[i..]);
      }
    }
  }

  lemma StarFirstMatchesSuffixes(term: string, w: string)
    ensures Matches("*" + term, w) <==> MatchesSuffix(term, w)
  {
    if Matches("*" + term, w) {
      Splits("*", term, w);
    }
    if MatchesSuffix(term, w) {
      var i :| 0 <= i <= |w| && Matches(term, w[i..]);
      SplitWord(w, i);
      StarMatches(w[..i]);
      Joins("*", term, w[..i], w[i..]);
    }
  }

  lemma StarThereMatchesSuffixes(term: string, w: string)
    requires term != [] && term[0] == WILDCARD
    ensures Matches(term, w) <==> MatchesSuffix(term, w)
  {
    if Matches(term, w) {
      assert w[0..] == w;
    }
    if MatchesSuffix(term, w) {
      var i :| 0 <= i <= |w| && Matches(term, w[i..]);
      SplitWord(w, i);
      WildcardSwallows(term, w[..i], w[i..]);
    }
  }

  /** With a leading wildcard, inserted or there already, a term matches what it matches a suffix of. */
  lemma LeadingMatchesSuffixes(term: string, w: string)
    ensures Matches(WithLeading(term, LEADING), w) <==> MatchesSuffix(term, w)
  {
    if term != [] && term[0] == WILDCARD {
      StarThereMatchesSuffixes(term, w);
    } else {
      StarFirstMatchesSuffixes(term, w);
    }
  }

  /** With both, a term matches what it matches a part of. */
  lemma BothMatchParts(term: string, w: string)
    ensures Matches(Completed(EMPTY.(term := term, wildcard := Some(LEADING + TRAILING)), []).term, w) <==>
            exists i :: 0 <= i <= |w| && MatchesSuffix(term, w[..i])
  {
    var leading := WithLeading(term, LEADING);
    assert Completed(EMPTY.(term := term, wildcard := Some(LEADING + TRAILING)), []).term == WithTrailing(leading, TRAILING);
    TrailingMatchesPrefixes(leading, w);
    forall i | 0 <= i <= |w| ensures Matches(leading, w[..i]) <==> MatchesSuffix(term, w[..i]) {
      LeadingMatchesSuffixes(term, w[..i]);
    }
  }

  /** The term a clause ends up with: a wildcard is added where it is asked for and not there yet. */
  lemma CompletedTerm(draft: Draft, allFields: seq<string>)
    ensures var term := Completed(draft, allFields).term;
            match draft.wildcard
            case None => term == draft.term
            case Some(w) =>
              && (w == 0 ==> term == draft.term)
              && (w == 1 ==> term == if "*" <= draft.term then draft.term else "*" + draft.term)
              && (w == 2 ==> term == if draft.term != [] && draft.term[|draft.term| - 1] == '*' then draft.term else draft.term + "*")
              && (w == 3 && draft.term == [] ==> term == "*")
              && (w == 3 && draft.term != [] ==>
                    term == (if "*" <= draft.term then [] else "*") + draft.term
                            + (if draft.term[|draft.term| - 1] == '*' then [] else "*"))
  {
    if draft.wildcard == Some(3) && draft.term != [] {
      var leading := WithLeading(draft.term, 3);
      assert leading == (if "*" <= draft.term then [] else "*") + draft.term;
      assert leading[|leading| - 1] == draft.term[|draft.term| - 1];
    }
  }
}
