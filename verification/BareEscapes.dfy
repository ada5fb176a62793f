/**
 Search strings that end in a lone escape character: the one case in which the clauses of a
 string cannot be printed and parsed again.
 */
module BareEscapes {
  import opened Common
  import opened Decimals
  import opened Wildcards
  import opened QueryLexers
  import opened QueryParsers
  import opened QueryRoundTrips

  /** Where the lexer goes on behind the character that ends a text. */
  function Behind(t: string, n: nat): nat
    requires n < |t|
    ensures n < Behind(t, n) <= |t|
  {
    if t[n] == '~' || t[n] == '^' then n + 1 + DigitRun(t[n + 1..]) else n + 1
  }

  /** The last text of the string is one escape character and nothing else. */
  predicate EndsBare(t: string)
    decreases |t|
  {
    var n := TextLength(t);
    if n >= |t| then t == [ESCAPE] else EndsBare(t[Behind(t, n)..])
  }

  predicate IsBare(l: Lexeme) {
    l.kind == TERM && l.str == []
  }

  predicate SomeBare(ls: seq<Lexeme>) {
    exists l :: l in ls && IsBare(l)
  }

  // ----- which strings have an empty term

  lemma UnescapeIsEmpty(t: string)
    ensures Unescape(t) == [] <==> t == [] || t == [ESCAPE]
  {
  }

  /** A text that does not end the string is not a lone escape character. */
  lemma {:induction false} EscapeNeedsCharacter(t: string)
    requires 0 < TextLength(t) < |t|
    ensures t[..TextLength(t)] != [ESCAPE]
  {
  }

  lemma TermIsBare(t: string, at: nat)
    ensures SomeBare(TermOf(t, at)) <==> TextLength(t) >= |t| && t == [ESCAPE]
  {
    var n := TextLength(t);
    UnescapeIsEmpty(Slice(t, 0, n));
    if 0 < n < |t| {
      EscapeNeedsCharacter(t);
      assert Slice(t, 0, n) == t[..n];
    } else if n >= |t| > 0 {
      assert Slice(t, 0, n) == t;
      assert TermOf(t, at)[0] in TermOf(t, at);
    }
  }

  lemma BareInParts(a: seq<Lexeme>, b: seq<Lexeme>)
    ensures SomeBare(a + b) <==> SomeBare(a) || SomeBare(b)
  {
  }

  // one step of the grammar

  lemma FrontOfField(t: string, n: nat, at: nat, rest: string, end: nat) returns (front: seq<Lexeme>)
    requires n == TextLength(t) < |t| && t[n] == ':' && rest == t[n + 1..] && end == at + n + 1
    ensures Lexemes(t, at) == front + Lexemes(rest, end) && !SomeBare(front)
  {
    AtColon(t, n, t[..n], rest, at, end - 1);
    front := [Lexeme(FIELD, Unescape(t[..n]), at, end - 1)];
  }

  lemma TermIsNotBare(t: string, at: nat)
    requires TextLength(t) < |t|
    ensures !SomeBare(TermOf(t, at))
  {
    TermIsBare(t, at);
  }

  lemma FrontOfSeparator(t: string, n: nat, at: nat, rest: string, end: nat) returns (front: seq<Lexeme>)
    requires n == TextLength(t) < |t| && t[n] != ':' && t[n] != '~' && t[n] != '^' && rest == t[n + 1..] && end == at + n + 1
    ensures Lexemes(t, at) == front + Lexemes(rest, end) && !SomeBare(front)
  {
    var mark := t[n..];
    TextThenMark(t, n, mark, at, end - 1);
    assert mark[1..] == rest;
    front := TermOf(t, at);
    TermIsNotBare(t, at);
  }

  lemma FrontOfNumber(t: string, n: nat, at: nat, kind: Kind, d: string, rest: string, to: nat, end: nat)
    returns (front: seq<Lexeme>)
    requires n == TextLength(t) < |t| && StartsNumber(t[n], kind) && to == at + n && end == to + 1 + |d|
    requires |d| == DigitRun(t[n + 1..]) && d == t[n + 1..][..|d|] && rest == t[n + 1 + |d|..]
    ensures Lexemes(t, at) == front + Lexemes(rest, end) && !SomeBare(front)
  {
    var mark, term, number := t[n..], TermOf(t, at), [Lexeme(kind, d, to + 1, end)];
    TextThenMark(t, n, mark, at, to);
    MarkAndDigits(t, n, d, rest);
    AtNumber(mark, kind, d, rest, to, end);
    front := term + number;
    TermIsNotBare(t, at);
    BareInParts(term, number);
    ThreeParts(term, number, Lexemes(rest, end));
  }

  lemma MarkAndDigits(t: string, n: nat, d: string, rest: string)
    requires n + 1 + |d| <= |t| && d == t[n + 1..][..|d|] && rest == t[n + 1 + |d|..]
    ensures var mark := t[n..];
            mark[0] == t[n] && mark[1..] == t[n + 1..] && mark[1..][..|d|] == d && mark[1 + |d|..] == rest
  {
  }

  lemma ThreeParts(a: seq<Lexeme>, b: seq<Lexeme>, c: seq<Lexeme>)
    ensures a + (b + c) == (a + b) + c
  {
  }

  lemma NumberSlices(t: string, n: nat, e: nat)
    requires n < |t| && (t[n] == '~' || t[n] == '^') && e == Behind(t, n)
    ensures var d := t[n + 1..e];
            && |d| == DigitRun(t[n + 1..]) && d == t[n + 1..][..|d|] && t[e..] == t[n + 1 + |d|..]
  {
  }

  lemma StepOverNumber(t: string, n: nat, at: nat, e: nat, end: nat, kind: Kind) returns (front: seq<Lexeme>)
    requires n == TextLength(t) < |t| && StartsNumber(t[n], kind) && e == Behind(t, n) && end == at + e
    ensures Lexemes(t, at) == front + Lexemes(t[e..], end) && !SomeBare(front)
  {
    NumberSlices(t, n, e);
    front := FrontOfNumber(t, n, at, kind, t[n + 1..e], t[e..], at + n, end);
  }

  lemma OneStep(t: string, n: nat, at: nat, e: nat, end: nat) returns (front: seq<Lexeme>)
    requires n == TextLength(t) < |t| && e == Behind(t, n) && end == at + e
    ensures Lexemes(t, at) == front + Lexemes(t[e..], end) && !SomeBare(front)
  {
    if t[n] == ':' {
      front := FrontOfField(t, n, at, t[e..], end);
    } else if t[n] == '~' || t[n] == '^' {
      front := StepOverNumber(t, n, at, e, end, if t[n] == '~' then EDIT_DISTANCE else BOOST);
    } else {
      front := FrontOfSeparator(t, n, at, t[e..], end);
    }
  }

  /** An empty term among the lexemes is a lone escape character at the end of the string. */
  lemma {:induction false} BareLexemeExactly(t: string, at: nat)
    ensures SomeBare(Lexemes(t, at)) <==> EndsBare(t)
    decreases |t|
  {
    var n := TextLength(t);
    if n >= |t| {
      TermIsBare(t, at);
    } else {
      var rest, to := t[Behind(t, n)..], at + Behind(t, n);
      var front := OneStep(t, n, at, Behind(t, n), to);
      BareLexemeExactly(rest, to);
      BareInParts(front, Lexemes(rest, to));
    }
  }

  /** Only the last lexeme can be an empty term. */
  predicate BareIsLast(ls: seq<Lexeme>) {
    forall i :: 0 <= i < |ls| - 1 ==> !IsBare(ls[i])
  }

  lemma BareIsLastBehind(front: seq<Lexeme>, ls: seq<Lexeme>)
    requires !SomeBare(front) && BareIsLast(ls)
    ensures BareIsLast(front + ls)
  {
    forall i | 0 <= i < |front + ls| - 1 ensures !IsBare((front + ls)[i]) {
      if i < |front| {
        assert front[i] in front;
      } else {
        assert (front + ls)[i] == ls[i - |front|];
      }
    }
  }

  lemma {:induction false} BareLexemeIsLast(t: string, at: nat)
    ensures BareIsLast(Lexemes(t, at))
    decreases |t|
  {
    var n := TextLength(t);
    if n < |t| {
      var rest, to := t[Behind(t, n)..], at + Behind(t, n);
      var front := OneStep(t, n, at, Behind(t, n), to);
      BareLexemeIsLast(rest, to);
      BareIsLastBehind(front, Lexemes(rest, to));
    }
  }

  // ----- down to the clauses

  predicate SomeEmpty(cs: seq<Clause>) {
    exists c :: c in cs && c.term == []
  }

  lemma EmptyInParts(a: seq<Clause>, b: seq<Clause>)
    ensures SomeEmpty(a + b) <==> SomeEmpty(a) || SomeEmpty(b)
  {
  }

  lemma FirstBare(ls: seq<Lexeme>)
    requires ls != []
    ensures SomeBare(ls) <==> IsBare(ls[0]) || SomeBare(ls[1..])
  {
    assert ls == [ls[0]] + ls[1..];
    BareInParts([ls[0]], ls[1..]);
    assert ls[0] in [ls[0]];
  }

  /** Where parsing succeeds, the empty terms of the lexemes are the empty terms of the clauses. */
  lemma {:induction false} EmptyClauses(ls: seq<Lexeme>, allFields: seq<string>, lower: string -> string)
    requires IsLowering(lower) && Clauses(ls, allFields, lower).error.None?
    ensures SomeEmpty(Clauses(ls, allFields, lower).clauses) <==> SomeBare(ls)
    decreases |ls|, 0
  {
    if ls != [] {
      FirstBare(ls);
      if ls[0].kind == TERM {
        EmptyAfterTerm(ls[1..], Termed(EMPTY, ls[0].str, lower), allFields, lower);
      } else {
        FirstBare(ls[1..]);
        assert ls[1..][1..] == ls[2..];
        EmptyAfterTerm(ls[2..], Termed(EMPTY.(fields := Some([ls[0].str])), ls[1].str, lower), allFields, lower);
      }
    }
  }

  lemma {:induction false} EmptyAfterTerm(ls: seq<Lexeme>, d: Draft, allFields: seq<string>, lower: string -> string)
    requires IsLowering(lower) && d.wildcard.None? && Modifiers(ls, d, allFields, lower).error.None?
    ensures SomeEmpty(Modifiers(ls, d, allFields, lower).clauses) <==> d.term == [] || SomeBare(ls)
    decreases |ls|, 1
  {
    if NextIsClause(ls) {
      EmptyClauses(ls, allFields, lower);
      EmptyInParts([Completed(d, allFields)], Clauses(ls, allFields, lower).clauses);
      assert Completed(d, allFields) in [Completed(d, allFields)];
    } else {
      FirstBare(ls);
      var n := ParseInt(ls[0].str);
      if ls[0].kind == EDIT_DISTANCE {
        EmptyAfterTerm(ls[1..], d.(editDistance := n), allFields, lower);
      } else {
        EmptyAfterTerm(ls[1..], d.(boost := n), allFields, lower);
      }
    }
  }

  /** A search string that is parsed has an empty term if and only if it ends in a lone escape character. */
  lemma EmptyTermExactly(str: string, allFields: seq<string>, lower: string -> string)
    requires IsLowering(lower) && Clauses(Lexemes(str, 0), allFields, lower).error.None?
    ensures SomeEmpty(Clauses(Lexemes(str, 0), allFields, lower).clauses) <==> EndsBare(str)
  {
    BareLexemeExactly(str, 0);
    EmptyClauses(Lexemes(str, 0), allFields, lower);
  }

  /** A clause with an empty term is the last thing of its string, so no error comes behind it. */
  lemma {:induction false} EmptyClauseIsLast(ls: seq<Lexeme>, allFields: seq<string>, lower: string -> string)
    requires IsLowering(lower) && BareIsLast(ls) && SomeEmpty(Clauses(ls, allFields, lower).clauses)
    ensures Clauses(ls, allFields, lower).error.None?
    decreases |ls|, 0
  {
    if ls[0].kind == TERM {
      assert IsBare(ls[0]) ==> |ls| == 1;
      EmptyModifiedIsLast(ls[1..], Termed(EMPTY, ls[0].str, lower), allFields, lower);
    } else {
      assert IsBare(ls[1]) ==> |ls| == 2;
      EmptyModifiedIsLast(ls[2..], Termed(EMPTY.(fields := Some([ls[0].str])), ls[1].str, lower), allFields, lower);
    }
  }

  lemma {:induction false} EmptyModifiedIsLast(ls: seq<Lexeme>, d: Draft, allFields: seq<string>, lower: string -> string)
    requires IsLowering(lower) && BareIsLast(ls) && d.wildcard.None? && (d.term == [] ==> ls == [])
    requires SomeEmpty(Modifiers(ls, d, allFields, lower).clauses)
    ensures Modifiers(ls, d, allFields, lower).error.None?
    decreases |ls|, 1
  {
    if ls == [] {
    } else if NextIsClause(ls) {
      EmptyInParts([Completed(d, allFields)], Clauses(ls, allFields, lower).clauses);
      EmptyClauseIsLast(ls, allFields, lower);
    } else {
      var n := ParseInt(ls[0].str);
      if ls[0].kind == EDIT_DISTANCE {
        EmptyModifiedIsLast(ls[1..], d.(editDistance := n), allFields, lower);
      } else {
        EmptyModifiedIsLast(ls[1..], d.(boost := n), allFields, lower);
      }
    }
  }

  // ----- printing again

  /** The string these clauses are printed as. */
  function PrintedAgain(clauses: seq<Clause>, allFields: seq<string>): string {
    PrintedAll(SayAllAgain(clauses, allFields))
  }

  lemma {:induction false} EndsBareLast(t: string)
    requires EndsBare(t)
    ensures t != [] && t[|t| - 1] == ESCAPE
    decreases |t|
  {
    var n := TextLength(t);
    if n < |t| {
      EndsBareLast(t[Behind(t, n)..]);
    }
  }

  predicate EndsInDigit(t: string) {
    t != [] && IsDigit(t[|t| - 1])
  }

  lemma EndStays(a: string, b: string)
    requires EndsInDigit(b)
    ensures EndsInDigit(a + b)
  {
  }

  lemma PrintedEnds(c: Said)
    requires c.boost.Some?
    ensures EndsInDigit(Printed(c))
  {
    var boost := PrintedNumber('^', c.boost);
    assert boost[|boost| - 1] == Decimal(c.boost.value)[|Decimal(c.boost.value)| - 1];
    EndStays(PrintedNumber('~', c.editDistance), boost);
    EndStays(Escaped(c.term), PrintedNumber('~', c.editDistance) + boost);
    EndStays(PrintedField(c.field), Escaped(c.term) + (PrintedNumber('~', c.editDistance) + boost));
  }

  lemma {:induction false} PrintedAgainEnds(clauses: seq<Clause>, allFields: seq<string>)
    requires clauses != []
    ensures EndsInDigit(PrintedAgain(clauses, allFields))
  {
    var said, others := SayAgain(clauses[0], allFields), SayAllAgain(clauses[1..], allFields);
    PrintedEnds(said);
    if |clauses| > 1 {
      PrintedAgainEnds(clauses[1..], allFields);
      assert ([said] + others)[1..] == others;
      EndStays(" ", PrintedAll(others));
      EndStays(Printed(said), " " + PrintedAll(others));
    }
  }

  /** Clauses without an empty term come back. */
  lemma FullClausesComeBack(ls: seq<Lexeme>, allFields: seq<string>, lower: string -> string)
    requires IsLowering(lower) && !SomeEmpty(Clauses(ls, allFields, lower).clauses)
    ensures var clauses := Clauses(ls, allFields, lower).clauses;
            Clauses(Lexemes(PrintedAgain(clauses, allFields), 0), allFields, lower) == Parsed(clauses, None)
  {
    var clauses := Clauses(ls, allFields, lower).clauses;
    ClausesAreCanonical(ls, allFields, lower);
    SaidAgainIsMeant(clauses, allFields, lower);
    RoundTrip(SayAllAgain(clauses, allFields), allFields, lower);
  }

  /** A clause with an empty term never comes back, for what is printed ends in a digit. */
  lemma EmptyClausesAreLost(clauses: seq<Clause>, allFields: seq<string>, lower: string -> string)
    requires IsLowering(lower) && SomeEmpty(clauses)
    ensures Clauses(Lexemes(PrintedAgain(clauses, allFields), 0), allFields, lower) != Parsed(clauses, None)
  {
    var printed := PrintedAgain(clauses, allFields);
    PrintedAgainEnds(clauses, allFields);
    if EndsBare(printed) {
      EndsBareLast(printed);
    }
    if Clauses(Lexemes(printed, 0), allFields, lower).error.None? {
      EmptyTermExactly(printed, allFields, lower);
    }
  }

  /**
   The clauses of a search string that is parsed, printed and parsed again, are the same clauses if
   and only if the string does not end in a lone escape character.
   */
  lemma ParsedIsCanonical(str: string, allFields: seq<string>, lower: string -> string)
    requires IsLowering(lower) && Clauses(Lexemes(str, 0), allFields, lower).error.None?
    ensures var clauses := Clauses(Lexemes(str, 0), allFields, lower).clauses;
            Clauses(Lexemes(PrintedAgain(clauses, allFields), 0), allFields, lower) == Parsed(clauses, None)
            <==> !EndsBare(str)
  {
    EmptyTermExactly(str, allFields, lower);
    if EndsBare(str) {
      EmptyClausesAreLost(Clauses(Lexemes(str, 0), allFields, lower).clauses, allFields, lower);
    } else {
      FullClausesComeBack(Lexemes(str, 0), allFields, lower);
    }
  }

  /** The clauses in front of a parse error always come back. */
  lemma FailedIsCanonical(str: string, allFields: seq<string>, lower: string -> string)
    requires IsLowering(lower) && Clauses(Lexemes(str, 0), allFields, lower).error.Some?
    ensures var clauses := Clauses(Lexemes(str, 0), allFields, lower).clauses;
            Clauses(Lexemes(PrintedAgain(clauses, allFields), 0), allFields, lower) == Parsed(clauses, None)
  {
    BareLexemeIsLast(str, 0);
    if SomeEmpty(Clauses(Lexemes(str, 0), allFields, lower).clauses) {
      EmptyClauseIsLast(Lexemes(str, 0), allFields, lower);
    }
    FullClausesComeBack(Lexemes(str, 0), allFields, lower);
  }

  /** The string of one escape character is such a string. */
  lemma LoneEscapeIsLost(allFields: seq<string>, lower: string -> string)
    requires IsLowering(lower)
    ensures var parsed := Clauses(Lexemes([ESCAPE], 0), allFields, lower);
            && parsed.error.None? && |parsed.clauses| == 1 && parsed.clauses[0].term == []
            && Clauses(Lexemes(PrintedAgain(parsed.clauses, allFields), 0), allFields, lower) != parsed
  {
    assert TextLength([ESCAPE]) == 2;
    assert Slice([ESCAPE], 0, 2) == [ESCAPE] && Unescape([ESCAPE]) == [];
    assert Lexemes([ESCAPE], 0) == [Lexeme(TERM, [], 0, 2)];
    assert EndsBare([ESCAPE]);
    assert Modifiers([], Termed(EMPTY, [], lower), allFields, lower).clauses
           == [Completed(Termed(EMPTY, [], lower), allFields)];
    ParsedIsCanonical([ESCAPE], allFields, lower);
  }
}
