/**
 What parsing makes of any list of lexemes, lexeme by lexeme: where the first problem is, and which
 clauses are complete before it.
 */
module ParsedQueries {
  import opened Common
  import opened Decimals
  import opened Wildcards
  import opened QueryLexers
  import opened QueryParsers

  // ----- problems

  /** What is wrong with the i-th lexeme, seen with its neighbours. */
  function Problem(ls: seq<Lexeme>, i: nat, allFields: seq<string>): Option<ParseError>
    requires i < |ls|
  {
    var l := ls[i];
    match l.kind
    case TERM => None
    case FIELD =>
      if l.str !in allFields then Some(UnrecognisedField(l.str, l.start, l.end))
      else if i + 1 == |ls| then Some(ExpectedTermFoundNothing(l.start, l.end))
      else if ls[i + 1].kind != TERM then Some(ExpectedTerm(ls[i + 1].kind, ls[i + 1].start, ls[i + 1].end))
      else None
    case EDIT_DISTANCE =>
      if i == 0 then Some(ExpectedFieldOrTerm(EDIT_DISTANCE, l.str, l.start, l.end))
      else if l.str == [] || !IsDigit(l.str[0]) then Some(EditDistanceNotNumeric(l.start, l.end))
      else None
    case BOOST =>
      if i == 0 then Some(ExpectedFieldOrTerm(BOOST, l.str, l.start, l.end))
      else if l.str == [] || !IsDigit(l.str[0]) then Some(BoostNotNumeric(l.start, l.end))
      else None
  }

  /** The first lexeme from i on that has a problem; the length of the list if there is none. */
  function FirstProblem(ls: seq<Lexeme>, i: nat, allFields: seq<string>): (b: nat)
    requires i <= |ls|
    ensures i <= b <= |ls|
    ensures b < |ls| ==> Problem(ls, b, allFields).Some?
    ensures forall j :: i <= j < b ==> Problem(ls, j, allFields).None?
    decreases |ls| - i
  {
    if i == |ls| || Problem(ls, i, allFields).Some? then i else FirstProblem(ls, i + 1, allFields)
  }

  function ErrorAt(ls: seq<Lexeme>, b: nat, allFields: seq<string>): Option<ParseError> {
    if b < |ls| then Problem(ls, b, allFields) else None
  }

  // ----- clauses

  predicate Modifies(l: Lexeme) {
    l.kind == EDIT_DISTANCE || l.kind == BOOST
  }

  /** Where the modifiers from i on end. */
  function EndOfModifiers(ls: seq<Lexeme>, i: nat): (e: nat)
    requires i <= |ls|
    ensures i <= e <= |ls|
    ensures forall j :: i <= j < e ==> Modifies(ls[j])
    ensures e < |ls| ==> !Modifies(ls[e])
    decreases |ls| - i
  {
    if i < |ls| && Modifies(ls[i]) then EndOfModifiers(ls, i + 1) else i
  }

  /** The number in the last lexeme of this kind from i up to j. */
  function LastNumber(ls: seq<Lexeme>, i: nat, j: nat, kind: Kind): Option<nat>
    requires i <= j <= |ls|
    decreases j
  {
    if i == j then None
    else if ls[j - 1].kind == kind then ParseInt(ls[j - 1].str)
    else LastNumber(ls, i, j - 1, kind)
  }

  /** The clause of the term at place t. */
  function ClauseAt(ls: seq<Lexeme>, t: nat, allFields: seq<string>, lower: string -> string): Clause
    requires t < |ls|
  {
    var e := EndOfModifiers(ls, t + 1);
    var boost := LastNumber(ls, t + 1, e, BOOST);
    Clause(if t > 0 && ls[t - 1].kind == FIELD then [ls[t - 1].str] else allFields,
           lower(ls[t].str),
           if boost.Some? then boost.value else 1,
           LastNumber(ls, t + 1, e, EDIT_DISTANCE),
           WILDCARD !in ls[t].str,
           0)
  }

  /** The clauses of the terms from i on whose modifiers end no later than b. */
  function ClausesUpTo(ls: seq<Lexeme>, i: nat, b: nat, allFields: seq<string>, lower: string -> string): seq<Clause>
    requires i <= |ls|
    decreases |ls| - i
  {
    if i == |ls| then []
    else
      (if ls[i].kind == TERM && EndOfModifiers(ls, i + 1) <= b then [ClauseAt(ls, i, allFields, lower)] else [])
      + ClausesUpTo(ls, i + 1, b, allFields, lower)
  }

  // ----- the parser agrees

  lemma ParseIntExactly(str: string)
    ensures ParseInt(str).None? <==> str == [] || !IsDigit(str[0])
  {
  }

  lemma {:induction false} NothingBehind(ls: seq<Lexeme>, i: nat, b: nat, allFields: seq<string>, lower: string -> string)
    requires b <= i <= |ls|
    ensures ClausesUpTo(ls, i, b, allFields, lower) == []
    decreases |ls| - i
  {
    if i < |ls| {
      NothingBehind(ls, i + 1, b, allFields, lower);
    }
  }

  /** Modifiers make no clauses. */
  lemma {:induction false} SkipModifiers(ls: seq<Lexeme>, i: nat, b: nat, allFields: seq<string>, lower: string -> string)
    requires i <= |ls|
    ensures ClausesUpTo(ls, i, b, allFields, lower) == ClausesUpTo(ls, EndOfModifiers(ls, i), b, allFields, lower)
    decreases |ls| - i
  {
    if i < |ls| && Modifies(ls[i]) {
      SkipModifiers(ls, i + 1, b, allFields, lower);
    }
  }

  /** The place where a clause may begin. */
  predicate AtClause(ls: seq<Lexeme>, i: nat) {
    i <= |ls| && (i > 0 ==> ls[i - 1].kind != FIELD && (i < |ls| ==> !Modifies(ls[i])))
  }

  /** The draft of the term at t, with the modifiers up to j. */
  function DraftAt(ls: seq<Lexeme>, t: nat, j: nat, lower: string -> string): Draft
    requires t < j <= |ls|
  {
    Draft(if t > 0 && ls[t - 1].kind == FIELD then Some([ls[t - 1].str]) else None,
          lower(ls[t].str), LastNumber(ls, t + 1, j, BOOST), LastNumber(ls, t + 1, j, EDIT_DISTANCE),
          if WILDCARD in ls[t].str then Some(false) else None, None)
  }

  function Outlined(ls: seq<Lexeme>, i: nat, allFields: seq<string>, lower: string -> string): Parsed
    requires i <= |ls|
  {
    var b := FirstProblem(ls, i, allFields);
    Parsed(ClausesUpTo(ls, i, b, allFields, lower), ErrorAt(ls, b, allFields))
  }

  /** One modifier more. */
  lemma OneModifier(ls: seq<Lexeme>, t: nat, j: nat, allFields: seq<string>, lower: string -> string)
    requires t < j < |ls| && Modifies(ls[j])
    ensures var d, rest := DraftAt(ls, t, j, lower), ls[j..];
            Modifiers(rest, d, allFields, lower) ==
            if Problem(ls, j, allFields).Some? then Failure(Problem(ls, j, allFields).value)
            else Modifiers(ls[j + 1..], DraftAt(ls, t, j + 1, lower), allFields, lower)
  {
    ParseIntExactly(ls[j].str);
    assert ls[j..][1..] == ls[j + 1..];
  }

  /** What is to come of the term at t, from its modifiers from j on. */
  function FromModifiers(ls: seq<Lexeme>, t: nat, j: nat, allFields: seq<string>, lower: string -> string): Parsed
    requires t < j <= |ls|
  {
    var e, b := EndOfModifiers(ls, t + 1), FirstProblem(ls, j, allFields);
    Parsed((if e <= b then [ClauseAt(ls, t, allFields, lower)] else []) + ClausesUpTo(ls, e, b, allFields, lower),
           ErrorAt(ls, b, allFields))
  }

  predicate Agrees(ls: seq<Lexeme>, t: nat, j: nat, allFields: seq<string>, lower: string -> string)
    requires t < j <= |ls|
  {
    Modifiers(ls[j..], DraftAt(ls, t, j, lower), allFields, lower) == FromModifiers(ls, t, j, allFields, lower)
  }

  /** The modifiers of the term at t, from j on. */
  lemma {:induction false} ModifiersExactly(ls: seq<Lexeme>, t: nat, j: nat, allFields: seq<string>, lower: string -> string)
    requires t < j <= |ls| && ls[t].kind == TERM && j <= EndOfModifiers(ls, t + 1)
    ensures Agrees(ls, t, j, allFields, lower)
    decreases |ls| - j, 2
  {
    if j == EndOfModifiers(ls, t + 1) {
      ModifiersAreOver(ls, t, j, allFields, lower);
    } else {
      ModifiersFurther(ls, t, j, allFields, lower);
      ModifierAndRest(ls, t, j, allFields, lower);
    }
  }

  lemma {:induction false} ModifiersFurther(ls: seq<Lexeme>, t: nat, j: nat, allFields: seq<string>, lower: string -> string)
    requires t < j < |ls| && ls[t].kind == TERM && j < EndOfModifiers(ls, t + 1)
    ensures Problem(ls, j, allFields).None? ==> Agrees(ls, t, j + 1, allFields, lower)
    decreases |ls| - j, 1
  {
    if Problem(ls, j, allFields).None? {
      ModifiersExactly(ls, t, j + 1, allFields, lower);
    }
  }

  lemma ModifierAndRest(ls: seq<Lexeme>, t: nat, j: nat, allFields: seq<string>, lower: string -> string)
    requires t < j < |ls| && j < EndOfModifiers(ls, t + 1)
    requires Problem(ls, j, allFields).None? ==>
               Agrees(ls, t, j + 1, allFields, lower)
    ensures Agrees(ls, t, j, allFields, lower)
  {
    OneModifier(ls, t, j, allFields, lower);
    OutlineOfModifier(ls, t, j, allFields, lower);
  }

  lemma {:induction false} ModifiersAreOver(ls: seq<Lexeme>, t: nat, e: nat, allFields: seq<string>, lower: string -> string)
    requires t < e <= |ls| && ls[t].kind == TERM && e == EndOfModifiers(ls, t + 1)
    ensures Agrees(ls, t, e, allFields, lower)
    decreases |ls| - e, 1
  {
    ClauseIsComplete(ls, t, e, allFields, lower);
    ClausesExactly(ls, e, allFields, lower);
    OutlineOfClause(ls, t, e, allFields, lower);
  }

  lemma OutlineOfModifier(ls: seq<Lexeme>, t: nat, j: nat, allFields: seq<string>, lower: string -> string)
    requires t < j < |ls| && j < EndOfModifiers(ls, t + 1)
    ensures Problem(ls, j, allFields).None? ==>
              FromModifiers(ls, t, j, allFields, lower) == FromModifiers(ls, t, j + 1, allFields, lower)
    ensures Problem(ls, j, allFields).Some? ==>
              FromModifiers(ls, t, j, allFields, lower) == Failure(Problem(ls, j, allFields).value)
  {
    if Problem(ls, j, allFields).Some? {
      NothingBehind(ls, EndOfModifiers(ls, t + 1), j, allFields, lower);
    }
  }

  lemma OutlineOfClause(ls: seq<Lexeme>, t: nat, e: nat, allFields: seq<string>, lower: string -> string)
    requires t < e <= |ls| && e == EndOfModifiers(ls, t + 1)
    ensures FromModifiers(ls, t, e, allFields, lower) ==
            Before(ClauseAt(ls, t, allFields, lower), Outlined(ls, e, allFields, lower))
  {
  }

  lemma OutlineOfTerm(ls: seq<Lexeme>, t: nat, allFields: seq<string>, lower: string -> string)
    requires t < |ls| && ls[t].kind == TERM
    ensures Outlined(ls, t, allFields, lower) == FromModifiers(ls, t, t + 1, allFields, lower)
  {
    SkipModifiers(ls, t + 1, FirstProblem(ls, t, allFields), allFields, lower);
  }

  lemma OutlineOfField(ls: seq<Lexeme>, i: nat, allFields: seq<string>, lower: string -> string)
    requires i < |ls| && ls[i].kind == FIELD && Problem(ls, i, allFields).None?
    ensures Outlined(ls, i, allFields, lower) == Outlined(ls, i + 1, allFields, lower)
  {
  }

  lemma ClauseIsComplete(ls: seq<Lexeme>, t: nat, e: nat, allFields: seq<string>, lower: string -> string)
    requires t < e <= |ls| && ls[t].kind == TERM && e == EndOfModifiers(ls, t + 1)
    ensures AtClause(ls, e)
    ensures Modifiers(ls[e..], DraftAt(ls, t, e, lower), allFields, lower) ==
            Before(ClauseAt(ls, t, allFields, lower), Clauses(ls[e..], allFields, lower))
  {
    assert Completed(DraftAt(ls, t, e, lower), allFields) == ClauseAt(ls, t, allFields, lower);
    assert e > t + 1 ==> Modifies(ls[e - 1]);
  }

  lemma {:induction false} ClausesExactly(ls: seq<Lexeme>, i: nat, allFields: seq<string>, lower: string -> string)
    requires AtClause(ls, i)
    ensures Clauses(ls[i..], allFields, lower) == Outlined(ls, i, allFields, lower)
    decreases |ls| - i, 0
  {
    if i < |ls| {
      if Problem(ls, i, allFields).Some? {
        ProblemFirst(ls, i, allFields, lower);
      } else if ls[i].kind == TERM {
        TermFirst(ls, i, allFields, lower);
        ModifiersExactly(ls, i, i + 1, allFields, lower);
        OutlineOfTerm(ls, i, allFields, lower);
      } else {
        FieldFirst(ls, i, allFields, lower);
        ModifiersExactly(ls, i + 1, i + 2, allFields, lower);
        OutlineOfField(ls, i, allFields, lower);
        OutlineOfTerm(ls, i + 1, allFields, lower);
      }
    }
  }

  lemma ProblemFirst(ls: seq<Lexeme>, i: nat, allFields: seq<string>, lower: string -> string)
    requires AtClause(ls, i) && i < |ls| && Problem(ls, i, allFields).Some?
    ensures Clauses(ls[i..], allFields, lower) == Outlined(ls, i, allFields, lower)
  {
    assert ls[i..][0] == ls[i] && (i + 1 < |ls| ==> ls[i..][1] == ls[i + 1]);
    NothingBehind(ls, i, i, allFields, lower);
  }

  lemma TermFirst(ls: seq<Lexeme>, i: nat, allFields: seq<string>, lower: string -> string)
    requires AtClause(ls, i) && i < |ls| && ls[i].kind == TERM
    ensures Clauses(ls[i..], allFields, lower) == Modifiers(ls[i + 1..], DraftAt(ls, i, i + 1, lower), allFields, lower)
  {
    assert ls[i..][0] == ls[i] && ls[i..][1..] == ls[i + 1..];
    assert Termed(EMPTY, ls[i].str, lower) == DraftAt(ls, i, i + 1, lower);
  }

  lemma FieldFirst(ls: seq<Lexeme>, i: nat, allFields: seq<string>, lower: string -> string)
    requires AtClause(ls, i) && i < |ls| && ls[i].kind == FIELD && Problem(ls, i, allFields).None?
    ensures i + 1 < |ls| && ls[i + 1].kind == TERM
    ensures Clauses(ls[i..], allFields, lower) == Modifiers(ls[i + 2..], DraftAt(ls, i + 1, i + 2, lower), allFields, lower)
  {
    assert ls[i..][0] == ls[i] && ls[i..][1] == ls[i + 1] && ls[i..][2..] == ls[i + 2..];
    assert Termed(EMPTY.(fields := Some([ls[i].str])), ls[i + 1].str, lower) == DraftAt(ls, i + 1, i + 2, lower);
  }

  /**
   For any lexemes: the error is that of the first lexeme with a problem, if there is one, and the
   clauses are those of the terms whose modifiers end before it, each with its own field, the last
   number of each kind, and the defaults for the rest.
   */
  lemma ParsedExactly(ls: seq<Lexeme>, allFields: seq<string>, lower: string -> string)
    ensures Clauses(ls, allFields, lower) == Outlined(ls, 0, allFields, lower)
  {
    assert ls[0..] == ls;
    ClausesExactly(ls, 0, allFields, lower);
  }
}
