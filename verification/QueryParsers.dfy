/**
 Queries, the clauses they consist of, and the parser that makes clauses from the lexemes of a
 search string.
 */
module QueryParsers {
  import opened Common
  import opened Decimals
  import opened Wildcards
  import opened QueryLexers

  // ----- clauses

  const NONE := 0
  const LEADING := 1
  const TRAILING := 2

  /** A clause as it is handed in: what is missing is filled in. */
  datatype Draft = Draft(fields: Option<seq<string>>, term: string, boost: Option<nat>, editDistance: Option<nat>,
                         usePipeline: Option<bool>, wildcard: Option<nat>)

  const EMPTY: Draft := Draft(None, [], None, None, None, None)

  datatype Clause = Clause(fields: seq<string>, term: string, boost: nat, editDistance: Option<nat>,
                           usePipeline: bool, wildcard: nat)

  function OrElse<T>(o: Option<T>, default: T): T {
    if o.Some? then o.value else default
  }

  function WithLeading(term: string, wildcard: nat): string {
    if wildcard % 2 == 1 && (term == [] || term[0] != WILDCARD) then [WILDCARD] + term else term
  }

  function WithTrailing(term: string, wildcard: nat): string {
    if wildcard / 2 % 2 == 1 && (term == [] || term[|term| - 1] != WILDCARD) then term + [WILDCARD] else term
  }

  function Completed(draft: Draft, allFields: seq<string>): Clause {
    var wildcard := OrElse(draft.wildcard, NONE);
    Clause(OrElse(draft.fields, allFields), WithTrailing(WithLeading(draft.term, wildcard), wildcard),
           OrElse(draft.boost, 1), draft.editDistance, OrElse(draft.usePipeline, true), wildcard)
  }

  class Query {
    const allFields: seq<string>
    var clauses: seq<Clause>

    constructor (fields: seq<string>)
      ensures allFields == fields && clauses == []
    {
      allFields := fields;
      clauses := [];
    }

    method AddClause(draft: Draft)
      modifies this
      ensures clauses == old(clauses) + [Completed(draft, allFields)]
      ensures var added := clauses[|clauses| - 1];
              && added.fields == (if draft.fields.Some? then draft.fields.value else allFields)
              && added.boost == (if draft.boost.Some? then draft.boost.value else 1)
              && added.editDistance == draft.editDistance
              && added.usePipeline == (draft.usePipeline.Some? ==> draft.usePipeline.value)
              && added.wildcard == (if draft.wildcard.Some? then draft.wildcard.value else 0)
              && (added.wildcard == 0 ==> added.term == draft.term)
    {
      var fields, boost, usePipeline, wildcard := draft.fields, draft.boost, draft.usePipeline, draft.wildcard;
      if fields.None? {
        fields := Some(allFields);
      }
      if boost.None? {
        boost := Some(1);
      }
      if usePipeline.None? {
        usePipeline := Some(true);
      }
      if wildcard.None? {
        wildcard := Some(NONE);
      }
      var term := draft.term;
      if wildcard.value % 2 == LEADING && (term == [] || term[0] != WILDCARD) {
        term := "*" + term;
      }
      if wildcard.value / TRAILING % 2 == 1 && (term == [] || term[|term| - 1] != WILDCARD) {
        term := term + "*";
      }
      clauses := clauses + [Clause(fields.value, term, boost.value, draft.editDistance, usePipeline.value, wildcard.value)];
    }
  }

  // ----- the grammar

  datatype ParseError =
    | ExpectedFieldOrTerm(found: Kind, str: string, start: nat, end: nat)
    | UnrecognisedField(str: string, start: nat, end: nat)
    | ExpectedTermFoundNothing(start: nat, end: nat)
    | ExpectedTerm(found: Kind, start: nat, end: nat)
    | EditDistanceNotNumeric(start: nat, end: nat)
    | BoostNotNumeric(start: nat, end: nat)

  /** The clauses added to the query, up to an error if there is one. */
  datatype Parsed = Parsed(clauses: seq<Clause>, error: Option<ParseError>)

  function Before(clause: Clause, rest: Parsed): Parsed {
    Parsed([clause] + rest.clauses, rest.error)
  }

  function Failure(error: ParseError): Parsed {
    Parsed([], Some(error))
  }

  /** The number that the digits at the front of a string make, if there are any. */
  function ParseInt(str: string): Option<nat> {
    var d := DigitRun(str);
    if d == 0 then None else Some(DecimalValue(str[..d]))
  }

  /** The draft once its term has been read. */
  function Termed(draft: Draft, str: string, lower: string -> string): Draft {
    var d := draft.(term := lower(str));
    if WILDCARD in str then d.(usePipeline := Some(false)) else d
  }

  /** A field or a term, and what follows: what the lexemes say. */
  function Clauses(ls: seq<Lexeme>, allFields: seq<string>, lower: string -> string): Parsed
    decreases |ls|, 0
  {
    if ls == [] then Parsed([], None)
    else match ls[0].kind
      case TERM => Modifiers(ls[1..], Termed(EMPTY, ls[0].str, lower), allFields, lower)
      case FIELD =>
        if ls[0].str !in allFields then Failure(UnrecognisedField(ls[0].str, ls[0].start, ls[0].end))
        else if |ls| == 1 then Failure(ExpectedTermFoundNothing(ls[0].start, ls[0].end))
        else if ls[1].kind != TERM then Failure(ExpectedTerm(ls[1].kind, ls[1].start, ls[1].end))
        else Modifiers(ls[2..], Termed(EMPTY.(fields := Some([ls[0].str])), ls[1].str, lower), allFields, lower)
      case _ => Failure(ExpectedFieldOrTerm(ls[0].kind, ls[0].str, ls[0].start, ls[0].end))
  }

  /** Edit distances and boosts, the last of each kind counts, up to the next field or term. */
  function Modifiers(ls: seq<Lexeme>, draft: Draft, allFields: seq<string>, lower: string -> string): Parsed
    decreases |ls|, 1
  {
    if ls == [] || ls[0].kind == TERM || ls[0].kind == FIELD then
      Before(Completed(draft, allFields), Clauses(ls, allFields, lower))
    else
      var n := ParseInt(ls[0].str);
      if ls[0].kind == EDIT_DISTANCE then
        if n.None? then Failure(EditDistanceNotNumeric(ls[0].start, ls[0].end))
        else Modifiers(ls[1..], draft.(editDistance := n), allFields, lower)
      else
        if n.None? then Failure(BoostNotNumeric(ls[0].start, ls[0].end))
        else Modifiers(ls[1..], draft.(boost := n), allFields, lower)
  }

  /** Where no modifier follows, the clause is complete. */
  lemma ModifiersEnd(clauses: seq<Clause>, ls: seq<Lexeme>, draft: Draft, allFields: seq<string>, lower: string -> string)
    requires ls == [] || ls[0].kind == TERM || ls[0].kind == FIELD
    ensures Modifiers(ls, draft, allFields, lower).error == Clauses(ls, allFields, lower).error
    ensures clauses + Modifiers(ls, draft, allFields, lower).clauses ==
            clauses + [Completed(draft, allFields)] + Clauses(ls, allFields, lower).clauses
  {
  }

  // ----- the parser

  datatype State = ParseFieldOrTerm | ParseField | ParseTerm | ParseEditDistance | ParseBoost | Finished
                 | Thrown(error: ParseError)

  class QueryParser {
    const lexer: QueryLexer
    const query: Query
    const lower: string -> string
    var lexemes: seq<Lexeme>
    var currentClause: Draft
    var lexemeIdx: nat

    constructor (str: string, q: Query, toLowerCase: string -> string)
      ensures query == q && lower == toLowerCase && lexer.str == str && fresh(lexer) && Initial()
    {
      lexer := new QueryLexer(str);
      query := q;
      lower := toLowerCase;
      lexemes, currentClause, lexemeIdx := [], EMPTY, 0;
    }

    predicate Initial()
      reads this, lexer
    {
      && lexer.pos == 0 && lexer.start == 0 && lexer.lexemes == [] && lexer.escapeCharPositions == []
      && currentClause == EMPTY && lexemeIdx == 0
    }

    /** The lexemes not yet consumed. */
    function Ahead(): seq<Lexeme>
      reads this
    {
      if lexemeIdx <= |lexemes| then lexemes[lexemeIdx..] else []
    }

    /** What the parser, entering a state, will still add to the query. */
    ghost function Promised(state: State): Parsed
      reads this
    {
      match state
      case Finished => Parsed([], None)
      case Thrown(e) => Failure(e)
      case ParseFieldOrTerm => Clauses(Ahead(), query.allFields, lower)
      case ParseField => Clauses(Ahead(), query.allFields, lower)
      case ParseTerm =>
        if Ahead() == [] then Parsed([], None)
        else Modifiers(Ahead()[1..], Termed(currentClause, Ahead()[0].str, lower), query.allFields, lower)
      case ParseEditDistance => Modifiers(Ahead(), currentClause, query.allFields, lower)
      case ParseBoost => Modifiers(Ahead(), currentClause, query.allFields, lower)
    }

    /** What holds when a state is entered. */
    ghost predicate Enters(state: State)
      reads this
    {
      match state
      case ParseFieldOrTerm => currentClause == EMPTY
      case ParseField => currentClause == EMPTY && Ahead() != [] && Ahead()[0].kind == FIELD
      case ParseTerm => Ahead() != [] && Ahead()[0].kind == TERM
      case ParseEditDistance => Ahead() != [] && Ahead()[0].kind == EDIT_DISTANCE
      case ParseBoost => Ahead() != [] && Ahead()[0].kind == BOOST
      case _ => true
    }

    /** The clauses added and the clauses promised, in one list. */
    ghost function Outlook(state: State): Parsed
      reads this, query
    {
      Parsed(query.clauses + Promised(state).clauses, Promised(state).error)
    }

    method PeekLexeme() returns (lexeme: Option<Lexeme>)
      ensures lexeme == if Ahead() != [] then Some(Ahead()[0]) else None
    {
      lexeme := if lexemeIdx < |lexemes| then Some(lexemes[lexemeIdx]) else None;
    }

    method ConsumeLexeme() returns (lexeme: Lexeme)
      requires Ahead() != []
      modifies this`lexemeIdx
      ensures lexeme == old(Ahead()[0]) && Ahead() == old(Ahead()[1..]) && lexemeIdx == old(lexemeIdx) + 1 <= |lexemes|
    {
      lexeme := lexemes[lexemeIdx];
      lexemeIdx := lexemeIdx + 1;
    }

    method NextClause()
      modifies this`currentClause, query
      ensures currentClause == EMPTY
      ensures query.clauses == old(query.clauses) + [Completed(old(currentClause), query.allFields)]
    {
      query.AddClause(currentClause);
      currentClause := EMPTY;
    }

    method RunFieldOrTerm() returns (state: State)
      requires Enters(ParseFieldOrTerm)
      ensures Enters(state) && Outlook(state) == Outlook(ParseFieldOrTerm) && state != ParseFieldOrTerm
    {
      var lexeme := PeekLexeme();
      if lexeme.None? {
        return Finished;
      }
      match lexeme.value.kind
      case FIELD => return ParseField;
      case TERM => return ParseTerm;
      case _ =>
        return Thrown(ExpectedFieldOrTerm(lexeme.value.kind, lexeme.value.str, lexeme.value.start, lexeme.value.end));
    }

    method RunField() returns (state: State)
      requires Enters(ParseField)
      modifies this
      ensures lexemes == old(lexemes) && old(lexemeIdx) < lexemeIdx <= |lexemes|
      ensures Enters(state) && Outlook(state) == old(Outlook(ParseField))
    {
      var lexeme := ConsumeLexeme();
      if lexeme.str !in query.allFields {
        return Thrown(UnrecognisedField(lexeme.str, lexeme.start, lexeme.end));
      }
      currentClause := currentClause.(fields := Some([lexeme.str]));
      var nextLexeme := PeekLexeme();
      if nextLexeme.None? {
        return Thrown(ExpectedTermFoundNothing(lexeme.start, lexeme.end));
      }
      match nextLexeme.value.kind
      case TERM =>
        return ParseTerm;
      case _ =>
        return Thrown(ExpectedTerm(nextLexeme.value.kind, nextLexeme.value.start, nextLexeme.value.end));
    }

    /** Where each state goes that ends with a look at the next lexeme. */
    method Continue() returns (state: State)
      modifies this`currentClause, query
      ensures Enters(state) && state != ParseFieldOrTerm
      ensures Outlook(state) == old(Parsed(query.clauses + Modifiers(Ahead(), currentClause, query.allFields, lower).clauses,
                                           Modifiers(Ahead(), currentClause, query.allFields, lower).error))
    {
      var nextLexeme := PeekLexeme();
      if nextLexeme.None? || nextLexeme.value.kind == TERM || nextLexeme.value.kind == FIELD {
        ModifiersEnd(query.clauses, Ahead(), currentClause, query.allFields, lower);
      }
      if nextLexeme.None? {
        NextClause();
        return Finished;
      }
      match nextLexeme.value.kind
      case TERM =>
        NextClause();
        return ParseTerm;
      case FIELD =>
        NextClause();
        return ParseField;
      case EDIT_DISTANCE =>
        return ParseEditDistance;
      case BOOST =>
        return ParseBoost;
    }

    method RunTerm() returns (state: State)
      requires Enters(ParseTerm)
      modifies this, query
      ensures lexemes == old(lexemes) && old(lexemeIdx) < lexemeIdx <= |lexemes|
      ensures Enters(state) && Outlook(state) == old(Outlook(ParseTerm))
    {
      var lexeme := ConsumeLexeme();
      currentClause := currentClause.(term := lower(lexeme.str));
      if WILDCARD in lexeme.str {
        currentClause := currentClause.(usePipeline := Some(false));
      }
      state := Continue();
    }

    method RunEditDistance() returns (state: State)
      requires Enters(ParseEditDistance)
      modifies this, query
      ensures lexemes == old(lexemes) && old(lexemeIdx) < lexemeIdx <= |lexemes|
      ensures Enters(state) && Outlook(state) == old(Outlook(ParseEditDistance))
    {
      var lexeme := ConsumeLexeme();
      var editDistance := ParseInt(lexeme.str);
      if editDistance.None? {
        return Thrown(EditDistanceNotNumeric(lexeme.start, lexeme.end));
      }
      currentClause := currentClause.(editDistance := editDistance);
      state := Continue();
    }

    method RunBoost() returns (state: State)
      requires Enters(ParseBoost)
      modifies this, query
      ensures lexemes == old(lexemes) && old(lexemeIdx) < lexemeIdx <= |lexemes|
      ensures Enters(state) && Outlook(state) == old(Outlook(ParseBoost))
    {
      var lexeme := ConsumeLexeme();
      var boost := ParseInt(lexeme.str);
      if boost.None? {
        return Thrown(BoostNotNumeric(lexeme.start, lexeme.end));
      }
      currentClause := currentClause.(boost := boost);
      state := Continue();
    }

    /** The clauses of the search string are added to the query, up to the first error. */
    method Parse() returns (error: Option<ParseError>)
      requires Initial()
      modifies this, lexer, query
      ensures var parsed := Clauses(Lexemes(lexer.str, 0), query.allFields, lower);
              query.clauses == old(query.clauses) + parsed.clauses && error == parsed.error
    {
      lexer.Run();
      lexemes := lexer.lexemes;
      assert Ahead() == lexemes;
      ghost var goal := Outlook(ParseFieldOrTerm);
      var state := ParseFieldOrTerm;
      while !state.Finished? && !state.Thrown?
        invariant Enters(state) && Outlook(state) == goal && lexemeIdx <= |lexemes|
        decreases |lexemes| - lexemeIdx, if state == ParseFieldOrTerm then 1 else 0
      {
        match state
        case ParseFieldOrTerm => state := RunFieldOrTerm();
        case ParseField => state := RunField();
        case ParseTerm => state := RunTerm();
        case ParseEditDistance => state := RunEditDistance();
        case ParseBoost => state := RunBoost();
      }
      error := if state.Thrown? then Some(state.error) else None;
    }
  }
}
