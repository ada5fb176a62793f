/**
 Printing clauses as a search string, and what parsing makes of it.
 */
module QueryRoundTrips {
  import opened Common
  import opened Decimals
  import opened Wildcards
  import opened QueryLexers
  import opened QueryParsers

  /** What a search string can say about a clause. */
  datatype Said = Said(field: Option<string>, term: string, editDistance: Option<nat>, boost: Option<nat>)

  // ----- printing

  /** Every character behind an escape character. */
  function Escaped(s: string): string {
    if s == [] then [] else [ESCAPE, s[0]] + Escaped(s[1..])
  }

  function PrintedNumber(mark: char, n: Option<nat>): string {
    if n.None? then [] else [mark] + Decimal(n.value)
  }

  function PrintedField(field: Option<string>): string {
    if field.None? then [] else Escaped(field.value) + ":"
  }

  function Printed(c: Said): string {
    PrintedField(c.field) + (Escaped(c.term) + (PrintedNumber('~', c.editDistance) + PrintedNumber('^', c.boost)))
  }

  function PrintedAll(cs: seq<Said>): string {
    if cs == [] then []
    else if |cs| == 1 then Printed(cs[0])
    else Printed(cs[0]) + (" " + PrintedAll(cs[1..]))
  }

  /** The clause with the defaults for what was not said. */
  function Meant(c: Said, allFields: seq<string>): Clause {
    Clause(if c.field.Some? then [c.field.value] else allFields, c.term,
           if c.boost.Some? then c.boost.value else 1, c.editDistance,
           WILDCARD !in c.term, NONE)
  }

  function MeantAll(cs: seq<Said>, allFields: seq<string>): seq<Clause> {
    if cs == [] then [] else [Meant(cs[0], allFields)] + MeantAll(cs[1..], allFields)
  }

  predicate Sayable(c: Said, allFields: seq<string>, lower: string -> string) {
    (c.field.Some? ==> c.field.value in allFields) && c.term != [] && lower(c.term) == c.term
  }

  // ----- lexing what was printed

  /** The end of a text. */
  predicate EndsText(rest: string) {
    rest == [] || Special(rest[0])
  }

  lemma {:induction false} EscapedIsText(s: string, rest: string)
    requires EndsText(rest)
    ensures |Escaped(s)| == 2 * |s| && TextLength(Escaped(s) + rest) == 2 * |s|
    decreases |s|
  {
    if s == [] {
      assert Escaped(s) + rest == rest;
    } else {
      EscapedIsText(s[1..], rest);
      assert (Escaped(s) + rest)[2..] == Escaped(s[1..]) + rest;
    }
  }

  lemma {:induction false} UnescapeEscaped(s: string)
    ensures Unescape(Escaped(s)) == s
    decreases |s|
  {
    if s != [] {
      UnescapeEscaped(s[1..]);
      assert Escaped(s)[2..] == Escaped(s[1..]);
    }
  }

  lemma {:induction false} DigitRunOf(digits: string, rest: string)
    requires forall i :: 0 <= i < |digits| ==> IsDigit(digits[i])
    requires rest == [] || !IsDigit(rest[0])
    ensures DigitRun(digits + rest) == |digits|
    decreases |digits|
  {
    if digits == [] {
      assert digits + rest == rest;
    } else {
      DigitRunOf(digits[1..], rest);
      assert (digits + rest)[1..] == digits[1..] + rest;
    }
  }

  lemma ParseDecimal(n: nat)
    ensures ParseInt(Decimal(n)) == Some(n)
  {
    DigitRunOf(Decimal(n), []);
    DecimalIsRead(n);
    assert Decimal(n) + [] == Decimal(n) && Decimal(n)[..|Decimal(n)|] == Decimal(n);
  }

  lemma LexField(f: string, rest: string, at: nat, to: nat)
    requires to == at + 2 * |f|
    ensures Lexemes(Escaped(f) + (":" + rest), at) == [Lexeme(FIELD, f, at, to)] + Lexemes(rest, to + 1)
  {
    EscapedIsText(f, ":" + rest);
    UnescapeEscaped(f);
    SplitAtColon(Escaped(f), rest);
    AtColon(Escaped(f) + (":" + rest), 2 * |f|, Escaped(f), rest, at, to);
  }

  lemma SplitAtColon(f: string, rest: string)
    ensures var t := f + (":" + rest);
            t[|f|] == ':' && t[..|f|] == f && t[|f| + 1..] == rest
  {
  }

  lemma LexTermOnly(x: string, at: nat, to: nat)
    requires x != [] && to == at + 2 * |x|
    ensures Lexemes(Escaped(x), at) == [Lexeme(TERM, x, at, to)]
  {
    var t := Escaped(x);
    EscapedIsText(x, []);
    assert t + [] == t;
    UnescapeEscaped(x);
    assert Slice(t, 0, 2 * |x|) == t;
  }

  lemma LexTermThen(x: string, rest: string, at: nat, to: nat)
    requires to == at + 2 * |x| && x != [] && rest != [] && Special(rest[0]) && rest[0] != ':'
    ensures Lexemes(Escaped(x) + rest, at) == [Lexeme(TERM, x, at, to)] + Marked(rest, to)
  {
    var t, n := Escaped(x) + rest, 2 * |x|;
    EscapedIsText(x, rest);
    assert t[n] == rest[0] && t[n..] == rest;
    TermOfEscaped(x, rest, at, to);
    TextThenMark(t, n, rest, at, to);
  }

  lemma TermOfEscaped(x: string, rest: string, at: nat, to: nat)
    requires to == at + 2 * |x| && x != [] && EndsText(rest)
    ensures TermOf(Escaped(x) + rest, at) == [Lexeme(TERM, x, at, to)]
  {
    EscapedIsText(x, rest);
    UnescapeEscaped(x);
    SliceInFront(Escaped(x), rest);
    TermOfText(Escaped(x) + rest, Escaped(x), at, to);
  }

  lemma TermOfText(t: string, text: string, at: nat, to: nat)
    requires text != [] && TextLength(t) == |text| && Slice(t, 0, |text|) == text && to == at + |text|
    ensures TermOf(t, at) == [Lexeme(TERM, Unescape(text), at, to)]
  {
  }

  lemma SliceInFront(a: string, b: string)
    requires a != []
    ensures Slice(a + b, 0, |a|) == a
  {
  }

  lemma MarkedAlone(rest: string, at: nat)
    requires rest != [] && Special(rest[0]) && rest[0] != ':'
    ensures Lexemes(rest, at) == Marked(rest, at)
  {
    assert rest[0..] == rest;
    assert TermOf(rest, at) == [];
  }

  /** A term, and the other lexemes behind it. */
  predicate TermThen(ls: seq<Lexeme>, term: string, others: seq<Lexeme>) {
    ls != [] && ls[0].kind == TERM && ls[0].str == term && ls[1..] == others
  }

  lemma LexTerm(x: string, rest: string, at: nat, to: nat)
    requires to == at + 2 * |x| && x != [] && (rest == [] || (Special(rest[0]) && rest[0] != ':'))
    ensures TermThen(Lexemes(Escaped(x) + rest, at), x, Lexemes(rest, to))
  {
    if rest == [] {
      assert Escaped(x) + rest == Escaped(x);
      LexTermOnly(x, at, to);
    } else {
      LexTermThen(x, rest, at, to);
      MarkedAlone(rest, to);
    }
  }

  lemma LexNumber(mark: char, kind: Kind, n: nat, rest: string, at: nat, to: nat)
    requires StartsNumber(mark, kind) && (rest == [] || !IsDigit(rest[0])) && to == at + 1 + |Decimal(n)|
    ensures Lexemes([mark] + Decimal(n) + rest, at) == [Lexeme(kind, Decimal(n), at + 1, to)] + Lexemes(rest, to)
  {
    var d := Decimal(n);
    var t := [mark] + d + rest;
    MarkedAlone(t, at);
    DigitRunOf(d, rest);
    MarkSplits(mark, d, rest);
    AtNumber(t, kind, d, rest, at, to);
  }

  lemma MarkSplits(mark: char, d: string, rest: string)
    ensures var t := [mark] + d + rest;
            t[1..] == d + rest && t[1 + |d|..] == rest && t[1..][..|d|] == d
  {
  }

  lemma LexSpace(rest: string, at: nat)
    ensures Lexemes(" " + rest, at) == Lexemes(rest, at + 1)
  {
    MarkedAlone(" " + rest, at);
    assert (" " + rest)[1..] == rest;
  }

  // ----- parsing what was lexed, position by position

  /** Nothing, or the next clause. */
  predicate NextIsClause(ls: seq<Lexeme>) {
    ls == [] || ls[0].kind == TERM || ls[0].kind == FIELD
  }

  /** The lexemes say that a number was given, or nothing. */
  predicate Numbers(ls: seq<Lexeme>, kind: Kind, n: Option<nat>, rest: seq<Lexeme>) {
    if n.None? then ls == rest
    else ls != [] && ls[0].kind == kind && ParseInt(ls[0].str) == n && ls[1..] == rest
  }

  lemma LexPrintedNumber(mark: char, kind: Kind, n: Option<nat>, rest: string, at: nat) returns (after: nat)
    requires StartsNumber(mark, kind) && (rest == [] || !IsDigit(rest[0]))
    ensures Numbers(Lexemes(PrintedNumber(mark, n) + rest, at), kind, n, Lexemes(rest, after))
  {
    if n.None? {
      assert PrintedNumber(mark, n) + rest == rest;
      after := at;
    } else {
      after := at + 1 + |Decimal(n.value)|;
      LexNumber(mark, kind, n.value, rest, at, after);
      ParseDecimal(n.value);
    }
  }

  function SaidDraft(c: Said): Draft {
    Draft(if c.field.Some? then Some([c.field.value]) else None, c.term, c.boost, c.editDistance,
          if WILDCARD in c.term then Some(false) else None, None)
  }

  lemma ModifiersOfClause(ls: seq<Lexeme>, c: Said, middle: seq<Lexeme>, rest: seq<Lexeme>, allFields: seq<string>,
                          lower: string -> string)
    requires Numbers(ls, EDIT_DISTANCE, c.editDistance, middle) && Numbers(middle, BOOST, c.boost, rest)
    requires NextIsClause(rest)
    ensures Modifiers(ls, SaidDraft(c).(boost := None, editDistance := None), allFields, lower) ==
            Before(Meant(c, allFields), Clauses(rest, allFields, lower))
  {
    var d0 := SaidDraft(c).(boost := None, editDistance := None);
    var d1 := d0.(editDistance := c.editDistance);
    assert Modifiers(ls, d0, allFields, lower) == Modifiers(middle, d1, allFields, lower);
    assert Modifiers(middle, d1, allFields, lower) == Modifiers(rest, SaidDraft(c), allFields, lower);
    assert Completed(SaidDraft(c), allFields) == Meant(c, allFields);
  }

  function PrintedNumbers(c: Said, rest: string): string {
    PrintedNumber('~', c.editDistance) + (PrintedNumber('^', c.boost) + rest)
  }

  function PrintedTail(c: Said, rest: string): string {
    Escaped(c.term) + PrintedNumbers(c, rest)
  }

  /** A number begins with its mark; where there is none, the rest begins as before. */
  lemma NumberBegins(mark: char, n: Option<nat>, rest: string)
    requires (mark == '~' || mark == '^') && (rest == [] || (Special(rest[0]) && rest[0] != ':'))
    ensures var t := PrintedNumber(mark, n) + rest; t == [] || (Special(t[0]) && t[0] != ':')
  {
  }

  /** What a text and the numbers behind it become. */
  lemma LexTail(c: Said, rest: string, at: nat) returns (start: nat, middle: seq<Lexeme>, after: nat)
    requires c.term != [] && (rest == [] || rest[0] == ' ')
    ensures TermThen(Lexemes(PrintedTail(c, rest), at), c.term, Lexemes(PrintedNumbers(c, rest), start))
    ensures Numbers(Lexemes(PrintedNumbers(c, rest), start), EDIT_DISTANCE, c.editDistance, middle)
    ensures Numbers(middle, BOOST, c.boost, Lexemes(rest, after))
  {
    var boost := PrintedNumber('^', c.boost) + rest;
    start := at + 2 * |c.term|;
    NumberBegins('^', c.boost, rest);
    NumberBegins('~', c.editDistance, boost);
    LexTerm(c.term, PrintedNumbers(c, rest), at, start);
    var next := LexPrintedNumber('~', EDIT_DISTANCE, c.editDistance, boost, start);
    middle := Lexemes(boost, next);
    after := LexPrintedNumber('^', BOOST, c.boost, rest, next);
  }

  lemma Regroup(a: string, b: string, d: string, e: string, rest: string)
    ensures (a + (b + (d + e))) + rest == a + (b + (d + (e + rest)))
  {
  }

  lemma ColonJoins(f: string, t: string)
    ensures (f + ":") + t == f + (":" + t)
  {
  }

  lemma PrintedSplits(c: Said, rest: string)
    ensures Printed(c) + rest == PrintedField(c.field) + PrintedTail(c, rest)
  {
    Regroup(PrintedField(c.field), Escaped(c.term), PrintedNumber('~', c.editDistance), PrintedNumber('^', c.boost), rest);
  }

  /** The clause `meant` is parsed from t, and what follows is parsed on its own. */
  predicate ParsesAs(t: string, at: nat, meant: Clause, rest: string, after: nat, allFields: seq<string>, lower: string -> string) {
    && NextIsClause(Lexemes(t, at))
    && Clauses(Lexemes(t, at), allFields, lower) == Before(meant, Clauses(Lexemes(rest, after), allFields, lower))
  }

  lemma ParseWithoutField(c: Said, rest: string, at: nat, allFields: seq<string>, lower: string -> string) returns (after: nat)
    requires c.field.None? && Sayable(c, allFields, lower) && (rest == [] || rest[0] == ' ')
    requires forall p: nat :: NextIsClause(Lexemes(rest, p))
    ensures ParsesAs(PrintedTail(c, rest), at, Meant(c, allFields), rest, after, allFields, lower)
  {
    var t := PrintedTail(c, rest);
    var start, middle, next := LexTail(c, rest, at);
    after := next;
    ModifiersOfClause(Lexemes(PrintedNumbers(c, rest), start), c, middle, Lexemes(rest, after), allFields, lower);
  }

  lemma ParseWithField(c: Said, rest: string, at: nat, allFields: seq<string>, lower: string -> string) returns (after: nat)
    requires c.field.Some? && Sayable(c, allFields, lower) && (rest == [] || rest[0] == ' ')
    requires forall p: nat :: NextIsClause(Lexemes(rest, p))
    ensures ParsesAs(Escaped(c.field.value) + (":" + PrintedTail(c, rest)), at, Meant(c, allFields), rest, after, allFields, lower)
  {
    var f, t := c.field.value, PrintedTail(c, rest);
    var to := at + 2 * |f|;
    LexField(f, t, at, to);
    var start, middle, next := LexTail(c, rest, to + 1);
    after := next;
    ParseAfterField(Lexeme(FIELD, f, at, to), Lexemes(t, to + 1), c, Lexemes(PrintedNumbers(c, rest), start), middle,
                    Lexemes(rest, after), allFields, lower);
  }

  lemma ParseAfterField(field: Lexeme, ls: seq<Lexeme>, c: Said, numbers: seq<Lexeme>, middle: seq<Lexeme>,
                        rest: seq<Lexeme>, allFields: seq<string>, lower: string -> string)
    requires Sayable(c, allFields, lower) && c.field == Some(field.str) && field.kind == FIELD
    requires TermThen(ls, c.term, numbers)
    requires Numbers(numbers, EDIT_DISTANCE, c.editDistance, middle) && Numbers(middle, BOOST, c.boost, rest)
    requires NextIsClause(rest)
    ensures NextIsClause([field] + ls)
    ensures Clauses([field] + ls, allFields, lower) == Before(Meant(c, allFields), Clauses(rest, allFields, lower))
  {
    ModifiersOfClause(numbers, c, middle, rest, allFields, lower);
    assert ([field] + ls)[2..] == ls[1..];
  }

  /** A printed clause is parsed as what was meant, and what follows is parsed on its own. */
  lemma ParsePrinted(c: Said, rest: string, at: nat, allFields: seq<string>, lower: string -> string) returns (after: nat)
    requires Sayable(c, allFields, lower) && (rest == [] || rest[0] == ' ')
    requires forall p: nat :: NextIsClause(Lexemes(rest, p))
    ensures ParsesAs(Printed(c) + rest, at, Meant(c, allFields), rest, after, allFields, lower)
  {
    PrintedSplits(c, rest);
    var t := PrintedTail(c, rest);
    if c.field.None? {
      assert PrintedField(c.field) + t == t;
      after := ParseWithoutField(c, rest, at, allFields, lower);
    } else {
      ColonJoins(Escaped(c.field.value), t);
      after := ParseWithField(c, rest, at, allFields, lower);
    }
  }

  /** The string of these clauses is parsed as what was meant, wherever it stands. */
  ghost predicate Agrees(cs: seq<Said>, allFields: seq<string>, lower: string -> string) {
    forall at: nat :: AgreesAt(cs, at, allFields, lower)
  }

  predicate AgreesAt(cs: seq<Said>, at: nat, allFields: seq<string>, lower: string -> string) {
    && NextIsClause(Lexemes(PrintedAll(cs), at))
    && Clauses(Lexemes(PrintedAll(cs), at), allFields, lower) == Parsed(MeantAll(cs, allFields), None)
  }

  lemma OneAgrees(c: Said, at: nat, allFields: seq<string>, lower: string -> string)
    requires Sayable(c, allFields, lower)
    ensures AgreesAt([c], at, allFields, lower)
  {
    assert Printed(c) + [] == Printed(c);
    var after := ParsePrinted(c, [], at, allFields, lower);
    assert MeantAll([c], allFields) == [Meant(c, allFields)];
  }

  lemma OneMoreAgrees(c: Said, cs: seq<Said>, at: nat, allFields: seq<string>, lower: string -> string)
    requires Sayable(c, allFields, lower) && cs != [] && Agrees(cs, allFields, lower)
    ensures AgreesAt([c] + cs, at, allFields, lower)
  {
    var tail := PrintedAll(cs);
    var rest := " " + tail;
    forall p: nat ensures NextIsClause(Lexemes(rest, p)) {
      LexSpace(tail, p);
      assert AgreesAt(cs, p + 1, allFields, lower);
    }
    var after := ParsePrinted(c, rest, at, allFields, lower);
    LexSpace(tail, after);
    assert AgreesAt(cs, after + 1, allFields, lower);
    assert ([c] + cs)[1..] == cs;
  }

  lemma {:induction false} AllAgree(cs: seq<Said>, allFields: seq<string>, lower: string -> string)
    requires forall c :: c in cs ==> Sayable(c, allFields, lower)
    ensures Agrees(cs, allFields, lower)
    decreases |cs|
  {
    if |cs| > 1 {
      AllAgree(cs[1..], allFields, lower);
      assert [cs[0]] + cs[1..] == cs;
      forall at: nat ensures AgreesAt(cs, at, allFields, lower) {
        OneMoreAgrees(cs[0], cs[1..], at, allFields, lower);
      }
    } else if |cs| == 1 {
      assert [cs[0]] == cs;
      forall at: nat ensures AgreesAt(cs, at, allFields, lower) {
        OneAgrees(cs[0], at, allFields, lower);
      }
    }
  }

  /** Printing clauses and parsing the string gives the clauses back, completed with the defaults. */
  lemma RoundTrip(cs: seq<Said>, allFields: seq<string>, lower: string -> string)
    requires forall c :: c in cs ==> Sayable(c, allFields, lower)
    ensures Clauses(Lexemes(PrintedAll(cs), 0), allFields, lower) == Parsed(MeantAll(cs, allFields), None)
  {
    AllAgree(cs, allFields, lower);
    assert AgreesAt(cs, 0, allFields, lower);
  }

  // ----- every search string has a printed form

  /** A clause that some printed form means. */
  predicate Canonical(c: Clause, allFields: seq<string>, lower: string -> string) {
    && (c.fields == allFields || (|c.fields| == 1 && c.fields[0] in allFields))
    && lower(c.term) == c.term && c.usePipeline == (WILDCARD !in c.term) && c.wildcard == NONE
  }

  function SayAgain(c: Clause, allFields: seq<string>): Said {
    Said(if |c.fields| == 1 && c.fields[0] in allFields then Some(c.fields[0]) else None, c.term, c.editDistance, Some(c.boost))
  }

  function SayAllAgain(cs: seq<Clause>, allFields: seq<string>): seq<Said> {
    if cs == [] then [] else [SayAgain(cs[0], allFields)] + SayAllAgain(cs[1..], allFields)
  }

  /** Lower case is a fixed point, leaves the wildcard alone, and erases nothing. */
  ghost predicate IsLowering(lower: string -> string) {
    forall s :: lower(lower(s)) == lower(s) && (WILDCARD in lower(s) <==> WILDCARD in s) && (lower(s) == [] <==> s == [])
  }

  predicate CanonicalDraft(d: Draft, allFields: seq<string>, lower: string -> string) {
    && (d.fields.None? || (|d.fields.value| == 1 && d.fields.value[0] in allFields))
    && lower(d.term) == d.term && d.wildcard.None?
    && d.usePipeline == if WILDCARD in d.term then Some(false) else None
  }

  lemma {:induction false} ModifiersAreCanonical(ls: seq<Lexeme>, d: Draft, allFields: seq<string>, lower: string -> string)
    requires IsLowering(lower) && CanonicalDraft(d, allFields, lower)
    ensures forall c :: c in Modifiers(ls, d, allFields, lower).clauses ==> Canonical(c, allFields, lower)
    decreases |ls|, 1
  {
    if NextIsClause(ls) {
      ClausesAreCanonical(ls, allFields, lower);
    } else {
      var n := ParseInt(ls[0].str);
      if n.Some? {
        if ls[0].kind == EDIT_DISTANCE {
          ModifiersAreCanonical(ls[1..], d.(editDistance := n), allFields, lower);
        } else {
          ModifiersAreCanonical(ls[1..], d.(boost := n), allFields, lower);
        }
      }
    }
  }

  lemma {:induction false} ClausesAreCanonical(ls: seq<Lexeme>, allFields: seq<string>, lower: string -> string)
    requires IsLowering(lower)
    ensures forall c :: c in Clauses(ls, allFields, lower).clauses ==> Canonical(c, allFields, lower)
    decreases |ls|, 0
  {
    if ls != [] {
      if ls[0].kind == TERM {
        ModifiersAreCanonical(ls[1..], Termed(EMPTY, ls[0].str, lower), allFields, lower);
      } else if ls[0].kind == FIELD && ls[0].str in allFields && |ls| > 1 && ls[1].kind == TERM {
        var d := Termed(EMPTY.(fields := Some([ls[0].str])), ls[1].str, lower);
        ModifiersAreCanonical(ls[2..], d, allFields, lower);
      }
    }
  }

  lemma {:induction false} SaidAgainIsMeant(cs: seq<Clause>, allFields: seq<string>, lower: string -> string)
    requires forall c :: c in cs ==> Canonical(c, allFields, lower) && c.term != []
    ensures MeantAll(SayAllAgain(cs, allFields), allFields) == cs
    ensures forall c :: c in SayAllAgain(cs, allFields) ==> Sayable(c, allFields, lower)
  {
    if cs != [] {
      SaidAgainIsMeant(cs[1..], allFields, lower);
      var c := cs[0];
      assert c.fields == allFields || |c.fields| == 1;
      assert Meant(SayAgain(c, allFields), allFields) == c;
    }
  }
}
