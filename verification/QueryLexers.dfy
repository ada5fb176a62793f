/**
 The lexer of search strings: a machine with a position, the start of the current lexeme and the
 places of the escape characters in it, and the grammar it follows.
 */
module QueryLexers {
  import opened Common
  import opened Decimals

  datatype Kind = FIELD | TERM | EDIT_DISTANCE | BOOST

  datatype Lexeme = Lexeme(kind: Kind, str: string, start: nat, end: nat)

  const ESCAPE: char := '\\'

  /** White space, as regular expressions of the original's language have it, and the hyphen. */
  predicate Separates(c: char) {
    || c == '-' || c == ' ' || '\t' <= c <= '\r' || c == '\U{A0}' || c == '\U{1680}' || '\U{2000}' <= c <= '\U{200A}'
    || c == '\U{2028}' || c == '\U{2029}' || c == '\U{202F}' || c == '\U{205F}' || c == '\U{3000}' || c == '\U{FEFF}'
  }

  /** The characters that end a text unless they are escaped. */
  predicate Special(c: char) {
    c == ':' || c == '~' || c == '^' || Separates(c)
  }

  predicate StartsNumber(mark: char, kind: Kind) {
    if mark == '~' then kind == EDIT_DISTANCE else mark == '^' && kind == BOOST
  }

  /** A substring that may lie beyond the end. */
  function Slice(s: string, i: nat, j: nat): string {
    if i < j && i < |s| then s[i..if j < |s| then j else |s|] else []
  }

  // ----- the grammar

  /** The length of the text that t begins with; an escape character at the very end counts for two. */
  function TextLength(t: string): nat {
    if t == [] then 0
    else if t[0] == ESCAPE then 2 + (if |t| == 1 then 0 else TextLength(t[2..]))
    else if Special(t[0]) then 0
    else 1 + TextLength(t[1..])
  }

  /** A text without its escape characters. */
  function Unescape(t: string): string {
    if t == [] then []
    else if t[0] != ESCAPE then [t[0]] + Unescape(t[1..])
    else if |t| == 1 then []
    else [t[1]] + Unescape(t[2..])
  }

  function DigitRun(t: string): (n: nat)
    ensures n <= |t|
    ensures forall i :: 0 <= i < n ==> IsDigit(t[i])
  {
    if t != [] && IsDigit(t[0]) then 1 + DigitRun(t[1..]) else 0
  }

  /** A text, if there is one, is a term. */
  function TermOf(t: string, at: nat): seq<Lexeme> {
    var n := TextLength(t);
    if n == 0 then [] else [Lexeme(TERM, Unescape(Slice(t, 0, n)), at, at + n)]
  }

  /** A mark and the digits behind it. */
  function NumberOf(kind: Kind, t: string, at: nat): Lexeme
    requires t != []
  {
    var d := DigitRun(t[1..]);
    Lexeme(kind, t[1..][..d], at + 1, at + 1 + d)
  }

  /** The lexemes of t, which begins at position `at` of the search string. */
  function Lexemes(t: string, at: nat): seq<Lexeme>
    decreases |t|
  {
    var n := TextLength(t);
    if n >= |t| then TermOf(t, at)
    else if t[n] == ':' then [Lexeme(FIELD, Unescape(t[..n]), at, at + n)] + Lexemes(t[n + 1..], at + n + 1)
    else TermOf(t, at) + Marked(t[n..], at + n)
  }

  /** The lexemes of a string that begins with a mark or a separator. */
  function Marked(t: string, at: nat): seq<Lexeme>
    requires t != []
    decreases |t|, 0
  {
    if t[0] == '~' || t[0] == '^' then
      var d := DigitRun(t[1..]);
      [NumberOf(if t[0] == '~' then EDIT_DISTANCE else BOOST, t, at)] + Lexemes(t[1 + d..], at + 1 + d)
    else
      Lexemes(t[1..], at + 1)
  }

  // ----- what the fields of the lexer mean

  /** The characters from i to j are part of one text. */
  predicate Scanned(s: string, i: nat, j: nat)
    decreases j - i
  {
    i == j ||
    (i < j && i < |s| && if s[i] == ESCAPE then i + 2 <= j && Scanned(s, i + 2, j) else !Special(s[i]) && Scanned(s, i + 1, j))
  }

  /** Where the escape characters of a text are. */
  function Escapes(s: string, i: nat, j: nat): seq<nat>
    decreases j - i
  {
    if i >= j || i >= |s| then []
    else if s[i] == ESCAPE then [i] + (if i + 2 <= j then Escapes(s, i + 2, j) else [])
    else Escapes(s, i + 1, j)
  }

  /** The parts of a text between its escape characters. */
  function Parts(s: string, from: nat, escapes: seq<nat>, to: nat): string
    decreases |escapes|
  {
    if escapes == [] then Slice(s, from, to)
    else Slice(s, from, escapes[0]) + Parts(s, escapes[0] + 1, escapes[1..], to)
  }

  lemma {:induction false} ScanCharacter(s: string, i: nat, j: nat)
    requires Scanned(s, i, j) && j < |s| && s[j] != ESCAPE && !Special(s[j])
    ensures Scanned(s, i, j + 1) && Escapes(s, i, j + 1) == Escapes(s, i, j)
    decreases j - i
  {
    if i < j {
      ScanCharacter(s, if s[i] == ESCAPE then i + 2 else i + 1, j);
    }
  }

  lemma {:induction false} ScanEscape(s: string, i: nat, j: nat)
    requires Scanned(s, i, j) && j < |s| && s[j] == ESCAPE
    ensures Scanned(s, i, j + 2) && Escapes(s, i, j + 2) == Escapes(s, i, j) + [j]
    decreases j - i
  {
    if i < j {
      ScanEscape(s, if s[i] == ESCAPE then i + 2 else i + 1, j);
    }
  }

  lemma {:induction false} ScannedIsText(s: string, i: nat, j: nat)
    requires Scanned(s, i, j) && i <= |s| && (j < |s| ==> Special(s[j]))
    ensures TextLength(s[i..]) == j - i
    decreases j - i
  {
    if i < j {
      if s[i] == ESCAPE {
        if i + 1 < |s| {
          ScannedIsText(s, i + 2, j);
          assert s[i..][2..] == s[i + 2..];
        }
      } else {
        ScannedIsText(s, i + 1, j);
        assert s[i..][1..] == s[i + 1..];
      }
    }
  }

  /** A part that does not begin with an escape character begins with its first character. */
  lemma PartsFrom(s: string, i: nat, escapes: seq<nat>, j: nat)
    requires i < j && i < |s| && (escapes != [] ==> i < escapes[0])
    ensures Parts(s, i, escapes, j) == [s[i]] + Parts(s, i + 1, escapes, j)
  {
    if escapes == [] {
      SliceFrom(s, i, j);
    } else {
      SliceFrom(s, i, escapes[0]);
    }
  }

  lemma SliceFrom(s: string, i: nat, j: nat)
    requires i < j && i < |s|
    ensures Slice(s, i, j) == [s[i]] + Slice(s, i + 1, j)
  {
  }

  lemma {:induction false} EscapesAreAhead(s: string, i: nat, j: nat)
    ensures Escapes(s, i, j) != [] ==> i <= Escapes(s, i, j)[0] < |s| && Escapes(s, i, j)[0] < j
    decreases j - i
  {
    if i < j && i < |s| && s[i] != ESCAPE {
      EscapesAreAhead(s, i + 1, j);
    }
  }

  lemma {:induction false} PartsAreUnescaped(s: string, i: nat, j: nat)
    requires Scanned(s, i, j)
    ensures Parts(s, i, Escapes(s, i, j), j) == Unescape(Slice(s, i, j))
    decreases j - i
  {
    if i < j {
      if s[i] != ESCAPE {
        PartsAreUnescaped(s, i + 1, j);
        EscapesAreAhead(s, i + 1, j);
        PartsFrom(s, i, Escapes(s, i, j), j);
        assert Slice(s, i, j)[1..] == Slice(s, i + 1, j);
      } else {
        PartsAreUnescaped(s, i + 2, j);
        EscapesAreAhead(s, i + 2, j);
        PartsAfterEscape(s, i, Escapes(s, i + 2, j), j);
      }
    }
  }

  lemma PartsSkipEscape(s: string, i: nat, more: seq<nat>, j: nat)
    ensures Parts(s, i, [i] + more, j) == Parts(s, i + 1, more, j)
  {
    assert ([i] + more)[1..] == more;
    assert Slice(s, i, i) == [];
  }

  lemma UnescapeEscape(s: string, i: nat, j: nat)
    requires i + 2 <= j && i < |s| && s[i] == ESCAPE
    ensures Unescape(Slice(s, i, j)) == if i + 1 < |s| then [s[i + 1]] + Unescape(Slice(s, i + 2, j)) else []
  {
    if i + 1 < |s| {
      assert Slice(s, i, j)[2..] == Slice(s, i + 2, j);
    } else {
      assert Slice(s, i, j) == [ESCAPE];
    }
  }

  lemma PartsAfterEscape(s: string, i: nat, more: seq<nat>, j: nat)
    requires i + 2 <= j && i < |s| && s[i] == ESCAPE && (more != [] ==> i + 2 <= more[0] < |s|)
    requires Parts(s, i + 2, more, j) == Unescape(Slice(s, i + 2, j))
    ensures Parts(s, i, [i] + more, j) == Unescape(Slice(s, i, j))
  {
    PartsSkipEscape(s, i, more, j);
    UnescapeEscape(s, i, j);
    if i + 1 < |s| {
      PartsFrom(s, i + 1, more, j);
    }
  }

  function Join(parts: seq<string>): string {
    if parts == [] then [] else Join(parts[..|parts| - 1]) + parts[|parts| - 1]
  }

  // ----- the grammar, at positions of the string

  /** The lexemes from position i on. */
  function From(s: string, i: nat): seq<Lexeme>
    requires i <= |s|
  {
    Lexemes(s[i..], i)
  }

  ghost predicate TextBetween(s: string, i: nat, e: nat) {
    i <= |s| && i <= e && Scanned(s, i, e) && (e < |s| ==> Special(s[e]))
  }

  lemma AtColon(t: string, n: nat, text: string, rest: string, at: nat, to: nat)
    requires n == TextLength(t) < |t| && t[n] == ':' && text == t[..n] && rest == t[n + 1..] && to == at + n
    ensures Lexemes(t, at) == [Lexeme(FIELD, Unescape(text), at, to)] + Lexemes(rest, to + 1)
  {
  }

  lemma FromField(s: string, i: nat, e: nat, field: Lexeme)
    requires TextBetween(s, i, e) && e < |s| && s[e] == ':' && field == Lexeme(FIELD, Unescape(Slice(s, i, e)), i, e)
    ensures From(s, i) == [field] + From(s, e + 1)
  {
    ScannedIsText(s, i, e);
    var t, n := s[i..], e - i;
    assert t[..n] == Slice(s, i, e) && t[n + 1..] == s[e + 1..];
    AtColon(t, n, Slice(s, i, e), s[e + 1..], i, e);
  }

  lemma FromMark(s: string, e: nat)
    requires e < |s| && Special(s[e]) && s[e] != ':'
    ensures From(s, e) == Marked(s[e..], e)
  {
    var t := s[e..];
    assert t[0..] == t;
    assert TermOf(t, e) == [];
  }

  lemma FromSeparator(s: string, e: nat)
    requires e < |s| && Separates(s[e])
    ensures From(s, e) == From(s, e + 1)
  {
    FromMark(s, e);
    assert s[e..][1..] == s[e + 1..];
  }

  lemma AtNumber(t: string, kind: Kind, d: string, rest: string, at: nat, to: nat)
    requires t != [] && StartsNumber(t[0], kind) && DigitRun(t[1..]) == |d| && to == at + 1 + |d|
    requires t[1..][..|d|] == d && t[1 + |d|..] == rest
    ensures Marked(t, at) == [Lexeme(kind, d, at + 1, to)] + Lexemes(rest, to)
  {
  }

  lemma FromNumber(s: string, e: nat, kind: Kind, i: nat, j: nat)
    requires e < |s| && StartsNumber(s[e], kind)
    requires i == e + 1 && j == i + DigitRun(s[i..])
    ensures From(s, e) == [Lexeme(kind, s[i..j], i, j)] + From(s, j)
  {
    FromMark(s, e);
    var t, d, r := s[e..], s[i..j], s[j..];
    assert t[1..] == s[i..] && t[1 + |d|..] == r && t[1..][..|d|] == d;
    AtNumber(t, kind, d, r, e, j);
  }

  lemma TextThenMark(t: string, n: nat, rest: string, at: nat, to: nat)
    requires n == TextLength(t) < |t| && t[n] != ':' && rest == t[n..] && to == at + n
    ensures Lexemes(t, at) == TermOf(t, at) + Marked(rest, to)
  {
  }

  function TermAt(s: string, i: nat, e: nat): seq<Lexeme> {
    if e > i then [Lexeme(TERM, Unescape(Slice(s, i, e)), i, e)] else []
  }

  lemma TermOfSlice(s: string, i: nat, e: nat)
    requires i <= |s| && i <= e && TextLength(s[i..]) == e - i
    ensures TermOf(s[i..], i) == TermAt(s, i, e)
  {
    assert Slice(s[i..], 0, e - i) == Slice(s, i, e);
  }

  /** A text that is not a field is a term, and the rest is lexed on its own. */
  lemma FromText(s: string, i: nat, e: nat)
    requires TextBetween(s, i, e) && e < |s| && s[e] != ':'
    ensures From(s, i) == TermAt(s, i, e) + From(s, e)
  {
    var t, n, r := s[i..], e - i, s[e..];
    ScannedIsText(s, i, e);
    TermOfSlice(s, i, e);
    FromMark(s, e);
    assert t[n] == s[e] && t[n..] == r;
    TextThenMark(t, n, r, i, e);
  }

  lemma FromLastText(s: string, i: nat, e: nat)
    requires TextBetween(s, i, e) && e >= |s|
    ensures From(s, i) == TermAt(s, i, e)
  {
    ScannedIsText(s, i, e);
    TermOfSlice(s, i, e);
  }

  /** The lexemes so far, and those of the grammar for the rest, are those of the whole string. */
  ghost predicate Course(lexemes: seq<Lexeme>, s: string, i: nat) {
    i <= |s| && lexemes + From(s, i) == From(s, 0)
  }

  function WithTerm(lexemes: seq<Lexeme>, s: string, i: nat, e: nat): seq<Lexeme> {
    if e > i then lexemes + [Lexeme(TERM, Parts(s, i, Escapes(s, i, e), e), i, e)] else lexemes
  }

  lemma CourseGoesOn(lexemes: seq<Lexeme>, more: seq<Lexeme>, s: string, i: nat, j: nat)
    requires Course(lexemes, s, i) && j <= |s| && From(s, i) == more + From(s, j)
    ensures Course(lexemes + more, s, j)
  {
    assert lexemes + more + From(s, j) == lexemes + (more + From(s, j));
  }

  function WithField(lexemes: seq<Lexeme>, s: string, i: nat, e: nat): seq<Lexeme> {
    lexemes + [Lexeme(FIELD, Parts(s, i, Escapes(s, i, e), e), i, e)]
  }

  lemma CourseOfField(lexemes: seq<Lexeme>, s: string, i: nat, e: nat)
    requires Course(lexemes, s, i) && TextBetween(s, i, e) && e < |s| && s[e] == ':'
    ensures Course(WithField(lexemes, s, i, e), s, e + 1)
  {
    PartsAreUnescaped(s, i, e);
    var field := Lexeme(FIELD, Unescape(Slice(s, i, e)), i, e);
    FromField(s, i, e, field);
    CourseGoesOn(lexemes, [field], s, i, e + 1);
  }

  lemma CourseOfText(lexemes: seq<Lexeme>, s: string, i: nat, e: nat)
    requires Course(lexemes, s, i) && TextBetween(s, i, e) && e < |s| && s[e] != ':'
    ensures Course(WithTerm(lexemes, s, i, e), s, e)
  {
    FromText(s, i, e);
    PartsAreUnescaped(s, i, e);
    var more := TermAt(s, i, e);
    CourseGoesOn(lexemes, more, s, i, e);
    assert lexemes + [] == lexemes;
  }

  lemma CourseAtEnd(lexemes: seq<Lexeme>, s: string, i: nat, e: nat)
    requires Course(lexemes, s, i) && TextBetween(s, i, e) && e >= |s|
    ensures WithTerm(lexemes, s, i, e) == From(s, 0)
  {
    FromLastText(s, i, e);
    PartsAreUnescaped(s, i, e);
    assert lexemes + [] == lexemes;
  }

  lemma CourseOfTerm(lexemes: seq<Lexeme>, s: string, i: nat, e: nat)
    requires Course(lexemes, s, i) && TextBetween(s, i, e) && e < |s| && Separates(s[e])
    ensures Course(WithTerm(lexemes, s, i, e), s, e + 1)
    ensures e + 1 == |s| ==> WithTerm(lexemes, s, i, e) == From(s, 0)
  {
    CourseOfText(lexemes, s, i, e);
    FromSeparator(s, e);
    if e + 1 == |s| {
      CourseEnds(WithTerm(lexemes, s, i, e), s);
    }
  }

  lemma OnePart(s: string, i: nat, j: nat)
    requires i <= j <= |s|
    ensures Parts(s, i, [], j) == s[i..j]
  {
  }

  lemma CourseOfNumber(lexemes: seq<Lexeme>, s: string, e: nat, kind: Kind, i: nat, j: nat)
    requires Course(lexemes, s, e) && e < |s| && StartsNumber(s[e], kind)
    requires i == e + 1 && j == i + DigitRun(s[i..])
    ensures Course(lexemes + [Lexeme(kind, Parts(s, i, [], j), i, j)], s, j)
  {
    FromNumber(s, e, kind, i, j);
    OnePart(s, i, j);
    CourseGoesOn(lexemes, [Lexeme(kind, s[i..j], i, j)], s, e, j);
  }

  lemma CourseEnds(lexemes: seq<Lexeme>, s: string)
    requires Course(lexemes, s, |s|)
    ensures lexemes == From(s, 0)
  {
    assert s[|s|..] == [];
    assert lexemes + [] == lexemes;
  }

  lemma JoinOneMore(parts: seq<string>, part: string, rest: string)
    ensures Join(parts) + (part + rest) == Join(parts + [part]) + rest
  {
    assert (parts + [part])[..|parts|] == parts;
  }

  // ----- the lexer

  datatype State = LexText | LexField | LexTerm | LexEditDistance | LexBoost | LexEOS | Done

  class QueryLexer {
    var lexemes: seq<Lexeme>
    const str: string
    var pos: nat
    var start: nat
    var escapeCharPositions: seq<nat>

    constructor (s: string)
      ensures str == s && pos == 0 && start == 0 && lexemes == [] && escapeCharPositions == []
    {
      str := s;
      lexemes, pos, start, escapeCharPositions := [], 0, 0, [];
    }

    /** The text from `start` to e has been read, and its escape characters recorded. */
    ghost predicate Texted(e: nat)
      reads this
    {
      && start <= |str| && start <= e && Scanned(str, start, e) && escapeCharPositions == Escapes(str, start, e)
      && (e < |str| ==> Special(str[e]))
    }

    /** Nothing has been read since the last lexeme. */
    ghost predicate Fresh()
      reads this
    {
      start == pos <= |str| && escapeCharPositions == []
    }

    /** The lexemes so far, and those of the grammar for the rest, are those of the whole string. */
    ghost predicate OnCourse()
      reads this
    {
      Course(lexemes, str, start)
    }

    /** All lexemes of the grammar have been found. */
    ghost predicate Finished()
      reads this
    {
      lexemes == From(str, 0)
    }

    /** What holds when a state is entered. */
    ghost predicate Enters(state: State)
      reads this
    {
      match state
      case LexText => Fresh() && OnCourse()
      case LexField => pos > 0 && pos <= |str| && Texted(pos - 1) && str[pos - 1] == ':' && OnCourse()
      case LexTerm => pos > 0 && pos <= |str| && Texted(pos - 1) && Separates(str[pos - 1]) && OnCourse()
      case LexEditDistance => Fresh() && pos < |str| && str[pos] == '~' && OnCourse()
      case LexBoost => Fresh() && pos < |str| && str[pos] == '^' && OnCourse()
      case LexEOS => pos >= |str| && Texted(pos) && OnCourse()
      case Done => Finished()
    }

    method SliceString() returns (slice: string)
      modifies this`escapeCharPositions
      ensures slice == Parts(str, start, old(escapeCharPositions), pos) && escapeCharPositions == []
    {
      var subSlices: seq<string>, sliceStart := [], start;
      for i := 0 to |escapeCharPositions|
        invariant escapeCharPositions == old(escapeCharPositions)
        invariant Join(subSlices) + Parts(str, sliceStart, escapeCharPositions[i..], pos)
               == Parts(str, start, escapeCharPositions, pos)
      {
        var sliceEnd := escapeCharPositions[i];
        assert escapeCharPositions[i..][1..] == escapeCharPositions[i + 1..];
        JoinOneMore(subSlices, Slice(str, sliceStart, sliceEnd), Parts(str, sliceEnd + 1, escapeCharPositions[i + 1..], pos));
        subSlices := subSlices + [Slice(str, sliceStart, sliceEnd)];
        sliceStart := sliceEnd + 1;
      }
      subSlices := subSlices + [Slice(str, sliceStart, pos)];
      escapeCharPositions := [];
      slice := Join(subSlices);
    }

    method Emit(kind: Kind)
      modifies this`lexemes, this`start, this`escapeCharPositions
      ensures lexemes == old(lexemes) + [Lexeme(kind, Parts(str, old(start), old(escapeCharPositions), pos), old(start), pos)]
      ensures start == pos && escapeCharPositions == []
    {
      var slice := SliceString();
      lexemes := lexemes + [Lexeme(kind, slice, start, pos)];
      start := pos;
    }

    method EscapeCharacter()
      requires pos > 0
      modifies this`escapeCharPositions, this`pos
      ensures escapeCharPositions == old(escapeCharPositions) + [old(pos) - 1] && pos == old(pos) + 1
    {
      escapeCharPositions := escapeCharPositions + [pos - 1];
      pos := pos + 1;
    }

    /** The next character, or nothing at the end of the string. */
    method Next() returns (char': Option<char>)
      modifies this`pos
      ensures char' == if old(pos) < |str| then Some(str[old(pos)]) else None
      ensures pos == if old(pos) < |str| then old(pos) + 1 else old(pos)
    {
      if pos >= |str| {
        return None;
      }
      char' := Some(str[pos]);
      pos := pos + 1;
    }

    function Width(): int
      reads this
    {
      pos - start
    }

    method Ignore()
      modifies this`pos, this`start
      ensures pos == (if old(start) == old(pos) then old(pos) + 1 else old(pos)) && start == pos
    {
      if start == pos {
        pos := pos + 1;
      }
      start := pos;
    }

    method Backup()
      requires pos > 0
      modifies this`pos
      ensures pos == old(pos) - 1
    {
      pos := pos - 1;
    }

    /** Skips digits. At the end of the string there is nothing to back up from. */
    method AcceptDigitRun()
      requires pos <= |str|
      modifies this`pos
      ensures pos == old(pos) + DigitRun(str[old(pos)..]) <= |str|
    {
      var char' := Next();
      while char'.Some? && IsDigit(char'.value)
        invariant pos <= |str|
        invariant char'.None? ==> pos == |str|
        invariant char'.Some? ==> pos > old(pos) && char'.value == str[pos - 1]
        invariant char'.None? ==> pos == old(pos) + DigitRun(str[old(pos)..])
        invariant char'.Some? ==> pos - 1 + DigitRun(str[pos - 1..]) == old(pos) + DigitRun(str[old(pos)..])
        decreases |str| - pos, if char'.Some? then 1 else 0
      {
        char' := Next();
      }
      if char'.Some? {
        Backup();
      }
    }

    method More() returns (more: bool)
      ensures more == (pos < |str|)
    {
      return pos < |str|;
    }

    /** The field in front of a colon, and the colon. */
    method EndField()
      requires pos > 0 && Texted(pos - 1)
      modifies this
      ensures lexemes == WithField(old(lexemes), str, old(start), old(pos) - 1)
      ensures start == pos == old(pos) && escapeCharPositions == []
    {
      Backup();
      Emit(FIELD);
      Ignore();
    }

    method RunField() returns (state: State)
      requires pos > 0 && pos <= |str| && Texted(pos - 1) && str[pos - 1] == ':' && OnCourse()
      modifies this
      ensures Fresh() && OnCourse() && state == LexText && start > old(start)
    {
      CourseOfField(lexemes, str, start, pos - 1);
      EndField();
      return LexText;
    }

    /** The term in front of a separator, and the separator. */
    method EndTerm()
      requires pos > 0 && Texted(pos - 1)
      modifies this
      ensures lexemes == WithTerm(old(lexemes), str, old(start), old(pos) - 1)
      ensures start == pos == old(pos) && escapeCharPositions == []
    {
      if Width() > 1 {
        Backup();
        Emit(TERM);
      }
      Ignore();
    }

    method RunTerm() returns (state: State)
      requires Enters(LexTerm)
      modifies this
      ensures state == LexText || state == Done
      ensures if state == LexText then Fresh() && OnCourse() else Finished()
      ensures start > old(start)
    {
      CourseOfTerm(lexemes, str, start, pos - 1);
      EndTerm();
      var more := More();
      state := if more then LexText else Done;
    }

    /** The mark is skipped, the digits behind it are the lexeme. */
    method EndNumber(kind: Kind)
      requires Fresh() && pos < |str|
      modifies this
      ensures var from := old(pos) + 1; var to := from + DigitRun(str[from..]);
              && lexemes == old(lexemes) + [Lexeme(kind, Parts(str, from, [], to), from, to)]
              && start == pos == to <= |str| && escapeCharPositions == []
    {
      Ignore();
      AcceptDigitRun();
      Emit(kind);
    }

    /** Both kinds of numbers. */
    method RunNumber(kind: Kind) returns (state: State)
      requires Fresh() && OnCourse() && pos < |str| && StartsNumber(str[pos], kind)
      modifies this
      ensures Fresh() && OnCourse() && state == LexText && start > old(start)
    {
      CourseOfNumber(lexemes, str, pos, kind, pos + 1, pos + 1 + DigitRun(str[pos + 1..]));
      EndNumber(kind);
      return LexText;
    }

    method RunEOS() returns (state: State)
      requires Enters(LexEOS)
      modifies this
      ensures Enters(state) && state == Done && start >= old(start)
    {
      CourseAtEnd(lexemes, str, start, pos);
      if Width() > 0 {
        Emit(TERM);
      }
      return Done;
    }

    /** The term in front of a mark. */
    method EmitPending()
      requires Texted(pos) && pos < |str| && str[pos] != ':' && OnCourse()
      modifies this`lexemes, this`start, this`escapeCharPositions
      ensures Fresh() && OnCourse() && start >= old(start)
    {
      CourseOfText(lexemes, str, start, pos);
      if Width() > 0 {
        Emit(TERM);
      }
    }

    /** Reads a text, and what ends it. */
    method ScanText() returns (end: Option<char>)
      requires Fresh()
      modifies this`pos, this`escapeCharPositions
      ensures end.None? ==> pos >= |str| && Texted(pos)
      ensures end.Some? ==> 0 < pos <= |str| && str[pos - 1] == end.value && Special(end.value) && Texted(pos - 1)
    {
      while true
        invariant start <= pos && start <= |str|
        invariant Scanned(str, start, pos) && escapeCharPositions == Escapes(str, start, pos)
        decreases |str| + 1 - pos
      {
        var char' := Next();
        if char'.None? || Special(char'.value) {
          return char';
        }
        if char'.value == ESCAPE {
          ScanEscape(str, start, pos - 1);
          EscapeCharacter();
        } else {
          ScanCharacter(str, start, pos - 1);
        }
      }
    }

    method RunText() returns (state: State)
      requires Enters(LexText)
      modifies this
      ensures Enters(state) && state != LexText && state != Done && start >= old(start)
    {
      var end := ScanText();
      match end
      case None =>
        return LexEOS;
      case Some(c) =>
        if c == ':' {
          return LexField;
        }
        if c == '~' || c == '^' {
          Backup();
          EmitPending();
          return if c == '~' then LexEditDistance else LexBoost;
        }
        return LexTerm;
    }

    method Run()
      requires pos == 0 && start == 0 && lexemes == [] && escapeCharPositions == []
      modifies this
      ensures lexemes == Lexemes(str, 0)
    {
      assert str[0..] == str;
      var state := LexText;
      while state != Done
        invariant Enters(state)
        decreases |str| + 1 - start, if state == LexText then 2 else if state == Done then 0 else 1
      {
        match state
        case LexText => state := RunText();
        case LexField => state := RunField();
        case LexTerm => state := RunTerm();
        case LexEditDistance => state := RunNumber(EDIT_DISTANCE);
        case LexBoost => state := RunNumber(BOOST);
        case LexEOS => state := RunEOS();
      }
    }
  }
}
