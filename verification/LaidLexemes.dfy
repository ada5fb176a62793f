/**
 How the lexemes of a search string lie in it: a relation between a string and a list of lexemes
 that only the right list fulfils.
 */
module LaidLexemes {
  import opened Common
  import opened Decimals
  import opened QueryLexers

  /** Nothing but separators from i up to j. */
  predicate Gap(s: string, i: nat, j: nat) {
    i <= j <= |s| && forall k :: i <= k < j ==> Separates(s[k])
  }

  /** The lexeme is a number with its mark right before it, and all the digits behind the mark. */
  predicate LiesAsNumber(s: string, i: nat, l: Lexeme) {
    && i < l.start <= l.end <= |s| && Gap(s, i, l.start - 1) && StartsNumber(s[l.start - 1], l.kind)
    && l.str == s[l.start..l.end] && (forall k :: l.start <= k < l.end ==> IsDigit(s[k]))
    && (l.end < |s| ==> !IsDigit(s[l.end]))
  }

  /** The lexeme is the text from its start to its end, without the escape characters. */
  predicate LiesAsText(s: string, i: nat, l: Lexeme) {
    && i <= l.start <= |s| && l.start <= l.end && Gap(s, i, l.start) && Scanned(s, l.start, l.end)
    && l.str == Unescape(Slice(s, l.start, l.end))
  }

  /** The list names all there is from place i of the string on, in order. */
  predicate Laid(s: string, i: nat, ls: seq<Lexeme>)
    requires i <= |s|
    decreases |ls|
  {
    if ls == [] then Gap(s, i, |s|)
    else
      var l := ls[0];
      match l.kind
      case FIELD => LiesAsText(s, i, l) && l.end < |s| && s[l.end] == ':' && Laid(s, l.end + 1, ls[1..])
      case TERM =>
        && LiesAsText(s, i, l) && l.start < l.end && (l.end < |s| ==> Special(s[l.end]) && s[l.end] != ':')
        && if l.end <= |s| then Laid(s, l.end, ls[1..]) else ls[1..] == []
      case _ => LiesAsNumber(s, i, l) && Laid(s, l.end, ls[1..])
  }

  // ----- where texts and numbers end

  lemma {:induction false} TextIsScanned(s: string, i: nat)
    requires i <= |s|
    ensures var e := i + TextLength(s[i..]);
            Scanned(s, i, e) && (e < |s| ==> Special(s[e]))
    decreases |s| - i
  {
    if i < |s| {
      if s[i] == ESCAPE {
        if i + 1 < |s| {
          assert s[i..][2..] == s[i + 2..];
          TextIsScanned(s, i + 2);
        }
      } else if !Special(s[i]) {
        assert s[i..][1..] == s[i + 1..];
        TextIsScanned(s, i + 1);
      }
    }
  }

  /** A text that starts at i ends where the grammar says. */
  lemma TextEndsThere(s: string, i: nat, e: nat)
    requires i <= |s| && Scanned(s, i, e) && (e < |s| ==> Special(s[e]))
    ensures e == i + TextLength(s[i..])
  {
    ScannedIsText(s, i, e);
  }

  lemma {:induction false} DigitsEndThere(t: string, d: nat)
    requires d <= |t| && (forall k :: 0 <= k < d ==> IsDigit(t[k])) && (d < |t| ==> !IsDigit(t[d]))
    ensures DigitRun(t) == d
  {
    if d > 0 {
      DigitsEndThere(t[1..], d - 1);
    }
  }

  lemma {:induction false} DigitRunEnds(t: string)
    ensures DigitRun(t) < |t| ==> !IsDigit(t[DigitRun(t)])
  {
    if t != [] && IsDigit(t[0]) {
      DigitRunEnds(t[1..]);
    }
  }

  // ----- the lexemes of the grammar are laid so

  lemma GapInFront(s: string, i: nat, ls: seq<Lexeme>)
    requires i < |s| && Separates(s[i]) && Laid(s, i + 1, ls)
    ensures Laid(s, i, ls)
  {
  }

  /** What the digit run says, in places of the string. */
  lemma DigitsOf(s: string, i: nat, j: nat)
    requires i <= |s| && j == i + DigitRun(s[i..])
    ensures j <= |s| && (forall k :: i <= k < j ==> IsDigit(s[k])) && (j < |s| ==> !IsDigit(s[j]))
  {
    DigitRunEnds(s[i..]);
    forall k | i <= k < j ensures IsDigit(s[k]) {
      assert s[k] == s[i..][k - i];
    }
  }

  lemma NumberIsLaid(s: string, e: nat, number: Lexeme, rest: seq<Lexeme>)
    requires LiesAsNumber(s, e, number) && Laid(s, number.end, rest)
    ensures Laid(s, e, [number] + rest)
  {
    assert ([number] + rest)[1..] == rest;
  }

  lemma FieldIsLaid(s: string, i: nat, e: nat, rest: seq<Lexeme>)
    requires TextBetween(s, i, e) && e < |s| && s[e] == ':' && Laid(s, e + 1, rest)
    ensures Laid(s, i, [Lexeme(FIELD, Unescape(Slice(s, i, e)), i, e)] + rest)
  {
    assert ([Lexeme(FIELD, Unescape(Slice(s, i, e)), i, e)] + rest)[1..] == rest;
  }

  lemma TermIsLaid(s: string, i: nat, e: nat, rest: seq<Lexeme>)
    requires TextBetween(s, i, e) && i < e && (e < |s| ==> s[e] != ':')
    requires if e <= |s| then Laid(s, e, rest) else rest == []
    ensures Laid(s, i, [Lexeme(TERM, Unescape(Slice(s, i, e)), i, e)] + rest)
  {
    assert ([Lexeme(TERM, Unescape(Slice(s, i, e)), i, e)] + rest)[1..] == rest;
  }

  lemma LastIsLaid(s: string, i: nat, e: nat)
    requires TextBetween(s, i, e) && e >= |s|
    ensures Laid(s, i, From(s, i))
  {
    FromLastText(s, i, e);
    if e > i {
      TermIsLaid(s, i, e, []);
      assert TermAt(s, i, e) == [Lexeme(TERM, Unescape(Slice(s, i, e)), i, e)] + [];
    }
  }

  lemma FieldFromIsLaid(s: string, i: nat, e: nat)
    requires TextBetween(s, i, e) && e < |s| && s[e] == ':' && Laid(s, e + 1, From(s, e + 1))
    ensures Laid(s, i, From(s, i))
  {
    FromField(s, i, e, Lexeme(FIELD, Unescape(Slice(s, i, e)), i, e));
    FieldIsLaid(s, i, e, From(s, e + 1));
  }

  lemma TermFromIsLaid(s: string, i: nat, e: nat)
    requires TextBetween(s, i, e) && i < e < |s| && s[e] != ':' && Laid(s, e, From(s, e))
    ensures Laid(s, i, From(s, i))
  {
    FromText(s, i, e);
    TermIsLaid(s, i, e, From(s, e));
  }

  lemma SeparatorFromIsLaid(s: string, i: nat)
    requires i < |s| && Separates(s[i]) && Laid(s, i + 1, From(s, i + 1))
    ensures Laid(s, i, From(s, i))
  {
    FromSeparator(s, i);
    GapInFront(s, i, From(s, i + 1));
  }

  lemma NumberFromIsLaid(s: string, i: nat, kind: Kind, j: nat)
    requires i < |s| && StartsNumber(s[i], kind) && j == i + 1 + DigitRun(s[i + 1..]) && Laid(s, j, From(s, j))
    ensures Laid(s, i, From(s, i))
  {
    FromNumber(s, i, kind, i + 1, j);
    DigitsOf(s, i + 1, j);
    NumberIsLaid(s, i, Lexeme(kind, s[i + 1..j], i + 1, j), From(s, j));
  }

  /** Where the lexer goes on behind what begins at i. */
  function GoesOn(s: string, i: nat): (next: nat)
    requires i <= |s| && i + TextLength(s[i..]) < |s|
    ensures i < next <= |s|
  {
    var e := i + TextLength(s[i..]);
    if s[e] == ':' then e + 1
    else if e > i then e
    else if Separates(s[i]) then i + 1
    else i + 1 + DigitRun(s[i + 1..])
  }

  lemma OneMoreIsLaid(s: string, i: nat, e: nat, next: nat)
    requires i <= e < |s| && TextBetween(s, i, e) && Special(s[e]) && next <= |s| && Laid(s, next, From(s, next))
    requires next == if s[e] == ':' then e + 1 else if e > i then e else if Separates(s[i]) then i + 1
                     else i + 1 + DigitRun(s[i + 1..])
    ensures Laid(s, i, From(s, i))
  {
    if s[e] == ':' {
      FieldFromIsLaid(s, i, e);
    } else if e > i {
      TermFromIsLaid(s, i, e);
    } else if Separates(s[i]) {
      SeparatorFromIsLaid(s, i);
    } else {
      NumberFromIsLaid(s, i, if s[i] == '~' then EDIT_DISTANCE else BOOST, next);
    }
  }

  lemma {:induction false} LexemesAreLaid(s: string, i: nat)
    requires i <= |s|
    ensures Laid(s, i, From(s, i))
    decreases |s| - i
  {
    var e := i + TextLength(s[i..]);
    TextIsScanned(s, i);
    if e >= |s| {
      LastIsLaid(s, i, e);
    } else {
      LexemesAreLaid(s, GoesOn(s, i));
      OneMoreIsLaid(s, i, e, GoesOn(s, i));
    }
  }

  // ----- only they are

  /** Where the first lexeme begins, its mark included. */
  function Begin(l: Lexeme): int {
    if l.kind == TERM || l.kind == FIELD then l.start else l.start - 1
  }

  lemma FirstBegins(s: string, i: nat, ls: seq<Lexeme>)
    requires i <= |s| && Laid(s, i, ls) && ls != []
    ensures i <= Begin(ls[0]) < |s| && Gap(s, i, Begin(ls[0])) && !Separates(s[Begin(ls[0])])
    ensures if ls[0].kind == TERM then !Special(s[Begin(ls[0])])
            else if ls[0].kind == FIELD then s[Begin(ls[0])] == ':' || !Special(s[Begin(ls[0])])
            else StartsNumber(s[Begin(ls[0])], ls[0].kind)
  {
  }

  /** Behind a separator the lexemes are the same. */
  lemma GapIsSkipped(s: string, i: nat, ls: seq<Lexeme>)
    requires i < |s| && Separates(s[i]) && Laid(s, i, ls)
    ensures Laid(s, i + 1, ls)
  {
    if ls != [] {
      FirstBegins(s, i, ls);
    }
  }

  lemma NoGap(s: string, i: nat, ls: seq<Lexeme>)
    requires i < |s| && !Separates(s[i]) && Laid(s, i, ls)
    ensures ls != [] && Begin(ls[0]) == i
  {
    if ls != [] {
      FirstBegins(s, i, ls);
    }
  }

  lemma DigitsBetween(s: string, i: nat, j: nat)
    requires i <= j <= |s| && (forall k :: i <= k < j ==> IsDigit(s[k])) && (j < |s| ==> !IsDigit(s[j]))
    ensures DigitRun(s[i..]) == j - i
  {
    DigitsEndThere(s[i..], j - i);
  }

  lemma NumberIsForced(s: string, i: nat, ls: seq<Lexeme>, kind: Kind)
    requires i < |s| && StartsNumber(s[i], kind) && Laid(s, i, ls)
    ensures ls != [] && ls[0].kind == kind && LiesAsNumber(s, i, ls[0]) && ls[0].start == i + 1
    ensures ls[0].end == i + 1 + DigitRun(s[i + 1..]) && Laid(s, ls[0].end, ls[1..])
  {
    NoGap(s, i, ls);
    FirstBegins(s, i, ls);
    DigitsBetween(s, i + 1, ls[0].end);
  }

  lemma NumberAndRest(s: string, i: nat, ls: seq<Lexeme>, kind: Kind, j: nat)
    requires i < |s| && StartsNumber(s[i], kind) && j == i + 1 + DigitRun(s[i + 1..]) && ls != []
    requires ls[0] == Lexeme(kind, s[i + 1..j], i + 1, j) && ls[1..] == From(s, j)
    ensures ls == From(s, i)
  {
    FromNumber(s, i, kind, i + 1, j);
    assert ls == [ls[0]] + ls[1..];
  }

  lemma FieldAndRest(s: string, i: nat, e: nat, ls: seq<Lexeme>)
    requires TextBetween(s, i, e) && e < |s| && s[e] == ':' && ls != []
    requires ls[0] == Lexeme(FIELD, Unescape(Slice(s, i, e)), i, e) && ls[1..] == From(s, e + 1)
    ensures ls == From(s, i)
  {
    FromField(s, i, e, ls[0]);
    assert ls == [ls[0]] + ls[1..];
  }

  lemma TermAndRest(s: string, i: nat, e: nat, ls: seq<Lexeme>)
    requires TextBetween(s, i, e) && i < e < |s| && s[e] != ':' && ls != []
    requires ls[0] == Lexeme(TERM, Unescape(Slice(s, i, e)), i, e) && ls[1..] == From(s, e)
    ensures ls == From(s, i)
  {
    FromText(s, i, e);
    assert ls == [ls[0]] + ls[1..];
  }

  lemma TextIsForced(s: string, i: nat, e: nat, ls: seq<Lexeme>)
    requires i < |s| && !Separates(s[i]) && s[i] != '~' && s[i] != '^' && e == i + TextLength(s[i..]) && Laid(s, i, ls)
    ensures ls != [] && ls[0].start == i && ls[0].end == e && ls[0].str == Unescape(Slice(s, i, e))
    ensures ls[0].kind == if e < |s| && s[e] == ':' then FIELD else TERM
    ensures ls[0].kind == TERM ==> i < e
    ensures e < |s| ==> Laid(s, if s[e] == ':' then e + 1 else e, ls[1..])
  {
    NoGap(s, i, ls);
    FirstBegins(s, i, ls);
    TextEndsThere(s, i, ls[0].end);
  }

  /** A list that is laid from i on is the list of the grammar. */
  lemma {:induction false} LaidIsLexemes(s: string, i: nat, ls: seq<Lexeme>)
    requires i <= |s| && Laid(s, i, ls)
    ensures ls == From(s, i)
    decreases |s| - i, 1
  {
    if i == |s| {
      if ls != [] {
        FirstBegins(s, i, ls);
      }
    } else if Separates(s[i]) {
      GapIsSkipped(s, i, ls);
      LaidIsLexemes(s, i + 1, ls);
      FromSeparator(s, i);
    } else if s[i] == '~' || s[i] == '^' {
      LaidNumberIsLexemes(s, i, ls, if s[i] == '~' then EDIT_DISTANCE else BOOST);
    } else {
      LaidTextIsLexemes(s, i, ls, i + TextLength(s[i..]));
    }
  }

  lemma {:induction false} LaidNumberIsLexemes(s: string, i: nat, ls: seq<Lexeme>, kind: Kind)
    requires i < |s| && StartsNumber(s[i], kind) && Laid(s, i, ls)
    ensures ls == From(s, i)
    decreases |s| - i, 0
  {
    NumberIsForced(s, i, ls, kind);
    var j := ls[0].end;
    LaidIsLexemes(s, j, ls[1..]);
    NumberAndRest(s, i, ls, kind, j);
  }

  lemma {:induction false} LaidTextIsLexemes(s: string, i: nat, ls: seq<Lexeme>, e: nat)
    requires i < |s| && !Separates(s[i]) && s[i] != '~' && s[i] != '^' && e == i + TextLength(s[i..]) && Laid(s, i, ls)
    ensures ls == From(s, i)
    decreases |s| - i, 0
  {
    TextIsForced(s, i, e, ls);
    if e < |s| {
      LaidIsLexemes(s, if s[e] == ':' then e + 1 else e, ls[1..]);
    }
    TextIsScanned(s, i);
    TextAndRest(s, i, e, ls, ls[0]);
  }

  lemma TextAndRest(s: string, i: nat, e: nat, ls: seq<Lexeme>, l: Lexeme)
    requires TextBetween(s, i, e) && ls != [] && l == ls[0] && Laid(s, i, ls)
    requires l.start == i && l.end == e && l.str == Unescape(Slice(s, i, e))
    requires l.kind == if e < |s| && s[e] == ':' then FIELD else TERM
    requires l.kind == TERM ==> i < e
    requires e < |s| ==> ls[1..] == From(s, if s[e] == ':' then e + 1 else e)
    ensures ls == From(s, i)
  {
    if e >= |s| {
      LastIsForced(s, i, e, ls);
    } else if s[e] == ':' {
      FieldAndRest(s, i, e, ls);
    } else {
      TermAndRest(s, i, e, ls);
    }
  }

  lemma LastIsForced(s: string, i: nat, e: nat, ls: seq<Lexeme>)
    requires TextBetween(s, i, e) && e >= |s| && i < e && Laid(s, i, ls) && ls != [] && ls[0].kind == TERM
    requires ls[0].start == i && ls[0].end == e && ls[0].str == Unescape(Slice(s, i, e))
    ensures ls == From(s, i)
  {
    FromLastText(s, i, e);
    if e == |s| && ls[1..] != [] {
      FirstBegins(s, e, ls[1..]);
    }
    assert ls == [ls[0]] + ls[1..];
  }

  /** The lexemes of a search string are the one list that is laid in it. */
  lemma LexemesExactly(s: string, ls: seq<Lexeme>)
    ensures ls == Lexemes(s, 0) <==> Laid(s, 0, ls)
  {
    assert s[0..] == s;
    LexemesAreLaid(s, 0);
    if Laid(s, 0, ls) {
      LaidIsLexemes(s, 0, ls);
    }
  }

  // ----- what the texts mean

  /** A text without escape characters means itself. */
  lemma {:induction false} PlainMeansItself(t: string)
    requires ESCAPE !in t
    ensures Unescape(t) == t
  {
    if t != [] {
      PlainMeansItself(t[1..]);
      assert t == [t[0]] + t[1..];
    }
  }

  /** An escape character and the character behind it mean that character, whatever it is. */
  lemma {:induction false} EscapedMeansCharacter(a: string, c: char, b: string)
    requires Scanned(a, 0, |a|)
    ensures Unescape(a + [ESCAPE, c] + b) == Unescape(a) + [c] + Unescape(b)
  {
    UnescapeJoins(a, [ESCAPE, c] + b, 0);
    assert ([ESCAPE, c] + b)[2..] == b;
    assert a + [ESCAPE, c] + b == a + ([ESCAPE, c] + b) && a[0..] == a;
  }

  lemma {:induction false} UnescapeJoins(a: string, b: string, i: nat)
    requires i <= |a| && Scanned(a, i, |a|)
    ensures Unescape(a[i..] + b) == Unescape(a[i..]) + Unescape(b)
    decreases |a| - i
  {
    if i == |a| {
      assert a[i..] + b == b;
    } else if a[i] == ESCAPE {
      UnescapeJoins(a, b, i + 2);
      assert a[i..][2..] == a[i + 2..] && (a[i..] + b)[2..] == a[i + 2..] + b;
    } else {
      UnescapeJoins(a, b, i + 1);
      assert a[i..][1..] == a[i + 1..] && (a[i..] + b)[1..] == a[i + 1..] + b;
    }
  }

  /** The separators, by their code points. */
  lemma SeparatorsAre(c: char)
    ensures Separates(c) <==>
            c as int in {0x2D, 0x09, 0x0A, 0x0B, 0x0C, 0x0D, 0x20, 0xA0, 0x1680, 0x2000, 0x2001, 0x2002, 0x2003, 0x2004, 0x2005,
                         0x2006, 0x2007, 0x2008, 0x2009, 0x200A, 0x2028, 0x2029, 0x202F, 0x205F, 0x3000, 0xFEFF}
  {
  }
}
