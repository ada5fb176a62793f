/**
 What a fuzzy automaton has to do with edit distance: it accepts nothing too far away, and which
 of the words near by it misses.
 */
module FuzzyEdits {
  import opened Common
  import opened Wildcards
  import opened Fuzzy

  // ----- edits

  function Inserted(s: string, i: nat, c: char): string
    requires i <= |s|
  {
    s[..i] + [c] + s[i..]
  }

  function Deleted(s: string, i: nat): string
    requires i < |s|
  {
    s[..i] + s[i + 1..]
  }

  function Substituted(s: string, i: nat, c: char): string
    requires i < |s|
  {
    s[..i] + [c] + s[i + 1..]
  }

  function Swapped(s: string, i: nat): string
    requires i + 1 < |s|
  {
    s[..i] + [s[i + 1], s[i]] + s[i + 2..]
  }

  datatype Edit = Insert(i: nat, c: char) | Delete(i: nat) | Substitute(i: nat, c: char) | Swap(i: nat)

  predicate Applies(edit: Edit, s: string) {
    match edit
    case Insert(i, _) => i <= |s|
    case Delete(i) => i < |s|
    case Substitute(i, _) => i < |s|
    case Swap(i) => i + 1 < |s|
  }

  function Apply(edit: Edit, s: string): string
    requires Applies(edit, s)
  {
    match edit
    case Insert(i, c) => Inserted(s, i, c)
    case Delete(i) => Deleted(s, i)
    case Substitute(i, c) => Substituted(s, i, c)
    case Swap(i) => Swapped(s, i)
  }

  ghost predicate OneEdit(s: string, w: string) {
    exists edit :: Applies(edit, s) && Apply(edit, s) == w
  }

  /** At most k edits lead from s to w. */
  ghost predicate Within(k: nat, s: string, w: string) {
    s == w || (k > 0 && exists m :: OneEdit(s, m) && Within(k - 1, m, w))
  }

  function Later(edit: Edit): Edit {
    match edit
    case Insert(i, c) => Insert(i + 1, c)
    case Delete(i) => Delete(i + 1)
    case Substitute(i, c) => Substitute(i + 1, c)
    case Swap(i) => Swap(i + 1)
  }

  /** One edit and then the others. */
  lemma WithinAfter(k: nat, s: string, edit: Edit, w: string)
    requires k > 0 && Applies(edit, s) && Within(k - 1, Apply(edit, s), w)
    ensures Within(k, s, w)
  {
    assert OneEdit(s, Apply(edit, s));
  }

  lemma Shifted(s: string, c: char, i: nat)
    requires i <= |s|
    ensures ([c] + s)[..i + 1] == [c] + s[..i] && ([c] + s)[i + 1..] == s[i..]
  {
  }

  lemma FrontStays(c: char, a: string, b: string, d: string)
    ensures [c] + (a + b + d) == ([c] + a) + b + d
  {
  }

  lemma LaterInserts(s: string, c: char, i: nat, l: char)
    requires i <= |s|
    ensures Inserted([c] + s, i + 1, l) == [c] + Inserted(s, i, l)
  {
    Shifted(s, c, i);
    FrontStays(c, s[..i], [l], s[i..]);
  }

  lemma LaterDeletes(s: string, c: char, i: nat)
    requires i < |s|
    ensures Deleted([c] + s, i + 1) == [c] + Deleted(s, i)
  {
    Shifted(s, c, i);
    Shifted(s, c, i + 1);
    FrontStays(c, s[..i], [], s[i + 1..]);
    assert s[..i] + [] == s[..i] && [c] + s[..i] + [] == [c] + s[..i];
  }

  lemma LaterSubstitutes(s: string, c: char, i: nat, l: char)
    requires i < |s|
    ensures Substituted([c] + s, i + 1, l) == [c] + Substituted(s, i, l)
  {
    Shifted(s, c, i);
    Shifted(s, c, i + 1);
    FrontStays(c, s[..i], [l], s[i + 1..]);
  }

  lemma LaterSwaps(s: string, c: char, i: nat)
    requires i + 1 < |s|
    ensures Swapped([c] + s, i + 1) == [c] + Swapped(s, i)
  {
    Shifted(s, c, i);
    Shifted(s, c, i + 2);
    FrontStays(c, s[..i], [s[i + 1], s[i]], s[i + 2..]);
  }

  lemma LaterApplies(edit: Edit, s: string, c: char)
    requires Applies(edit, s)
    ensures Applies(Later(edit), [c] + s) && Apply(Later(edit), [c] + s) == [c] + Apply(edit, s)
  {
    match edit
    case Insert(i, l) => LaterInserts(s, c, i, l);
    case Delete(i) => LaterDeletes(s, c, i);
    case Substitute(i, l) => LaterSubstitutes(s, c, i, l);
    case Swap(i) => LaterSwaps(s, c, i);
  }

  lemma OneEditLater(s: string, w: string, c: char)
    requires OneEdit(s, w)
    ensures OneEdit([c] + s, [c] + w)
  {
    var edit :| Applies(edit, s) && Apply(edit, s) == w;
    LaterApplies(edit, s, c);
  }

  lemma {:induction false} WithinLater(k: nat, s: string, w: string, c: char)
    requires Within(k, s, w)
    ensures Within(k, [c] + s, [c] + w)
  {
    if s != w {
      var m :| OneEdit(s, m) && Within(k - 1, m, w);
      OneEditLater(s, m, c);
      WithinLater(k - 1, m, w, c);
    }
  }

  // ----- soundness

  lemma FrontEdits(t: string, c: char)
    ensures Apply(Insert(0, c), t) == [c] + t
    ensures t != [] ==> Apply(Substitute(0, c), t) == [c] + t[1..] && Apply(Delete(0), t) == t[1..]
    ensures |t| > 1 ==> Apply(Swap(0), t) == [t[1]] + ([t[0]] + t[2..])
  {
  }

  lemma FrontIsOneEdit(t: string, edit: Edit, w: string)
    requires Applies(edit, t) && Apply(edit, t) == w
    ensures OneEdit(t, w)
  {
  }

  /** A string with the edit of one step made, the letter that was read in front. */
  lemma StepIsOneEdit(t: string, e: nat, step: Step, c: char)
    requires step in Steps(t, e) && step.Go? && (c == step.label' || (step.label' == WILDCARD && WILDCARD !in t))
    ensures ([c] + step.rest == t && step.edits == e) || (e > 0 && step.edits == e - 1 && OneEdit(t, [c] + step.rest))
  {
    StepsInclude(t, e);
    FrontEdits(t, c);
    if step in NoEdit(t, e) {
      assert t[0] in t;
      assert [c] + step.rest == t;
    } else if step in Deletion(t, e) {
      assert t[1] in t;
      DeletionIsOneEdit(t, c, step.rest);
    } else if step in Substitution(t, e) {
      FrontIsOneEdit(t, Substitute(0, c), [c] + step.rest);
    } else if step in Insertion(t, e) {
      FrontIsOneEdit(t, Insert(0, c), [c] + step.rest);
    } else {
      assert t[1] in t;
      FrontIsOneEdit(t, Swap(0), [c] + step.rest);
    }
  }

  lemma DeletionIsOneEdit(t: string, c: char, rest: string)
    requires |t| > 1 && c == t[1] && rest == t[2..]
    ensures OneEdit(t, [c] + rest)
  {
    FrontEdits(t, c);
    assert t[1..] == [c] + rest;
    FrontIsOneEdit(t, Delete(0), [c] + rest);
  }

  lemma RestHasNoWildcard(t: string, e: nat, step: Step)
    requires WILDCARD !in t && step in Steps(t, e) && step.Go?
    ensures WILDCARD !in step.rest
  {
    StepsInclude(t, e);
  }

  lemma {:induction false} EmitsIsWithin(t: string, e: nat, p: string, w: string)
    requires WILDCARD !in t && Fits(p, w) && Emits(t, e, p)
    ensures Within(e, t, w)
    decreases |p|
  {
    StepsInclude(t, e);
    var step :| step in Steps(t, e) && StepEmits(step, p);
    match step
    case Stop =>
      FrontEdits(t, t[0]);
      assert w == t[1..];
      WithinAfter(e, t, Delete(0), w);
    case Go(_, edits, rest) =>
      var c := w[0];
      StepIsOneEdit(t, e, step, c);
      RestHasNoWildcard(t, e, step);
      assert w == [c] + w[1..];
      if rest == [] {
        assert Within(edits, rest, w[1..]);
      } else {
        assert Fits(p[1..], w[1..]);
        EmitsIsWithin(rest, edits, p[1..], w[1..]);
      }
      WithinLater(edits, rest, w[1..], c);
  }

  /** Every word accepted for s and k is at most k edits away from s. */
  lemma FuzzyIsSound(s: string, k: nat, w: string)
    requires WILDCARD !in s && Reads(s, k, w)
    ensures Within(k, s, w)
  {
    var p :| Fits(p, w) && Emits(s, k, p);
    EmitsIsWithin(s, k, p, w);
  }

  // ----- what is missed

  lemma LastOfRest(p: string)
    requires |p| > 1
    ensures p[1..][|p[1..]| - 1] == p[|p| - 1]
  {
  }

  /** Only reading on and inserting keep the longest words possible, and they keep the last letter. */
  lemma StepKeepsLast(t: string, e: nat, step: Step)
    requires step in Steps(t, e) && step.Go? && t != []
    ensures |step.rest| + step.edits < |t| + e
    ensures |step.rest| + step.edits + 1 == |t| + e && step.rest != [] ==> step.rest[|step.rest| - 1] == t[|t| - 1]
    ensures 1 == |t| + e && step.rest == [] ==> step.label' == t[|t| - 1]
  {
    StepsInclude(t, e);
  }

  /** A word longer by all the edits ends in the last letter of the string. */
  lemma {:induction false} LongestEndsAlike(t: string, e: nat, p: string)
    requires t != [] && Emits(t, e, p)
    ensures |p| <= |t| + e
    ensures |p| == |t| + e ==> p[|p| - 1] == t[|t| - 1]
    decreases |p|
  {
    StepsInclude(t, e);
    var step :| step in Steps(t, e) && StepEmits(step, p);
    if step.Go? {
      StepKeepsLast(t, e, step);
      if step.rest != [] {
        LongestEndsAlike(step.rest, step.edits, p[1..]);
        if |p| > 1 {
          LastOfRest(p);
        }
      }
    }
  }

  function Repeated(c: char, k: nat): (r: string)
    ensures |r| == k && forall i :: 0 <= i < k ==> r[i] == c
  {
    seq(k, i => c)
  }

  lemma {:induction false} AppendedIsWithin(k: nat, s: string, c: char)
    ensures Within(k, s, s + Repeated(c, k))
    decreases k
  {
    if k == 0 {
      assert s + Repeated(c, 0) == s;
    } else {
      var m := s + [c];
      assert Apply(Insert(|s|, c), s) == m;
      AppendedIsWithin(k - 1, m, c);
      assert m + Repeated(c, k - 1) == s + Repeated(c, k);
      WithinAfter(k, s, Insert(|s|, c), s + Repeated(c, k));
    }
  }

  /** k letters after the last are k edits, but are not accepted. */
  lemma AppendedIsMissed(s: string, k: nat, c: char)
    requires s != [] && WILDCARD !in s && k > 0 && c != s[|s| - 1]
    ensures Within(k, s, s + Repeated(c, k)) && !Reads(s, k, s + Repeated(c, k))
  {
    AppendedIsWithin(k, s, c);
    var w := s + Repeated(c, k);
    if Reads(s, k, w) {
      var p :| Fits(p, w) && Emits(s, k, p);
      assert w[|w| - 1] == c && s[|s| - 1] in s;
      LongestEndsAlike(s, k, p);
      assert false;
    }
  }

  lemma EmptyIsMissed(k: nat)
    ensures Within(k, [], []) && !Reads([], k, [])
  {
    StepsInclude([], k);
    assert forall step :: step in Steps([], k) ==> !StepEmits(step, []);
  }

  lemma {:induction false} StringIsEmitted(s: string, k: nat)
    requires s != []
    ensures Emits(s, k, s)
    decreases |s|
  {
    StepsInclude(s, k);
    var step := Go(s[0], k, s[1..]);
    if |s| > 1 {
      StringIsEmitted(s[1..], k);
    }
    assert step in NoEdit(s, k) && StepEmits(step, s);
  }

  lemma StringIsRead(s: string, k: nat)
    requires s != []
    ensures Reads(s, k, s)
  {
    StringIsEmitted(s, k);
    assert Fits(s, s);
  }

  /** Every word within k edits is accepted in one case only: no edit is allowed and the string is not empty. */
  lemma CompleteWithoutEditsOnly(s: string, k: nat)
    requires WILDCARD !in s
    ensures (forall w :: Within(k, s, w) ==> Reads(s, k, w)) <==> k == 0 && s != []
  {
    if s == [] {
      EmptyIsMissed(k);
    } else if k == 0 {
      StringIsRead(s, 0);
    } else {
      var c := if s[|s| - 1] == 'a' then 'b' else 'a';
      AppendedIsMissed(s, k, c);
    }
  }

  lemma NothingIsEmittedBy(t: string, e: nat)
    requires Emits(t, e, [])
    ensures |t| == 1
  {
    StepsInclude(t, e);
  }

  /** Of three letters only the middle one can stay alone. */
  lemma OneOfThree(t: string, e: nat, p: string)
    requires |t| == 3 && |p| == 1 && Emits(t, e, p)
    ensures p[0] == t[1]
  {
    StepsInclude(t, e);
    var step :| step in Steps(t, e) && StepEmits(step, p);
    assert p[1..] == [];
    if step.rest != [] {
      NothingIsEmittedBy(step.rest, step.edits);
    }
  }

  /** Two deletions in a row are not always tried, at the front of "abc" for one. */
  lemma DoubleDeletionIsMissed(k: nat)
    requires k >= 2
    ensures Within(k, "abc", "c") && !Reads("abc", k, "c")
  {
    assert Apply(Delete(0), "abc") == "bc" && Apply(Delete(0), "bc") == "c";
    WithinAfter(k - 1, "bc", Delete(0), "c");
    WithinAfter(k, "abc", Delete(0), "c");
    if Reads("abc", k, "c") {
      var p :| Fits(p, "c") && Emits("abc", k, p);
      OneOfThree("abc", k, p);
    }
  }

  // ----- one edit

  /** The word is the string with one letter more at the end, other than its last. */
  predicate Appended(s: string, w: string)
    requires s != []
  {
    |w| == |s| + 1 && w[..|s|] == s && w[|s|] != s[|s| - 1]
  }

  /** One step, then the rest. */
  lemma ReadsOneMore(t: string, e: nat, step: Step, c: char, w: string)
    requires step in Steps(t, e) && step.Go? && (step.label' == c || step.label' == WILDCARD)
    requires if step.rest == [] then w == [] else Reads(step.rest, step.edits, w)
    ensures Reads(t, e, [c] + w)
  {
    var p: string :| Fits(p, w) && if step.rest == [] then p == [] else Emits(step.rest, step.edits, p);
    assert ([step.label'] + p)[1..] == p;
    assert StepEmits(step, [step.label'] + p);
    assert Fits([step.label'] + p, [c] + w);
  }

  /** Behind the first edit the rest is read as it is. */
  lemma ReadsRest(t: string, e: nat, step: Step, c: char)
    requires step in Steps(t, e) && step.Go? && (step.label' == c || step.label' == WILDCARD)
    ensures Reads(t, e, [c] + step.rest)
  {
    if step.rest != [] {
      StringIsRead(step.rest, step.edits);
    }
    ReadsOneMore(t, e, step, c, step.rest);
  }

  /** A first letter that is deleted, or changes places with the second. */
  lemma FirstDeletionIsRead(s: string)
    requires s != []
    ensures Reads(s, 1, s[1..])
  {
    StepsInclude(s, 1);
    if |s| == 1 {
      assert Stop in LastDeletion(s, 1) && StepEmits(Stop, []);
      assert Fits([], s[1..]) && Emits(s, 1, []);
    } else {
      var step := Go(s[1], 0, s[2..]);
      assert step in Deletion(s, 1);
      assert s[1..] == [s[1]] + step.rest;
      ReadsRest(s, 1, step, s[1]);
    }
  }

  /** An edit of the first letter, or an insertion before it. */
  lemma FirstEditIsRead(s: string, edit: Edit)
    requires s != [] && Applies(edit, s) && edit.i == 0
    ensures Reads(s, 1, Apply(edit, s))
  {
    StepsInclude(s, 1);
    FrontEdits(s, if edit.Insert? || edit.Substitute? then edit.c else s[0]);
    match edit
    case Insert(_, c) => ReadsRest(s, 1, Go(WILDCARD, 0, s), c);
    case Delete(_) => FirstDeletionIsRead(s);
    case Substitute(_, c) => ReadsRest(s, 1, Go(WILDCARD, 0, s[1..]), c);
    case Swap(_) => ReadsRest(s, 1, Go(s[1], 0, [s[0]] + s[2..]), s[1]);
  }

  function Earlier(edit: Edit): Edit
    requires edit.i > 0
  {
    match edit
    case Insert(i, c) => Insert(i - 1, c)
    case Delete(i) => Delete(i - 1)
    case Substitute(i, c) => Substitute(i - 1, c)
    case Swap(i) => Swap(i - 1)
  }

  lemma {:induction false} EditIsRead(s: string, edit: Edit)
    requires s != [] && Applies(edit, s) && (edit.Insert? ==> edit.i < |s|)
    ensures Reads(s, 1, Apply(edit, s))
    decreases |s|
  {
    if edit.i == 0 {
      FirstEditIsRead(s, edit);
    } else {
      var sooner := Earlier(edit);
      assert s == [s[0]] + s[1..];
      LaterApplies(sooner, s[1..], s[0]);
      EditIsRead(s[1..], sooner);
      StepsInclude(s, 1);
      var step := Go(s[0], 1, s[1..]);
      assert step in NoEdit(s, 1);
      ReadsOneMore(s, 1, step, s[0], Apply(sooner, s[1..]));
    }
  }

  lemma LastTwice(s: string)
    requires s != []
    ensures Inserted(s, |s| - 1, s[|s| - 1]) == s + [s[|s| - 1]]
  {
    assert s[|s| - 1..] == [s[|s| - 1]];
    assert s[..|s| - 1] + [s[|s| - 1]] == s;
  }

  lemma OneEditIsRead(s: string, w: string)
    requires s != [] && OneEdit(s, w) && !Appended(s, w)
    ensures Reads(s, 1, w)
  {
    var edit :| Applies(edit, s) && Apply(edit, s) == w;
    if edit.Insert? && edit.i == |s| {
      assert w == s + [edit.c] && w[..|s|] == s;
      var sooner := Insert(|s| - 1, edit.c);
      LastTwice(s);
      EditIsRead(s, sooner);
    } else {
      EditIsRead(s, edit);
    }
  }

  lemma AppendedIsNotRead(s: string, w: string)
    requires s != [] && WILDCARD !in s && Appended(s, w)
    ensures !Reads(s, 1, w)
  {
    AppendedIsMissed(s, 1, w[|s|]);
    assert w == s + Repeated(w[|s|], 1);
  }

  /** With one edit allowed, exactly the strings one edit away are accepted, but for a new last letter. */
  lemma OneEditIsExact(s: string, w: string)
    requires s != [] && WILDCARD !in s
    ensures Reads(s, 1, w) <==> w == s || (OneEdit(s, w) && !Appended(s, w))
  {
    if Reads(s, 1, w) {
      FuzzyIsSound(s, 1, w);
      if w != s {
        var m :| OneEdit(s, m) && Within(0, m, w);
        assert m == w;
        if Appended(s, w) {
          AppendedIsNotRead(s, w);
        }
      }
    } else {
      if w == s {
        StringIsRead(s, 1);
      } else if OneEdit(s, w) && !Appended(s, w) {
        OneEditIsRead(s, w);
      }
    }
  }
}
