/**
 Which edits a fuzzy automaton tries, for every edit distance: the scripts in which each deletion
 is followed by a letter that is kept, or ends the script, and the last edit is no insertion.
 */
module EditScripts {
  import opened Common
  import opened Wildcards
  import opened Fuzzy
  import opened FuzzyEdits

  /** What is done with the first letter of what is left; Swap emits the second and leaves the first. */
  datatype Op = Keep | Cut | Put(c: char) | Change(c: char) | Swap

  function InFront(c: char, w: Option<string>): Option<string> {
    if w.None? then None else Some([c] + w.value)
  }

  /** What a script makes of t; nothing when it does not apply, or leaves letters over. */
  function Edited(t: string, ops: seq<Op>): Option<string>
    decreases |ops|
  {
    if ops == [] then if t == [] then Some([]) else None
    else
      var others := ops[1..];
      match ops[0]
      case Put(c) => InFront(c, Edited(t, others))
      case Keep => if t == [] then None else InFront(t[0], Edited(t[1..], others))
      case Cut => if t == [] then None else Edited(t[1..], others)
      case Change(c) => if t == [] then None else InFront(c, Edited(t[1..], others))
      case Swap => if |t| < 2 then None else InFront(t[1], Edited([t[0]] + t[2..], others))
  }

  function Cost(ops: seq<Op>): nat {
    if ops == [] then 0 else (if ops[0].Keep? then 0 else 1) + Cost(ops[1..])
  }

  /** The scripts that are tried. */
  predicate Tidy(ops: seq<Op>) {
    && ops != []
    && (forall i :: 0 <= i < |ops| - 1 && ops[i].Cut? ==> ops[i + 1].Keep?)
    && (ops[|ops| - 1].Put? ==> |ops| == 1)
  }

  /** What may stand behind other operations. */
  predicate Inner(ops: seq<Op>) {
    ops == [] || (Tidy(ops) && !ops[|ops| - 1].Put?)
  }

  ghost predicate TidyEdit(t: string, e: nat, w: string) {
    exists ops :: Tidy(ops) && Cost(ops) <= e && Edited(t, ops) == Some(w)
  }

  // ----- every word read is a tidy edit

  /** One operation more in front of a script that reads the rest. */
  lemma OpInFront(op: Op, ops: seq<Op>)
    requires Inner(ops)
    requires !op.Cut?
    ensures Tidy([op] + ops) && ([op] + ops)[1..] == ops
  {
    var all := [op] + ops;
    forall i | 0 <= i < |all| - 1 && all[i].Cut? ensures all[i + 1].Keep? {
      assert all[i] == ops[i - 1] && all[i + 1] == ops[i];
    }
  }

  /** A deletion and the letter kept behind it. */
  lemma CutInFront(ops: seq<Op>)
    requires Inner(ops)
    ensures Tidy([Cut, Keep] + ops) && ([Cut, Keep] + ops)[1..] == [Keep] + ops && ([Keep] + ops)[1..] == ops
  {
    OpInFront(Keep, ops);
    var kept, all := [Keep] + ops, [Cut, Keep] + ops;
    assert all == [Cut] + kept;
    forall i | 0 <= i < |all| - 1 && all[i].Cut? ensures all[i + 1].Keep? {
      if i > 0 {
        assert all[i] == kept[i - 1] && all[i + 1] == kept[i];
      }
    }
  }

  lemma CostInFront(op: Op, ops: seq<Op>)
    ensures Cost([op] + ops) == (if op.Keep? then 0 else 1) + Cost(ops)
  {
    assert ([op] + ops)[1..] == ops;
  }

  /** The step that goes with an operation, and the letter it reads. */
  function StepOf(t: string, e: nat, op: Op): (r: (Step, char))
    requires Suits(op, t, e)
    ensures r.0.Go?
  {
    match op
    case Put(c) => (Go(WILDCARD, e - 1, t), c)
    case Change(c) => (Go(WILDCARD, e - 1, t[1..]), c)
    case Swap => (Go(t[1], e - 1, [t[0]] + t[2..]), t[1])
    case Keep => (Go(t[0], e, t[1..]), t[0])
  }

  /** The operation can be done, with this many edits left. */
  predicate Suits(op: Op, t: string, e: nat) {
    !op.Cut? && (op.Keep? || e > 0) && (op.Put? || t != []) && (op.Swap? ==> |t| > 1)
  }

  lemma EditedByStep(t: string, e: nat, op: Op, ops: seq<Op>)
    requires Suits(op, t, e)
    ensures var (step, c) := StepOf(t, e, op); Edited(t, [op] + ops) == InFront(c, Edited(step.rest, ops))
  {
    assert ([op] + ops)[1..] == ops;
  }

  lemma WithOp(t: string, e: nat, op: Op, ops: seq<Op>, w: string) returns (all: seq<Op>)
    requires Suits(op, t, e) && Inner(ops)
    requires Edited(StepOf(t, e, op).0.rest, ops) == Some(w) && Cost(ops) <= StepOf(t, e, op).0.edits
    ensures Tidy(all) && Cost(all) <= e && Edited(t, all) == Some([StepOf(t, e, op).1] + w)
  {
    OpInFront(op, ops);
    CostInFront(op, ops);
    EditedByStep(t, e, op, ops);
    all := [op] + ops;
  }

  /** Each step is made by the operations that go with it. */
  lemma StepAsOps(t: string, e: nat, step: Step, c: char, ops: seq<Op>, w: string) returns (all: seq<Op>)
    requires WILDCARD !in t && step in Steps(t, e) && step.Go? && (c == step.label' || step.label' == WILDCARD)
    requires Inner(ops) && Edited(step.rest, ops) == Some(w) && Cost(ops) <= step.edits
    ensures Tidy(all) && Cost(all) <= e && Edited(t, all) == Some([c] + w)
  {
    StepsInclude(t, e);
    if step in Deletion(t, e) {
      assert t[1] in t;
      CutInFront(ops);
      KeptAfterCut(t, ops, w);
      all := [Cut, Keep] + ops;
    } else {
      var op := OpOf(t, e, step, c);
      all := WithOp(t, e, op, ops, w);
    }
  }

  lemma OpOf(t: string, e: nat, step: Step, c: char) returns (op: Op)
    requires WILDCARD !in t && step in Steps(t, e) && step.Go? && (c == step.label' || step.label' == WILDCARD)
    requires step !in Deletion(t, e)
    ensures Suits(op, t, e) && StepOf(t, e, op) == (step, c)
  {
    StepsInclude(t, e);
    if step in NoEdit(t, e) {
      assert t[0] in t;
      op := Keep;
    } else if step in Substitution(t, e) {
      op := Change(c);
    } else if step in Insertion(t, e) {
      op := Put(c);
    } else {
      assert t[1] in t;
      op := Op.Swap;
    }
  }

  lemma KeptAfterCut(t: string, ops: seq<Op>, w: string)
    requires |t| > 1 && Edited(t[2..], ops) == Some(w)
    ensures Edited(t, [Cut, Keep] + ops) == Some([t[1]] + w)
    ensures Cost([Cut, Keep] + ops) == 1 + Cost(ops)
  {
    var kept, all := [Keep] + ops, [Cut, Keep] + ops;
    assert all[1..] == kept && kept[1..] == ops && t[1..][1..] == t[2..];
    CostInFront(Keep, ops);
    assert Edited(t[1..], kept) == Some([t[1]] + w);
  }

  /** A script that makes something of letters does not end with an insertion if it is tidy. */
  lemma {:induction false} TidyEndsInLetter(t: string, ops: seq<Op>)
    requires t != [] && Tidy(ops) && Edited(t, ops).Some?
    ensures !ops[|ops| - 1].Put?
  {
    assert |ops| == 1 ==> ops[1..] == [];
    assert Edited(t, []) == None;
  }

  lemma {:induction false} EmitsIsTidy(t: string, e: nat, p: string, w: string)
    requires WILDCARD !in t && Fits(p, w) && Emits(t, e, p)
    ensures TidyEdit(t, e, w)
    decreases |p|
  {
    StepsInclude(t, e);
    var step :| step in Steps(t, e) && StepEmits(step, p);
    match step
    case Stop =>
      CutOnly(t);
      assert Tidy([Cut]) && w == [];
    case Go(_, edits, rest) =>
      var ops: seq<Op> := [];
      assert w == [w[0]] + w[1..];
      if rest != [] {
        assert Fits(p[1..], w[1..]);
        RestHasNoWildcard(t, e, step);
        EmitsIsTidy(rest, edits, p[1..], w[1..]);
        ops := ATidyScript(rest, edits, w[1..]);
      }
      var all := StepAsOps(t, e, step, w[0], ops, w[1..]);
  }

  lemma CutOnly(t: string)
    requires |t| == 1
    ensures Edited(t, [Cut]) == Some([]) && Cost([Cut]) == 1
  {
    assert [Cut][1..] == [] && t[1..] == [];
  }

  lemma ATidyScript(t: string, e: nat, w: string) returns (ops: seq<Op>)
    requires t != [] && TidyEdit(t, e, w)
    ensures Tidy(ops) && Cost(ops) <= e && Edited(t, ops) == Some(w) && !ops[|ops| - 1].Put?
  {
    ops :| Tidy(ops) && Cost(ops) <= e && Edited(t, ops) == Some(w);
    TidyEndsInLetter(t, ops);
  }

  // ----- every tidy edit is read

  /** Of nothing, insertions make something. */
  lemma {:induction false} OnlyInsertions(ops: seq<Op>)
    requires Edited([], ops).Some? && ops != []
    ensures ops[|ops| - 1].Put?
  {
    if |ops| > 1 {
      OnlyInsertions(ops[1..]);
    }
  }

  lemma RestIsTidy(ops: seq<Op>)
    requires Tidy(ops) && |ops| > 1
    ensures Inner(ops[1..])
  {
    var others := ops[1..];
    forall i | 0 <= i < |others| - 1 && others[i].Cut? ensures others[i + 1].Keep? {
      assert ops[i + 1].Cut? && ops[i + 2] == others[i + 1];
    }
    assert others[|others| - 1] == ops[|ops| - 1];
  }

  lemma StepsHave(t: string, e: nat)
    ensures t != [] ==> Go(t[0], e, t[1..]) in Steps(t, e)
    ensures t != [] && e > 0 ==> Go(WILDCARD, e - 1, t[1..]) in Steps(t, e)
    ensures e > 0 ==> Go(WILDCARD, e - 1, t) in Steps(t, e)
    ensures |t| > 1 && e > 0 ==> Go(t[1], e - 1, t[2..]) in Steps(t, e)
    ensures |t| > 1 && e > 0 ==> Go(t[1], e - 1, [t[0]] + t[2..]) in Steps(t, e)
  {
    StepsInclude(t, e);
    assert t != [] ==> Go(t[0], e, t[1..]) in NoEdit(t, e);
    assert t != [] && e > 0 ==> Go(WILDCARD, e - 1, t[1..]) in Substitution(t, e);
    assert e > 0 ==> Go(WILDCARD, e - 1, t) in Insertion(t, e);
    assert |t| > 1 && e > 0 ==> Go(t[1], e - 1, t[2..]) in Deletion(t, e);
    assert |t| > 1 && e > 0 ==> Go(t[1], e - 1, [t[0]] + t[2..]) in Transposition(t, e);
  }

  /** The other operations of a script read what a step leaves. */
  lemma {:induction false} StepIsRead(t: string, e: nat, step: Step, c: char, ops: seq<Op>, v: Option<string>, w: string)
    requires step in Steps(t, e) && step.Go? && (step.label' == c || step.label' == WILDCARD)
    requires Inner(ops) && Cost(ops) <= step.edits && v == Edited(step.rest, ops) && InFront(c, v) == Some(w)
    ensures Reads(t, e, w)
    decreases |ops|, 2
  {
    if step.rest == [] {
      if ops != [] {
        OnlyInsertions(ops);
      }
    } else {
      assert ops != [];
      TidyIsRead(step.rest, step.edits, ops, v.value);
    }
    ReadsOneMore(t, e, step, c, v.value);
  }

  /** The first operation of a tidy script, and what stands behind it. */
  lemma FirstOp(t: string, ops: seq<Op>, e: nat, w: string)
    requires Tidy(ops) && Cost(ops) <= e && Edited(t, ops) == Some(w)
    ensures |ops| > 1 ==> Inner(ops[1..])
    ensures |ops| == 1 ==> ops[1..] == []
    ensures Cost(ops[1..]) <= if ops[0].Keep? then e else e - 1
    ensures !ops[0].Keep? ==> e > 0
  {
    if |ops| > 1 {
      RestIsTidy(ops);
    }
  }

  lemma {:induction false} TidyIsRead(t: string, e: nat, ops: seq<Op>, w: string)
    requires Tidy(ops) && Cost(ops) <= e && Edited(t, ops) == Some(w)
    ensures Reads(t, e, w)
    decreases |ops|, 1
  {
    if ops[0].Cut? {
      CutIsRead(t, e, ops, w);
    } else {
      OtherIsRead(t, e, ops, w);
    }
  }

  lemma {:induction false} OtherIsRead(t: string, e: nat, ops: seq<Op>, w: string)
    requires Tidy(ops) && Cost(ops) <= e && Edited(t, ops) == Some(w) && !ops[0].Cut?
    ensures Reads(t, e, w)
    decreases |ops|, 0
  {
    FirstOp(t, ops, e, w);
    StepsHave(t, e);
    var (step, c) := StepOf(t, e, ops[0]);
    StepIsRead(t, e, step, c, ops[1..], Edited(step.rest, ops[1..]), w);
  }

  lemma LastCutIsRead(t: string, e: nat, w: string)
    requires e > 0 && Edited(t, [Cut]) == Some(w)
    ensures Reads(t, e, w)
  {
    assert [Cut][1..] == [];
    StepsInclude(t, e);
    assert Stop in LastDeletion(t, e) && StepEmits(Stop, []);
    assert Emits(t, e, []) && Fits([], w);
  }

  /** What a deletion and the letter kept behind it leave to the other operations. */
  lemma CutAndKept(t: string, e: nat, ops: seq<Op>, w: string)
    requires Tidy(ops) && Cost(ops) <= e && Edited(t, ops) == Some(w) && ops[0].Cut? && |ops| > 1
    ensures |t| > 1 && e > 0 && InFront(t[1], Edited(t[2..], ops[2..])) == Some(w)
    ensures Inner(ops[2..]) && Cost(ops[2..]) <= e - 1
  {
    var kept := ops[1..];
    FirstOp(t, ops, e, w);
    FirstOp(t[1..], kept, e - 1, w);
    assert ops[1].Keep? && kept[0] == ops[1] && kept[1..] == ops[2..];
    assert t[1..][1..] == t[2..];
  }

  lemma {:induction false} CutIsRead(t: string, e: nat, ops: seq<Op>, w: string)
    requires Tidy(ops) && Cost(ops) <= e && Edited(t, ops) == Some(w) && ops[0].Cut?
    ensures Reads(t, e, w)
    decreases |ops|, 0
  {
    if |ops| == 1 {
      assert ops == [Cut];
      LastCutIsRead(t, e, w);
    } else {
      CutAndKept(t, e, ops, w);
      StepsHave(t, e);
      StepIsRead(t, e, Go(t[1], e - 1, t[2..]), t[1], ops[2..], Edited(t[2..], ops[2..]), w);
    }
  }

  /** A word is read for s and k if and only if a tidy script of at most k edits makes it of s. */
  lemma ReadsExactly(s: string, k: nat, w: string)
    requires WILDCARD !in s
    ensures Reads(s, k, w) <==> TidyEdit(s, k, w)
  {
    if Reads(s, k, w) {
      var p :| Fits(p, w) && Emits(s, k, p);
      EmitsIsTidy(s, k, p, w);
    }
    if TidyEdit(s, k, w) {
      var ops :| Tidy(ops) && Cost(ops) <= k && Edited(s, ops) == Some(w);
      TidyIsRead(s, k, ops, w);
    }
  }

  // ----- scripts and edits

  /** A script makes words as many edits away as it costs, tidy or not. */
  lemma {:induction false} ScriptIsWithin(t: string, ops: seq<Op>, w: string)
    requires Edited(t, ops) == Some(w)
    ensures Within(Cost(ops), t, w)
    decreases |ops|
  {
    if ops != [] {
      if ops[0].Cut? {
        FrontEdits(t, t[0]);
        ScriptIsWithin(t[1..], ops[1..], w);
        WithinAfter(Cost(ops), t, Delete(0), w);
      } else {
        OpIsWithin(t, ops, w);
      }
    }
  }

  /** What is left, and the letter read, of an operation that reads one. */
  function LeftBy(op: Op, t: string): (string, char)
    requires !op.Cut? && (op.Put? || t != []) && (op.Swap? ==> |t| > 1)
  {
    match op
    case Put(c) => (t, c)
    case Change(c) => (t[1..], c)
    case Swap => ([t[0]] + t[2..], t[1])
    case Keep => (t[1..], t[0])
  }

  /** The edit that an operation makes of the first letter. */
  function EditOf(op: Op): Edit
    requires !op.Cut? && !op.Keep?
  {
    match op
    case Put(c) => Insert(0, c)
    case Change(c) => Substitute(0, c)
    case Swap => Edit.Swap(0)
  }

  lemma OpIsOneEdit(op: Op, t: string)
    requires !op.Cut? && (op.Put? || t != []) && (op.Swap? ==> |t| > 1)
    ensures var (rest, c) := LeftBy(op, t);
            if op.Keep? then [c] + rest == t else Applies(EditOf(op), t) && Apply(EditOf(op), t) == [c] + rest
  {
    FrontEdits(t, LeftBy(op, t).1);
  }

  lemma {:induction false} OpIsWithin(t: string, ops: seq<Op>, w: string)
    requires ops != [] && Edited(t, ops) == Some(w) && !ops[0].Cut?
    ensures Within(Cost(ops), t, w)
    decreases |ops|, 0
  {
    var (rest, c) := LeftBy(ops[0], t);
    FirstOfFront(c, Edited(rest, ops[1..]), w);
    ScriptIsWithin(rest, ops[1..], w[1..]);
    WithinByOp(ops[0], t, Cost(ops[1..]), w);
  }

  lemma WithinByOp(op: Op, t: string, k: nat, w: string)
    requires !op.Cut? && (op.Put? || t != []) && (op.Swap? ==> |t| > 1)
    requires w != [] && w[0] == LeftBy(op, t).1 && Within(k, LeftBy(op, t).0, w[1..])
    ensures Within(if op.Keep? then k else k + 1, t, w)
  {
    var (rest, c) := LeftBy(op, t);
    WithinLater(k, rest, w[1..], c);
    assert [c] + w[1..] == w;
    OpIsOneEdit(op, t);
    if !op.Keep? {
      WithinAfter(k + 1, t, EditOf(op), w);
    }
  }

  lemma FirstOfFront(c: char, v: Option<string>, w: string)
    requires InFront(c, v) == Some(w)
    ensures v.Some? && w == [c] + v.value && v.value == w[1..]
  {
  }
}
