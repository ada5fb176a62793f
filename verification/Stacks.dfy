/**
 Why the loops over an explicit stack end: each frame has an amount of work left, and a frame
 that is popped pushes fewer than `base` frames with less left.
 */
module Stacks {

  lemma PopSplits<T>(stack: seq<T>)
    requires stack != []
    ensures stack == stack[..|stack| - 1] + [stack[|stack| - 1]]
  {
  }

  function Power(base: nat, e: nat): (p: nat)
    ensures base > 0 ==> p > 0
  {
    if e == 0 then 1
    else if base == 0 then 0
    else PositiveTimes(base, Power(base, e - 1))
  }

  function PositiveTimes(a: nat, b: nat): (p: nat)
    requires a > 0 && b > 0
    ensures p > 0 && p == a * b
  {
    assert a * b >= a by { assert a * (b - 1) >= 0; }
    a * b
  }

  /** The load of a stack of frames with the given work left. */
  function Load(left: seq<nat>, base: nat): nat {
    if left == [] then 0 else Load(left[..|left| - 1], base) + Power(base, left[|left| - 1])
  }

  lemma LoadPush(left: seq<nat>, base: nat, e: nat)
    ensures Load(left + [e], base) == Load(left, base) + Power(base, e)
  {
    assert (left + [e])[..|left|] == left;
  }

  lemma TimesGrows(base: nat, p: nat)
    requires base > 0 && p > 0
    ensures p <= PositiveTimes(base, p)
  {
    assert base * p - p == (base - 1) * p >= 0;
  }

  lemma {:induction false} PowerGrows(base: nat, e: nat, f: nat)
    requires base > 0 && e <= f
    ensures Power(base, e) <= Power(base, f)
    decreases f
  {
    if e < f {
      PowerGrows(base, e, f - 1);
      TimesGrows(base, Power(base, f - 1));
    }
  }

  function Times(a: nat, b: nat): nat {
    a * b
  }

  /** Fewer than `base` frames with less left weigh less than one frame. */
  lemma PushedWeighLess(base: nat, pushed: nat, left: nat)
    requires pushed < base
    ensures Times(pushed, Power(base, left)) < Power(base, left + 1)
  {
    var p := Power(base, left);
    assert Power(base, left + 1) == base * p;
    var more := PositiveTimes(base - pushed, p);
    assert base * p == pushed * p + (base - pushed) * p;
  }

  lemma SplitLast(rest: seq<nat>, pushed: seq<nat>)
    requires pushed != []
    ensures rest + pushed == rest + pushed[..|pushed| - 1] + [pushed[|pushed| - 1]]
  {
  }

  lemma OneMoreTime(k: nat, p: nat)
    requires k > 0
    ensures Times(k, p) == Times(k - 1, p) + p
  {
  }

  /** Frames that have at most e left. */
  lemma {:induction false} LoadOfFrames(rest: seq<nat>, pushed: seq<nat>, base: nat, e: nat)
    requires base > 0 && forall i :: 0 <= i < |pushed| ==> pushed[i] <= e
    ensures Load(rest + pushed, base) <= Load(rest, base) + Times(|pushed|, Power(base, e))
    decreases |pushed|
  {
    var k := |pushed|;
    if k == 0 {
      assert rest + pushed == rest;
    } else {
      LoadOfFrames(rest, pushed[..k - 1], base, e);
      SplitLast(rest, pushed);
      LoadPush(rest + pushed[..k - 1], base, pushed[k - 1]);
      PowerGrows(base, pushed[k - 1], e);
      OneMoreTime(k, Power(base, e));
    }
  }

  /** A frame gives way to fewer than `base` frames with less left. */
  lemma LoadFalls(rest: seq<nat>, frame: nat, pushed: seq<nat>, base: nat)
    requires |pushed| < base
    requires forall i :: 0 <= i < |pushed| ==> pushed[i] < frame
    ensures Load(rest + pushed, base) < Load(rest + [frame], base)
  {
    LoadPush(rest, base, frame);
    if pushed == [] {
      assert rest + pushed == rest;
    } else {
      assert pushed[0] < frame;
      LoadOfFrames(rest, pushed, base, frame - 1);
      PushedWeighLess(base, |pushed|, frame - 1);
    }
  }
}
