/**
 The order of words by which the builder refuses: lexicographic, a word before its extensions.
 */
module WordOrder {
  import opened Common
  import opened Automata
  import opened TokenSetWords

  /** a leaves b at place k: it ends there, or has the smaller letter. */
  predicate Parts(a: string, b: string, k: nat) {
    k <= |a| && k < |b| && a[..k] == b[..k] && (k == |a| || a[k] < b[k])
  }

  /** One word is less than another if and only if it leaves it somewhere. */
  lemma {:induction false} LessExactly(a: string, b: string)
    ensures Less(a, b) <==> exists k :: Parts(a, b, k)
  {
    if a == [] {
      assert b != [] ==> Parts(a, b, 0);
    } else if b != [] {
      LessExactly(a[1..], b[1..]);
      if a[0] < b[0] {
        assert Parts(a, b, 0);
      } else if Less(a, b) {
        var k :| Parts(a[1..], b[1..], k);
        PartsLater(a, b, k);
      }
      if k :| Parts(a, b, k) {
        PartsSooner(a, b, k);
      }
    }
  }

  lemma PartsLater(a: string, b: string, k: nat)
    requires a != [] && b != [] && a[0] == b[0] && Parts(a[1..], b[1..], k)
    ensures Parts(a, b, k + 1)
  {
    assert a[..k + 1] == [a[0]] + a[1..][..k] && b[..k + 1] == [b[0]] + b[1..][..k];
  }

  lemma PartsSooner(a: string, b: string, k: nat)
    requires a != [] && Parts(a, b, k)
    ensures if k == 0 then a[0] < b[0] else a[0] == b[0] && Parts(a[1..], b[1..], k - 1)
  {
    if k > 0 {
      assert a[0] == a[..k][0] && b[0] == b[..k][0];
      assert a[1..][..k - 1] == a[..k][1..] && b[1..][..k - 1] == b[..k][1..];
    }
  }

  /** Exactly one of three holds. */
  lemma {:induction false} Trichotomy(a: string, b: string)
    ensures Less(a, b) || a == b || Less(b, a)
    ensures !(Less(a, b) && a == b) && !(Less(a, b) && Less(b, a)) && !(a == b && Less(b, a))
  {
    if a != [] && b != [] {
      Trichotomy(a[1..], b[1..]);
      assert a == [a[0]] + a[1..] && b == [b[0]] + b[1..];
    }
  }

  lemma {:induction false} LessIsTransitive(a: string, b: string, c: string)
    requires Less(a, b) && Less(b, c)
    ensures Less(a, c)
  {
    if a != [] && a[0] == b[0] == c[0] {
      LessIsTransitive(a[1..], b[1..], c[1..]);
    }
  }

  /** A word comes before its extensions. */
  lemma PrefixIsLess(a: string, b: string)
    requires b != []
    ensures Less(a, a + b)
  {
    assert Parts(a, a + b, |a|);
    LessExactly(a, a + b);
  }

  /** In order means that each word is before, or the same as, every later one. */
  lemma {:induction false} InOrderPairs(words: seq<string>)
    ensures InOrder(words) <==> forall i, j :: 0 <= i < j < |words| ==> words[i] == words[j] || Less(words[i], words[j])
  {
    if InOrder(words) {
      forall i, j | 0 <= i < j < |words| ensures words[i] == words[j] || Less(words[i], words[j]) {
        LaterIsNotLess(words, i, j);
      }
    } else {
      var j :| 0 < j < |words| && Less(words[j], words[j - 1]);
      Trichotomy(words[j - 1], words[j]);
    }
  }

  lemma {:induction false} LaterIsNotLess(words: seq<string>, i: nat, j: nat)
    requires InOrder(words) && i < j < |words|
    ensures words[i] == words[j] || Less(words[i], words[j])
    decreases j - i
  {
    Trichotomy(words[j - 1], words[j]);
    if i < j - 1 {
      LaterIsNotLess(words, i, j - 1);
      if words[i] != words[j - 1] && words[j - 1] != words[j] {
        LessIsTransitive(words[i], words[j - 1], words[j]);
      }
    }
  }

  // ----- sorting

  lemma {:induction false} LeastWord(s: set<string>) returns (least: string)
    requires s != {}
    ensures least in s && forall w :: w in s && w != least ==> Less(least, w)
    decreases |s|
  {
    var x :| x in s;
    var rest := s - {x};
    assert s == rest + {x};
    if rest == {} {
      least := x;
    } else {
      var y := LeastWord(rest);
      Trichotomy(x, y);
      least := if Less(x, y) then x else y;
      forall w | w in s && w != least ensures Less(least, w) {
        if w != x && w != y && least == x {
          LessIsTransitive(x, y, w);
        }
      }
    }
  }

  lemma InOrderInFront(word: string, words: seq<string>)
    requires InOrder(words) && (words != [] ==> !Less(words[0], word))
    ensures InOrder([word] + words)
  {
    var all := [word] + words;
    forall i | 0 < i < |all| ensures !Less(all[i], all[i - 1]) {
      if i > 1 {
        assert all[i] == words[i - 1] && all[i - 1] == words[i - 2];
      }
    }
  }

  /** Every finite set of words has a list in order that names each of them once. */
  lemma {:induction false} SortedListExists(s: set<string>) returns (words: seq<string>)
    ensures InOrder(words) && Distinct(words) && |words| == |s|
    ensures forall w :: w in words <==> w in s
    decreases |s|
  {
    if s == {} {
      words := [];
    } else {
      var least := LeastWord(s);
      var rest := SortedListExists(s - {least});
      if rest != [] {
        assert rest[0] in s - {least};
        Trichotomy(least, rest[0]);
      }
      InOrderInFront(least, rest);
      words := [least] + rest;
      assert s == (s - {least}) + {least};
      assert forall i :: 0 <= i < |rest| ==> rest[i] in s - {least};
    }
  }

  lemma HasMember(b: seq<string>)
    requires b != []
    ensures exists w :: w in b
  {
    assert b[0] in b;
  }

  /** There is only one such list. */
  lemma {:induction false} SortedListIsUnique(a: seq<string>, b: seq<string>)
    requires InOrder(a) && InOrder(b) && Distinct(a) && Distinct(b)
    requires forall w :: w in a <==> w in b
    ensures a == b
  {
    if a == [] {
      if b != [] {
        HasMember(b);
      }
    } else {
      assert a[0] in b;
      SameHead(a, b);
      TailsAgree(a, b);
      SortedListIsUnique(a[1..], b[1..]);
      assert a == [a[0]] + a[1..] && b == [b[0]] + b[1..];
    }
  }

  lemma SameHead(a: seq<string>, b: seq<string>)
    requires InOrder(a) && InOrder(b) && a != [] && b != [] && a[0] in b && b[0] in a
    ensures a[0] == b[0]
  {
    var i :| 0 <= i < |b| && b[i] == a[0];
    var j :| 0 <= j < |a| && a[j] == b[0];
    if i > 0 && j > 0 {
      LaterIsNotLess(b, 0, i);
      LaterIsNotLess(a, 0, j);
      Trichotomy(a[0], b[0]);
    }
  }

  lemma TailsAgree(a: seq<string>, b: seq<string>)
    requires InOrder(a) && InOrder(b) && Distinct(a) && Distinct(b) && a != [] && b != [] && a[0] == b[0]
    requires forall w :: w in a <==> w in b
    ensures InOrder(a[1..]) && InOrder(b[1..]) && Distinct(a[1..]) && Distinct(b[1..])
    ensures forall w :: w in a[1..] <==> w in b[1..]
  {
    TailIsSorted(a);
    TailIsSorted(b);
    forall w ensures w in a[1..] <==> w in a && w != a[0] {
      InTail(a, w);
    }
    forall w ensures w in b[1..] <==> w in b && w != b[0] {
      InTail(b, w);
    }
  }

  lemma TailIsSorted(a: seq<string>)
    requires InOrder(a) && Distinct(a) && a != []
    ensures InOrder(a[1..]) && Distinct(a[1..])
  {
    forall i | 0 < i < |a[1..]| ensures !Less(a[1..][i], a[1..][i - 1]) {
      assert a[1..][i] == a[i + 1] && a[1..][i - 1] == a[i];
    }
  }

  lemma InTail(a: seq<string>, w: string)
    requires Distinct(a) && a != []
    ensures w in a[1..] <==> w in a && w != a[0]
  {
    if w in a[1..] {
      var i :| 0 <= i < |a[1..]| && a[1..][i] == w;
      assert a[i + 1] == w;
    }
  }
}
