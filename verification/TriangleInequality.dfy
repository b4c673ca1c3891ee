/**
 When a detour can be shorter: for which strings the optimal string alignment distance keeps the
 triangle inequality, and for which it does not.
 */
module TriangleInequality {
  import opened Wrappers
  import opened EditDistance

  // ---------- Plain Levenshtein distance ----------

  /** The same recursion without the swap. */
  function Lev(a: string, b: string, i: nat, j: nat): nat
    requires i <= |a| && j <= |b|
    decreases i + j
  {
    if i == 0 then j
    else if j == 0 then i
    else Cell(Lev(a, b, i, j - 1), Lev(a, b, i - 1, j), Lev(a, b, i - 1, j - 1), a[i - 1] == b[j - 1], None)
  }

  function Levenshtein(a: string, b: string): nat {
    Lev(a, b, |a|, |b|)
  }

  lemma LevStep(a: string, b: string, i: nat, j: nat)
    requires i <= |a| && j <= |b|
    ensures i == 0 || j == 0 ==> Lev(a, b, i, j) == i + j
    ensures i > 0 && j > 0 ==>
              Lev(a, b, i, j)
              == Cell(Lev(a, b, i, j - 1), Lev(a, b, i - 1, j), Lev(a, b, i - 1, j - 1), a[i - 1] == b[j - 1], None)
  {
  }

  // ---------- Scripts without swaps ----------

  ghost predicate NoSwaps(script: seq<Edit>) {
    forall k :: 0 <= k < |script| ==> script[k] != Transpose
  }

  ghost predicate SwapFree(script: seq<Edit>, a: string, b: string, cost: nat) {
    NoSwaps(script) && Apply(script, a) == Some(b) && Cost(script) == cost
  }

  /** A script with one more edit in front. */
  lemma Front(e: Edit, rest: seq<Edit>, a: string, b: string)
    requires NoSwaps(rest) && !e.Transpose?
    requires match e
             case Insert(c) => b != [] && b[0] == c && Apply(rest, a) == Some(b[1..])
             case Delete => a != [] && Apply(rest, a[1..]) == Some(b)
             case Keep => a != [] && b != [] && b[0] == a[0] && Apply(rest, a[1..]) == Some(b[1..])
             case Substitute(c) => a != [] && b != [] && b[0] == c && Apply(rest, a[1..]) == Some(b[1..])
    ensures SwapFree([e] + rest, a, b, Cost(rest) + if e.Keep? then 0 else 1)
  {
    assert ([e] + rest)[1..] == rest;
    assert b != [] ==> [b[0]] + b[1..] == b;
  }

  /** The plain distance is the cost of a script without swaps. */
  lemma {:induction false} LevScript(a: string, b: string, i: nat, j: nat, tail: seq<Edit>) returns (script: seq<Edit>)
    requires i <= |a| && j <= |b|
    requires NoSwaps(tail) && Apply(tail, a[i..]) == Some(b[j..])
    ensures SwapFree(script, a, b, Lev(a, b, i, j) + Cost(tail))
    decreases i + j
  {
    hide Lev, Apply, Cost;
    LevStep(a, b, i, j);
    if j > 0 {
      assert b[j - 1..][0] == b[j - 1] && b[j - 1..][1..] == b[j..];
      LevStep(a, b, i, j - 1);
    }
    if i > 0 {
      assert a[i - 1..][0] == a[i - 1] && a[i - 1..][1..] == a[i..];
      LevStep(a, b, i - 1, j);
    }
    if i == 0 && j == 0 {
      script := tail;
    } else if i == 0 || (j > 0 && Lev(a, b, i, j) == Lev(a, b, i, j - 1) + 1) {
      Front(Insert(b[j - 1]), tail, a[i..], b[j - 1..]);
      script := LevScript(a, b, i, j - 1, [Insert(b[j - 1])] + tail);
    } else if j == 0 || Lev(a, b, i, j) == Lev(a, b, i - 1, j) + 1 {
      Front(Delete, tail, a[i - 1..], b[j..]);
      script := LevScript(a, b, i - 1, j, [Delete] + tail);
    } else {
      var step := if a[i - 1] == b[j - 1] then Keep else Substitute(b[j - 1]);
      Front(step, tail, a[i - 1..], b[j - 1..]);
      script := LevScript(a, b, i - 1, j - 1, [step] + tail);
    }
  }

  /** Two edits in a row on one character, as a single one. */
  function Combined(first: Edit, second: Edit): Edit
    requires first.Keep? || first.Substitute?
    requires second.Keep? || second.Substitute? || second.Delete?
  {
    if second.Keep? then first else second
  }

  /** Scripts without swaps can be run one after the other in a single pass. */
  lemma {:induction false} Compose(s: seq<Edit>, t: seq<Edit>, a: string, b: string, c: string) returns (r: seq<Edit>)
    requires NoSwaps(s) && NoSwaps(t) && Apply(s, a) == Some(b) && Apply(t, b) == Some(c)
    ensures NoSwaps(r) && Apply(r, a) == Some(c) && Cost(r) <= Cost(s) + Cost(t)
    decreases |s| + |t|
  {
    if s != [] && s[0] == Delete {
      var rest := Compose(s[1..], t, a[1..], b, c);
      Front(Delete, rest, a, c);
      r := [Delete] + rest;
    } else if t != [] && t[0].Insert? {
      var rest := Compose(s, t[1..], a, b, c[1..]);
      Front(t[0], rest, a, c);
      r := [t[0]] + rest;
    } else if s == [] {
      r := [];
    } else if s[0].Insert? {
      r := ComposeInsert(s, t, a, b, c);
    } else {
      r := ComposeKept(s, t, a, b, c);
    }
  }

  lemma {:induction false} ComposeInsert(s: seq<Edit>, t: seq<Edit>, a: string, b: string,
                                         c: string) returns (r: seq<Edit>)
    requires NoSwaps(s) && NoSwaps(t) && Apply(s, a) == Some(b) && Apply(t, b) == Some(c)
    requires s != [] && s[0].Insert? && (t != [] ==> !t[0].Insert?)
    ensures NoSwaps(r) && Apply(r, a) == Some(c) && Cost(r) <= Cost(s) + Cost(t)
    decreases |s| + |t|, 0
  {
    if t[0] == Delete {
      r := Compose(s[1..], t[1..], a, b[1..], c);
    } else {
      var rest := Compose(s[1..], t[1..], a, b[1..], c[1..]);
      Front(Insert(c[0]), rest, a, c);
      r := [Insert(c[0])] + rest;
    }
  }

  lemma {:induction false} ComposeKept(s: seq<Edit>, t: seq<Edit>, a: string, b: string,
                                       c: string) returns (r: seq<Edit>)
    requires NoSwaps(s) && NoSwaps(t) && Apply(s, a) == Some(b) && Apply(t, b) == Some(c)
    requires s != [] && (s[0].Keep? || s[0].Substitute?) && (t != [] ==> !t[0].Insert?)
    ensures NoSwaps(r) && Apply(r, a) == Some(c) && Cost(r) <= Cost(s) + Cost(t)
    decreases |s| + |t|, 0
  {
    var e := Combined(s[0], t[0]);
    var rest := Compose(s[1..], t[1..], a[1..], b[1..], if e.Delete? then c else c[1..]);
    Front(e, rest, a, c);
    r := [e] + rest;
  }

  /** The inequality holds whenever neither leg needs a swap. */
  lemma TriangleOfSwapFree(a: string, b: string, c: string, s: seq<Edit>, t: seq<Edit>)
    requires SwapFree(s, a, b, Distance(a, b)) && SwapFree(t, b, c, Distance(b, c))
    ensures Distance(a, c) <= Distance(a, b) + Distance(b, c)
  {
    hide Osa, Apply;
    var r := Compose(s, t, a, b, c);
    DistanceIsOptimal(a, c);
  }

  /** A check on each leg by itself: the swap does not make it shorter than plain Levenshtein. */
  lemma TriangleWithoutSwaps(a: string, b: string, c: string)
    requires Levenshtein(a, b) == Distance(a, b) && Levenshtein(b, c) == Distance(b, c)
    ensures Distance(a, c) <= Distance(a, b) + Distance(b, c)
  {
    hide Osa, Lev;
    assert a[|a|..] == [] && b[|b|..] == [] && c[|c|..] == [];
    assert Apply([], []) == Some([]);
    var s := LevScript(a, b, |a|, |b|, []);
    var t := LevScript(b, c, |b|, |c|, []);
    TriangleOfSwapFree(a, b, c, s, t);
  }

  // ---------- Through which strings no detour is shorter ----------

  /** One character, repeated. */
  ghost predicate OneCharacter(b: string) {
    forall k :: 0 < k < |b| ==> b[k] == b[k - 1]
  }

  /** Swapping equal characters gains nothing. */
  lemma {:induction false} OneCharacterNeedsNoSwaps(a: string, b: string, i: nat, j: nat)
    requires i <= |a| && j <= |b| && (OneCharacter(a) || OneCharacter(b))
    ensures Lev(a, b, i, j) == Osa(a, b, i, j)
    decreases i + j
  {
    hide Osa, Lev;
    LevStep(a, b, i, j);
    if i == 0 || j == 0 {
      OsaEdge(a, b, i, j);
    } else {
      OsaStep(a, b, i, j);
      OneCharacterNeedsNoSwaps(a, b, i, j - 1);
      OneCharacterNeedsNoSwaps(a, b, i - 1, j);
      OneCharacterNeedsNoSwaps(a, b, i - 1, j - 1);
      if SwapEnds(a, b, i, j) {
        OsaGrowth(a, b, i - 2, j - 2);
      }
    }
  }

  lemma TriangleThroughOneCharacter(a: string, b: string, c: string)
    requires OneCharacter(b)
    ensures Distance(a, c) <= Distance(a, b) + Distance(b, c)
  {
    hide Osa, Lev;
    OneCharacterNeedsNoSwaps(a, b, |a|, |b|);
    OneCharacterNeedsNoSwaps(b, c, |b|, |c|);
    TriangleWithoutSwaps(a, b, c);
  }

  // ---------- Through all others some detour is shorter ----------

  /** One more character lowers the distance by one at most. */
  lemma {:induction false} OsaShrinksLeft(a: string, b: string, i: nat, j: nat)
    requires i < |a| && j <= |b|
    ensures Osa(a, b, i, j) <= Osa(a, b, i + 1, j) + 1
    decreases i + j
  {
    hide Osa;
    if i == 0 || j == 0 {
      OsaEdge(a, b, i, j);
      OsaBounds(a, b, i + 1, j);
    } else {
      OsaStep(a, b, i + 1, j);
      OsaShrinksLeft(a, b, i, j - 1);
      OsaGrowth(a, b, i, j - 1);
      OsaGrowth(a, b, i - 1, j - 1);
      if j > 1 {
        OsaGrowth(a, b, i - 1, j - 2);
      }
    }
  }

  lemma OsaShrinksRight(a: string, b: string, i: nat, j: nat)
    requires i <= |a| && j < |b|
    ensures Osa(a, b, i, j) <= Osa(a, b, i, j + 1) + 1
  {
    hide Osa;
    OsaShrinksLeft(b, a, j, i);
    OsaSymmetric(a, b, i, j);
    OsaSymmetric(a, b, i, j + 1);
  }

  /** Equal characters at the end do not count. */
  lemma EqualEnds(a: string, b: string, i: nat, j: nat)
    requires i < |a| && j < |b| && a[i] == b[j]
    ensures Osa(a, b, i + 1, j + 1) == Osa(a, b, i, j)
  {
    hide Osa;
    OsaStep(a, b, i + 1, j + 1);
    OsaShrinksLeft(a, b, i, j);
    OsaShrinksRight(a, b, i, j);
    if i > 0 && j > 0 {
      OsaGrowth(a, b, i - 1, j - 1);
    }
  }

  lemma {:induction false} EqualSuffixes(a: string, b: string, i: nat, j: nat)
    requires i <= |a| && j <= |b| && a[i..] == b[j..]
    ensures Distance(a, b) == Osa(a, b, i, j)
    decreases |a| - i
  {
    hide Osa;
    assert |a| - i == |a[i..]| == |b[j..]| == |b| - j;
    if i < |a| {
      assert a[i] == a[i..][0] == b[j];
      assert a[i + 1..] == a[i..][1..] == b[j + 1..];
      EqualEnds(a, b, i, j);
      EqualSuffixes(a, b, i + 1, j + 1);
    }
  }

  lemma EqualPrefixes(a: string, b: string, n: nat)
    requires n <= |a| && n <= |b| && a[..n] == b[..n]
    ensures Osa(a, b, n, n) == 0
  {
    OsaZero(a, b, n, n);
  }

  /** Some character other than these two. */
  function Third(x: char, y: char): (z: char)
    ensures z != x && z != y
  {
    if 'a' != x && 'a' != y then 'a' else if 'b' != x && 'b' != y then 'b' else 'c'
  }

  /** b with the characters at n and n + 1 swapped. */
  function Swapped(b: string, n: nat): string
    requires n + 1 < |b|
  {
    b[..n] + [b[n + 1], b[n]] + b[n + 2..]
  }

  /** b with a third character between those at n and n + 1. */
  function Parted(b: string, n: nat): string
    requires n + 1 < |b|
  {
    b[..n + 1] + [Third(b[n], b[n + 1])] + b[n + 1..]
  }

  lemma SwappedIsNear(b: string, n: nat)
    requires n + 1 < |b|
    ensures Distance(Swapped(b, n), b) <= 1
  {
    hide Osa;
    var a := Swapped(b, n);
    assert a[..n] == b[..n] && a[n + 2..] == b[n + 2..];
    EqualPrefixes(a, b, n);
    OsaStep(a, b, n + 2, n + 2);
    EqualSuffixes(a, b, n + 2, n + 2);
  }

  lemma PartedIsNear(b: string, n: nat)
    requires n + 1 < |b|
    ensures Distance(b, Parted(b, n)) <= 1
  {
    hide Osa;
    var c := Parted(b, n);
    assert b[..n + 1] == c[..n + 1] && b[n + 1..] == c[n + 2..];
    EqualPrefixes(b, c, n + 1);
    OsaGrowth(b, c, n + 1, n + 1);
    EqualSuffixes(b, c, n + 1, n + 2);
  }

  /** Going from one to the other takes three edits: the swapped characters cannot be parted. */
  lemma SwappedIsFarFromParted(b: string, n: nat)
    requires n + 1 < |b| && b[n] != b[n + 1]
    ensures Distance(Swapped(b, n), Parted(b, n)) >= 3
  {
    hide Osa;
    var a, c := Swapped(b, n), Parted(b, n);
    var x, y, z := b[n], b[n + 1], Third(b[n], b[n + 1]);
    assert a[n] == y && a[n + 1] == x && c[n] == x && c[n + 1] == z && c[n + 2] == y;
    assert a[..n] == b[..n] == c[..n] && a[n + 2..] == b[n + 2..] == c[n + 3..];
    FirstColumns(a, c, n);
    assert Osa(a, c, n + 1, n + 2) >= 2 by {
      OsaStep(a, c, n + 1, n + 2);
    }
    assert Osa(a, c, n + 1, n + 3) >= 2 by {
      EqualEnds(a, c, n, n + 2);
    }
    assert Osa(a, c, n + 2, n + 1) >= 1 by {
      OsaBounds(a, c, n + 2, n + 1);
    }
    assert Osa(a, c, n + 2, n + 2) >= 2 by {
      OsaStep(a, c, n + 2, n + 2);
    }
    OsaStep(a, c, n + 2, n + 3);
    EqualSuffixes(a, c, n + 2, n + 3);
  }

  lemma FirstColumns(a: string, c: string, n: nat)
    requires n + 2 <= |a| && n + 3 <= |c| && a[n] != c[n]
    ensures Osa(a, c, n, n + 1) >= 1 && Osa(a, c, n, n + 2) >= 2 && Osa(a, c, n + 1, n + 1) >= 1
  {
    hide Osa;
    OsaBounds(a, c, n, n + 1);
    OsaBounds(a, c, n, n + 2);
    OsaZero(a, c, n + 1, n + 1);
    assert a[..n + 1][n] == a[n] && c[..n + 1][n] == c[n];
  }

  /** The exact condition on the string in between: no detour through b is ever shorter than the
      direct way if and only if b is one character repeated. */
  lemma TriangleThrough(b: string)
    ensures (forall a, c :: Distance(a, c) <= Distance(a, b) + Distance(b, c)) <==> OneCharacter(b)
  {
    if OneCharacter(b) {
      forall a, c
        ensures Distance(a, c) <= Distance(a, b) + Distance(b, c)
      {
        TriangleThroughOneCharacter(a, b, c);
      }
    } else {
      var k :| 0 < k < |b| && b[k] != b[k - 1];
      SwappedIsNear(b, k - 1);
      PartedIsNear(b, k - 1);
      SwappedIsFarFromParted(b, k - 1);
    }
  }

  /** The shortest such detour: "ca" to "ac" to "abc" takes two edits, the direct way three. */
  lemma TriangleFails(a: string, b: string, c: string)
    requires a == "ca" && b == "ac" && c == "abc"
    ensures Distance(a, c) > Distance(a, b) + Distance(b, c)
  {
    hide Osa;
    assert Swapped(b, 0) == a && Parted(b, 0) == c;
    SwappedIsNear(b, 0);
    PartedIsNear(b, 0);
    SwappedIsFarFromParted(b, 0);
  }
}
