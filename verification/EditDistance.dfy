/**
 The optimal string alignment distance of the fuzzy matcher: a recursive specification, the
 three-row rotating computation that the matcher runs, and the edit scripts that give the
 distance its meaning.
 */
module EditDistance {
  import opened Wrappers
  import opened Fractions

  function Min(x: int, y: int): int {
    if x <= y then x else y
  }

  function Max(x: int, y: int): int {
    if x <= y then y else x
  }

  // ---------- The distance, as a recursion over prefixes ----------

  /** May the last two characters of a[..i] be an adjacent swap of the last two of b[..j]? */
  predicate SwapEnds(a: string, b: string, i: nat, j: nat)
    requires i <= |a| && j <= |b|
  {
    i > 1 && j > 1 && a[i - 1] == b[j - 2] && a[i - 2] == b[j - 1]
  }

  /** One cell of the distance table from the cells to its left, above it and diagonally before
      it; `swap` is the cost of ending in an adjacent swap, where that is possible. */
  function Cell(left: nat, above: nat, diagonal: nat, same: bool, swap: Option<nat>): nat {
    var m := Min(Min(left + 1, above + 1), diagonal + if same then 0 else 1);
    if swap.Some? then Min(m, swap.value) else m
  }

  /** The optimal string alignment distance between a[..i] and b[..j]. */
  function Osa(a: string, b: string, i: nat, j: nat): nat
    requires i <= |a| && j <= |b|
    decreases i + j
  {
    if i == 0 then j
    else if j == 0 then i
    else
      Cell(Osa(a, b, i, j - 1), Osa(a, b, i - 1, j), Osa(a, b, i - 1, j - 1), a[i - 1] == b[j - 1],
           if SwapEnds(a, b, i, j) then Some(Osa(a, b, i - 2, j - 2) + 1) else None)
  }

  function Distance(a: string, b: string): nat {
    Osa(a, b, |a|, |b|)
  }

  // The two equations of Osa. The proofs below use these and hide its body, which the solver
  // would otherwise unfold many levels deep.

  lemma OsaEdge(a: string, b: string, i: nat, j: nat)
    requires i <= |a| && j <= |b| && (i == 0 || j == 0)
    ensures Osa(a, b, i, j) == i + j
  {
  }

  lemma OsaStep(a: string, b: string, i: nat, j: nat)
    requires 0 < i <= |a| && 0 < j <= |b|
    ensures Osa(a, b, i, j)
         == Cell(Osa(a, b, i, j - 1), Osa(a, b, i - 1, j), Osa(a, b, i - 1, j - 1), a[i - 1] == b[j - 1],
                 if SwapEnds(a, b, i, j) then Some(Osa(a, b, i - 2, j - 2) + 1) else None)
  {
  }

  // ---------- The computation with three rotating rows ----------

  /** A row buffer holds the first n distances of row i. */
  ghost predicate HoldsRow(row: array<int>, a: string, b: string, i: nat, n: nat)
    requires i <= |a|
    reads row
  {
    n <= row.Length == |b| + 1 && forall j :: 0 <= j < n ==> row[j] == Osa(a, b, i, j)
  }

  /** The inner loop: one new row from the two rows before it. */
  method FillRow(a: string, b: string, i: nat, prev2: array<int>, prev: array<int>, cur: array<int>)
    requires 0 < i <= |a| && cur.Length == |b| + 1
    requires cur != prev && cur != prev2
    requires HoldsRow(prev, a, b, i - 1, |b| + 1)
    requires i > 1 ==> HoldsRow(prev2, a, b, i - 2, |b| + 1)
    modifies cur
    ensures HoldsRow(cur, a, b, i, |b| + 1)
  {
    hide Osa;
    cur[0] := i;
    OsaEdge(a, b, i, 0);
    for j := 1 to |b| + 1
      invariant HoldsRow(cur, a, b, i, j)
    {
      var cost := if a[i - 1] == b[j - 1] then 0 else 1;
      var m := Min(Min(cur[j - 1] + 1, prev[j] + 1), prev[j - 1] + cost);
      if i > 1 && j > 1 && a[i - 1] == b[j - 2] && a[i - 2] == b[j - 1] {
        var t := prev2[j - 2] + 1;
        if t < m {
          m := t;
        }
      }
      OsaStep(a, b, i, j);
      cur[j] := m;
    }
  }

  method DamerauLevenshtein(a: string, b: string) returns (d: nat)
    ensures d == Distance(a, b)
  {
    hide Osa;
    var la, lb := |a|, |b|;
    if la == 0 {
      OsaEdge(a, b, 0, lb);
      return lb;
    }
    if lb == 0 {
      OsaEdge(a, b, la, 0);
      return la;
    }
    var prev2 := new int[lb + 1](_ => 0);
    var prev := new int[lb + 1](_ => 0);
    var cur := new int[lb + 1](_ => 0);
    for j := 0 to lb + 1
      invariant HoldsRow(prev, a, b, 0, j)
    {
      OsaEdge(a, b, 0, j);
      prev[j] := j;
    }
    for i := 1 to la + 1
      invariant prev2 != prev && prev != cur && cur != prev2
      invariant fresh(prev2) && fresh(prev) && fresh(cur)
      invariant prev2.Length == cur.Length == lb + 1
      invariant HoldsRow(prev, a, b, i - 1, lb + 1)
      invariant i > 1 ==> HoldsRow(prev2, a, b, i - 2, lb + 1)
    {
      FillRow(a, b, i, prev2, prev, cur);
      prev2, prev, cur := prev, cur, prev2;
    }
    d := prev[lb];
  }

  // ---------- Restricted edit scripts ----------

  /** One step of a script read from the left. No step touches a character that an earlier step
      produced, so no substring is edited twice. */
  datatype Edit = Keep | Substitute(c: char) | Insert(c: char) | Delete | Transpose

  function Cost(script: seq<Edit>): nat {
    if script == [] then 0 else (if script[0].Keep? then 0 else 1) + Cost(script[1..])
  }

  function Prepend(front: string, rest: Option<string>): Option<string> {
    match rest
    case None => None
    case Some(s) => Some(front + s)
  }

  /** The string a script turns `a` into, or None when the script does not fit `a`. */
  function Apply(script: seq<Edit>, a: string): Option<string> {
    if script == [] then
      if a == [] then Some([]) else None
    else
      match script[0]
      case Insert(c) => Prepend([c], Apply(script[1..], a))
      case Keep => if |a| < 1 then None else Prepend([a[0]], Apply(script[1..], a[1..]))
      case Substitute(c) => if |a| < 1 then None else Prepend([c], Apply(script[1..], a[1..]))
      case Delete => if |a| < 1 then None else Apply(script[1..], a[1..])
      case Transpose => if |a| < 2 then None else Prepend([a[1], a[0]], Apply(script[1..], a[2..]))
  }

  /** A cheapest way to reach (i, j) can be put in front of any script for the remaining suffixes. */
  lemma {:induction false} PrependOptimal(a: string, b: string, i: nat, j: nat, tail: seq<Edit>)
    returns (script: seq<Edit>)
    requires i <= |a| && j <= |b|
    requires Apply(tail, a[i..]) == Some(b[j..])
    ensures Apply(script, a) == Some(b)
    ensures Cost(script) == Osa(a, b, i, j) + Cost(tail)
    decreases i + j
  {
    hide Osa;
    if i > 0 && j > 0 {
      OsaStep(a, b, i, j);
    } else {
      OsaEdge(a, b, i, j);
      if j > 0 {
        OsaEdge(a, b, i, j - 1);
      } else if i > 0 {
        OsaEdge(a, b, i - 1, j);
      }
    }
    if i == 0 && j == 0 {
      script := tail;
    } else if i == 0 || (j > 0 && Osa(a, b, i, j) == Osa(a, b, i, j - 1) + 1) {
      assert b[j - 1..] == [b[j - 1]] + b[j..];
      script := PrependOptimal(a, b, i, j - 1, [Insert(b[j - 1])] + tail);
    } else if j == 0 || Osa(a, b, i, j) == Osa(a, b, i - 1, j) + 1 {
      assert a[i - 1..][1..] == a[i..];
      script := PrependOptimal(a, b, i - 1, j, [Delete] + tail);
    } else if SwapEnds(a, b, i, j) && Osa(a, b, i, j) == Osa(a, b, i - 2, j - 2) + 1 {
      assert a[i - 2..][2..] == a[i..];
      assert b[j - 2..] == [a[i - 1], a[i - 2]] + b[j..];
      script := PrependOptimal(a, b, i - 2, j - 2, [Transpose] + tail);
    } else {
      assert Osa(a, b, i, j) == Osa(a, b, i - 1, j - 1) + if a[i - 1] == b[j - 1] then 0 else 1;
      assert a[i - 1..][1..] == a[i..];
      assert b[j - 1..] == [b[j - 1]] + b[j..];
      var step := if a[i - 1] == b[j - 1] then Keep else Substitute(b[j - 1]);
      script := PrependOptimal(a, b, i - 1, j - 1, [step] + tail);
    }
  }

  /** One edit step past (i, j) raises the distance by no more than the step costs. */
  lemma OsaGrowth(a: string, b: string, i: nat, j: nat)
    requires i <= |a| && j <= |b|
    ensures j < |b| ==> Osa(a, b, i, j + 1) <= Osa(a, b, i, j) + 1
    ensures i < |a| ==> Osa(a, b, i + 1, j) <= Osa(a, b, i, j) + 1
    ensures i < |a| && j < |b| ==>
              Osa(a, b, i + 1, j + 1) <= Osa(a, b, i, j) + if a[i] == b[j] then 0 else 1
  {
    hide Osa;
    if i == 0 || j == 0 {
      OsaEdge(a, b, i, j);
    }
    assert j < |b| ==> Osa(a, b, i, j + 1) <= Osa(a, b, i, j) + 1 by {
      if j < |b| && i > 0 {
        OsaStep(a, b, i, j + 1);
      } else if j < |b| {
        OsaEdge(a, b, i, j + 1);
      }
    }
    assert i < |a| ==> Osa(a, b, i + 1, j) <= Osa(a, b, i, j) + 1 by {
      if i < |a| && j > 0 {
        OsaStep(a, b, i + 1, j);
      } else if i < |a| {
        OsaEdge(a, b, i + 1, j);
      }
    }
    if i < |a| && j < |b| {
      OsaStep(a, b, i + 1, j + 1);
    }
  }

  /** The part of a string from j on, one or two characters further. */
  lemma SuffixSplit(b: string, j: nat, front: string, t: string)
    requires j <= |b| && b[j..] == front + t
    ensures j + |front| <= |b| && b[j + |front|..] == t
    ensures forall k :: 0 <= k < |front| ==> b[j + k] == front[k]
  {
    assert forall k :: 0 <= k < |front| ==> b[j..][k] == b[j + k];
    assert b[j..][|front|..] == b[j + |front|..];
  }

  /** Running a script from (i, j) to the end costs at least what the distance still grows by. */
  lemma {:induction false} ScriptCoversGrowth(a: string, b: string, i: nat, j: nat, script: seq<Edit>)
    requires i <= |a| && j <= |b|
    requires Apply(script, a[i..]) == Some(b[j..])
    ensures Distance(a, b) <= Osa(a, b, i, j) + Cost(script)
    decreases |script|
  {
    hide Osa;
    if script != [] {
      var rest := script[1..];
      OsaGrowth(a, b, i, j);
      match script[0]
      case Insert(c) =>
        SuffixSplit(b, j, [c], Apply(rest, a[i..]).value);
        ScriptCoversGrowth(a, b, i, j + 1, rest);
      case Delete =>
        assert a[i..][1..] == a[i + 1..];
        ScriptCoversGrowth(a, b, i + 1, j, rest);
      case Transpose =>
        assert a[i..][2..] == a[i + 2..];
        SuffixSplit(b, j, [a[i + 1], a[i]], Apply(rest, a[i + 2..]).value);
        OsaStep(a, b, i + 2, j + 2);
        ScriptCoversGrowth(a, b, i + 2, j + 2, rest);
      case Keep =>
        assert a[i..][1..] == a[i + 1..];
        SuffixSplit(b, j, [a[i]], Apply(rest, a[i + 1..]).value);
        ScriptCoversGrowth(a, b, i + 1, j + 1, rest);
      case Substitute(c) =>
        assert a[i..][1..] == a[i + 1..];
        SuffixSplit(b, j, [c], Apply(rest, a[i + 1..]).value);
        ScriptCoversGrowth(a, b, i + 1, j + 1, rest);
    }
  }

  /** The distance is the least cost over all restricted edit scripts. */
  lemma DistanceIsOptimal(a: string, b: string)
    ensures exists script :: Apply(script, a) == Some(b) && Cost(script) == Distance(a, b)
    ensures forall script :: Apply(script, a) == Some(b) ==> Distance(a, b) <= Cost(script)
  {
    assert a[|a|..] == [] && b[|b|..] == [];
    var best := PrependOptimal(a, b, |a|, |b|, []);
    forall script | Apply(script, a) == Some(b)
      ensures Distance(a, b) <= Cost(script)
    {
      assert a[0..] == a && b[0..] == b;
      ScriptCoversGrowth(a, b, 0, 0, script);
    }
  }

  // ---------- What the least cost gives ----------

  lemma {:induction false} OsaSymmetric(a: string, b: string, i: nat, j: nat)
    requires i <= |a| && j <= |b|
    ensures Osa(a, b, i, j) == Osa(b, a, j, i)
    decreases i + j
  {
    hide Osa;
    if i > 0 && j > 0 {
      OsaStep(a, b, i, j);
      OsaStep(b, a, j, i);
      OsaSymmetric(a, b, i, j - 1);
      OsaSymmetric(a, b, i - 1, j);
      OsaSymmetric(a, b, i - 1, j - 1);
      if SwapEnds(a, b, i, j) {
        OsaSymmetric(a, b, i - 2, j - 2);
      }
    } else {
      OsaEdge(a, b, i, j);
      OsaEdge(b, a, j, i);
    }
  }

  lemma {:induction false} OsaBounds(a: string, b: string, i: nat, j: nat)
    requires i <= |a| && j <= |b|
    ensures Max(i, j) - Min(i, j) <= Osa(a, b, i, j) <= Max(i, j)
    decreases i + j
  {
    hide Osa;
    if i > 0 && j > 0 {
      OsaStep(a, b, i, j);
      OsaBounds(a, b, i, j - 1);
      OsaBounds(a, b, i - 1, j);
      OsaBounds(a, b, i - 1, j - 1);
      if SwapEnds(a, b, i, j) {
        OsaBounds(a, b, i - 2, j - 2);
      }
    } else {
      OsaEdge(a, b, i, j);
    }
  }

  lemma {:induction false} OsaZero(a: string, b: string, i: nat, j: nat)
    requires i <= |a| && j <= |b|
    ensures Osa(a, b, i, j) == 0 <==> a[..i] == b[..j]
    decreases i + j
  {
    hide Osa;
    if i > 0 && j > 0 {
      OsaStep(a, b, i, j);
      OsaZero(a, b, i - 1, j - 1);
      assert a[..i] == a[..i - 1] + [a[i - 1]];
      assert b[..j] == b[..j - 1] + [b[j - 1]];
      assert a[..i] == b[..j] <==> a[..i - 1] == b[..j - 1] && a[i - 1] == b[j - 1] by {
        if a[..i] == b[..j] {
          assert i == j;
          assert a[..i][i - 1] == b[..j][j - 1];
          assert a[..i][..i - 1] == b[..j][..j - 1];
        }
      }
    } else {
      OsaEdge(a, b, i, j);
    }
  }

  lemma DistanceLaws(a: string, b: string)
    ensures Distance(a, b) == Distance(b, a)
    ensures Distance(a, b) == 0 <==> a == b
    ensures Max(|a|, |b|) - Min(|a|, |b|) <= Distance(a, b) <= Max(|a|, |b|)
  {
    OsaSymmetric(a, b, |a|, |b|);
    OsaZero(a, b, |a|, |b|);
    OsaBounds(a, b, |a|, |b|);
    assert a[..|a|] == a && b[..|b|] == b;
  }

  // ---------- Similarity ----------

  function Similarity(a: string, b: string): real {
    var longest := Max(|a|, |b|);
    if longest == 0 then 1.0 else 1.0 - Distance(a, b) as real / longest as real
  }

  method DamerauSimilarity(a: string, b: string) returns (s: real)
    ensures s == Similarity(a, b)
  {
    var longest := Max(|a|, |b|);
    if longest == 0 {
      return 1.0;
    }
    var d := DamerauLevenshtein(a, b);
    s := 1.0 - d as real / longest as real;
  }

  const MATCH_THRESHOLD: real := 0.8

  lemma FractionLaws(d: nat, longest: nat)
    requires 0 < longest && d <= longest
    ensures var q := d as real / longest as real;
            0.0 <= q <= 1.0 && (q == 0.0 <==> d == 0) && (q <= 0.2 <==> 5 * d <= longest)
  {
    var x, y := d as real, longest as real;
    QuotientOrder(x, y, 0.0);
    QuotientOrder(x, y, 1.0);
    QuotientOrder(x, y, 0.2);
    assert 5.0 * x <= y <==> 5 * d <= longest;
  }

  lemma SimilarityLaws(a: string, b: string)
    ensures 0.0 <= Similarity(a, b) <= 1.0
    ensures Similarity(a, b) == 1.0 <==> a == b
    ensures Similarity(a, b) == Similarity(b, a)
    ensures Similarity(a, b) >= MATCH_THRESHOLD <==> 5 * Distance(a, b) <= Max(|a|, |b|)
  {
    hide Osa;
    DistanceLaws(a, b);
    if Max(|a|, |b|) > 0 {
      FractionLaws(Distance(a, b), Max(|a|, |b|));
    }
  }
}
