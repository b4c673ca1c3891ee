/**
 Greedy leftmost-longest segmentation. Phrase matching, whitespace-free matching and contextual
 recovery all scan a word list this way; they differ only in which word ranges match and in how
 long a match may be.
 */
module Segmentation {

  /** A range of word positions, start included, end excluded. */
  datatype Span = Span(start: nat, end: nat)

  /** Do the words from the first position up to the second form a match? */
  type Match = (int, int) -> bool

  /** The furthest end a match starting at i may have. */
  function Reach(i: nat, hi: nat, cap: nat): (e: nat)
    ensures i <= hi ==> i <= e <= hi && e - i <= cap && (e == hi || e - i == cap)
  {
    if i + cap <= hi then i + cap else hi
  }

  // ---------- What a segmentation is ----------

  ghost predicate NoMatchBeyond(m: Match, i: nat, from: nat, to: nat) {
    forall j :: from < j <= to ==> !m(i, j)
  }

  ghost predicate Covered(spans: seq<Span>, i: nat) {
    exists k :: 0 <= k < |spans| && spans[k].start <= i < spans[k].end
  }

  /** The span is a match, and no longer match starts where it starts. */
  ghost predicate LongestMatch(m: Match, s: Span, lo: nat, hi: nat, cap: nat) {
    && lo <= s.start < s.end <= Reach(s.start, hi, cap)
    && m(s.start, s.end)
    && NoMatchBeyond(m, s.start, s.end, Reach(s.start, hi, cap))
  }

  ghost predicate AllLongest(m: Match, spans: seq<Span>, lo: nat, hi: nat, cap: nat) {
    forall k :: 0 <= k < |spans| ==> LongestMatch(m, spans[k], lo, hi, cap)
  }

  ghost predicate DisjointInOrder(spans: seq<Span>) {
    forall k, l :: 0 <= k < l < |spans| ==> spans[k].end <= spans[l].start
  }

  ghost predicate NoneMissed(m: Match, spans: seq<Span>, lo: nat, hi: nat, cap: nat) {
    forall i: nat :: lo <= i < hi && !Covered(spans, i) ==> NoMatchBeyond(m, i, i, Reach(i, hi, cap))
  }

  /** The declarative form: disjoint spans in increasing order, each the longest match at its
      start, and no match starts at a position that no span covers. */
  ghost predicate LeftmostLongest(m: Match, spans: seq<Span>, lo: nat, hi: nat, cap: nat) {
    AllLongest(m, spans, lo, hi, cap) && DisjointInOrder(spans) && NoneMissed(m, spans, lo, hi, cap)
  }

  // ---------- The scan ----------

  /** Tries the ends e, e - 1, ..., i + 1; returns i when none gives a match. */
  function LongestEnd(m: Match, i: nat, e: nat): (r: nat)
    requires i <= e
    ensures i <= r <= e
    ensures r > i ==> m(i, r)
    ensures forall j :: r < j <= e ==> !m(i, j)
  {
    if e == i then i else if m(i, e) then e else LongestEnd(m, i, e - 1)
  }

  lemma LongestEndIs(m: Match, i: nat, e: nat, r: nat)
    requires i <= r <= e && (r > i ==> m(i, r)) && NoMatchBeyond(m, i, r, e)
    ensures LongestEnd(m, i, e) == r
  {
  }

  lemma LongestEndStep(m: Match, i: nat, e: nat)
    requires i <= e
    ensures e == i ==> LongestEnd(m, i, e) == i
    ensures e > i ==> LongestEnd(m, i, e) == if m(i, e) then e else LongestEnd(m, i, e - 1)
  {
  }

  function Segment(m: Match, i: nat, hi: nat, cap: nat): seq<Span>
    requires i <= hi
    decreases hi - i
  {
    if i == hi then []
    else
      var e := LongestEnd(m, i, Reach(i, hi, cap));
      if e == i then Segment(m, i + 1, hi, cap) else [Span(i, e)] + Segment(m, e, hi, cap)
  }

  lemma SegmentEnd(m: Match, hi: nat, cap: nat)
    ensures Segment(m, hi, hi, cap) == []
  {
  }

  lemma SegmentStep(m: Match, i: nat, hi: nat, cap: nat)
    requires i < hi
    ensures var e := LongestEnd(m, i, Reach(i, hi, cap));
            Segment(m, i, hi, cap)
            == if e == i then Segment(m, i + 1, hi, cap) else [Span(i, e)] + Segment(m, e, hi, cap)
  {
  }

  lemma CoveredByRest(first: Span, rest: seq<Span>, i: nat)
    ensures Covered([first] + rest, i) <==> first.start <= i < first.end || Covered(rest, i)
  {
    var spans := [first] + rest;
    if Covered(rest, i) {
      var k :| 0 <= k < |rest| && rest[k].start <= i < rest[k].end;
      assert spans[k + 1] == rest[k];
    }
    if first.start <= i < first.end {
      assert spans[0] == first;
    }
    if Covered(spans, i) {
      var k :| 0 <= k < |spans| && spans[k].start <= i < spans[k].end;
      assert k > 0 ==> spans[k] == rest[k - 1];
    }
  }

  /** A longest match at lo goes in front of a segmentation of what follows it. */
  lemma PrependSpan(m: Match, first: Span, rest: seq<Span>, lo: nat, hi: nat, cap: nat)
    requires lo < hi && first.start == lo
    requires LongestMatch(m, first, lo, hi, cap)
    requires LeftmostLongest(m, rest, first.end, hi, cap)
    ensures LeftmostLongest(m, [first] + rest, lo, hi, cap)
  {
    var spans := [first] + rest;
    forall k | 0 < k < |spans|
      ensures LongestMatch(m, spans[k], lo, hi, cap)
      ensures spans[k] == rest[k - 1] && first.end <= spans[k].start
    {
      assert LongestMatch(m, rest[k - 1], first.end, hi, cap);
    }
    assert AllLongest(m, spans, lo, hi, cap);
    assert DisjointInOrder(spans);
    forall i: nat | lo <= i < hi && !Covered(spans, i)
      ensures NoMatchBeyond(m, i, i, Reach(i, hi, cap))
    {
      CoveredByRest(first, rest, i);
    }
  }

  /** The scan computes a leftmost-longest segmentation. */
  lemma {:induction false} SegmentIsLeftmostLongest(m: Match, lo: nat, hi: nat, cap: nat)
    requires lo <= hi
    ensures LeftmostLongest(m, Segment(m, lo, hi, cap), lo, hi, cap)
    decreases hi - lo
  {
    if lo < hi {
      var e := LongestEnd(m, lo, Reach(lo, hi, cap));
      if e == lo {
        SegmentIsLeftmostLongest(m, lo + 1, hi, cap);
        SkipPosition(m, Segment(m, lo + 1, hi, cap), lo, hi, cap);
      } else {
        SegmentIsLeftmostLongest(m, e, hi, cap);
        PrependSpan(m, Span(lo, e), Segment(m, e, hi, cap), lo, hi, cap);
      }
    }
  }

  lemma SkipPosition(m: Match, spans: seq<Span>, lo: nat, hi: nat, cap: nat)
    requires lo < hi && LeftmostLongest(m, spans, lo + 1, hi, cap)
    requires NoMatchBeyond(m, lo, lo, Reach(lo, hi, cap))
    ensures LeftmostLongest(m, spans, lo, hi, cap)
  {
    forall k | 0 <= k < |spans|
      ensures LongestMatch(m, spans[k], lo, hi, cap)
    {
      assert LongestMatch(m, spans[k], lo + 1, hi, cap);
    }
  }

  /** There is no other one: the declarative form determines every span. */
  lemma {:induction false} LeftmostLongestUnique(m: Match, spans: seq<Span>, lo: nat, hi: nat, cap: nat)
    requires lo <= hi
    requires LeftmostLongest(m, spans, lo, hi, cap)
    ensures spans == Segment(m, lo, hi, cap)
    decreases hi - lo
  {
    hide LeftmostLongest, Segment, LongestEnd;
    if lo == hi {
      NoRoom(m, spans, lo, cap);
      SegmentEnd(m, hi, cap);
    } else {
      SegmentStep(m, lo, hi, cap);
      var e := LongestEnd(m, lo, Reach(lo, hi, cap));
      if e == lo {
        StartsLater(m, spans, lo, hi, cap);
        LeftmostLongestUnique(m, spans, lo + 1, hi, cap);
      } else {
        FirstSpan(m, spans, lo, hi, cap);
        LeftmostLongestUnique(m, spans[1..], e, hi, cap);
        assert spans == [spans[0]] + spans[1..];
      }
    }
  }

  lemma NoRoom(m: Match, spans: seq<Span>, hi: nat, cap: nat)
    requires LeftmostLongest(m, spans, hi, hi, cap)
    ensures spans == []
  {
    assert |spans| > 0 ==> LongestMatch(m, spans[0], hi, hi, cap);
  }

  lemma StartsLater(m: Match, spans: seq<Span>, lo: nat, hi: nat, cap: nat)
    requires lo < hi && LeftmostLongest(m, spans, lo, hi, cap)
    requires LongestEnd(m, lo, Reach(lo, hi, cap)) == lo
    ensures LeftmostLongest(m, spans, lo + 1, hi, cap)
  {
    forall k | 0 <= k < |spans|
      ensures LongestMatch(m, spans[k], lo + 1, hi, cap)
    {
      assert LongestMatch(m, spans[k], lo, hi, cap);
    }
  }

  lemma FirstSpan(m: Match, spans: seq<Span>, lo: nat, hi: nat, cap: nat)
    requires lo < hi && LeftmostLongest(m, spans, lo, hi, cap)
    requires LongestEnd(m, lo, Reach(lo, hi, cap)) > lo
    ensures var e := LongestEnd(m, lo, Reach(lo, hi, cap));
            |spans| > 0 && spans[0] == Span(lo, e) && LeftmostLongest(m, spans[1..], e, hi, cap)
  {
    assert Covered(spans, lo);
    var k :| 0 <= k < |spans| && spans[k].start <= lo < spans[k].end;
    assert LongestMatch(m, spans[k], lo, hi, cap);
    assert LongestMatch(m, spans[0], lo, hi, cap);
    assert k == 0;
    LongestEndIs(m, lo, Reach(lo, hi, cap), spans[0].end);
    DropFirst(m, spans, lo, hi, cap);
  }

  lemma DropFirst(m: Match, spans: seq<Span>, lo: nat, hi: nat, cap: nat)
    requires lo < hi && LeftmostLongest(m, spans, lo, hi, cap) && |spans| > 0
    ensures LeftmostLongest(m, spans[1..], spans[0].end, hi, cap)
  {
    var e, rest := spans[0].end, spans[1..];
    assert spans == [spans[0]] + rest;
    assert LongestMatch(m, spans[0], lo, hi, cap);
    forall k | 0 <= k < |rest|
      ensures LongestMatch(m, rest[k], e, hi, cap)
    {
      assert rest[k] == spans[k + 1];
      assert LongestMatch(m, spans[k + 1], lo, hi, cap);
    }
    forall i: nat | e <= i < hi && !Covered(rest, i)
      ensures NoMatchBeyond(m, i, i, Reach(i, hi, cap))
    {
      CoveredByRest(spans[0], rest, i);
    }
  }
}
