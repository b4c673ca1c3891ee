/**
 The few string operations of the Go standard library that the address engine leans on:
 splitting into fields, joining, lowering, removing spaces.
 */
module Text {

  /** The characters that Go's unicode.IsSpace accepts. */
  predicate IsSpace(c: char) {
    || '\t' <= c <= '\r' || c == ' '
    || c == '\U{85}' || c == '\U{A0}' || c == '\U{1680}'
    || '\U{2000}' <= c <= '\U{200A}'
    || c == '\U{2028}' || c == '\U{2029}' || c == '\U{202F}' || c == '\U{205F}' || c == '\U{3000}'
  }

  predicate IsDigit(c: char) {
    '0' <= c <= '9'
  }

  predicate IsLower(c: char) {
    'a' <= c <= 'z'
  }

  predicate IsDigitOnly(s: string) {
    s != "" && forall i :: 0 <= i < |s| ==> IsDigit(s[i])
  }

  ghost predicate AllSpace(s: string) {
    forall i :: 0 <= i < |s| ==> IsSpace(s[i])
  }

  /** A nonempty string without white space: what splitting into fields can return. */
  ghost predicate IsWord(w: string) {
    w != "" && forall i :: 0 <= i < |w| ==> !IsSpace(w[i])
  }

  ghost predicate AllWords(ws: seq<string>) {
    forall i :: 0 <= i < |ws| ==> IsWord(ws[i])
  }

  // ---------- Fields and Join ----------

  /** How many characters come before the first white space. */
  function WordLength(s: string): (n: nat)
    ensures n <= |s|
    ensures forall i :: 0 <= i < n ==> !IsSpace(s[i])
    ensures n < |s| ==> IsSpace(s[n])
  {
    if s == "" || IsSpace(s[0]) then 0 else 1 + WordLength(s[1..])
  }

  function Fields(s: string): (ws: seq<string>)
    ensures AllWords(ws)
    decreases |s|
  {
    if s == "" then []
    else if IsSpace(s[0]) then Fields(s[1..])
    else [s[..WordLength(s)]] + Fields(s[WordLength(s)..])
  }

  function Join(ws: seq<string>, sep: string): string {
    if |ws| == 0 then ""
    else if |ws| == 1 then ws[0]
    else ws[0] + sep + Join(ws[1..], sep)
  }

  lemma {:induction false} WordLengthAt(s: string, n: nat)
    requires n <= |s| && (forall i :: 0 <= i < n ==> !IsSpace(s[i])) && (n < |s| ==> IsSpace(s[n]))
    ensures WordLength(s) == n
  {
  }

  lemma {:induction false} FieldsOfSpace(s: string)
    requires AllSpace(s)
    ensures Fields(s) == []
  {
    if s != "" {
      FieldsOfSpace(s[1..]);
    }
  }

  lemma FieldsStep(s: string)
    ensures s == "" ==> Fields(s) == []
    ensures s != "" && IsSpace(s[0]) ==> Fields(s) == Fields(s[1..])
    ensures s != "" && !IsSpace(s[0]) ==> Fields(s) == [s[..WordLength(s)]] + Fields(s[WordLength(s)..])
  {
  }

  /** White space between two texts keeps their fields apart; how much of it does not matter. */
  lemma {:induction false} FieldsSplit(a: string, gap: string, b: string)
    requires gap != "" && AllSpace(gap)
    ensures Fields(a + gap + b) == Fields(a) + Fields(b)
    decreases |a| + |gap|
  {
    hide Fields, IsSpace;
    var s := a + gap + b;
    FieldsStep(s);
    FieldsStep(a);
    if a == "" {
      assert s[1..] == gap[1..] + b;
      if |gap| == 1 {
        assert s[1..] == b;
      } else {
        assert s[1..] == a + gap[1..] + b;
        FieldsSplit(a, gap[1..], b);
      }
    } else if IsSpace(a[0]) {
      assert s[1..] == a[1..] + gap + b;
      FieldsSplit(a[1..], gap, b);
    } else {
      var n := WordLength(a);
      WordLengthAt(s, n);
      assert s[..n] == a[..n];
      assert s[n..] == a[n..] + gap + b;
      FieldsSplit(a[n..], gap, b);
      assert [a[..n]] + (Fields(a[n..]) + Fields(b)) == ([a[..n]] + Fields(a[n..])) + Fields(b);
    }
  }

  lemma {:induction false} FieldsOfWord(w: string)
    requires IsWord(w)
    ensures Fields(w) == [w]
  {
    WordLengthAt(w, |w|);
    assert w[..|w|] == w && w[|w|..] == "";
  }

  /** Splitting undoes joining. */
  lemma {:induction false} FieldsOfJoin(ws: seq<string>)
    requires AllWords(ws)
    ensures Fields(Join(ws, " ")) == ws
  {
    if |ws| == 1 {
      FieldsOfWord(ws[0]);
    } else if |ws| > 1 {
      FieldsOfJoin(ws[1..]);
      FieldsOfWord(ws[0]);
      FieldsSplit(ws[0], " ", Join(ws[1..], " "));
    }
  }

  // ---------- Lowering ----------

  /** strings.ToLower, exact on every character whose lower form is an ASCII letter; the two
      non-ASCII capitals with that property are U+0130 and U+212A. */
  function LowerChar(c: char): char {
    if 'A' <= c <= 'Z' then ((c as int) + 32) as char
    else if c == '\U{130}' then 'i'
    else if c == '\U{212A}' then 'k'
    else c
  }

  function ToLower(s: string): (r: string)
    ensures |r| == |s|
    ensures forall i :: 0 <= i < |s| ==> r[i] == LowerChar(s[i])
  {
    if s == "" then "" else [LowerChar(s[0])] + ToLower(s[1..])
  }

  lemma ToLowerConcat(a: string, b: string)
    ensures ToLower(a + b) == ToLower(a) + ToLower(b)
  {
    hide LowerChar;
  }

  lemma ToLowerTwice(s: string)
    ensures ToLower(ToLower(s)) == ToLower(s)
  {
    assert forall i :: 0 <= i < |s| ==> LowerChar(LowerChar(s[i])) == LowerChar(s[i]);
  }

  // ---------- Removing spaces ----------

  function WithoutSpaces(s: string): (r: string)
    ensures |r| <= |s|
    ensures ' ' !in r
  {
    if s == "" then "" else (if s[0] == ' ' then "" else [s[0]]) + WithoutSpaces(s[1..])
  }

  /** compactSpaces: lowered, with every space character removed. */
  function Compact(s: string): string {
    WithoutSpaces(ToLower(s))
  }

  lemma {:induction false} WithoutSpacesNone(s: string)
    requires ' ' !in s
    ensures WithoutSpaces(s) == s
  {
    if s != "" {
      assert s[0] in s;
      WithoutSpacesNone(s[1..]);
      assert [s[0]] + s[1..] == s;
    }
  }

  lemma {:induction false} WithoutSpacesConcat(a: string, b: string)
    ensures WithoutSpaces(a + b) == WithoutSpaces(a) + WithoutSpaces(b)
  {
    if a == "" {
      assert a + b == b;
    } else {
      assert (a + b)[1..] == a[1..] + b && (a + b)[0] == a[0];
      WithoutSpacesConcat(a[1..], b);
      var first := if a[0] == ' ' then "" else [a[0]];
      var rest, tail := WithoutSpaces(a[1..]), WithoutSpaces(b);
      assert first + (rest + tail) == (first + rest) + tail;
    }
  }

  function LowerAll(ws: seq<string>): (r: seq<string>)
    ensures |r| == |ws| && forall i :: 0 <= i < |ws| ==> r[i] == ToLower(ws[i])
  {
    if ws == [] then [] else [ToLower(ws[0])] + LowerAll(ws[1..])
  }

  lemma CompactConcat(a: string, b: string)
    ensures Compact(a + b) == Compact(a) + Compact(b)
  {
    hide ToLower, WithoutSpaces;
    ToLowerConcat(a, b);
    WithoutSpacesConcat(ToLower(a), ToLower(b));
  }

  lemma CompactOfOne(w: string)
    requires ' ' !in w
    ensures Compact(w) == ToLower(w)
  {
    assert forall i :: 0 <= i < |w| ==> LowerChar(w[i]) != ' ';
    WithoutSpacesNone(ToLower(w));
  }

  /** The compact form of words with single spaces between them: the lowered words one after another. */
  lemma {:induction false} CompactOfWords(ws: seq<string>)
    requires forall i :: 0 <= i < |ws| ==> ' ' !in ws[i]
    ensures Compact(Join(ws, " ")) == Join(LowerAll(ws), "")
  {
    hide Compact;
    if |ws| <= 1 {
      CompactOfOne(if ws == [] then "" else ws[0]);
    } else {
      CompactOfWords(ws[1..]);
      CompactOfOne(ws[0]);
      CompactOfSpace();
      CompactConcat(ws[0] + " ", Join(ws[1..], " "));
      CompactConcat(ws[0], " ");
    }
  }

  lemma CompactOfSpace()
    ensures Compact(" ") == ""
  {
    assert ToLower(" ") == " ";
    assert WithoutSpaces("") == "";
  }

  // ---------- Separators ----------

  /** Text before the first separator is determined, when it holds no separator itself. */
  lemma SeparatorSplits(a: string, x: string, b: string, y: string, sep: char)
    requires sep !in a && sep !in b
    requires a + [sep] + x == b + [sep] + y
    ensures a == b && x == y
  {
    var s, t := a + [sep] + x, b + [sep] + y;
    assert s[|a|] == sep && t[|b|] == sep;
    assert |a| == |b|;
    assert s[..|a|] == a && t[..|b|] == b;
    assert s[|a| + 1..] == x && t[|b| + 1..] == y;
  }
}
