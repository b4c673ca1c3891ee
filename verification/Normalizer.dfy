/**
 Name normalization: lowering, dropping administrative words, stripping everything but letters,
 and carrying five-digit postal codes over to the end.
 */
module Normalizer {
  import opened Text

  const ADMIN_WORDS: set<string> := {
    "kabupaten", "kab.", "kab", "kota", "kecamatan", "kec.", "kec", "kelurahan", "kel.", "kel",
    "provinsi", "prov.", "prov", "administrasi", "kepulauan"
  }

  predicate IsAdmin(w: string) {
    w in ADMIN_WORDS
  }

  // ---------- The library steps ----------

  /** Every backslash followed by an n becomes a space. */
  function ReplaceEscapedNewlines(s: string): string {
    if |s| < 2 then s
    else if s[0] == '\\' && s[1] == 'n' then " " + ReplaceEscapedNewlines(s[2..])
    else [s[0]] + ReplaceEscapedNewlines(s[1..])
  }

  function TrimLeft(s: string): string {
    if s != "" && IsSpace(s[0]) then TrimLeft(s[1..]) else s
  }

  function TrimRight(s: string): string {
    if s != "" && IsSpace(s[|s| - 1]) then TrimRight(s[..|s| - 1]) else s
  }

  function TrimSpace(s: string): string {
    TrimRight(TrimLeft(s))
  }

  predicate IsLetter(c: char) {
    'a' <= c <= 'z' || 'A' <= c <= 'Z'
  }

  /** The regular expression class \s, which is narrower than unicode.IsSpace. */
  predicate IsRegexSpace(c: char) {
    c == '\t' || c == '\n' || c == '\U{0C}' || c == '\r' || c == ' '
  }

  predicate IsWordChar(c: char) {
    IsLetter(c) || IsDigit(c) || c == '_'
  }

  /** Removes every character outside [a-zA-Z\s]. */
  function StripPunctuation(s: string): string {
    if s == "" then ""
    else (if IsLetter(s[0]) || IsRegexSpace(s[0]) then [s[0]] else "") + StripPunctuation(s[1..])
  }

  /** Replaces every run of \s by one space. */
  function CollapseSpaces(s: string): string {
    if s == "" then ""
    else if !IsRegexSpace(s[0]) then [s[0]] + CollapseSpaces(s[1..])
    else if |s| > 1 && IsRegexSpace(s[1]) then CollapseSpaces(s[1..])
    else " " + CollapseSpaces(s[1..])
  }

  /** Does \b\d{5}\b match at position i? */
  predicate CodeAt(s: string, i: nat) {
    && i + 5 <= |s|
    && (forall k :: i <= k < i + 5 ==> IsDigit(s[k]))
    && (i > 0 ==> !IsWordChar(s[i - 1]))
    && (i + 5 < |s| ==> !IsWordChar(s[i + 5]))
  }

  /** All matches of \b\d{5}\b from position i on, left to right. */
  function FindCodes(s: string, i: nat): seq<string>
    decreases |s| - i
  {
    if i >= |s| then []
    else if CodeAt(s, i) then [s[i..i + 5]] + FindCodes(s, i + 5)
    else FindCodes(s, i + 1)
  }

  // ---------- Normalize ----------

  function DropAdmin(ws: seq<string>): (r: seq<string>)
    ensures |r| <= |ws|
    ensures forall w :: w in r <==> w in ws && !IsAdmin(w)
  {
    if ws == [] then []
    else (if IsAdmin(ws[0]) then [] else [ws[0]]) + DropAdmin(ws[1..])
  }

  lemma DropAdminStep(ws: seq<string>)
    ensures DropAdmin(ws) == if ws == [] then [] else (if IsAdmin(ws[0]) then [] else [ws[0]]) + DropAdmin(ws[1..])
  {
  }

  /** The words that survive the administrative filter. */
  function KeptWords(name: string): seq<string> {
    DropAdmin(Fields(ToLower(TrimSpace(ReplaceEscapedNewlines(name)))))
  }

  function Normalize(name: string): string {
    var joined := Join(KeptWords(name), " ");
    var codes := FindCodes(joined, 0);
    var letters := TrimSpace(CollapseSpaces(StripPunctuation(joined)));
    if codes == [] then letters
    else letters + (if letters == "" then "" else " ") + Join(codes, " ")
  }

  method NormalizeName(name: string) returns (result: string)
    ensures result == Normalize(name)
  {
    hide IsAdmin, Fields, FindCodes, CollapseSpaces, StripPunctuation, TrimSpace, ToLower, ReplaceEscapedNewlines,
         DropAdmin;
    var lower := ToLower(TrimSpace(ReplaceEscapedNewlines(name)));
    var words := Fields(lower);
    var filtered: seq<string> := [];
    for i := 0 to |words|
      invariant DropAdmin(words) == filtered + DropAdmin(words[i..])
    {
      DropAdminStep(words[i..]);
      assert words[i..][1..] == words[i + 1..];
      if !IsAdmin(words[i]) {
        filtered := filtered + [words[i]];
      }
    }
    DropAdminStep([]);
    assert words[|words|..] == [] && DropAdmin(words) == filtered;
    var joined := Join(filtered, " ");
    var postalCodes := FindCodes(joined, 0);
    result := TrimSpace(CollapseSpaces(StripPunctuation(joined)));
    if |postalCodes| > 0 {
      if result != "" {
        result := result + " ";
      }
      result := result + Join(postalCodes, " ");
    }
  }

  // ---------- What it computes ----------

  /** The ASCII letters of a word. */
  function Letters(w: string): (r: string)
    ensures forall i :: 0 <= i < |r| ==> IsLetter(r[i])
  {
    if w == "" then "" else (if IsLetter(w[0]) then [w[0]] else "") + Letters(w[1..])
  }

  /** The words that still have letters, reduced to them. */
  function NameWords(ws: seq<string>): (r: seq<string>)
    ensures forall i :: 0 <= i < |r| ==> r[i] != "" && forall k :: 0 <= k < |r[i]| ==> IsLetter(r[i][k])
  {
    if ws == [] then []
    else (if Letters(ws[0]) == "" then [] else [Letters(ws[0])]) + NameWords(ws[1..])
  }

  predicate IsCode(w: string) {
    |w| == 5 && IsDigitOnly(w)
  }

  predicate IsNameWord(w: string) {
    w != "" && forall i :: 0 <= i < |w| ==> IsLower(w[i])
  }

  ghost predicate AllNames(ws: seq<string>) {
    forall i :: 0 <= i < |ws| ==> IsNameWord(ws[i])
  }

  ghost predicate AllCodes(ws: seq<string>) {
    forall i :: 0 <= i < |ws| ==> IsCode(ws[i])
  }

  ghost predicate NoCapital(s: string) {
    forall i :: 0 <= i < |s| ==> !('A' <= s[i] <= 'Z')
  }

  ghost function Codes(name: string): seq<string> {
    FindCodes(Join(KeptWords(name), " "), 0)
  }

  // ----- Trimming and collapsing are splitting and joining -----

  lemma {:induction false} FieldsOfTrimRight(s: string)
    ensures Fields(TrimRight(s)) == Fields(s)
    decreases |s|
  {
    if s != "" && IsSpace(s[|s| - 1]) {
      var front, gap := s[..|s| - 1], [s[|s| - 1]];
      FieldsOfTrimRight(front);
      FieldsSplit(front, gap, "");
      assert front + gap + "" == s;
    }
  }

  lemma {:induction false} FieldsOfTrimLeft(s: string)
    ensures Fields(TrimLeft(s)) == Fields(s)
  {
    if s != "" && IsSpace(s[0]) {
      FieldsOfTrimLeft(s[1..]);
    }
  }

  /** All white space of the text is of the kind that \s matches. */
  ghost predicate PlainSpace(s: string) {
    forall i :: 0 <= i < |s| && IsSpace(s[i]) ==> IsRegexSpace(s[i])
  }

  lemma {:induction false} CollapseKeepsFields(s: string)
    requires PlainSpace(s)
    ensures Fields(CollapseSpaces(s)) == Fields(s)
    decreases |s|
  {
    if s != "" {
      if IsSpace(s[0]) {
        CollapseKeepsFields(s[1..]);
        if !(|s| > 1 && IsRegexSpace(s[1])) {
          assert CollapseSpaces(s)[1..] == CollapseSpaces(s[1..]);
        }
      } else {
        var n := WordLength(s);
        CollapseWord(s, n);
        CollapseKeepsFields(s[n..]);
        var c := CollapseSpaces(s);
        CollapseStart(s[n..]);
        assert forall i :: 0 <= i < n ==> c[i] == s[..n][i];
        WordLengthAt(c, n);
        assert c[..n] == s[..n] && c[n..] == CollapseSpaces(s[n..]);
      }
    }
  }

  lemma {:induction false} CollapseWord(s: string, n: nat)
    requires n <= |s| && forall i :: 0 <= i < n ==> !IsSpace(s[i])
    ensures CollapseSpaces(s) == s[..n] + CollapseSpaces(s[n..])
  {
    if n > 0 {
      CollapseWord(s[1..], n - 1);
      assert s[..n] == [s[0]] + s[1..][..n - 1];
      assert s[1..][n - 1..] == s[n..];
    } else {
      assert s[0..] == s;
    }
  }

  lemma {:induction false} CollapseStart(s: string)
    requires s == "" || IsRegexSpace(s[0])
    ensures CollapseSpaces(s) == "" || IsSpace(CollapseSpaces(s)[0])
    ensures s == "" <==> CollapseSpaces(s) == ""
    decreases |s|
  {
    if |s| > 1 && IsRegexSpace(s[1]) {
      CollapseStart(s[1..]);
    }
  }

  /** White space is only ever one space between two words. */
  ghost predicate SingleSpaced(s: string) {
    && (forall i :: 0 <= i < |s| && IsSpace(s[i]) ==> s[i] == ' ')
    && (forall i :: 0 <= i < |s| - 1 && IsSpace(s[i]) ==> !IsSpace(s[i + 1]))
  }

  lemma {:induction false} CollapseSingleSpaced(s: string)
    requires PlainSpace(s)
    ensures SingleSpaced(CollapseSpaces(s))
    ensures s != "" && !IsSpace(s[0]) ==> CollapseSpaces(s) != "" && !IsSpace(CollapseSpaces(s)[0])
    decreases |s|
  {
    if s != "" {
      CollapseSingleSpaced(s[1..]);
    }
  }

  /** A single-spaced text without white space at its ends is its fields joined. */
  lemma {:induction false} JoinOfFields(s: string)
    requires SingleSpaced(s)
    requires s != "" ==> !IsSpace(s[0]) && !IsSpace(s[|s| - 1])
    ensures Join(Fields(s), " ") == s
    decreases |s|
  {
    hide Fields, Join;
    var n := WordLength(s);
    if s == "" {
      FieldsOfSpace(s);
      assert Join([], " ") == "" by {
        JoinEmpty([]);
      }
    } else if n == |s| {
      FieldsOfWord(s);
      JoinSingle(s);
    } else {
      var first, rest := s[..n], s[n + 1..];
      assert s[n] == ' ' && s[|s| - 1] != s[n];
      assert s == first + " " + rest;
      assert rest[0] == s[n + 1] && rest[|rest| - 1] == s[|s| - 1];
      assert SingleSpaced(rest);
      JoinOfFields(rest);
      FieldsSplit(first, " ", rest);
      FieldsOfWord(first);
      JoinEmpty(Fields(rest));
      JoinConcat([first], Fields(rest));
      JoinSingle(first);
    }
  }

  lemma JoinSingle(w: string)
    ensures Join([w], " ") == w
  {
  }

  lemma {:induction false} TrimEnds(s: string)
    requires SingleSpaced(s)
    ensures SingleSpaced(TrimSpace(s))
    ensures TrimSpace(s) != "" ==> !IsSpace(TrimSpace(s)[0]) && !IsSpace(TrimSpace(s)[|TrimSpace(s)| - 1])
  {
    TrimLeftEnd(s);
    TrimRightEnd(TrimLeft(s));
  }

  lemma {:induction false} TrimLeftEnd(s: string)
    requires SingleSpaced(s)
    ensures SingleSpaced(TrimLeft(s))
    ensures TrimLeft(s) != "" ==> !IsSpace(TrimLeft(s)[0])
  {
    if s != "" && IsSpace(s[0]) {
      assert SingleSpaced(s[1..]);
      TrimLeftEnd(s[1..]);
    }
  }

  lemma {:induction false} TrimRightEnd(s: string)
    requires SingleSpaced(s)
    requires s != "" ==> !IsSpace(s[0])
    ensures SingleSpaced(TrimRight(s))
    ensures TrimRight(s) != "" ==> !IsSpace(TrimRight(s)[0]) && !IsSpace(TrimRight(s)[|TrimRight(s)| - 1])
    decreases |s|
  {
    if s != "" && IsSpace(s[|s| - 1]) {
      assert SingleSpaced(s[..|s| - 1]);
      TrimRightEnd(s[..|s| - 1]);
    }
  }

  /** Collapsing and trimming amount to splitting into fields and joining them again. */
  lemma TrimCollapse(s: string)
    requires PlainSpace(s)
    ensures TrimSpace(CollapseSpaces(s)) == Join(Fields(s), " ")
  {
    var c := CollapseSpaces(s);
    CollapseSingleSpaced(s);
    TrimEnds(c);
    JoinOfFields(TrimSpace(c));
    FieldsOfTrimLeft(c);
    FieldsOfTrimRight(TrimLeft(c));
    CollapseKeepsFields(s);
  }

  // ----- Stripping punctuation, word by word -----

  lemma {:induction false} StripConcat(a: string, b: string)
    ensures StripPunctuation(a + b) == StripPunctuation(a) + StripPunctuation(b)
  {
    hide IsLetter, IsRegexSpace;
    if a == "" {
      assert a + b == b;
    } else {
      assert (a + b)[1..] == a[1..] + b && (a + b)[0] == a[0];
      StripConcat(a[1..], b);
      var first := if IsLetter(a[0]) || IsRegexSpace(a[0]) then [a[0]] else "";
      var rest, tail := StripPunctuation(a[1..]), StripPunctuation(b);
      assert first + (rest + tail) == (first + rest) + tail;
    }
  }

  lemma {:induction false} StripWord(w: string)
    requires forall i :: 0 <= i < |w| ==> !IsSpace(w[i])
    ensures StripPunctuation(w) == Letters(w)
  {
    if w != "" {
      StripWord(w[1..]);
    }
  }

  lemma KeptWordsAreWords(name: string)
    ensures AllWords(KeptWords(name))
    ensures forall i :: 0 <= i < |KeptWords(name)| ==> NoCapital(KeptWords(name)[i])
  {
    hide IsAdmin;
    var lower := ToLower(TrimSpace(ReplaceEscapedNewlines(name)));
    FieldsAreParts(lower);
    forall i | 0 <= i < |KeptWords(name)|
      ensures IsWord(KeptWords(name)[i]) && NoCapital(KeptWords(name)[i])
    {
      assert KeptWords(name)[i] in Fields(lower);
    }
  }

  lemma FieldsOfLetters(w: string)
    ensures Fields(Letters(w)) == if Letters(w) == "" then [] else [Letters(w)]
  {
    if Letters(w) != "" {
      FieldsOfWord(Letters(w));
    }
  }

  /** One more word in front of a joined text. */
  lemma StripFirst(first: string, tail: string)
    requires IsWord(first)
    ensures Fields(StripPunctuation(first + " " + tail)) == Fields(Letters(first)) + Fields(StripPunctuation(tail))
    ensures PlainSpace(StripPunctuation(tail)) ==> PlainSpace(StripPunctuation(first + " " + tail))
  {
    hide Fields, Letters;
    StripWord(first);
    StripConcat(first + " ", tail);
    StripConcat(first, " ");
    assert StripPunctuation(" ") == " ";
    FieldsSplit(Letters(first), " ", StripPunctuation(tail));
  }

  lemma {:induction false} StripWords(ws: seq<string>)
    requires AllWords(ws)
    ensures Fields(StripPunctuation(Join(ws, " "))) == NameWords(ws)
    ensures PlainSpace(StripPunctuation(Join(ws, " ")))
  {
    hide Fields, Letters, StripPunctuation;
    if ws == [] {
      StripWord("");
      FieldsOfLetters("");
      assert Letters("") == "" by {
        LettersOfCode("");
      }
    } else {
      var first, rest := ws[0], ws[1..];
      StripWords(rest);
      FieldsOfLetters(first);
      if |ws| > 1 {
        StripFirst(first, Join(rest, " "));
      } else {
        StripWord(first);
        assert NameWords(rest) == [];
      }
    }
  }

  lemma {:induction false} JoinConcat(xs: seq<string>, ys: seq<string>)
    requires xs != [] && ys != []
    ensures Join(xs + ys, " ") == Join(xs, " ") + " " + Join(ys, " ")
  {
    if |xs| > 1 {
      JoinConcat(xs[1..], ys);
      assert (xs + ys)[1..] == xs[1..] + ys;
    } else {
      assert (xs + ys)[1..] == ys;
    }
  }

  lemma JoinEmpty(ws: seq<string>)
    requires AllWords(ws)
    ensures Join(ws, " ") == "" <==> ws == []
  {
    FieldsOfJoin(ws);
  }

  lemma {:induction false} FoundCodesAreCodes(s: string, i: nat)
    ensures AllCodes(FindCodes(s, i))
    decreases |s| - i
  {
    if i < |s| {
      if CodeAt(s, i) {
        FoundCodesAreCodes(s, i + 5);
      } else {
        FoundCodesAreCodes(s, i + 1);
      }
    }
  }

  /** The declarative form: the letters of the kept words, then the postal codes, single spaces
      between them. */
  lemma NormalForm(name: string)
    ensures Normalize(name) == Join(NameWords(KeptWords(name)) + Codes(name), " ")
  {
    var ws := KeptWords(name);
    var names, codes := NameWords(ws), Codes(name);
    KeptWordsAreWords(name);
    StripWords(ws);
    TrimCollapse(StripPunctuation(Join(ws, " ")));
    FoundCodesAreCodes(Join(ws, " "), 0);
    JoinEmpty(names);
    if codes == [] {
      assert names + codes == names;
    } else if names == [] {
      assert names + codes == codes;
    } else {
      JoinConcat(names, codes);
    }
  }

  lemma {:induction false} LettersOfLower(w: string)
    requires NoCapital(w)
    ensures forall i :: 0 <= i < |Letters(w)| ==> IsLower(Letters(w)[i])
  {
    if w != "" {
      LettersOfLower(w[1..]);
    }
  }

  lemma {:induction false} FieldsAreParts(s: string)
    requires NoCapital(s)
    ensures forall k :: 0 <= k < |Fields(s)| ==> NoCapital(Fields(s)[k])
    decreases |s|
  {
    if s != "" {
      if IsSpace(s[0]) {
        FieldsAreParts(s[1..]);
      } else {
        FieldsAreParts(s[WordLength(s)..]);
      }
    }
  }

  lemma {:induction false} NameWordsOfLower(ws: seq<string>)
    requires forall k :: 0 <= k < |ws| ==> NoCapital(ws[k])
    ensures AllNames(NameWords(ws))
  {
    if ws != [] {
      LettersOfLower(ws[0]);
      NameWordsOfLower(ws[1..]);
    }
  }

  /** The shape of every normalized name: lowercase letter words, then five-digit codes. */
  lemma NormalizedShape(name: string) returns (names: seq<string>, codes: seq<string>)
    ensures Normalize(name) == Join(names + codes, " ")
    ensures names == NameWords(KeptWords(name)) && codes == Codes(name)
    ensures AllNames(names)
    ensures AllCodes(codes)
    ensures Fields(Normalize(name)) == names + codes
  {
    names, codes := NameWords(KeptWords(name)), Codes(name);
    hide Fields, KeptWords, FindCodes, NameWords;
    NormalForm(name);
    KeptWordsAreWords(name);
    NameWordsOfLower(KeptWords(name));
    FoundCodesAreCodes(Join(KeptWords(name), " "), 0);
    assert AllWords(names + codes);
    FieldsOfJoin(names + codes);
  }

  // ---------- Normalizing twice ----------

  /** Codes are found on either side of a space independently. */
  lemma {:induction false} FindCodesShift(a: string, b: string, i: nat)
    requires i <= |b|
    ensures FindCodes(a + " " + b, |a| + 1 + i) == FindCodes(b, i)
    decreases |b| - i
  {
    var s := a + " " + b;
    if i < |b| {
      CodeAtShift(a, b, i);
      if CodeAt(b, i) {
        assert s[|a| + 1 + i..|a| + 1 + i + 5] == b[i..i + 5];
        FindCodesShift(a, b, i + 5);
      } else {
        FindCodesShift(a, b, i + 1);
      }
    }
  }

  lemma CodeAtShift(a: string, b: string, i: nat)
    requires i < |b|
    ensures CodeAt(a + " " + b, |a| + 1 + i) <==> CodeAt(b, i)
  {
    var s := a + " " + b;
    var off := |a| + 1;
    assert forall k :: 0 <= k < |b| ==> s[off + k] == b[k];
    assert s[|a|] == ' ';
    if CodeAt(s, off + i) {
      forall k | i <= k < i + 5 ensures IsDigit(b[k]) {
        assert IsDigit(s[off + k]);
      }
    }
    if CodeAt(b, i) {
      forall k | off + i <= k < off + i + 5 ensures IsDigit(s[k]) {
        assert s[k] == b[k - off];
      }
    }
  }

  lemma CodeAtFront(a: string, b: string, i: nat)
    requires i < |a|
    ensures CodeAt(a + " " + b, i) <==> CodeAt(a, i)
  {
    var s := a + " " + b;
    assert forall k :: 0 <= k < |a| ==> s[k] == a[k];
    assert s[|a|] == ' ';
    assert !IsDigit(s[|a|]) && !IsWordChar(s[|a|]);
  }

  lemma {:induction false} FindCodesSplit(a: string, b: string, i: nat)
    requires i <= |a|
    ensures FindCodes(a + " " + b, i) == FindCodes(a, i) + FindCodes(b, 0)
    decreases |a| - i
  {
    var s := a + " " + b;
    if i == |a| {
      assert s[i] == ' ';
      assert !CodeAt(s, i);
      FindCodesShift(a, b, 0);
    } else {
      CodeAtFront(a, b, i);
      if CodeAt(a, i) {
        assert s[i..i + 5] == a[i..i + 5];
        FindCodesSplit(a, b, i + 5);
      } else {
        FindCodesSplit(a, b, i + 1);
      }
    }
  }

  lemma {:induction false} NoCodesInLetters(w: string, i: nat)
    requires forall k :: 0 <= k < |w| ==> !IsDigit(w[k])
    ensures FindCodes(w, i) == []
    decreases |w| - i
  {
    if i < |w| {
      assert !IsDigit(w[i]);
      NoCodesInLetters(w, i + 1);
    }
  }

  /** What a word of a normalized name contributes to the codes. */
  lemma CodesOfWord(w: string)
    requires IsNameWord(w) || IsCode(w)
    ensures FindCodes(w, 0) == if IsCode(w) then [w] else []
  {
    if IsCode(w) {
      assert CodeAt(w, 0);
      assert w[0..5] == w;
    } else {
      NoCodesInLetters(w, 0);
    }
  }

  function OnlyCodes(ws: seq<string>): seq<string> {
    if ws == [] then [] else (if IsCode(ws[0]) then [ws[0]] else []) + OnlyCodes(ws[1..])
  }

  lemma {:induction false} CodesOfJoin(ws: seq<string>)
    requires forall i :: 0 <= i < |ws| ==> IsNameWord(ws[i]) || IsCode(ws[i])
    ensures FindCodes(Join(ws, " "), 0) == OnlyCodes(ws)
  {
    if |ws| > 0 {
      CodesOfWord(ws[0]);
      CodesOfJoin(ws[1..]);
      if |ws| > 1 {
        FindCodesSplit(ws[0], Join(ws[1..], " "), 0);
      }
    }
  }

  lemma {:induction false} OnlyCodesOf(names: seq<string>, codes: seq<string>)
    requires AllNames(names)
    requires AllCodes(codes)
    ensures OnlyCodes(names + codes) == codes
  {
    if names != [] {
      assert IsLower(names[0][0]);
      assert !IsCode(names[0]);
      assert (names + codes)[1..] == names[1..] + codes;
      OnlyCodesOf(names[1..], codes);
    } else {
      assert names + codes == codes;
      if codes != [] {
        OnlyCodesOf([], codes[1..]);
        assert [] + codes[1..] == codes[1..];
      }
    }
  }

  lemma {:induction false} LettersOfNameWord(w: string)
    requires forall i :: 0 <= i < |w| ==> IsLower(w[i])
    ensures Letters(w) == w
  {
    if w != "" {
      LettersOfNameWord(w[1..]);
    }
  }

  lemma {:induction false} LettersOfCode(w: string)
    requires forall i :: 0 <= i < |w| ==> IsDigit(w[i])
    ensures Letters(w) == ""
  {
    if w != "" {
      LettersOfCode(w[1..]);
    }
  }

  lemma {:induction false} NameWordsOf(names: seq<string>, codes: seq<string>)
    requires AllNames(names)
    requires AllCodes(codes)
    ensures NameWords(names + codes) == names
  {
    if names != [] {
      LettersOfNameWord(names[0]);
      assert (names + codes)[1..] == names[1..] + codes;
      NameWordsOf(names[1..], codes);
    } else if codes != [] {
      LettersOfCode(codes[0]);
      assert (names + codes)[1..] == [] + codes[1..];
      NameWordsOf([], codes[1..]);
    }
  }

  predicate IsPlain(c: char) {
    IsLower(c) || IsDigit(c) || c == ' '
  }

  lemma {:induction false} PlainUnchanged(s: string)
    requires forall i :: 0 <= i < |s| ==> IsPlain(s[i])
    ensures ReplaceEscapedNewlines(s) == s && ToLower(s) == s
  {
    if s != "" {
      PlainUnchanged(s[1..]);
    }
  }

  lemma {:induction false} JoinPlain(ws: seq<string>)
    requires forall i :: 0 <= i < |ws| ==> IsNameWord(ws[i]) || IsCode(ws[i])
    ensures forall i :: 0 <= i < |Join(ws, " ")| ==> IsPlain(Join(ws, " ")[i])
  {
    if |ws| > 1 {
      JoinPlain(ws[1..]);
    }
  }

  /** The words of a text whose characters normalization leaves alone. */
  lemma KeptWordsOfJoin(ws: seq<string>)
    requires forall i :: 0 <= i < |ws| ==> IsNameWord(ws[i]) || IsCode(ws[i])
    ensures KeptWords(Join(ws, " ")) == DropAdmin(ws)
  {
    hide IsAdmin, DropAdmin, Fields, Join, TrimSpace, ToLower, ReplaceEscapedNewlines, IsNameWord, IsCode;
    var s := Join(ws, " ");
    JoinPlain(ws);
    TrimPlain(s);
    PlainWordsAreWords(ws);
    FieldsOfJoin(ws);
  }

  lemma PlainWordsAreWords(ws: seq<string>)
    requires forall i :: 0 <= i < |ws| ==> IsNameWord(ws[i]) || IsCode(ws[i])
    ensures AllWords(ws)
  {
    forall i | 0 <= i < |ws|
      ensures IsWord(ws[i])
    {
    }
  }

  lemma TrimPlain(s: string)
    requires forall i :: 0 <= i < |s| ==> IsPlain(s[i])
    ensures Fields(ToLower(TrimSpace(ReplaceEscapedNewlines(s)))) == Fields(s)
  {
    hide Fields, ReplaceEscapedNewlines, TrimLeft, TrimRight;
    PlainUnchanged(s);
    FieldsOfTrimLeft(s);
    FieldsOfTrimRight(TrimLeft(s));
    TrimIsPart(s);
    PlainUnchanged(TrimSpace(s));
  }

  lemma {:induction false} TrimLeftIsPart(s: string)
    ensures forall c :: c in TrimLeft(s) ==> c in s
  {
    if s != "" && IsSpace(s[0]) {
      TrimLeftIsPart(s[1..]);
    }
  }

  lemma {:induction false} TrimRightIsPart(s: string)
    ensures forall c :: c in TrimRight(s) ==> c in s
    decreases |s|
  {
    if s != "" && IsSpace(s[|s| - 1]) {
      TrimRightIsPart(s[..|s| - 1]);
    }
  }

  lemma TrimIsPart(s: string)
    ensures forall i :: 0 <= i < |TrimSpace(s)| ==> TrimSpace(s)[i] in s
  {
    TrimLeftIsPart(s);
    TrimRightIsPart(TrimLeft(s));
  }

  lemma CodeIsNotAdmin(w: string)
    requires IsCode(w)
    ensures !IsAdmin(w)
  {
    assert IsDigit(w[0]);
  }

  lemma {:induction false} CodesAreKept(codes: seq<string>)
    requires AllCodes(codes)
    ensures DropAdmin(codes) == codes
  {
    hide IsAdmin, DropAdmin;
    DropAdminStep(codes);
    if codes != [] {
      CodeIsNotAdmin(codes[0]);
      CodesAreKept(codes[1..]);
    }
  }

  lemma {:induction false} DropAdminSplit(xs: seq<string>, ys: seq<string>)
    ensures DropAdmin(xs + ys) == DropAdmin(xs) + DropAdmin(ys)
  {
    hide IsAdmin, DropAdmin;
    DropAdminStep(xs);
    DropAdminStep(xs + ys);
    if xs != [] {
      assert (xs + ys)[1..] == xs[1..] + ys;
      DropAdminSplit(xs[1..], ys);
      var first := if IsAdmin(xs[0]) then [] else [xs[0]];
      assert first + (DropAdmin(xs[1..]) + DropAdmin(ys)) == (first + DropAdmin(xs[1..])) + DropAdmin(ys);
    } else {
      assert xs + ys == ys;
    }
  }

  lemma {:induction false} DropAdminNone(ws: seq<string>)
    ensures DropAdmin(ws) == ws <==> forall w :: w in ws ==> !IsAdmin(w)
    ensures DropAdmin(ws) != ws ==> |DropAdmin(ws)| < |ws|
  {
    hide IsAdmin;
    if ws != [] {
      DropAdminNone(ws[1..]);
    }
  }

  lemma DropAdminKeepsNames(names: seq<string>)
    requires AllNames(names)
    ensures AllNames(DropAdmin(names))
  {
    hide IsAdmin;
    var kept := DropAdmin(names);
    forall i | 0 <= i < |kept|
      ensures IsNameWord(kept[i])
    {
      assert kept[i] in kept;
    }
  }

  /** A second pass only drops administrative words that the first pass uncovered. */
  lemma NormalizeAgain(names: seq<string>, codes: seq<string>)
    requires AllNames(names) && AllCodes(codes)
    ensures Normalize(Join(names + codes, " ")) == Join(DropAdmin(names) + codes, " ")
  {
    hide IsAdmin, Fields, Join, FindCodes, NameWords, KeptWords, Normalize, DropAdmin;
    var s := Join(names + codes, " ");
    var kept := DropAdmin(names) + codes;
    KeptWordsOfJoin(names + codes);
    DropAdminSplit(names, codes);
    CodesAreKept(codes);
    NormalForm(s);
    DropAdminKeepsNames(names);
    CodesOfJoin(kept);
    OnlyCodesOf(DropAdmin(names), codes);
    NameWordsOf(DropAdmin(names), codes);
  }

  lemma JoinInjective(xs: seq<string>, ys: seq<string>)
    requires AllWords(xs) && AllWords(ys) && Join(xs, " ") == Join(ys, " ")
    ensures xs == ys
  {
    FieldsOfJoin(xs);
    FieldsOfJoin(ys);
  }

  /** Normalizing again changes nothing exactly when no kept word of the input hides an
      administrative word behind punctuation ("kab," does). */
  lemma NormalizeIdempotent(name: string)
    ensures Normalize(Normalize(name)) == Normalize(name)
       <==> forall w :: w in KeptWords(name) ==> !IsAdmin(Letters(w))
  {
    hide IsAdmin, Fields, Join, FindCodes, NameWords, KeptWords, Normalize, DropAdmin, Letters;
    var names, codes := NormalizedShape(name);
    NormalizeAgain(names, codes);
    DropAdminNone(names);
    DropAdminKeepsNames(names);
    var again := DropAdmin(names);
    if Join(again + codes, " ") == Join(names + codes, " ") {
      JoinInjective(again + codes, names + codes);
      assert |again| == |names|;
    }
    NameWordsMembers(KeptWords(name));
    EmptyIsNotAdmin();
  }

  lemma EmptyIsNotAdmin()
    ensures !IsAdmin("")
  {
  }

  lemma {:induction false} NameWordsMembers(ws: seq<string>)
    ensures forall w :: w in ws && Letters(w) != "" ==> Letters(w) in NameWords(ws)
    ensures forall v :: v in NameWords(ws) ==> exists w :: w in ws && Letters(w) == v
  {
    if ws != [] {
      NameWordsMembers(ws[1..]);
      forall v | v in NameWords(ws)
        ensures exists w :: w in ws && Letters(w) == v
      {
        if v == Letters(ws[0]) {
          assert ws[0] in ws;
        } else {
          assert v in NameWords(ws[1..]);
          var w :| w in ws[1..] && Letters(w) == v;
          assert w in ws;
        }
      }
    }
  }

  /** A name that two passes normalize further than one: "kab, bandung". */
  lemma NormalizeNotIdempotent()
    ensures var name := "kab," + " " + "bandung";
            Normalize(Normalize(name)) != Normalize(name)
  {
    hide KeptWords, Normalize, IsAdmin, Letters;
    NormalizeIdempotent("kab," + " " + "bandung");
    HiddenAdminWord();
    KeptInExample();
  }

  lemma {:induction false} NoEscapes(s: string)
    requires '\\' !in s
    ensures ReplaceEscapedNewlines(s) == s
  {
    if |s| > 1 {
      NoEscapes(s[1..]);
    }
  }

  lemma TrimNothing(s: string)
    requires s != "" && !IsSpace(s[0]) && !IsSpace(s[|s| - 1])
    ensures TrimSpace(s) == s
  {
  }

  lemma LowerNothing(s: string)
    requires forall i :: 0 <= i < |s| ==> LowerChar(s[i]) == s[i]
    ensures ToLower(s) == s
  {
  }

  predicate Untouched(w: string) {
    w != "" && '\\' !in w && forall i :: 0 <= i < |w| ==> LowerChar(w[i]) == w[i] && !IsSpace(w[i])
  }

  lemma KeptOfTwo(a: string, b: string)
    requires Untouched(a) && Untouched(b)
    ensures KeptWords(a + " " + b) == DropAdmin([a, b])
  {
    hide IsAdmin, DropAdmin, ReplaceEscapedNewlines, ToLower, TrimSpace, Fields, Join;
    var s := a + " " + b;
    NoEscapes(s);
    TrimNothing(s);
    LowerNothing(s);
    JoinTwo(a, b);
    FieldsOfJoin([a, b]);
  }

  lemma KeptInExample()
    ensures "kab," in KeptWords("kab," + " " + "bandung")
  {
    hide IsAdmin, KeptWords;
    var words := ["kab,", "bandung"];
    KeptOfTwo("kab,", "bandung");
    HiddenAdminWord();
    assert words[0] in words;
  }

  lemma JoinTwo(a: string, b: string)
    ensures Join([a, b], " ") == a + " " + b
  {
    assert [a, b][1..] == [b];
  }

  lemma HiddenAdminWord()
    ensures IsAdmin(Letters("kab,")) && !IsAdmin("kab,")
  {
    assert Letters("kab,") == "kab";
  }

  // ---------- What counts as a word break and as a code ----------

  lemma ReplaceStep(s: string)
    ensures |s| < 2 ==> ReplaceEscapedNewlines(s) == s
    ensures |s| >= 2 && s[0] == '\\' && s[1] == 'n' ==> ReplaceEscapedNewlines(s) == " " + ReplaceEscapedNewlines(s[2..])
    ensures |s| >= 2 && !(s[0] == '\\' && s[1] == 'n') ==> ReplaceEscapedNewlines(s) == [s[0]] + ReplaceEscapedNewlines(s[1..])
  {
  }

  lemma {:induction false} EscapedNewlineIsSpace(a: string, b: string)
    ensures ReplaceEscapedNewlines(a + "\\n" + b) == ReplaceEscapedNewlines(a) + " " + ReplaceEscapedNewlines(b)
    decreases |a|
  {
    hide ReplaceEscapedNewlines;
    var s, tail := a + "\\n" + b, " " + ReplaceEscapedNewlines(b);
    ReplaceStep(s);
    ReplaceStep(a);
    if a == "" {
      assert s[0] == '\\' && s[1] == 'n' && s[2..] == b;
    } else {
      assert s[0] == a[0] && s[1] == if |a| >= 2 then a[1] else '\\';
      if |a| >= 2 && a[0] == '\\' && a[1] == 'n' {
        assert s[2..] == a[2..] + "\\n" + b;
        EscapedNewlineIsSpace(a[2..], b);
        assert " " + (ReplaceEscapedNewlines(a[2..]) + tail) == (" " + ReplaceEscapedNewlines(a[2..])) + tail;
      } else {
        assert s[1..] == a[1..] + "\\n" + b;
        EscapedNewlineIsSpace(a[1..], b);
        ReplaceStep(a[1..]);
        assert |a| == 1 ==> a == [a[0]] + a[1..];
        assert [a[0]] + (ReplaceEscapedNewlines(a[1..]) + tail) == ([a[0]] + ReplaceEscapedNewlines(a[1..])) + tail;
      }
    }
  }

  lemma FieldsOfTrimmed(s: string)
    ensures Fields(TrimSpace(s)) == Fields(s)
  {
    FieldsOfTrimLeft(s);
    FieldsOfTrimRight(TrimLeft(s));
  }

  lemma LowerKeepsSpace(s: string)
    ensures forall i :: 0 <= i < |s| ==> (IsSpace(ToLower(s)[i]) <==> IsSpace(s[i]))
  {
    hide IsSpace, LowerChar;
    forall i | 0 <= i < |s|
      ensures IsSpace(ToLower(s)[i]) <==> IsSpace(s[i])
    {
      LowerCharKeepsSpace(s[i]);
    }
  }

  lemma LowerCharKeepsSpace(c: char)
    ensures IsSpace(LowerChar(c)) <==> IsSpace(c)
  {
  }

  lemma {:induction false} LowerOfTrimLeft(s: string)
    ensures ToLower(TrimLeft(s)) == TrimLeft(ToLower(s))
  {
    if s != "" {
      LowerKeepsSpace(s);
      assert ToLower(s)[1..] == ToLower(s[1..]);
      LowerOfTrimLeft(s[1..]);
    }
  }

  lemma {:induction false} LowerOfTrimRight(s: string)
    ensures ToLower(TrimRight(s)) == TrimRight(ToLower(s))
    decreases |s|
  {
    if s != "" {
      LowerKeepsSpace(s);
      assert ToLower(s)[..|s| - 1] == ToLower(s[..|s| - 1]);
      LowerOfTrimRight(s[..|s| - 1]);
    }
  }

  /** The kept words are the lowered words of the text, administrative words left out. */
  lemma KeptWordsAre(name: string)
    ensures KeptWords(name) == DropAdmin(Fields(ToLower(ReplaceEscapedNewlines(name))))
  {
    hide Fields, ToLower, TrimLeft, TrimRight, DropAdmin;
    var s := ReplaceEscapedNewlines(name);
    LowerOfTrimLeft(s);
    LowerOfTrimRight(TrimLeft(s));
    FieldsOfTrimmed(ToLower(s));
  }

  /** Which words are kept: all but the fifteen administrative ones. */
  lemma KeptWordsMembers(name: string)
    ensures forall w :: w in KeptWords(name) <==>
              && w in Fields(ToLower(ReplaceEscapedNewlines(name)))
              && w != "kabupaten" && w != "kab." && w != "kab" && w != "kota"
              && w != "kecamatan" && w != "kec." && w != "kec"
              && w != "kelurahan" && w != "kel." && w != "kel"
              && w != "provinsi" && w != "prov." && w != "prov"
              && w != "administrasi" && w != "kepulauan"
  {
    hide Fields, ToLower, ReplaceEscapedNewlines;
    KeptWordsAre(name);
  }

  /** A space, and an escaped newline, keep the words of the two sides apart. */
  lemma EscapedNewlineSeparates(a: string, b: string)
    ensures KeptWords(a + "\\n" + b) == KeptWords(a) + KeptWords(b)
  {
    hide Fields, ToLower, DropAdmin, ReplaceEscapedNewlines;
    var x, y := ReplaceEscapedNewlines(a), ReplaceEscapedNewlines(b);
    EscapedNewlineIsSpace(a, b);
    KeptWordsAre(a);
    KeptWordsAre(b);
    KeptWordsAre(a + "\\n" + b);
    LowerOfGap(x, y);
    FieldsSplit(ToLower(x), " ", ToLower(y));
    DropAdminSplit(Fields(ToLower(x)), Fields(ToLower(y)));
  }

  lemma LowerOfGap(x: string, y: string)
    ensures ToLower(x + " " + y) == ToLower(x) + " " + ToLower(y)
  {
    hide ToLower;
    ToLowerConcat(x + " ", y);
    ToLowerConcat(x, " ");
    assert ToLower(" ") == " " by {
      LowerOfOneSpace();
    }
  }

  lemma LowerOfOneSpace()
    ensures ToLower(" ") == " "
  {
  }

  /** Letters, digits and underscores only. */
  predicate Unpunctuated(w: string) {
    forall i :: 0 <= i < |w| ==> 'a' <= w[i] <= 'z' || 'A' <= w[i] <= 'Z' || '0' <= w[i] <= '9' || w[i] == '_'
  }

  lemma {:induction false} NoCodeInside(w: string, i: nat)
    requires Unpunctuated(w) && (i > 0 || |w| != 5 || !IsDigitOnly(w))
    ensures FindCodes(w, i) == []
    decreases |w| - i
  {
    if i < |w| {
      assert i > 0 ==> IsWordChar(w[i - 1]);
      assert i + 5 < |w| ==> IsWordChar(w[i + 5]);
      NoCodeInside(w, i + 1);
    }
  }

  lemma CodesOfPlainWord(w: string)
    requires Unpunctuated(w)
    ensures FindCodes(w, 0) == if |w| == 5 && IsDigitOnly(w) then [w] else []
  {
    if |w| == 5 && IsDigitOnly(w) {
      assert CodeAt(w, 0) && w[0..5] == w;
    } else {
      NoCodeInside(w, 0);
    }
  }

  lemma {:induction false} CodesOfPlainWords(ws: seq<string>)
    requires forall i :: 0 <= i < |ws| ==> Unpunctuated(ws[i])
    ensures FindCodes(Join(ws, " "), 0) == OnlyCodes(ws)
  {
    if |ws| > 0 {
      hide FindCodes, Unpunctuated;
      CodesOfPlainWord(ws[0]);
      CodesOfPlainWords(ws[1..]);
      if |ws| > 1 {
        FindCodesSplit(ws[0], Join(ws[1..], " "), 0);
      } else {
        assert OnlyCodes(ws[1..]) == [];
      }
    } else {
      assert FindCodes("", 0) == [];
    }
  }

  /** When no kept word has punctuation, the codes are exactly the kept words of five digits, in order:
      four or six digits, or digits beside letters, make none. */
  lemma CodesAreFiveDigitWords(name: string)
    requires forall i :: 0 <= i < |KeptWords(name)| ==> Unpunctuated(KeptWords(name)[i])
    ensures Codes(name) == OnlyCodes(KeptWords(name))
  {
    hide KeptWords, FindCodes, Unpunctuated;
    CodesOfPlainWords(KeptWords(name));
  }
}
