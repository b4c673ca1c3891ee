/**
 Decimal text of 64-bit integers, as the candidate keys use it: the backward fill of a 20-byte
 buffer, and why the keys built from it are injective.
 */
module Decimal {
  import Text

  const MIN_INT64: int := -0x8000_0000_0000_0000
  const MAX_INT64: int := 0x7FFF_FFFF_FFFF_FFFF

  type Int64 = n: int | MIN_INT64 <= n <= MAX_INT64

  /** Negation with the wrap-around of the machine: the least value is its own negation. */
  function Negate(n: Int64): Int64 {
    if n == MIN_INT64 then n else -n
  }

  function DigitChar(d: nat): (c: char)
    requires d < 10
    ensures Text.IsDigit(c)
  {
    (('0' as int) + d) as char
  }

  // ---------- The decimal form ----------

  /** The digits of a positive number, none for zero. */
  function Digits(n: nat): (s: string)
    ensures forall i :: 0 <= i < |s| ==> Text.IsDigit(s[i])
    ensures s == "" <==> n == 0
  {
    if n == 0 then "" else Digits(n / 10) + [DigitChar(n % 10)]
  }

  /** What Itoa returns. */
  function Itoa(n: Int64): string {
    if n == 0 then "0"
    else if n > 0 then Digits(n)
    else if n == MIN_INT64 then "-"
    else "-" + Digits(-n)
  }

  function Pow10(k: nat): nat {
    if k == 0 then 1 else 10 * Pow10(k - 1)
  }

  lemma DigitsStep(n: nat)
    requires n > 0
    ensures Digits(n) == Digits(n / 10) + [DigitChar(n % 10)]
  {
  }

  lemma Pow10Step(n: nat, k: nat)
    requires 0 < n < Pow10(k)
    ensures k > 0 && n / 10 < Pow10(k - 1)
  {
  }

  lemma TwentyBytesSuffice()
    ensures MAX_INT64 < Pow10(19)
  {
    assert Pow10(4) == 10_000;
    assert Pow10(8) == 100_000_000;
    assert Pow10(12) == 1_000_000_000_000;
    assert Pow10(16) == 10_000_000_000_000_000;
    assert Pow10(19) == 10_000_000_000_000_000_000;
  }

  /** The buffer fill: every write stays inside the 20 bytes, for every int64. */
  method FormatInt(n: Int64) returns (s: string)
    ensures s == Itoa(n)
  {
    hide Digits, Pow10;
    if n == 0 {
      return "0";
    }
    var buf := new char[20](_ => '\0');
    var i := buf.Length;
    var neg := n < 0;
    var m := n;
    if neg {
      m := Negate(m);
    }
    TwentyBytesSuffice();
    ghost var start := m;
    while m > 0
      invariant m <= start
      invariant 1 <= i <= 20
      invariant m > 0 ==> m < Pow10(i - 1)
      invariant start > 0 ==> m >= 0 && Digits(start) == Digits(m) + buf[i..]
      invariant start <= 0 ==> i == 20 && m == start
    {
      DigitsStep(m);
      Pow10Step(m, i - 1);
      i := i - 1;
      buf[i] := DigitChar(m % 10);
      assert buf[i..] == [DigitChar(m % 10)] + buf[i + 1..];
      m := m / 10;
    }
    if neg {
      i := i - 1;
      buf[i] := '-';
      assert buf[i..] == "-" + buf[i + 1..];
    }
    s := buf[i..];
  }

  // ---------- Reading it back ----------

  function DigitsValue(s: string): int {
    if s == "" then 0 else 10 * DigitsValue(s[..|s| - 1]) + (s[|s| - 1] as int - '0' as int)
  }

  function Value(s: string): int {
    if s != "" && s[0] == '-' then -DigitsValue(s[1..]) else DigitsValue(s)
  }

  lemma {:induction false} DigitsReadBack(n: nat)
    ensures DigitsValue(Digits(n)) == n
  {
    if n > 0 {
      DigitsReadBack(n / 10);
      var s := Digits(n);
      assert s[..|s| - 1] == Digits(n / 10);
    }
  }

  lemma ItoaSign(n: Int64)
    ensures Itoa(n) != "" && (Itoa(n)[0] == '-' <==> n < 0)
    ensures Itoa(n) == "-" <==> n == MIN_INT64
  {
    if n > 0 {
      assert Text.IsDigit(Digits(n)[0]);
    } else if n < 0 && n != MIN_INT64 {
      assert Itoa(n)[1..] == Digits(-n) != "";
    }
  }

  lemma LeastReadsBack()
    ensures Value("-") == 0
  {
    assert "-"[1..] == "";
  }

  lemma ZeroReadsBack()
    ensures Value("0") == 0
  {
    var zero := "0";
    assert zero[..|zero| - 1] == "";
  }

  /** Itoa writes the number's decimal form, except for the least int64. */
  lemma ItoaReadsBack(n: Int64)
    ensures Value(Itoa(n)) == n <==> n != MIN_INT64
  {
    hide DigitsValue, Digits;
    ItoaSign(n);
    if n > 0 {
      DigitsReadBack(n);
    } else if n < 0 && n != MIN_INT64 {
      DigitsReadBack(-n);
      assert Itoa(n)[1..] == Digits(-n);
    } else if n == 0 {
      ZeroReadsBack();
    } else {
      LeastReadsBack();
    }
  }

  /** No two int64 values share a text: even the least one has a text of its own. */
  lemma ItoaInjective(m: Int64, n: Int64)
    requires Itoa(m) == Itoa(n)
    ensures m == n
  {
    ItoaReadsBack(m);
    ItoaReadsBack(n);
    ItoaSign(m);
    ItoaSign(n);
  }

  lemma ItoaHasNoColon(n: Int64)
    ensures ':' !in Itoa(n)
  {
  }

  // ---------- Keys ----------

  /** The ids joined by colons. */
  function Key(ids: seq<Int64>): string {
    if |ids| == 0 then ""
    else if |ids| == 1 then Itoa(ids[0])
    else Itoa(ids[0]) + ":" + Key(ids[1..])
  }

  method FormatKey(ids: seq<Int64>) returns (s: string)
    ensures s == Key(ids)
  {
    s := "";
    for i := 0 to |ids|
      invariant s == Key(ids[..i])
    {
      KeySnoc(ids[..i], ids[i]);
      assert ids[..i + 1] == ids[..i] + [ids[i]];
      if i > 0 {
        s := s + ":";
      }
      var t := FormatInt(ids[i]);
      s := s + t;
    }
    assert ids[..|ids|] == ids;
  }

  lemma {:induction false} KeySnoc(ids: seq<Int64>, n: Int64)
    ensures Key(ids + [n]) == Key(ids) + (if ids == [] then "" else ":") + Itoa(n)
  {
    if ids != [] {
      assert (ids + [n])[1..] == ids[1..] + [n];
      KeySnoc(ids[1..], n);
      if |ids| > 1 {
        assert Key(ids) == Itoa(ids[0]) + ":" + Key(ids[1..]);
      }
    }
  }

  lemma {:induction false} KeyInjective(xs: seq<Int64>, ys: seq<Int64>)
    requires |xs| == |ys| && Key(xs) == Key(ys)
    ensures xs == ys
  {
    if |xs| == 1 {
      ItoaInjective(xs[0], ys[0]);
    } else if |xs| > 1 {
      ItoaHasNoColon(xs[0]);
      ItoaHasNoColon(ys[0]);
      Text.SeparatorSplits(Itoa(xs[0]), Key(xs[1..]), Itoa(ys[0]), Key(ys[1..]), ':');
      ItoaInjective(xs[0], ys[0]);
      KeyInjective(xs[1..], ys[1..]);
      assert xs == [xs[0]] + xs[1..] && ys == [ys[0]] + ys[1..];
    }
  }

  // ---------- Dictionary keys ----------

  /** The key "source:text" of a dictionary entry. */
  function SourceKey(source: Int64, text: string): string {
    Itoa(source) + ":" + text
  }

  lemma SourceKeyInjective(s: Int64, text: string, s': Int64, text': string)
    requires SourceKey(s, text) == SourceKey(s', text')
    ensures s == s' && text == text'
  {
    ItoaHasNoColon(s);
    ItoaHasNoColon(s');
    Text.SeparatorSplits(Itoa(s), text, Itoa(s'), text', ':');
    ItoaInjective(s, s');
  }
}
