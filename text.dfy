/**
 * The Python string operations the token pipeline is built from:
 * `str.split()` without arguments, `" ".join(...)`, `str(n)` for a
 * non-negative integer and `int(s)` for a string.
 */
module Text {
  import opened Wrappers

  /** Python's `str.isspace` on one character. */
  predicate IsSpace(c: char)
  {
    || c == ' ' || ('\t' <= c <= '\r') || ('\U{1c}' <= c <= '\U{1f}')
    || c == '\U{85}' || c == '\U{a0}' || c == '\U{1680}'
    || ('\U{2000}' <= c <= '\U{200a}') || c == '\U{2028}' || c == '\U{2029}'
    || c == '\U{202f}' || c == '\U{205f}' || c == '\U{3000}'
  }

  /** A token as `split()` can produce it: non-empty, no whitespace. */
  predicate IsWord(w: string)
  {
    |w| > 0 && forall i :: 0 <= i < |w| ==> !IsSpace(w[i])
  }

  /** Length of the run of non-whitespace characters that starts `s`. */
  function WordLen(s: string): (n: nat)
    ensures n <= |s|
    ensures forall i :: 0 <= i < n ==> !IsSpace(s[i])
    ensures n < |s| ==> IsSpace(s[n])
  {
    if s == [] || IsSpace(s[0]) then 0 else 1 + WordLen(s[1..])
  }

  /** `s.split()`: the maximal runs of non-whitespace characters, in order. */
  function Split(s: string): (ws: seq<string>)
    ensures forall i :: 0 <= i < |ws| ==> IsWord(ws[i])
    decreases |s|
  {
    if s == [] then []
    else if IsSpace(s[0]) then Split(s[1..])
    else
      var n := WordLen(s);
      [s[..n]] + Split(s[n..])
  }

  /** `" ".join(ws)`. */
  function Join(ws: seq<string>): string
  {
    if |ws| == 0 then ""
    else if |ws| == 1 then ws[0]
    else ws[0] + " " + Join(ws[1..])
  }

  lemma {:induction false} WordLenAppend(a: string, b: string)
    requires WordLen(a) < |a| || b == [] || IsSpace(b[0])
    ensures WordLen(a + b) == WordLen(a)
    decreases |a|
  {
    if a == [] {
      assert a + b == b;
    } else if IsSpace(a[0]) {
    } else {
      assert (a + b)[1..] == a[1..] + b;
      WordLenAppend(a[1..], b);
    }
  }

  lemma AppendEmpty<T>(x: seq<T>, y: seq<T>, z: seq<T>)
    requires y == []
    ensures x + y + z == x + z
  {
  }

  lemma AppendAssoc<T>(x: seq<T>, y: seq<T>, z: seq<T>)
    ensures (x + y) + z == x + (y + z)
  {
  }

  /** Leading whitespace is skipped, with or without a tail. */
  lemma SplitLeadingSpace(a: string, b: string)
    requires a != [] && IsSpace(a[0])
    ensures Split(a + b) == Split(a[1..] + b)
  {
    assert (a + b)[1..] == a[1..] + b;
  }

  /** A leading word of `a` stays a word of its own when `b` follows across a whitespace seam. */
  lemma SplitLeadingWord(a: string, b: string)
    requires a != [] && !IsSpace(a[0])
    requires b == [] || IsSpace(a[|a| - 1]) || IsSpace(b[0])
    ensures Split(a + b) == [a[..WordLen(a)]] + Split(a[WordLen(a)..] + b)
  {
    var n := WordLen(a);
    WordLenAppend(a, b);
    assert (a + b)[..n] == a[..n];
    assert (a + b)[n..] == a[n..] + b;
  }

  /** Splitting distributes over a concatenation whose seam is whitespace. */
  lemma {:induction false} SplitAppend(a: string, b: string)
    requires a == [] || b == [] || IsSpace(a[|a| - 1]) || IsSpace(b[0])
    ensures Split(a + b) == Split(a) + Split(b)
    decreases |a|
  {
    if a == [] {
      assert a + b == b;
    } else if IsSpace(a[0]) {
      SplitLeadingSpace(a, b);
      SplitAppend(a[1..], b);
    } else {
      var n := WordLen(a);
      SplitLeadingWord(a, b);
      SplitAppend(a[n..], b);
      assert Split(a) == [a[..n]] + Split(a[n..]);
      AppendAssoc([a[..n]], Split(a[n..]), Split(b));
    }
  }

  lemma SplitWord(w: string)
    requires IsWord(w)
    ensures Split(w) == [w]
  {
    assert WordLen(w) == |w|;
    assert w[..|w|] == w;
  }

  /** Whitespace alone splits into nothing. */
  lemma SplitSpace()
    ensures Split(" ") == []
  {
  }

  /** `" ".join` followed by `split()` gives the tokens back. */
  lemma {:induction false} SplitJoin(ws: seq<string>)
    requires forall i :: 0 <= i < |ws| ==> IsWord(ws[i])
    ensures Split(Join(ws)) == ws
  {
    if |ws| == 0 {
    } else if |ws| == 1 {
      SplitWord(ws[0]);
    } else {
      SplitWord(ws[0]);
      SplitSpace();
      SplitAppend(ws[0], " ");
      SplitAppend(ws[0] + " ", Join(ws[1..]));
      SplitJoin(ws[1..]);
      assert Join(ws) == (ws[0] + " ") + Join(ws[1..]);
      assert ws == [ws[0]] + ws[1..];
    }
  }

  /** Dropping one trailing whitespace character does not change the tokens. */
  lemma SplitDropLast(s: string)
    requires |s| > 0 && IsSpace(s[|s| - 1])
    ensures Split(s[..|s| - 1]) == Split(s)
  {
    var t, c := s[..|s| - 1], [s[|s| - 1]];
    assert Split(c) == [] by {
      assert c[1..] == [];
    }
    assert Split(t + c) == Split(t) + Split(c) by {
      SplitAppend(t, c);
    }
    assert s == t + c;
  }

  // ---------------------------------------------------------------- numbers

  predicate IsDigit(c: char)
  {
    '0' <= c <= '9'
  }

  function DigitChar(d: nat): (c: char)
    requires d < 10
    ensures IsDigit(c)
  {
    (d + '0' as int) as char
  }

  function DigitValue(c: char): (d: nat)
    requires IsDigit(c)
    ensures d < 10
  {
    (c as int - '0' as int)
  }

  /** `str(n)` for `n >= 0`: its decimal digits, no sign, no leading zeros. */
  function NatToDecimal(n: nat): (s: string)
    ensures |s| > 0
    ensures forall i :: 0 <= i < |s| ==> IsDigit(s[i])
  {
    if n < 10 then [DigitChar(n)] else NatToDecimal(n / 10) + [DigitChar(n % 10)]
  }

  /** `str(i)` for any integer: a minus sign before the digits of a negative number. */
  function IntToDecimal(i: int): (s: string)
    ensures IsWord(s) && IsDigit(s[|s| - 1])
  {
    var d := NatToDecimal(if i < 0 then -i else i);
    if i < 0 then "-" + d else d
  }

  predicate AllDigits(s: string)
  {
    forall i :: 0 <= i < |s| ==> IsDigit(s[i])
  }

  /** The value of a string of decimal digits, most significant first. */
  function DigitsValue(s: string): nat
    requires AllDigits(s)
  {
    if s == [] then 0 else DigitsValue(s[..|s| - 1]) * 10 + DigitValue(s[|s| - 1])
  }

  function StripLeft(s: string): (t: string)
    ensures |t| <= |s|
  {
    if s != [] && IsSpace(s[0]) then StripLeft(s[1..]) else s
  }

  function StripRight(s: string): (t: string)
    ensures |t| <= |s|
  {
    if s != [] && IsSpace(s[|s| - 1]) then StripRight(s[..|s| - 1]) else s
  }

  /** `s.strip()`. */
  function Strip(s: string): string
  {
    StripRight(StripLeft(s))
  }

  /**
   * The body of a Python integer literal as `int()` accepts it: digits,
   * where single underscores may separate two digits.
   */
  predicate ValidDigitGroups(u: string)
  {
    && |u| > 0
    && IsDigit(u[0])
    && IsDigit(u[|u| - 1])
    && (forall i :: 0 <= i < |u| ==> IsDigit(u[i]) || u[i] == '_')
    && (forall i :: 0 <= i < |u| - 1 ==> !(u[i] == '_' && u[i + 1] == '_'))
  }

  function RemoveUnderscores(u: string): (d: string)
    ensures |d| <= |u|
  {
    if u == [] then []
    else if u[0] == '_' then RemoveUnderscores(u[1..])
    else [u[0]] + RemoveUnderscores(u[1..])
  }

  lemma {:induction false} RemoveUnderscoresDigits(u: string)
    requires forall i :: 0 <= i < |u| ==> IsDigit(u[i]) || u[i] == '_'
    ensures AllDigits(RemoveUnderscores(u))
  {
    if u != [] {
      RemoveUnderscoresDigits(u[1..]);
    }
  }

  function ParseUnsigned(u: string): Option<nat>
  {
    if ValidDigitGroups(u) then
      RemoveUnderscoresDigits(u);
      Some(DigitsValue(RemoveUnderscores(u)))
    else None
  }

  /**
   * `int(s)` for a string: surrounding whitespace is ignored, an optional
   * sign, then digits; `None` is the `ValueError` Python raises otherwise.
   */
  function ParseInt(s: string): Option<int>
  {
    var t := Strip(s);
    if |t| > 0 && (t[0] == '+' || t[0] == '-') then
      match ParseUnsigned(t[1..])
      case Some(v) => Some(if t[0] == '-' then -(v as int) else v as int)
      case None => None
    else
      match ParseUnsigned(t)
      case Some(v) => Some(v)
      case None => None
  }

  lemma {:induction false} DigitsValueOfDecimal(n: nat)
    ensures AllDigits(NatToDecimal(n)) && DigitsValue(NatToDecimal(n)) == n
  {
    var s := NatToDecimal(n);
    if n >= 10 {
      DigitsValueOfDecimal(n / 10);
      assert s[..|s| - 1] == NatToDecimal(n / 10);
    }
  }

  lemma {:induction false} RemoveUnderscoresOfDigits(u: string)
    requires AllDigits(u)
    ensures RemoveUnderscores(u) == u
  {
    if u != [] {
      RemoveUnderscoresOfDigits(u[1..]);
      assert u == [u[0]] + u[1..];
    }
  }

  /** `int(str(n)) == n`: a note's MIDI number survives printing and parsing. */
  lemma ParseDecimal(n: nat)
    ensures ParseInt(NatToDecimal(n)) == Some(n)
  {
    var s := NatToDecimal(n);
    assert !IsSpace(s[0]) && !IsSpace(s[|s| - 1]);
    assert StripLeft(s) == s;
    assert Strip(s) == s;
    assert ValidDigitGroups(s);
    RemoveUnderscoresOfDigits(s);
    DigitsValueOfDecimal(n);
  }

  /** `int(str(i)) == i`. */
  lemma ParseIntDecimal(i: int)
    ensures ParseInt(IntToDecimal(i)) == Some(i)
  {
    if i >= 0 {
      ParseDecimal(i);
    } else {
      var d := NatToDecimal(-i);
      var s := "-" + d;
      assert StripLeft(s) == s;
      assert Strip(s) == s;
      assert s[1..] == d;
      assert ValidDigitGroups(d);
      RemoveUnderscoresOfDigits(d);
      DigitsValueOfDecimal(-i);
    }
  }
}
