/** The string handling the analyzer relies on from Rust's standard library:
    `str::trim`, `str::split_whitespace`, `str::lines`, the ordering of
    `String`, `usize::to_string` and `str::parse::<usize>`. */
module Text {
  import opened Results

  /** `char::is_whitespace`: the Unicode White_Space property. */
  predicate IsWhitespace(c: char) {
    || c == ' ' || ('\t' <= c <= '\r')
    || c == '\U{85}' || c == '\U{A0}' || c == '\U{1680}'
    || ('\U{2000}' <= c <= '\U{200A}')
    || c == '\U{2028}' || c == '\U{2029}' || c == '\U{202F}' || c == '\U{205F}' || c == '\U{3000}'
  }

  /** Every character is whitespace (the empty string included). */
  predicate Blank(s: string) {
    forall i :: 0 <= i < |s| ==> IsWhitespace(s[i])
  }

  /** No character is whitespace. */
  predicate Solid(s: string) {
    forall i :: 0 <= i < |s| ==> !IsWhitespace(s[i])
  }

  /** `str::trim_start`: drops the leading whitespace. */
  function TrimStart(s: string): (r: string)
    ensures |r| <= |s| && r == s[|s| - |r|..]
    ensures forall i :: 0 <= i < |s| - |r| ==> IsWhitespace(s[i])
    ensures r == [] || !IsWhitespace(r[0])
  {
    if s != [] && IsWhitespace(s[0]) then TrimStart(s[1..]) else s
  }

  /** `str::trim_end`: drops the trailing whitespace. */
  function TrimEnd(s: string): (r: string)
    ensures |r| <= |s| && r == s[..|r|]
    ensures forall i :: |r| <= i < |s| ==> IsWhitespace(s[i])
    ensures r == [] || !IsWhitespace(r[|r| - 1])
  {
    if s != [] && IsWhitespace(s[|s| - 1]) then TrimEnd(s[..|s| - 1]) else s
  }

  /** `str::trim`: the string without surrounding whitespace. It is empty
      exactly when the string is blank, and a string that neither starts
      nor ends with whitespace is its own trim. */
  function Trim(s: string): (r: string)
    ensures r == [] <==> Blank(s)
    ensures s == [] || (!IsWhitespace(s[0]) && !IsWhitespace(s[|s| - 1])) ==> r == s
  {
    var t := TrimStart(s);
    if t == [] then
      t
    else
      assert t[0] == s[|s| - |t|];
      TrimEnd(t)
  }

  /** Length of the leading run of non-whitespace characters. */
  function WordEnd(s: string): (n: nat)
    ensures n <= |s| && Solid(s[..n])
    ensures n < |s| ==> IsWhitespace(s[n])
  {
    if s == [] || IsWhitespace(s[0]) then 0 else 1 + WordEnd(s[1..])
  }

  /** Non-empty strings without whitespace. */
  predicate Words(r: seq<string>) {
    forall i :: 0 <= i < |r| ==> r[i] != [] && Solid(r[i])
  }

  /** `str::split_whitespace`: the maximal runs of non-whitespace characters,
      in order. There are none exactly when the string is blank. */
  function Fields(s: string): (r: seq<string>)
    ensures Words(r)
    ensures r == [] <==> Blank(s)
    decreases |s|
  {
    if s == [] then
      []
    else if IsWhitespace(s[0]) then
      var r := Fields(s[1..]);
      assert Blank(s) <==> Blank(s[1..]) by {
        assert forall i :: 0 < i < |s| ==> s[i] == s[1..][i - 1];
      }
      r
    else
      var n := WordEnd(s);
      var w, rest := s[..n], Fields(s[n..]);
      var r := [w] + rest;
      assert Words(r) by {
        forall i | 0 <= i < |r|
          ensures r[i] != [] && Solid(r[i])
        {
          if i > 0 {
            assert r[i] == rest[i - 1];
          }
        }
      }
      r
  }

  /** Splitting skips leading blanks, takes one word and continues after it. */
  lemma {:induction false} FieldsOfWord(p: string, w: string, rest: string)
    requires Blank(p) && w != [] && Solid(w)
    requires rest == [] || IsWhitespace(rest[0])
    ensures Fields(p + w + rest) == [w] + Fields(rest)
    decreases |p|
  {
    var s := p + w + rest;
    if p == [] {
      assert s == w + rest && s[0] == w[0];
      WordEndOf(w, rest);
      assert s[..|w|] == w && s[|w|..] == rest;
    } else {
      assert s[0] == p[0] && s[1..] == p[1..] + w + rest;
      FieldsOfWord(p[1..], w, rest);
    }
  }

  lemma {:induction false} WordEndOf(w: string, rest: string)
    requires Solid(w)
    requires rest == [] || IsWhitespace(rest[0])
    ensures WordEnd(w + rest) == |w|
    decreases |w|
  {
    if w != [] {
      assert (w + rest)[1..] == w[1..] + rest;
      WordEndOf(w[1..], rest);
    } else {
      assert w + rest == rest;
    }
  }

  /** Position of the first line feed, or the length when there is none. */
  function NewlineAt(s: string): (i: nat)
    ensures i <= |s| && (i < |s| ==> s[i] == '\n')
    ensures forall k :: 0 <= k < i ==> s[k] != '\n'
  {
    if s == [] || s[0] == '\n' then 0 else 1 + NewlineAt(s[1..])
  }

  /** Drops one carriage return in front of a line feed. */
  function StripCarriageReturn(line: string): string {
    if line != [] && line[|line| - 1] == '\r' then line[..|line| - 1] else line
  }

  /** `str::lines`: the text cut at each line feed (a `\r\n` ending counts as
      one), without a final empty line after a trailing line feed. */
  function Lines(s: string): (r: seq<string>)
    ensures forall i :: 0 <= i < |r| ==> '\n' !in r[i]
    ensures r == [] <==> s == []
    decreases |s|
  {
    if s == [] then
      []
    else
      var i := NewlineAt(s);
      if i == |s| then
        [s]
      else
        [StripCarriageReturn(s[..i])] + Lines(s[i + 1..])
  }

  /** A line without a line feed or a final carriage return, followed by a
      line feed, is the first of the lines. */
  lemma LinesCons(a: string, rest: string)
    requires '\n' !in a && (a == [] || a[|a| - 1] != '\r')
    ensures Lines(a + "\n" + rest) == [a] + Lines(rest)
  {
    var s := a + "\n" + rest;
    assert s[|a|] == '\n';
    assert forall k :: 0 <= k < |a| ==> s[k] == a[k];
    assert s[..|a|] == a && s[|a| + 1..] == rest;
  }

  /** Lines joined with line feeds. */
  function JoinLines(ls: seq<string>): string
    requires ls != []
  {
    if |ls| == 1 then ls[0] else ls[0] + "\n" + JoinLines(ls[1..])
  }

  /** Splitting lines joined with line feeds gives them back, when none
      holds a line feed or ends with a carriage return and the last is not
      empty. */
  lemma {:induction false} LinesOfJoin(ls: seq<string>)
    requires ls != [] && ls[|ls| - 1] != []
    requires forall i :: 0 <= i < |ls| ==> '\n' !in ls[i] && (ls[i] == [] || ls[i][|ls[i]| - 1] != '\r')
    ensures Lines(JoinLines(ls)) == ls
    decreases |ls|
  {
    if |ls| == 1 {
      assert Lines(ls[0]) == [ls[0]];
    } else {
      LinesOfJoin(ls[1..]);
      LinesCons(ls[0], JoinLines(ls[1..]));
    }
  }

  /** Leading whitespace before a text that does not start with
      whitespace is dropped by `trim_start`. */
  lemma {:induction false} TrimStartPadded(w: string, s: string)
    requires Blank(w) && s != [] && !IsWhitespace(s[0])
    ensures TrimStart(w + s) == s
    decreases |w|
  {
    if w == [] {
      assert w + s == s;
    } else {
      var ws := w + s;
      assert ws[0] == w[0] && ws[1..] == w[1..] + s;
      TrimStartPadded(w[1..], s);
    }
  }

  /** Surrounding a non-blank text that neither starts nor ends with
      whitespace by whitespace does not change its trim. */
  lemma TrimPadded(w: string, s: string)
    requires Blank(w) && s != [] && !IsWhitespace(s[0]) && !IsWhitespace(s[|s| - 1])
    ensures Trim(w + s) == s
  {
    TrimStartPadded(w, s);
  }

  /** The derived ordering of `String`: lexicographic by character, a proper
      prefix first. (Byte order of UTF-8 agrees with code point order.) */
  predicate StrLt(a: string, b: string)
    decreases |a|
  {
    if b == [] then false
    else if a == [] then true
    else if a[0] != b[0] then a[0] < b[0]
    else StrLt(a[1..], b[1..])
  }

  lemma {:induction false} StrLtIrreflexive(a: string)
    ensures !StrLt(a, a)
    decreases |a|
  {
    if a != [] {
      StrLtIrreflexive(a[1..]);
    }
  }

  lemma {:induction false} StrLtTransitive(a: string, b: string, c: string)
    requires StrLt(a, b) && StrLt(b, c)
    ensures StrLt(a, c)
    decreases |a|
  {
    if a != [] && a[0] == b[0] && b[0] == c[0] {
      StrLtTransitive(a[1..], b[1..], c[1..]);
    }
  }

  lemma {:induction false} StrLtTotal(a: string, b: string)
    ensures a == b || StrLt(a, b) || StrLt(b, a)
    decreases |a|
  {
    if a != [] && b != [] && a[0] == b[0] {
      StrLtTotal(a[1..], b[1..]);
      if a[1..] == b[1..] {
        assert a == [a[0]] + a[1..] && b == [b[0]] + b[1..];
      }
    }
  }

  lemma {:induction false} StrLtAsymmetric(a: string, b: string)
    requires StrLt(a, b)
    ensures !StrLt(b, a)
  {
    if StrLt(b, a) {
      StrLtTransitive(a, b, a);
      StrLtIrreflexive(a);
    }
  }

  /** Comparing two strings that start with parts of equal length compares
      those parts first. */
  lemma {:induction false} StrLtConcat(a: string, b: string, x: string, y: string)
    requires |a| == |b|
    ensures StrLt(a + x, b + y) <==> StrLt(a, b) || (a == b && StrLt(x, y))
    decreases |a|
  {
    if a == [] {
      assert a + x == x && b + y == y;
    } else {
      assert (a + x)[0] == a[0] && (b + y)[0] == b[0];
      assert (a + x)[1..] == a[1..] + x && (b + y)[1..] == b[1..] + y;
      StrLtConcat(a[1..], b[1..], x, y);
      if a[0] == b[0] && a[1..] == b[1..] {
        assert a == [a[0]] + a[1..] && b == [b[0]] + b[1..];
      }
    }
  }

  // ---- decimal digits ----

  predicate IsDigit(c: char) {
    '0' <= c <= '9'
  }

  predicate AllDigits(s: string) {
    forall i :: 0 <= i < |s| ==> IsDigit(s[i])
  }

  function DigitChar(n: nat): (c: char)
    requires n < 10
    ensures IsDigit(c)
  {
    ('0' as int + n) as char
  }

  function DigitValue(c: char): (n: nat)
    requires IsDigit(c)
    ensures n < 10 && DigitChar(n) == c
  {
    c as int - '0' as int
  }

  function Pow10(k: nat): (p: nat)
    ensures p >= 1
  {
    if k == 0 then 1 else 10 * Pow10(k - 1)
  }

  /** The `width` lowest decimal digits of `n`, zero-padded (`{:0width}`). */
  function Pad(n: nat, width: nat): (r: string)
    ensures |r| == width && AllDigits(r)
  {
    if width == 0 then [] else Pad(n / 10, width - 1) + [DigitChar(n % 10)]
  }

  /** The number a string of decimal digits denotes. */
  function DigitsValue(s: string): (n: nat)
    requires AllDigits(s)
    ensures n < Pow10(|s|)
  {
    if s == [] then 0 else DigitsValue(s[..|s| - 1]) * 10 + DigitValue(s[|s| - 1])
  }

  lemma {:induction false} PadValue(n: nat, width: nat)
    requires n < Pow10(width)
    ensures DigitsValue(Pad(n, width)) == n
  {
    if width > 0 {
      var p := Pad(n, width);
      assert p[..width - 1] == Pad(n / 10, width - 1);
      PadValue(n / 10, width - 1);
    }
  }

  lemma {:induction false} ValuePad(s: string)
    requires AllDigits(s)
    ensures Pad(DigitsValue(s), |s|) == s
    decreases |s|
  {
    if s != [] {
      var init := s[..|s| - 1];
      ValuePad(init);
      var n := DigitsValue(s);
      assert n / 10 == DigitsValue(init) && n % 10 == DigitValue(s[|s| - 1]);
      assert s == init + [s[|s| - 1]];
    }
  }

  /** Zero-padded numbers of one width compare as strings as they do as numbers. */
  lemma DivModOrder(n: nat, m: nat)
    ensures n < m <==> n / 10 < m / 10 || (n / 10 == m / 10 && n % 10 < m % 10)
  {
    assert n == n / 10 * 10 + n % 10 && m == m / 10 * 10 + m % 10;
  }

  lemma DivBelow(n: nat, width: nat)
    requires width > 0 && n < Pow10(width)
    ensures n / 10 < Pow10(width - 1)
  {
  }

  lemma {:induction false} PadOrder(n: nat, m: nat, width: nat)
    requires n < Pow10(width) && m < Pow10(width)
    ensures StrLt(Pad(n, width), Pad(m, width)) <==> n < m
  {
    if width == 0 {
    } else {
      var a, b := Pad(n / 10, width - 1), Pad(m / 10, width - 1);
      var x, y := [DigitChar(n % 10)], [DigitChar(m % 10)];
      assert Pad(n, width) == a + x && Pad(m, width) == b + y;
      DivBelow(n, width);
      DivBelow(m, width);
      StrLtConcat(a, b, x, y);
      PadOrder(n / 10, m / 10, width - 1);
      assert StrLt(x, y) <==> n % 10 < m % 10;
      if a == b {
        PadValue(n / 10, width - 1);
        PadValue(m / 10, width - 1);
      }
      DivModOrder(n, m);
    }
  }


  /** `usize::to_string`: the decimal digits without leading zeros. */
  function NatToString(n: nat): (r: string)
    ensures r != [] && AllDigits(r)
  {
    if n < 10 then [DigitChar(n)] else NatToString(n / 10) + [DigitChar(n % 10)]
  }

  lemma {:induction false} NatToStringValue(n: nat)
    ensures DigitsValue(NatToString(n)) == n
  {
    if n >= 10 {
      var s := NatToString(n);
      assert s[..|s| - 1] == NatToString(n / 10);
      NatToStringValue(n / 10);
    }
  }

  lemma NatToStringInjective(n: nat, m: nat)
    requires NatToString(n) == NatToString(m)
    ensures n == m
  {
    NatToStringValue(n);
    NatToStringValue(m);
  }

  /** A number of exactly `width` digits prints as its zero-padded digits. */
  lemma {:induction false} NatToStringIsPad(n: nat, width: nat)
    requires width >= 1 && Pow10(width - 1) <= n < Pow10(width)
    ensures NatToString(n) == Pad(n, width)
  {
    if width > 1 {
      NatToStringIsPad(n / 10, width - 1);
    }
  }

  /** A four-digit number prints as its zero-padded four digits. */
  lemma NatToStringFourDigits(n: nat)
    requires 1000 <= n < 10000
    ensures NatToString(n) == Pad(n, 4)
  {
    assert Pow10(3) == 1000 by {
      assert Pow10(1) == 10 && Pow10(2) == 100;
    }
    NatToStringIsPad(n, 4);
  }

  /** Years of four digits sort as strings in numeric order. */
  lemma FourDigitOrder(n: nat, m: nat)
    requires 1000 <= n < 10000 && 1000 <= m < 10000
    ensures StrLt(NatToString(n), NatToString(m)) <==> n < m
  {
    NatToStringFourDigits(n);
    NatToStringFourDigits(m);
    PadOrder(n, m, 4);
  }

  /** `str::parse::<usize>`: an optional `+` followed by at least one decimal
      digit; anything else is an error. */
  function ParseNat(s: string): (r: Option<nat>)
    ensures r.Some? <==> (s != [] && AllDigits(s)) || (|s| >= 2 && s[0] == '+' && AllDigits(s[1..]))
  {
    var digits := if s != [] && s[0] == '+' then s[1..] else s;
    if digits != [] && AllDigits(digits) then Some(DigitsValue(digits)) else None
  }

  /** Parsing a printed number gives the number back. */
  lemma ParseNatToString(n: nat)
    ensures ParseNat(NatToString(n)) == Some(n)
  {
    NatToStringValue(n);
  }
}
