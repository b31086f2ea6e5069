/** The hexadecimal parser that finds where a library is mapped. */
module HexParse {
  import opened Machine

  predicate HexDigit(c: char) {
    '0' <= c <= '9' || 'a' <= c <= 'f' || 'A' <= c <= 'F'
  }

  function Digit(c: char): (d: nat)
    requires HexDigit(c)
    ensures d < 16
  {
    if '0' <= c <= '9' then c as int - '0' as int
    else if 'a' <= c <= 'f' then 10 + (c as int - 'a' as int)
    else 10 + (c as int - 'A' as int)
  }

  /** The sixteen values, in either case. */
  lemma DigitValues(c: char)
    ensures HexDigit(c) <==> c in "0123456789abcdef" || c in "0123456789ABCDEF"
    ensures forall d :: 0 <= d < 16 && (c == "0123456789abcdef"[d] || c == "0123456789ABCDEF"[d]) ==> Digit(c) == d
  {
  }

  predicate Hex(s: string) {
    forall i :: 0 <= i < |s| ==> HexDigit(s[i])
  }

  /** The value of a numeral, most significant digit first. */
  function Horner(s: string): nat
    requires Hex(s)
  {
    if s == "" then 0 else 16 * Horner(s[..|s| - 1]) + Digit(s[|s| - 1])
  }

  function Pow16(n: nat): nat {
    if n == 0 then 1 else 16 * Pow16(n - 1)
  }

  /** Length of the longest numeral `s` starts with. */
  function HexPrefix(s: string): (n: nat)
    ensures n <= |s| && Hex(s[..n]) && (n < |s| ==> !HexDigit(s[n]))
  {
    if s == "" || !HexDigit(s[0]) then 0
    else
      var n := HexPrefix(s[1..]);
      assert s[..n + 1] == [s[0]] + s[1..][..n];
      n + 1
  }

  /** That length is determined by the digits before it and the character at it. */
  lemma {:induction false} HexPrefixIs(s: string, n: nat)
    requires n <= |s| && Hex(s[..n]) && (n < |s| ==> !HexDigit(s[n]))
    ensures HexPrefix(s) == n
    decreases n
  {
    if n == 0 {
    } else {
      assert s[..n][0] == s[0];
      assert s[1..][..n - 1] == s[..n][1..];
      HexPrefixIs(s[1..], n - 1);
    }
  }

  lemma Reassociate(d: nat, p: nat, p': nat, h: nat, e: nat)
    requires p' == 16 * p
    ensures d * p' + (16 * h + e) == 16 * (d * p + h) + e
  {
    assert d * (16 * p) == 16 * (d * p);
  }

  lemma HornerSnoc(s: string, c: char)
    requires Hex(s) && HexDigit(c)
    ensures Hex(s + [c]) && Horner(s + [c]) == 16 * Horner(s) + Digit(c)
  {
    assert (s + [c])[..|s|] == s;
  }

  lemma HornerOne(c: char)
    requires HexDigit(c)
    ensures Hex([c]) && Horner([c]) == Digit(c) * Pow16(0) + Horner("")
  {
    HornerSnoc("", c);
    assert "" + [c] == [c];
  }

  /** Appending a digit keeps the weight of the leading one. */
  lemma LeadingWeight(c: char, s: string, e: char)
    requires HexDigit(c) && HexDigit(e) && Hex(s) && Hex([c] + s)
    requires Horner([c] + s) == Digit(c) * Pow16(|s|) + Horner(s)
    ensures Hex(s + [e]) && Hex([c] + (s + [e]))
    ensures Horner([c] + (s + [e])) == Digit(c) * Pow16(|s| + 1) + Horner(s + [e])
  {
    HornerSnoc(s, e);
    HornerSnoc([c] + s, e);
    assert [c] + (s + [e]) == ([c] + s) + [e];
    Reassociate(Digit(c), Pow16(|s|), Pow16(|s| + 1), Horner(s), Digit(e));
  }

  /** The leading digit weighs a power of sixteen. */
  lemma {:induction false} HornerCons(c: char, s: string)
    requires HexDigit(c) && Hex(s)
    ensures Hex([c] + s) && Horner([c] + s) == Digit(c) * Pow16(|s|) + Horner(s)
    decreases |s|
  {
    if s == "" {
      HornerOne(c);
      assert [c] + s == [c];
    } else {
      var init, e := s[..|s| - 1], s[|s| - 1];
      HornerCons(c, init);
      LeadingWeight(c, init, e);
      assert init + [e] == s && |init| + 1 == |s|;
    }
  }

  lemma ModAbsorbs(x: int, k: int)
    ensures (x + TWO64 * k) % TWO64 == x % TWO64
  {
  }

  /** Reducing the accumulators as it goes changes nothing modulo 2^64. */
  lemma ModStep(v: nat, p: nat, d: nat)
    ensures (v % TWO64 + d * (p % TWO64)) % TWO64 == (v + d * p) % TWO64
  {
    var a, b := v / TWO64, p / TWO64;
    var r, q := v % TWO64, p % TWO64;
    assert v == r + TWO64 * a && p == q + TWO64 * b;
    assert d * p == d * q + TWO64 * (d * b) by {
      assert d * (TWO64 * b) == TWO64 * (d * b);
    }
    assert v + d * p == (r + d * q) + TWO64 * (a + d * b);
    ModAbsorbs(r + d * q, a + d * b);
  }

  /** `hexstr2ull`: the value of the longest numeral among the first `len`
      characters, modulo 2^64, summed from its last digit to its first. */
  method HexStr2Ull(str: string, len: int) returns (rc: nat, val: Word)
    requires len <= |str|
    ensures rc == HexPrefix(str[..if len < 0 then 0 else len])
    ensures rc <= |str| && Hex(str[..rc]) && val == Horner(str[..rc]) % TWO64
  {
    var i := 0;
    while i < len && HexDigit(str[i])
      invariant 0 <= i && (i <= len || i == 0) && i <= |str| && Hex(str[..i])
    {
      i := i + 1;
    }
    rc := i;
    ghost var n: nat := if len < 0 then 0 else len;
    assert str[..n][..rc] == str[..rc];
    HexPrefixIs(str[..n], rc);
    var v: Word, p: Word := 0, 1;
    i := i - 1;
    while i >= 0
      invariant -1 <= i < rc
      invariant Hex(str[i + 1..rc]) && v == Horner(str[i + 1..rc]) % TWO64
      invariant p == Pow16(rc - 1 - i) % TWO64
      decreases i
    {
      assert str[..rc][i] == str[i];
      var d := Digit(str[i]);
      ghost var s := str[i + 1..rc];
      assert str[i..rc] == [str[i]] + s;
      HornerCons(str[i], s);
      ModStep(Horner(s), Pow16(|s|), d);
      ModStep(0, Pow16(|s|), 16);
      v := (v + d * p) % TWO64;
      p := p * 16 % TWO64;
      i := i - 1;
    }
    val := v;
  }

  function DigitChar(d: nat): (c: char)
    requires d < 16
    ensures HexDigit(c) && Digit(c) == d
  {
    "0123456789abcdef"[d]
  }

  /** `%0*lx`: lower-case digits, padded with zeros to a minimal width. */
  function Printed(a: nat, width: nat): (s: string)
    ensures Hex(s) && |s| >= width && |s| > 0
    decreases a, width
  {
    var last := DigitChar(a % 16);
    if a < 16 && width <= 1 then [last]
    else
      var init := Printed(a / 16, if width == 0 then 0 else width - 1);
      assert forall i :: 0 <= i < |init| ==> (init + [last])[i] == init[i];
      init + [last]
  }

  lemma {:induction false} PrintedValue(a: nat, width: nat)
    ensures Horner(Printed(a, width)) == a
    decreases a, width
  {
    var s := Printed(a, width);
    if a < 16 && width <= 1 {
      assert s[..0] == "";
    } else {
      PrintedValue(a / 16, if width == 0 then 0 else width - 1);
      assert s[..|s| - 1] == Printed(a / 16, if width == 0 then 0 else width - 1);
    }
  }

  /** What the caller's two addresses are set to: neither, the start only, or
      both, and only then is success reported. */
  datatype Parse = Neither | StartOnly(start: Word) | Both(start: Word, end: Word)

  /** The range a line states: a numeral, any one character, a numeral. */
  function Range(line: string): Parse {
    var n := HexPrefix(line);
    var rest := if n < |line| then line[n + 1..] else "";
    var m := HexPrefix(rest);
    if n == 0 then Neither
    else if m == 0 then StartOnly(Horner(line[..n]) % TWO64)
    else Both(Horner(line[..n]) % TWO64, Horner(rest[..m]) % TWO64)
  }

  /** The range parse of `find_libkallsyms`. */
  method ParseRange(line: string) returns (r: Parse)
    ensures r == Range(line)
  {
    assert line[..|line|] == line;
    var n, start := HexStr2Ull(line, |line|);
    if n == 0 {
      return Neither;
    }
    // past the end of the line the remaining length is -1, and nothing is read
    var rest := if n < |line| then line[n + 1..] else "";
    var left := |line| - (n + 1);
    assert left >= 0 ==> rest[..left] == rest;
    var m, end := HexStr2Ull(rest, left);
    r := if m == 0 then StartOnly(start) else Both(start, end);
  }

  /** A numeral followed by anything but a digit is found whole. */
  lemma NumeralIsFound(p: string, tail: string)
    requires Hex(p) && (tail != "" ==> !HexDigit(tail[0]))
    ensures HexPrefix(p + tail) == |p| && (p + tail)[..|p|] == p
  {
    assert (p + tail)[..|p|] == p;
    assert tail != "" ==> (p + tail)[|p|] == tail[0];
    HexPrefixIs(p + tail, |p|);
  }

  /** The start is set exactly if the line starts with a numeral, and to it. */
  lemma StartIsKept(p: string, tail: string)
    requires Hex(p) && (tail != "" ==> !HexDigit(tail[0]))
    ensures p == "" <==> Range(p + tail) == Neither
    ensures p != "" ==> Range(p + tail).start == Horner(p) % TWO64
    ensures p != "" && (|tail| <= 1 || !HexDigit(tail[1])) ==> Range(p + tail) == StartOnly(Horner(p) % TWO64)
  {
    NumeralIsFound(p, tail);
    if |tail| > 0 {
      assert (p + tail)[|p| + 1..] == tail[1..];
    }
  }

  lemma RangeSplits(line: string, n: nat, rest: string)
    requires 0 < n < |line| && HexPrefix(line) == n && line[n + 1..] == rest && HexPrefix(rest) > 0
    ensures Hex(line[..n]) && Hex(rest[..HexPrefix(rest)])
    ensures Range(line) == Both(Horner(line[..n]) % TWO64, Horner(rest[..HexPrefix(rest)]) % TWO64)
  {
  }

  lemma LineSplits(p: string, q: string, tail: string)
    ensures p + "-" + q + tail == p + (['-'] + (q + tail))
    ensures (p + (['-'] + (q + tail)))[|p| + 1..] == q + tail
  {
  }

  lemma RangeOfNumerals(p: string, q: string, tail: string)
    requires Hex(p) && Hex(q) && p != "" && q != "" && (tail != "" ==> !HexDigit(tail[0]))
    ensures Range(p + "-" + q + tail) == Both(Horner(p) % TWO64, Horner(q) % TWO64)
  {
    LineSplits(p, q, tail);
    var rest := q + tail;
    var after := ['-'] + rest;
    assert after[0] == '-' && !HexDigit('-');
    NumeralIsFound(p, after);
    NumeralIsFound(q, tail);
    RangeSplits(p + after, |p|, rest);
  }

  lemma WordsAreReduced(r: Parse, x: nat, y: nat, a: Word, b: Word)
    requires x == a && y == b && r == Both(x % TWO64, y % TWO64)
    ensures r == Both(a, b)
  {
  }

  /** A line of the memory map gives back exactly the two addresses printed. */
  lemma RangeRoundTrip(a: Word, b: Word, width: nat, tail: string)
    requires tail != "" ==> !HexDigit(tail[0])
    ensures Range(Printed(a, width) + "-" + Printed(b, width) + tail) == Both(a, b)
  {
    var p, q := Printed(a, width), Printed(b, width);
    PrintedValue(a, width);
    PrintedValue(b, width);
    RangeOfNumerals(p, q, tail);
    WordsAreReduced(Range(p + "-" + q + tail), Horner(p), Horner(q), a, b);
  }
}
