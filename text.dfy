/** The parts of the firmware runtime's string and integer built-ins that
    the command dispatcher relies on, on ASCII text: `str.split()` with no
    separator, `str.upper()`, `int(s, 16)` and the `{:04X}` format, as
    CircuitPython (a MicroPython port) implements them. */
module Text {

  datatype Option<T> = None | Some(value: T)

  /** Whitespace for the runtime's `str.split()`: space, tab, line feed,
      vertical tab, form feed and carriage return. The separators 0x1C to
      0x1F, which CPython also splits on, are ordinary characters here. */
  predicate IsSpace(c: char)
  {
    c == ' ' || ('\t' <= c <= '\r')
  }

  /** A token of `str.split()`: non-empty, without whitespace. */
  predicate IsWord(t: string)
  {
    t != [] && forall i :: 0 <= i < |t| ==> !IsSpace(t[i])
  }

  /** Length of the run of non-whitespace characters that starts `s`. */
  function WordLength(s: string): (n: nat)
    ensures n <= |s|
    ensures forall i :: 0 <= i < n ==> !IsSpace(s[i])
    ensures n < |s| ==> IsSpace(s[n])
  {
    if s == [] || IsSpace(s[0]) then 0 else 1 + WordLength(s[1..])
  }

  /** `s.split()`: the maximal runs of non-whitespace, in order. Leading and
      trailing whitespace yields no token, so `s.strip().split()` is the same. */
  function Tokens(s: string): (ts: seq<string>)
    ensures forall k :: 0 <= k < |ts| ==> IsWord(ts[k])
    decreases |s|
  {
    if s == [] then []
    else if IsSpace(s[0]) then Tokens(s[1..])
    else
      var n := WordLength(s);
      [s[..n]] + Tokens(s[n..])
  }

  /** The tokens joined by single spaces: the canonical way to type them. */
  function Join(ts: seq<string>): string
  {
    if ts == [] then ""
    else if |ts| == 1 then ts[0]
    else ts[0] + " " + Join(ts[1..])
  }

  /** A run of whitespace, possibly empty. */
  predicate IsBlank(s: string)
  {
    forall i :: 0 <= i < |s| ==> IsSpace(s[i])
  }

  /** The tokens typed with any whitespace around them: `seps[0]` before
      the first, `seps[k]` between token `k - 1` and token `k`, and
      `seps[|ts|]` after the last. */
  function Spaced(ts: seq<string>, seps: seq<string>): string
    requires |seps| == |ts| + 1
    decreases |ts|
  {
    if ts == [] then seps[0] else seps[0] + ts[0] + Spaced(ts[1..], seps[1..])
  }

  /** The separators of a typed line: all whitespace, and those between two
      tokens not empty. */
  predicate Separators(seps: seq<string>)
  {
    && (forall k :: 0 <= k < |seps| ==> IsBlank(seps[k]))
    && (forall k :: 0 < k < |seps| - 1 ==> seps[k] != [])
  }

  function UpperChar(c: char): char
  {
    if 'a' <= c <= 'z' then (c as int - 32) as char else c
  }

  /** `s.upper()` on ASCII text: every lower-case letter becomes its
      upper-case partner and every other character stays as it is. */
  function Upper(s: string): (u: string)
    ensures |u| == |s|
    ensures forall i :: 0 <= i < |s| ==> !('a' <= u[i] <= 'z')
    ensures forall i :: 0 <= i < |s| && !('a' <= s[i] <= 'z') ==> u[i] == s[i]
    ensures forall i :: 0 <= i < |s| && 'a' <= s[i] <= 'z' ==>
      'A' <= u[i] <= 'Z' && u[i] as int - 'A' as int == s[i] as int - 'a' as int
  {
    seq(|s|, i requires 0 <= i < |s| => UpperChar(s[i]))
  }

  /** `t` spells the upper-case word `w` with each of its letters in either
      case: position by position the same character, or the lower-case
      partner of an upper-case letter of `w`. */
  predicate SpellsUpper(t: string, w: string)
  {
    && |t| == |w|
    && forall i :: 0 <= i < |t| ==>
         t[i] == w[i] || ('A' <= w[i] <= 'Z' && t[i] as int == w[i] as int + 32)
  }

  // ---------------------------------------------------------------------
  // Hexadecimal numbers

  function HexDigitValue(c: char): Option<nat>
  {
    if '0' <= c <= '9' then Some(c as int - '0' as int)
    else if 'a' <= c <= 'f' then Some(c as int - 'a' as int + 10)
    else if 'A' <= c <= 'F' then Some(c as int - 'A' as int + 10)
    else None
  }

  predicate IsHexDigit(c: char)
  {
    HexDigitValue(c).Some?
  }

  /** The value of a string of hexadecimal digits, most significant first;
      the empty string has value 0. The value fits in as many hexadecimal
      places as the string has characters. */
  function HexValue(s: string): (r: Option<nat>)
    ensures r.Some? ==> r.value < Pow16(|s|)
  {
    if s == [] then Some(0)
    else
      match (HexValue(s[..|s| - 1]), HexDigitValue(s[|s| - 1]))
      case (Some(v), Some(d)) => Some(16 * v + d)
      case _ => None
  }

  /** `int(s, 16)` on a plain run of hexadecimal digits; `None` where the
      runtime raises `ValueError`. It succeeds exactly on a non-empty string
      of hexadecimal digits, with a value below 16 to the power of its
      length. */
  function ParseHex(s: string): (r: Option<nat>)
    ensures r.Some? <==> s != [] && forall i :: 0 <= i < |s| ==> IsHexDigit(s[i])
    ensures r.Some? ==> r.value < Pow16(|s|)
  {
    HexValueSomeIff(s);
    if s == [] then None else HexValue(s)
  }

  /** The `str(e)` of the `ValueError` raised by the runtime's `int(s, 16)`
      when it reports errors in full. */
  function IntParseError(s: string): string
  {
    "invalid syntax for integer with base 16: '" + s + "'"
  }

  function HexDigit(d: nat): (c: char)
    requires d < 16
  {
    "0123456789ABCDEF"[d]
  }

  predicate IsUpperHexDigit(c: char)
  {
    '0' <= c <= '9' || 'A' <= c <= 'F'
  }

  /** `format(v, 'X')`: upper-case hexadecimal without leading zeros. */
  function HexDigits(v: nat): (s: string)
  {
    if v < 16 then [HexDigit(v)] else HexDigits(v / 16) + [HexDigit(v % 16)]
  }

  function Zeros(n: nat): (z: string)
    ensures |z| == n
  {
    if n == 0 then "" else Zeros(n - 1) + "0"
  }

  /** `format(v, '04X')`: zero-padded to at least four digits. */
  function Hex04(v: nat): string
  {
    var d := HexDigits(v);
    if |d| < 4 then Zeros(4 - |d|) + d else d
  }

  function Pow16(n: nat): (p: nat)
    ensures p >= 1
  {
    if n == 0 then 1 else 16 * Pow16(n - 1)
  }

  // ---------------------------------------------------------------------
  // Lemmas: splitting

  /** A line splits into no tokens exactly when it is all whitespace. */
  lemma {:induction false} TokensEmptyIff(s: string)
    ensures Tokens(s) == [] <==> forall i :: 0 <= i < |s| ==> IsSpace(s[i])
    decreases |s|
  {
    if s != [] {
      if IsSpace(s[0]) {
        TokensEmptyIff(s[1..]);
        if forall i :: 0 <= i < |s[1..]| ==> IsSpace(s[1..][i]) {
          forall i | 0 <= i < |s| ensures IsSpace(s[i]) {
            if i > 0 { assert s[i] == s[1..][i - 1]; }
          }
        }
      }
    }
  }

  lemma {:induction false} WordLengthOfWord(t: string, r: string)
    requires IsWord(t)
    requires r == [] || IsSpace(r[0])
    ensures WordLength(t + r) == |t|
    decreases |t|
  {
    if |t| > 1 {
      assert (t + r)[1..] == t[1..] + r;
      WordLengthOfWord(t[1..], r);
    } else {
      assert (t + r)[1..] == r;
    }
  }

  /** A word followed by whitespace or nothing splits off as one token. */
  lemma TokensWord(t: string, r: string)
    requires IsWord(t)
    requires r == [] || IsSpace(r[0])
    ensures Tokens(t + r) == [t] + Tokens(r)
  {
    WordLengthOfWord(t, r);
    assert (t + r)[..|t|] == t;
    assert (t + r)[|t|..] == r;
  }

  /** Whitespace in front of a line is skipped. */
  lemma {:induction false} TokensSkipSpace(sp: string, r: string)
    requires IsBlank(sp)
    ensures Tokens(sp + r) == Tokens(r)
    decreases |sp|
  {
    if sp == [] {
      assert sp + r == r;
    } else {
      assert (sp + r)[0] == sp[0] && (sp + r)[1..] == sp[1..] + r;
      TokensSkipSpace(sp[1..], r);
    }
  }

  /** Splitting a line of words typed with any whitespace before, between
      and after them gives the words back. */
  lemma {:induction false} TokensSpaced(ts: seq<string>, seps: seq<string>)
    requires forall k :: 0 <= k < |ts| ==> IsWord(ts[k])
    requires |seps| == |ts| + 1 && Separators(seps)
    ensures Tokens(Spaced(ts, seps)) == ts
    decreases |ts|
  {
    if ts == [] {
      TokensEmptyIff(seps[0]);
    } else {
      var rest := Spaced(ts[1..], seps[1..]);
      if |ts| > 1 {
        assert rest == seps[1] + (ts[1] + Spaced(ts[2..], seps[2..]));
        assert rest[0] == seps[1][0];
      }
      assert seps[0] + ts[0] + rest == seps[0] + (ts[0] + rest);
      TokensSkipSpace(seps[0], ts[0] + rest);
      TokensWord(ts[0], rest);
      assert Separators(seps[1..]) by {
        assert forall k :: 0 <= k < |seps[1..]| ==> seps[1..][k] == seps[k + 1];
      }
      TokensSpaced(ts[1..], seps[1..]);
      assert [ts[0]] + ts[1..] == ts;
    }
  }

  /** Splitting a line of words joined by single spaces gives the words back. */
  lemma {:induction false} TokensJoin(ts: seq<string>)
    requires forall k :: 0 <= k < |ts| ==> IsWord(ts[k])
    ensures Tokens(Join(ts)) == ts
    decreases |ts|
  {
    if |ts| == 1 {
      TokensWord(ts[0], "");
      assert ts[0] + "" == ts[0];
    } else if |ts| > 1 {
      var r := " " + Join(ts[1..]);
      assert Join(ts) == ts[0] + r;
      TokensWord(ts[0], r);
      assert r[1..] == Join(ts[1..]);
      assert Tokens(r) == Tokens(Join(ts[1..]));
      TokensJoin(ts[1..]);
      assert ts == [ts[0]] + ts[1..];
    }
  }

  /** Comparing `t.upper()` with a word that has no lower-case letter is
      comparing `t` with that word case-insensitively. */
  lemma UpperSpells(t: string, w: string)
    requires forall i :: 0 <= i < |w| ==> !('a' <= w[i] <= 'z')
    ensures Upper(t) == w <==> SpellsUpper(t, w)
  {
    var u := Upper(t);
    if SpellsUpper(t, w) {
      forall i | 0 <= i < |w| ensures u[i] == w[i] {
        if 'a' <= t[i] <= 'z' {
          assert t[i] != w[i];
        }
      }
      assert u == w;
    }
  }

  // ---------------------------------------------------------------------
  // Lemmas: hexadecimal

  /** `int(s, 16)` succeeds exactly on non-empty runs of hexadecimal digits. */
  lemma {:induction false} HexValueSomeIff(s: string)
    ensures HexValue(s).Some? <==> forall i :: 0 <= i < |s| ==> IsHexDigit(s[i])
  {
    if s != [] {
      var init := s[..|s| - 1];
      HexValueSomeIff(init);
      if forall i :: 0 <= i < |s| ==> IsHexDigit(s[i]) {
        assert forall i :: 0 <= i < |init| ==> IsHexDigit(init[i]) by {
          forall i | 0 <= i < |init| ensures IsHexDigit(init[i]) { assert init[i] == s[i]; }
        }
      }
    }
  }

  lemma {:induction false} HexValueZeros(n: nat, s: string)
    ensures HexValue(Zeros(n) + s) == HexValue(s)
    decreases |s|, n
  {
    if s == [] {
      assert Zeros(n) + s == Zeros(n);
      if n > 0 {
        HexValueZeros(n - 1, "");
        assert Zeros(n - 1) + "" == Zeros(n - 1);
      }
    } else {
      var init := s[..|s| - 1];
      assert (Zeros(n) + s)[..|Zeros(n) + s| - 1] == Zeros(n) + init;
      HexValueZeros(n, init);
    }
  }

  lemma {:induction false} HexValueDigits(v: nat)
    ensures HexValue(HexDigits(v)) == Some(v)
  {
    if v < 16 {
      HexDigitValueOf(v);
    } else {
      var d := HexDigits(v);
      assert d[..|d| - 1] == HexDigits(v / 16);
      HexValueDigits(v / 16);
      HexDigitValueOf(v % 16);
    }
  }

  lemma HexDigitValueOf(d: nat)
    requires d < 16
    ensures HexDigitValue(HexDigit(d)) == Some(d)
  {
  }

  lemma {:induction false} HexDigitsUpper(v: nat)
    ensures forall i :: 0 <= i < |HexDigits(v)| ==> IsUpperHexDigit(HexDigits(v)[i])
  {
    if v >= 16 {
      HexDigitsUpper(v / 16);
    }
  }

  lemma {:induction false} HexDigitsLength(v: nat, n: nat)
    requires n >= 1
    ensures |HexDigits(v)| <= n <==> v < Pow16(n)
  {
    if n > 1 && v >= 16 {
      HexDigitsLength(v / 16, n - 1);
    }
  }

  /** `{:04X}` reads back as the value it formats. */
  lemma Hex04RoundTrip(v: nat)
    ensures ParseHex(Hex04(v)) == Some(v)
  {
    var d := HexDigits(v);
    HexValueDigits(v);
    if |d| < 4 {
      HexValueZeros(4 - |d|, d);
    }
  }

  /** `{:04X}` gives upper-case hexadecimal digits only, at least four of
      them, and exactly four when the value fits in 16 bits; a longer
      rendering has no leading zero, so it is the value's full digit string. */
  lemma Hex04Shape(v: nat)
    ensures |Hex04(v)| >= 4
    ensures |Hex04(v)| == 4 <==> v < 0x10000
    ensures forall i :: 0 <= i < |Hex04(v)| ==> IsUpperHexDigit(Hex04(v)[i])
    ensures |Hex04(v)| > 4 ==> Hex04(v)[0] != '0'
  {
    var d := HexDigits(v);
    HexDigitsUpper(v);
    if |d| > 4 {
      HexDigitsLead(v);
    }
    HexDigitsLength(v, 4);
    assert Pow16(4) == 0x10000;
    if |d| < 4 {
      var z := Zeros(4 - |d|);
      assert forall i :: 0 <= i < |z| ==> z[i] == '0' by { ZerosAreZero(4 - |d|); }
      assert forall i :: 0 <= i < |d| ==> (z + d)[|z| + i] == d[i];
    }
  }

  /** A value from 16 on is written without a leading zero. */
  lemma {:induction false} HexDigitsLead(v: nat)
    requires v >= 1
    ensures HexDigits(v)[0] != '0'
  {
    if v >= 16 {
      HexDigitsLead(v / 16);
      assert HexDigits(v)[0] == HexDigits(v / 16)[0];
    }
  }

  lemma {:induction false} ZerosAreZero(n: nat)
    ensures forall i :: 0 <= i < n ==> Zeros(n)[i] == '0'
  {
    if n > 0 {
      ZerosAreZero(n - 1);
    }
  }
}
