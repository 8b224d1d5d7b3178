/** Hexadecimal and decimal numerals as the maps line format uses them:
    lowercase hex digits read and written by the hand-rolled parser and
    by `%x`, and decimal digits read by `strtoull` and written by `%llu`. */
module Numerals {
  import opened Base

  /** The character at `i`: the terminating '\0' at the end, and '\0'
      for every position beyond it too. */
  function CharAt(s: seq<char>, i: nat): char
  {
    if i < |s| then s[i] else '\0'
  }

  // ---------------------------------------------------------------
  // Digits

  /** Only lowercase letters count: the parser has no 'A'-'F' case. */
  predicate IsHexDigit(c: char)
  {
    ('0' <= c <= '9') || ('a' <= c <= 'f')
  }

  function HexDigitValue(c: char): nat
    requires IsHexDigit(c)
  {
    if c <= '9' then c as int - '0' as int else c as int - 'a' as int + 10
  }

  /** The digit `%x` prints for `d`; it reads back as `d`. */
  function HexChar(d: nat): (c: char)
    requires d < 16
    ensures IsHexDigit(c) && HexDigitValue(c) == d
  {
    if d < 10 then ('0' as int + d) as char else ('a' as int + d - 10) as char
  }

  predicate IsDecDigit(c: char)
  {
    '0' <= c <= '9'
  }

  function DecChar(d: nat): (c: char)
    requires d < 10
    ensures IsDecDigit(c) && c as int - '0' as int == d
  {
    ('0' as int + d) as char
  }

  ghost predicate AllHex(s: seq<char>)
  {
    forall i :: 0 <= i < |s| ==> IsHexDigit(s[i])
  }

  ghost predicate AllDec(s: seq<char>)
  {
    forall i :: 0 <= i < |s| ==> IsDecDigit(s[i])
  }

  // ---------------------------------------------------------------
  // Values of digit strings

  /** The value of a hex digit string, most significant digit first. */
  function HexValue(d: seq<char>): nat
    requires AllHex(d)
  {
    if d == [] then 0 else HexValue(d[..|d| - 1]) * 16 + HexDigitValue(d[|d| - 1])
  }

  /** The same value accumulated in an unsigned integer of modulus `m`
      (`value = (value << 4) | digit`, which wraps). */
  function HexValueWrapped(d: seq<char>, m: nat): nat
    requires AllHex(d) && m > 0
  {
    if d == [] then 0 else ShiftIn(HexValueWrapped(d[..|d| - 1], m), HexDigitValue(d[|d| - 1]), m)
  }

  /** `(value << 4) | digit` in an unsigned integer of modulus `m`. */
  function ShiftIn(value: nat, digit: nat, m: nat): (r: nat)
    requires m > 0
    ensures r < m
  {
    (value * 16 + digit) % m
  }

  function DecValue(d: seq<char>): nat
    requires AllDec(d)
  {
    if d == [] then 0 else DecValue(d[..|d| - 1]) * 10 + (d[|d| - 1] as int - '0' as int)
  }

  lemma {:induction false} MulAtLeast(k: int, m: int)
    requires k >= 1 && m > 0
    ensures k * m >= m
    decreases k
  {
    if k > 1 {
      MulAtLeast(k - 1, m);
      assert k * m == (k - 1) * m + m;
    }
  }

  /** Quotient and remainder are unique. */
  lemma ModUnique(n: int, m: int, q: int, r: int)
    requires m > 0 && 0 <= r < m && n == q * m + r
    ensures n % m == r && n / m == q
  {
    var q2, r2 := n / m, n % m;
    assert n == q2 * m + r2;
    if q > q2 {
      assert (q - q2) * m == r2 - r;
      MulAtLeast(q - q2, m);
    } else if q < q2 {
      assert (q2 - q) * m == r - r2;
      MulAtLeast(q2 - q, m);
    }
  }

  lemma ModStep(a: nat, x: nat, m: nat)
    requires m > 0
    ensures ((a % m) * 16 + x) % m == (a * 16 + x) % m
  {
    var q, r := a / m, a % m;
    var n := r * 16 + x;
    var q2, r2 := n / m, n % m;
    assert a * 16 + x == (q * 16 + q2) * m + r2;
    ModUnique(a * 16 + x, m, q * 16 + q2, r2);
  }

  /** Wrapping accumulation is the plain value reduced once at the end. */
  lemma {:induction false} WrappedIsMod(d: seq<char>, m: nat)
    requires AllHex(d) && m > 0
    ensures HexValueWrapped(d, m) == HexValue(d) % m
  {
    if d != [] {
      WrappedIsMod(d[..|d| - 1], m);
      ModStep(HexValue(d[..|d| - 1]), HexDigitValue(d[|d| - 1]), m);
    }
  }

  // ---------------------------------------------------------------
  // Printing

  /** `%x`: the shortest lowercase hex numeral of `v`. */
  function FormatHex(v: nat): (s: seq<char>)
    ensures |s| >= 1
  {
    if v < 16 then [HexChar(v)] else FormatHex(v / 16) + [HexChar(v % 16)]
  }

  /** `%0<w>x`: zero-padded on the left to at least `w` digits. */
  function FormatHexPadded(v: nat, w: nat): (s: seq<char>)
    ensures |s| >= w
  {
    var digits := FormatHex(v);
    Zeros(w - |digits|) + digits
  }

  /** `%llu`: the shortest decimal numeral of `v`. */
  function FormatDec(v: nat): (s: seq<char>)
    ensures |s| >= 1
  {
    if v < 10 then [DecChar(v)] else FormatDec(v / 10) + [DecChar(v % 10)]
  }

  function Zeros(n: int): (s: seq<char>)
    ensures |s| == if n > 0 then n else 0
    decreases n
  {
    if n <= 0 then [] else Zeros(n - 1) + ['0']
  }

  lemma {:induction false} FormatHexDigits(v: nat)
    ensures AllHex(FormatHex(v))
  {
    if v >= 16 {
      FormatHexDigits(v / 16);
    }
  }

  lemma {:induction false} FormatDecDigits(v: nat)
    ensures AllDec(FormatDec(v))
  {
    if v >= 10 {
      FormatDecDigits(v / 10);
    }
  }

  /** Reading back what `%x` printed gives the number. */
  lemma {:induction false} HexRoundTrip(v: nat)
    ensures AllHex(FormatHex(v)) && HexValue(FormatHex(v)) == v
  {
    FormatHexDigits(v);
    if v >= 16 {
      HexRoundTrip(v / 16);
      var s := FormatHex(v);
      assert s[..|s| - 1] == FormatHex(v / 16);
    }
  }

  lemma {:induction false} DecRoundTrip(v: nat)
    ensures AllDec(FormatDec(v)) && DecValue(FormatDec(v)) == v
  {
    FormatDecDigits(v);
    if v >= 10 {
      DecRoundTrip(v / 10);
      var s := FormatDec(v);
      assert s[..|s| - 1] == FormatDec(v / 10);
    }
  }

  /** Leading zeros do not change a hex value. */
  lemma {:induction false} ZerosPrefix(k: int, d: seq<char>)
    requires AllHex(d)
    ensures AllHex(Zeros(k) + d) && HexValue(Zeros(k) + d) == HexValue(d)
    decreases if k > 0 then k else 0, |d|
  {
    var s := Zeros(k) + d;
    assert AllHex(s) by {
      forall i | 0 <= i < |s|
        ensures IsHexDigit(s[i])
      {
        if i >= |Zeros(k)| {
          assert s[i] == d[i - |Zeros(k)|];
        } else {
          ZerosAreZero(k, i);
        }
      }
    }
    if d == [] {
      assert s == Zeros(k);
      if k > 0 {
        ZerosPrefix(k - 1, []);
        assert Zeros(k)[..|Zeros(k)| - 1] == Zeros(k - 1) + [];
      }
    } else {
      ZerosPrefix(k, d[..|d| - 1]);
      assert s[..|s| - 1] == Zeros(k) + d[..|d| - 1];
    }
  }

  lemma {:induction false} ZerosAreZero(k: int, i: nat)
    requires i < |Zeros(k)|
    ensures Zeros(k)[i] == '0'
    decreases k
  {
    if i < |Zeros(k)| - 1 {
      ZerosAreZero(k - 1, i);
    }
  }

  /** Reading back what `%0<w>x` printed gives the number. */
  lemma PaddedHexRoundTrip(v: nat, w: nat)
    ensures AllHex(FormatHexPadded(v, w)) && HexValue(FormatHexPadded(v, w)) == v
  {
    HexRoundTrip(v);
    ZerosPrefix(w - |FormatHex(v)|, FormatHex(v));
  }

  /** Exponentiation, for length bounds. */
  function Pow(b: nat, k: nat): nat
  {
    if k == 0 then 1 else b * Pow(b, k - 1)
  }

  /** A number of at least 16^k needs more than k hex digits. */
  lemma {:induction false} FormatHexLength(v: nat, k: nat)
    requires v >= Pow(16, k)
    ensures |FormatHex(v)| > k
  {
    if k > 0 {
      assert v / 16 >= Pow(16, k - 1);
      FormatHexLength(v / 16, k - 1);
    }
  }

  /** A number of at least 10^k needs more than k decimal digits. */
  lemma {:induction false} FormatDecLength(v: nat, k: nat)
    requires v >= Pow(10, k)
    ensures |FormatDec(v)| > k
  {
    if k > 0 {
      assert v / 10 >= Pow(10, k - 1);
      FormatDecLength(v / 10, k - 1);
    }
  }

  lemma PowFacts()
    ensures Pow(16, 16) == TWO64 && Pow(16, 8) == TWO32 && Pow(10, 20) > TWO64
    ensures Pow(16, 15) < TWO64 && Pow(16, 7) < TWO32 && Pow(10, 19) < TWO64
  {
    assert Pow(16, 4) == 0x1_0000;
    assert Pow(16, 7) == 0x1000_0000;
    assert Pow(16, 8) == TWO32;
    assert Pow(16, 12) == 0x1_0000_0000_0000;
    assert Pow(16, 15) == 0x1000_0000_0000_0000;
    assert Pow(16, 16) == TWO64;
    assert Pow(10, 5) == 100000;
    assert Pow(10, 10) == 10000000000;
    assert Pow(10, 15) == 1000000000000000;
    assert Pow(10, 19) == 10000000000000000000;
    assert Pow(10, 20) == 100000000000000000000;
  }

  lemma {:induction false} FormatHexBound(v: nat, k: nat)
    requires v < Pow(16, k + 1)
    ensures |FormatHex(v)| <= k + 1
  {
    if v >= 16 {
      assert k >= 1;
      assert v / 16 < Pow(16, k);
      FormatHexBound(v / 16, k - 1);
    }
  }

  lemma {:induction false} FormatDecBound(v: nat, k: nat)
    requires v < Pow(10, k + 1)
    ensures |FormatDec(v)| <= k + 1
  {
    if v >= 10 {
      assert k >= 1;
      assert v / 10 < Pow(10, k);
      FormatDecBound(v / 10, k - 1);
    }
  }

  lemma HexWidth64(v: u64)
    ensures |FormatHex(v)| <= 16 && |FormatHexPadded(v, 8)| <= 16
  {
    PowFacts();
    FormatHexBound(v, 15);
  }

  lemma HexWidth32(v: u32)
    ensures |FormatHex(v)| <= 8 && |FormatHexPadded(v, 2)| <= 8
  {
    PowFacts();
    FormatHexBound(v, 7);
  }

  lemma DecWidth64(v: u64)
    ensures |FormatDec(v)| <= 20
  {
    PowFacts();
    FormatDecBound(v, 19);
  }

  // ---------------------------------------------------------------
  // Scanning

  /** The length of the run of hex digits starting at `i`. */
  function HexRun(s: seq<char>, i: nat): (n: nat)
    ensures i + n <= |s| || n == 0
    decreases |s| - i
  {
    if i < |s| && IsHexDigit(s[i]) then 1 + HexRun(s, i + 1) else 0
  }

  function DecRun(s: seq<char>, i: nat): (n: nat)
    ensures i + n <= |s| || n == 0
    decreases |s| - i
  {
    if i < |s| && IsDecDigit(s[i]) then 1 + DecRun(s, i + 1) else 0
  }

  lemma {:induction false} DecRunSpec(s: seq<char>, i: nat)
    ensures i <= |s| ==> AllDec(s[i..i + DecRun(s, i)])
    decreases |s| - i
  {
    if i < |s| && IsDecDigit(s[i]) {
      DecRunSpec(s, i + 1);
      var n := DecRun(s, i);
      assert s[i..i + n] == [s[i]] + s[i + 1..i + n];
    }
  }

  /** A run of digits ended by a non-digit is exactly what HexRun finds. */
  lemma {:induction false} HexRunOf(s: seq<char>, i: nat, d: seq<char>)
    requires i + |d| <= |s| && s[i..i + |d|] == d && AllHex(d)
    requires !IsHexDigit(CharAt(s, i + |d|))
    ensures HexRun(s, i) == |d|
    decreases |d|
  {
    if d != [] {
      assert s[i] == d[0];
      assert s[i + 1..i + 1 + |d[1..]|] == d[1..];
      HexRunOf(s, i + 1, d[1..]);
    }
  }

  lemma {:induction false} DecRunOf(s: seq<char>, i: nat, d: seq<char>)
    requires i + |d| <= |s| && s[i..i + |d|] == d && AllDec(d)
    requires !IsDecDigit(CharAt(s, i + |d|))
    ensures DecRun(s, i) == |d|
    decreases |d|
  {
    if d != [] {
      assert s[i] == d[0];
      assert s[i + 1..i + 1 + |d[1..]|] == d[1..];
      DecRunOf(s, i + 1, d[1..]);
    }
  }

  /** What FastParseHex returns from `i`: the digits there, accumulated
      in an unsigned integer of modulus `m`. */
  function HexScanValue(s: seq<char>, i: nat, m: nat): (v: nat)
    requires m > 0
    ensures v < m
  {
    HexScanFrom(s, i, 0, m)
  }

  /** The accumulation itself, carried on from `acc` at `i`. */
  function HexScanFrom(s: seq<char>, i: nat, acc: nat, m: nat): (v: nat)
    requires m > 0 && acc < m
    ensures v < m
    decreases |s| - i
  {
    if i < |s| && IsHexDigit(s[i]) then HexScanFrom(s, i + 1, ShiftIn(acc, HexDigitValue(s[i]), m), m)
    else acc
  }

  /** Carrying on over the digits `d` extends the digits read so far. */
  lemma {:induction false} HexScanFromOf(s: seq<char>, i: nat, p: seq<char>, d: seq<char>, m: nat)
    requires m > 0 && AllHex(p) && AllHex(d) && i + |d| <= |s| && s[i..i + |d|] == d
    requires !IsHexDigit(CharAt(s, i + |d|))
    ensures HexScanFrom(s, i, HexValueWrapped(p, m), m) == HexValueWrapped(p + d, m)
    decreases |d|
  {
    if d == [] {
      assert p + d == p;
    } else {
      assert s[i] == d[0];
      var q := p + [d[0]];
      assert q[..|q| - 1] == p;
      assert s[i + 1..i + 1 + |d[1..]|] == d[1..];
      HexScanFromOf(s, i + 1, q, d[1..], m);
      assert q + d[1..] == p + d;
    }
  }

  /** Where FastParseHex leaves the cursor: one past the character that
      ended the digits. */
  function HexScanNext(s: seq<char>, i: nat): nat
  {
    i + HexRun(s, i) + 1
  }

  /** The characters `isspace` accepts. */
  predicate IsSpace(c: char)
  {
    c == ' ' || c == '\t' || c == '\n' || c == '\U{b}' || c == '\U{c}' || c == '\r'
  }

  function SkipSpaces(s: seq<char>, i: nat): (j: nat)
    ensures j >= i
    decreases |s| - i
  {
    if i < |s| && IsSpace(s[i]) then SkipSpaces(s, i + 1) else i
  }

  /** `strtoull(s + i, _, 10)`: leading white space, an optional sign,
      then decimal digits; an out-of-range value saturates to the largest
      64-bit value, and a minus sign negates modulo 2^64 otherwise. */
  function StrToULL(s: seq<char>, i: nat): (v: u64)
  {
    var j := SkipSpaces(s, i);
    var negative := CharAt(s, j) == '-';
    var k := if CharAt(s, j) == '-' || CharAt(s, j) == '+' then j + 1 else j;
    if k > |s| then 0
    else
      DecRunSpec(s, k);
      var magnitude := DecValue(s[k..k + DecRun(s, k)]);
      if magnitude >= TWO64 then TWO64 - 1
      else if negative then (TWO64 - magnitude) % TWO64
      else magnitude
  }

  /** A run of hex digits followed by a non-digit scans to its value,
      when that value fits. */
  lemma HexScanOf(s: seq<char>, i: nat, d: seq<char>, m: nat)
    requires m > 0 && i + |d| <= |s| && s[i..i + |d|] == d && AllHex(d) && HexValue(d) < m
    requires !IsHexDigit(CharAt(s, i + |d|))
    ensures HexScanValue(s, i, m) == HexValue(d) && HexScanNext(s, i) == i + |d| + 1
  {
    HexRunOf(s, i, d);
    HexScanFromOf(s, i, [], d, m);
    assert [] + d == d;
    WrappedIsMod(d, m);
    ModUnique(HexValue(d), m, 0, HexValue(d));
  }

  /** An unsigned decimal numeral followed by a non-digit reads back. */
  lemma StrToULLOf(s: seq<char>, i: nat, d: seq<char>)
    requires i + |d| <= |s| && s[i..i + |d|] == d && AllDec(d) && d != []
    requires !IsDecDigit(CharAt(s, i + |d|)) && DecValue(d) < TWO64
    ensures StrToULL(s, i) == DecValue(d)
  {
    assert s[i] == d[0];
    assert SkipSpaces(s, i) == i;
    DecRunOf(s, i, d);
  }
}
