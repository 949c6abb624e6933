/** Small value-level helpers shared by the model: 32-bit words, optional
    values, C character classes, decimal rendering (printf's %d / %ld) and
    the decimal subset of strtol(3). */
module Util {

  /** A C `uint32_t`, kept as an unbounded integer in range. */
  type u32 = x: int | 0 <= x < 0x1_0000_0000

  const LONG_MIN: int := -0x8000_0000_0000_0000
  const LONG_MAX: int := 0x7fff_ffff_ffff_ffff

  datatype Option<+T> = None | Some(value: T)

  /** Storing a `long` into a 32-bit field keeps its low 32 bits
      (two's complement truncation). */
  function Wrap32(x: int): (r: u32)
    ensures (x - r) % 0x1_0000_0000 == 0
  {
    x % 0x1_0000_0000
  }

  /** The value a 32-bit pattern has when printed with %d. */
  function AsInt32(v: u32): (r: int)
    ensures -0x8000_0000 <= r < 0x8000_0000
    ensures Wrap32(r) == v
  {
    if v < 0x8000_0000 then v else v - 0x1_0000_0000
  }

  // ---------------------------------------------------------------------
  // Character classes of the C locale

  predicate IsDigit(c: char) { '0' <= c <= '9' }

  predicate IsAlpha(c: char) { ('a' <= c <= 'z') || ('A' <= c <= 'Z') }

  predicate IsAlnum(c: char) { IsDigit(c) || IsAlpha(c) }

  /** isspace(3) in the C locale. */
  predicate IsSpace(c: char)
  {
    c == ' ' || c == '\t' || c == '\n' || c == '\r' || c == '\U{C}' || c == '\U{B}'
  }

  /** strchr(3): the index of the first occurrence of `c`, if any. */
  function IndexOf(s: string, c: char): (r: Option<nat>)
    ensures r.Some? ==> r.value < |s| && s[r.value] == c && c !in s[..r.value]
    ensures r.None? ==> c !in s
  {
    if |s| == 0 then None
    else if s[0] == c then Some(0)
    else match IndexOf(s[1..], c)
      case None => None
      case Some(i) => assert s[1..][..i] == s[1..i + 1]; Some(i + 1)
  }

  // ---------------------------------------------------------------------
  // Decimal text

  function DigitChar(d: nat): (c: char)
    requires d < 10
    ensures IsDigit(c)
  {
    "0123456789"[d]
  }

  function DigitValue(c: char): (d: nat)
    requires IsDigit(c)
    ensures d < 10
  {
    (c as int - '0' as int)
  }

  /** The decimal digits of `n`, most significant first, without leading zeros. */
  function NatDigits(n: nat): (s: string)
    ensures |s| >= 1
    ensures forall i :: 0 <= i < |s| ==> IsDigit(s[i])
    decreases n
  {
    if n < 10 then [DigitChar(n)] else NatDigits(n / 10) + [DigitChar(n % 10)]
  }

  /** printf's "%d" / "%ld" of `n`. */
  function Dec(n: int): (s: string)
    ensures |s| >= 1
    ensures n >= 0 ==> forall i :: 0 <= i < |s| ==> IsDigit(s[i])
  {
    if n < 0 then "-" + NatDigits(-n) else NatDigits(n)
  }

  /** The value of a string of decimal digits, read left to right. */
  function DigitsValue(s: string): nat
    requires forall i :: 0 <= i < |s| ==> IsDigit(s[i])
  {
    if s == [] then 0 else DigitsValue(s[..|s| - 1]) * 10 + DigitValue(s[|s| - 1])
  }

  // ---------------------------------------------------------------------
  // strtol(s, &endp, 10)

  /** What strtol produces: the (clamped) value and the index `endp` points at. */
  datatype StrTol = StrTol(value: int, end: nat)

  function SkipSpace(s: string, i: nat): (j: nat)
    requires i <= |s|
    ensures i <= j <= |s|
    ensures j < |s| ==> !IsSpace(s[j])
    ensures forall k :: i <= k < j ==> IsSpace(s[k])
    decreases |s| - i
  {
    if i < |s| && IsSpace(s[i]) then SkipSpace(s, i + 1) else i
  }

  function DigitRun(s: string, i: nat): (j: nat)
    requires i <= |s|
    ensures i <= j <= |s|
    ensures j < |s| ==> !IsDigit(s[j])
    ensures forall k :: i <= k < j ==> IsDigit(s[k])
    decreases |s| - i
  {
    if i < |s| && IsDigit(s[i]) then DigitRun(s, i + 1) else i
  }

  function Clamp(v: int): (r: int)
    ensures LONG_MIN <= r <= LONG_MAX
    ensures LONG_MIN <= v <= LONG_MAX ==> r == v
  {
    if v < LONG_MIN then LONG_MIN else if v > LONG_MAX then LONG_MAX else v
  }

  /** strtol in base 10: leading white space, an optional sign, then digits;
      out-of-range values saturate at LONG_MIN/LONG_MAX; with no digits the
      value is 0 and `endp` is the start of the string. */
  function StrToL(s: string): (r: StrTol)
    ensures r.end <= |s|
    ensures LONG_MIN <= r.value <= LONG_MAX
    ensures r.end > 0 ==> IsDigit(s[r.end - 1])
    ensures r.end == 0 ==> r.value == 0
  {
    var i := SkipSpace(s, 0);
    var neg := i < |s| && s[i] == '-';
    var j := if i < |s| && (s[i] == '-' || s[i] == '+') then i + 1 else i;
    var k := DigitRun(s, j);
    if k == j then StrTol(0, 0)
    else
      var m: int := DigitsValue(s[j..k]);
      StrTol(Clamp(if neg then -m else m), k)
  }

  /** "%d" and strtol agree: the decimal text of a value parses back to it,
      with `endp` at the end of the text. */
  lemma {:induction false} StrToLDec(n: int)
    requires LONG_MIN <= n <= LONG_MAX
    ensures StrToL(Dec(n)) == StrTol(n, |Dec(n)|)
  {
    var s := Dec(n);
    var m := if n < 0 then -n else n;
    var d := NatDigits(m);
    var j := if n < 0 then 1 else 0;
    assert s[j..] == d;
    assert SkipSpace(s, 0) == 0 by {
      if n < 0 { assert s[0] == '-'; } else { assert IsDigit(s[0]); }
    }
    assert DigitRun(s, j) == |s| by { DigitRunAll(s, j); }
    NatDigitsValue(m);
    assert s[j..|s|] == d;
    assert n < 0 <==> (s[0] == '-');
  }

  lemma {:induction false} DigitRunAll(s: string, i: nat)
    requires i <= |s|
    requires forall k :: i <= k < |s| ==> IsDigit(s[k])
    ensures DigitRun(s, i) == |s|
    decreases |s| - i
  {
    if i < |s| { DigitRunAll(s, i + 1); }
  }

  lemma {:induction false} NatDigitsValue(n: nat)
    ensures DigitsValue(NatDigits(n)) == n
    decreases n
  {
    if n >= 10 {
      var s := NatDigits(n);
      assert s[..|s| - 1] == NatDigits(n / 10);
      NatDigitsValue(n / 10);
    }
  }

  // ---------------------------------------------------------------------
  // Sequence facts stated once at an arbitrary element type, so that using
  // them on sequences of strings does not compare the strings themselves

  lemma AppendAssoc<T>(a: seq<T>, b: seq<T>, c: seq<T>)
    ensures (a + b) + c == a + (b + c)
  {
  }

  lemma DropLastAppend<T>(a: seq<T>, b: seq<T>)
    requires b != []
    ensures (a + b)[..|a + b| - 1] == a + b[..|b| - 1]
  {
  }

  lemma AppendEmpty<T>(a: seq<T>)
    ensures a + [] == a
  {
  }

  lemma TakeAll<T>(a: seq<T>)
    ensures a[..|a|] == a
  {
  }

  /** The lines joined. */
  function Flatten(lines: seq<string>): string
  {
    if lines == [] then [] else Flatten(lines[..|lines| - 1]) + lines[|lines| - 1]
  }

  lemma {:induction false} FlattenPrefixLength(lines: seq<string>, k: nat)
    requires k <= |lines|
    ensures |Flatten(lines[..k])| <= |Flatten(lines)|
    decreases |lines|
  {
    if k == |lines| {
      assert lines[..k] == lines;
    } else {
      assert lines[..|lines| - 1][..k] == lines[..k];
      FlattenPrefixLength(lines[..|lines| - 1], k);
    }
  }

  /** Joining distributes over concatenation of the line lists. */
  lemma {:induction false} FlattenAppend(a: seq<string>, b: seq<string>)
    ensures Flatten(a + b) == Flatten(a) + Flatten(b)
    decreases |b|
  {
    if b == [] {
      AppendEmpty(a);
      AppendEmpty(Flatten(a));
    } else {
      DropLastAppend(a, b);
      FlattenAppend(a, b[..|b| - 1]);
      AppendAssoc(Flatten(a), Flatten(b[..|b| - 1]), b[|b| - 1]);
    }
  }
}
