/** The number formatting the printer borrows from its host language:
    decimal `str(n)` / `"%d" % n`, hexadecimal `hex(n)`, and the
    little-endian packing `struct.pack("<L"/"<Q", n)` used for the
    printable-bytes preview of an immediate. */
module PyFormat {

  /** The digit character for `d`: `0`-`9`, then lower-case `a`-`f`. */
  function DigitChar(d: nat): (c: char)
    requires d < 16
    ensures DigitValue(c) == d
  {
    if d < 10 then ('0' as int + d) as char else ('a' as int + d - 10) as char
  }

  /** Digits of `n` in `base`, most significant first, without leading zeros. */
  function Digits(n: nat, base: nat): (s: string)
    requires 2 <= base <= 16
    ensures 1 <= |s|
    ensures '0' <= s[0] <= '9' || 'a' <= s[0] <= 'f'
    ensures base <= 10 ==> '0' <= s[0] <= '9'
    decreases n
  {
    if n < base then [DigitChar(n)]
    else
      DivModBounds(n, base);
      Digits(n / base, base) + [DigitChar(n % base)]
  }

  lemma DivModBounds(n: nat, base: nat)
    requires 2 <= base <= n
    ensures 0 <= n % base < base && 1 <= n / base < n
    ensures (n / base) * base + n % base == n
  {
  }

  /** The value of a digit string (the inverse of `Digits`). */
  function DigitsValue(s: string, base: nat): int
    requires 2 <= base <= 16
  {
    if s == [] then 0 else DigitsValue(s[..|s| - 1], base) * base + DigitValue(s[|s| - 1])
  }

  function DigitValue(c: char): int
  {
    if '0' <= c <= '9' then c as int - '0' as int
    else if 'a' <= c <= 'f' then c as int - 'a' as int + 10
    else 0
  }

  /** `Digits` and `DigitsValue` are inverse: no value is lost by printing it. */
  lemma {:induction false} DigitsRoundTrip(n: nat, base: nat)
    requires 2 <= base <= 16
    ensures DigitsValue(Digits(n, base), base) == n
    decreases n
  {
    var s := Digits(n, base);
    if n < base {
      assert s[..|s| - 1] == [];
    } else {
      DivModBounds(n, base);
      DigitsRoundTrip(n / base, base);
      assert s[..|s| - 1] == Digits(n / base, base);
    }
  }

  /** `str(n)`: decimal digits with a leading minus for a negative value. */
  function DecimalString(n: int): (s: string)
    ensures |s| >= 1
    ensures s[0] == '-' <==> n < 0
    ensures n >= 0 ==> '0' <= s[0] <= '9'
  {
    if n < 0 then "-" + Digits(-n, 10) else Digits(n, 10)
  }

  /** `hex(n)`: `0x` and lower-case hexadecimal digits, `-0x` for a negative value. */
  function HexString(n: int): (s: string)
    ensures |s| >= 3
    ensures n < 0 ==> s[..3] == "-0x"
    ensures n >= 0 ==> s[..2] == "0x"
  {
    if n < 0 then "-0x" + Digits(-n, 16) else "0x" + Digits(n, 16)
  }

  /** Reading back what `DecimalString` printed gives the value again. */
  lemma DecimalStringRoundTrip(n: int)
    ensures var s := DecimalString(n);
            (if s[0] == '-' then -DigitsValue(s[1..], 10) else DigitsValue(s, 10)) == n
  {
    var s := DecimalString(n);
    if n < 0 {
      assert s[1..] == Digits(-n, 10);
      DigitsRoundTrip(-n, 10);
    } else {
      DigitsRoundTrip(n, 10);
    }
  }

  /** Reading back what `HexString` printed gives the value again. */
  lemma HexStringRoundTrip(n: int)
    ensures var s := HexString(n);
            (if s[0] == '-' then -DigitsValue(s[3..], 16) else DigitsValue(s[2..], 16)) == n
  {
    var s := HexString(n);
    if n < 0 {
      assert s[3..] == Digits(-n, 16);
      DigitsRoundTrip(-n, 16);
    } else {
      assert s[2..] == Digits(n, 16);
      DigitsRoundTrip(n, 16);
    }
  }

  function Pow256(w: nat): (p: nat)
    ensures p >= 1
  {
    if w == 0 then 1 else 256 * Pow256(w - 1)
  }

  /** The `w` bytes of `v` in little-endian order, as `struct.pack` lays
      out an unsigned value of that width. */
  function LeBytes(v: nat, w: nat): (b: seq<int>)
    ensures |b| == w
    ensures forall j :: 0 <= j < w ==> 0 <= b[j] < 256
  {
    if w == 0 then [] else [v % 256] + LeBytes(v / 256, w - 1)
  }

  /** The unsigned little-endian value of a byte sequence. */
  function LeValue(b: seq<int>): int
  {
    if b == [] then 0 else b[0] + 256 * LeValue(b[1..])
  }

  lemma ModOfDecomposition(v: nat, m: nat, q: nat, r: nat)
    requires m >= 1 && v == m * q + r && r < m
    ensures v % m == r
  {
    var q', r' := v / m, v % m;
    assert v == m * q' + r' && 0 <= r' < m;
    if q < q' {
      var d := q' - q;
      assert m * q' == m * q + m * d;
      MulAtLeast(m, d);
    } else if q > q' {
      var d := q - q';
      assert m * q == m * q' + m * d;
      MulAtLeast(m, d);
    }
  }

  lemma MulAtLeast(m: nat, d: nat)
    requires d >= 1
    ensures m * d >= m
  {
    assert m * d == m + m * (d - 1);
  }

  lemma DivMod256(v: nat, p: nat)
    requires p >= 1
    ensures v % 256 + 256 * ((v / 256) % p) == v % (256 * p)
  {
    var q := v / 256;
    var r := v % 256;
    var s := q / p;
    var t := q % p;
    assert q == p * s + t;
    assert 256 * q == 256 * (p * s) + 256 * t;
    assert 256 * (p * s) == (256 * p) * s;
    assert v == (256 * p) * s + (256 * t + r);
    assert 256 * t + r < 256 * p by {
      assert t <= p - 1;
      assert 256 * t <= 256 * (p - 1);
    }
    ModOfDecomposition(v, 256 * p, s, 256 * t + r);
  }

  /** Packing keeps exactly the low `w` bytes of the value: it is the
      identity on the values that fit in `w` bytes. */
  lemma {:induction false} LeBytesRoundTrip(v: nat, w: nat)
    ensures LeValue(LeBytes(v, w)) == v % Pow256(w)
  {
    if w > 0 {
      LeBytesRoundTrip(v / 256, w - 1);
      var b := LeBytes(v, w);
      assert b[1..] == LeBytes(v / 256, w - 1);
      DivMod256(v, Pow256(w - 1));
    }
  }

  /** `"".join(map(chr, b))`: the bytes as characters of the same code. */
  function BytesAsText(b: seq<int>): (s: string)
    requires forall j :: 0 <= j < |b| ==> 0 <= b[j] < 256
    ensures |s| == |b|
    ensures forall j :: 0 <= j < |b| ==> s[j] as int == b[j]
  {
    if b == [] then "" else [b[0] as char] + BytesAsText(b[1..])
  }
}
