/** Bytes, 16-bit code units and the little-endian layouts shared by the YMO
    writer (translate/po2ymo.py) and the YMO reader (I18n.hpp). */
module Bytes {

  /** One octet of a buffer or of the generated file. */
  type Byte = x: int | 0 <= x < 0x100

  /** One UTF-16 code unit, the storage unit of a Windows `wchar_t`. */
  type CodeUnit = x: int | 0 <= x < 0x1_0000

  const TWO16: int := 0x1_0000
  const TWO32: int := 0x1_0000_0000

  /** `readU16` of the loader: the two bytes at `at`, low byte first.  The C++
      code ORs the low byte with the high byte shifted by 8; the two never
      overlap, so the OR is the sum written here. */
  function ReadU16(buf: seq<Byte>, at: nat): (r: nat)
    requires at + 2 <= |buf|
    ensures r < TWO16
  {
    buf[at] as int + 0x100 * buf[at + 1] as int
  }

  /** `readU32` of the loader: the four bytes at `at`, least significant first. */
  function ReadU32(buf: seq<Byte>, at: nat): (r: nat)
    requires at + 4 <= |buf|
    ensures r < TWO32
  {
    buf[at] as int + 0x100 * buf[at + 1] as int + 0x1_0000 * buf[at + 2] as int
      + 0x100_0000 * buf[at + 3] as int
  }

  /** `int.to_bytes(2, "little")`. */
  function U16Le(n: nat): (r: seq<Byte>)
    requires n < TWO16
    ensures |r| == 2
  {
    [n % 0x100, n / 0x100]
  }

  /** `int.to_bytes(4, "little")`. */
  function U32Le(n: nat): (r: seq<Byte>)
    requires n < TWO32
    ensures |r| == 4
  {
    [n % 0x100, (n / 0x100) % 0x100, (n / 0x1_0000) % 0x100, n / 0x100_0000]
  }

  /** Reading back what `U16Le` wrote gives the number written. */
  lemma ReadU16OfU16Le(buf: seq<Byte>, at: nat, n: nat)
    requires n < TWO16 && at + 2 <= |buf|
    requires buf[at..at + 2] == U16Le(n)
    ensures ReadU16(buf, at) == n
  {
    assert buf[at] == U16Le(n)[0] && buf[at + 1] == U16Le(n)[1];
  }

  /** Reading back what `U32Le` wrote gives the number written. */
  lemma ReadU32OfU32Le(buf: seq<Byte>, at: nat, n: nat)
    requires n < TWO32 && at + 4 <= |buf|
    requires buf[at..at + 4] == U32Le(n)
    ensures ReadU32(buf, at) == n
  {
    var w := U32Le(n);
    assert buf[at] == w[0] && buf[at + 1] == w[1] && buf[at + 2] == w[2] && buf[at + 3] == w[3];
    var q1, q2 := n / 0x100, n / 0x1_0000;
    assert q1 == 0x100 * (q1 / 0x100) + q1 % 0x100;
    assert q1 / 0x100 == q2;
    assert q2 == 0x100 * (q2 / 0x100) + q2 % 0x100;
    assert q2 / 0x100 == n / 0x100_0000;
  }

  /** A 16-bit read inside the first part of a concatenation. */
  lemma ReadU16Left(a: seq<Byte>, b: seq<Byte>, at: nat)
    requires at + 2 <= |a|
    ensures ReadU16(a + b, at) == ReadU16(a, at)
  {
  }

  /** A 16-bit read inside the second part of a concatenation. */
  lemma ReadU16Right(a: seq<Byte>, b: seq<Byte>, at: nat)
    requires |a| <= at && at + 2 <= |a| + |b|
    ensures ReadU16(a + b, at) == ReadU16(b, at - |a|)
  {
  }

  /** A 32-bit read inside the first part of a concatenation. */
  lemma ReadU32Left(a: seq<Byte>, b: seq<Byte>, at: nat)
    requires at + 4 <= |a|
    ensures ReadU32(a + b, at) == ReadU32(a, at)
  {
  }

  /** A 32-bit read inside the second part of a concatenation. */
  lemma ReadU32Right(a: seq<Byte>, b: seq<Byte>, at: nat)
    requires |a| <= at && at + 4 <= |a| + |b|
    ensures ReadU32(a + b, at) == ReadU32(b, at - |a|)
  {
  }

  /** Bitwise exclusive or of two naturals, one bit at a time (Python's `^`
      on non-negative integers). */
  function Xor(a: nat, b: nat): nat
    decreases a + b
  {
    if a == 0 then b
    else if b == 0 then a
    else (a % 2 + b % 2) % 2 + 2 * Xor(a / 2, b / 2)
  }

  // ---------------------------------------------------------------------
  // UTF-16: Python's `str.encode("utf-16le")` and the in-memory layout of a
  // `const wchar_t*`.

  /** The code units of one Unicode scalar value: itself when it fits in 16
      bits, otherwise a high and a low surrogate. */
  function CharUnits(c: char): (r: seq<CodeUnit>)
    ensures 1 <= |r| <= 2
    ensures (0 in r) <==> c == '\0'
  {
    var v := c as int;
    if v < TWO16 then [v]
    else [0xD800 + (v - TWO16) / 0x400, 0xDC00 + (v - TWO16) % 0x400]
  }

  /** The UTF-16 code units of a string, in order. */
  function EncodeUtf16(s: string): (r: seq<CodeUnit>)
    ensures |r| >= |s|
    ensures (0 in r) <==> '\0' in s
  {
    if s == [] then [] else CharUnits(s[0]) + EncodeUtf16(s[1..])
  }

  /** Encoding distributes over concatenation. */
  lemma {:induction false} EncodeUtf16Append(s: string, t: string)
    ensures EncodeUtf16(s + t) == EncodeUtf16(s) + EncodeUtf16(t)
  {
    if s != [] {
      assert (s + t)[1..] == s[1..] + t;
      EncodeUtf16Append(s[1..], t);
    } else {
      assert s + t == t;
    }
  }

  /** Little-endian bytes of a code-unit sequence, two per unit. */
  function Utf16Le(units: seq<CodeUnit>): (r: seq<Byte>)
    ensures |r| == 2 * |units|
  {
    if units == [] then [] else U16Le(units[0]) + Utf16Le(units[1..])
  }

  /** The `k`th code unit can be read back from its two bytes. */
  lemma {:induction false} ReadU16OfUtf16Le(units: seq<CodeUnit>, k: nat)
    requires k < |units|
    ensures ReadU16(Utf16Le(units), 2 * k) == units[k]
  {
    var b := Utf16Le(units);
    if k == 0 {
      assert b[0..2] == U16Le(units[0]);
      ReadU16OfU16Le(b, 0, units[0]);
    } else {
      ReadU16OfUtf16Le(units[1..], k - 1);
      var rest := Utf16Le(units[1..]);
      assert b == U16Le(units[0]) + rest;
      assert b[2 * k] == rest[2 * (k - 1)] && b[2 * k + 1] == rest[2 * (k - 1) + 1];
    }
  }

  /** Little-endian encoding distributes over concatenation. */
  lemma {:induction false} Utf16LeAppend(u: seq<CodeUnit>, v: seq<CodeUnit>)
    ensures Utf16Le(u + v) == Utf16Le(u) + Utf16Le(v)
  {
    if u != [] {
      assert (u + v)[1..] == u[1..] + v;
      Utf16LeAppend(u[1..], v);
    } else {
      assert u + v == v;
    }
  }

  /** The part of a code-unit sequence before its first zero unit: what
      `wcslen` measures and what a `const wchar_t*` denotes. */
  function TakeUntilNul(units: seq<CodeUnit>): (r: seq<CodeUnit>)
    ensures 0 !in r
    ensures |r| <= |units| && r == units[..|r|]
    ensures |r| < |units| ==> units[|r|] == 0
  {
    if units == [] || units[0] == 0 then [] else [units[0]] + TakeUntilNul(units[1..])
  }
}
