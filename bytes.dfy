/**
 * Bytes as the WebAssembly linear memory and the shared stdin buffer hold them:
 * little-endian 32-bit words (what `DataView.getUint32(p, true)`/`setUint32(p, v, true)`
 * and an `Int32Array` view read and write) and the UTF-8 bytes `TextEncoder` produces.
 */
module Bytes {

  type Byte = x: int | 0 <= x < 256

  const TWO32: int := 0x1_0000_0000
  const TWO31: int := 0x8000_0000

  /** `DataView.getUint32(p, true)`. */
  function Get32(m: seq<Byte>, p: int): (v: nat)
    requires 0 <= p && p + 4 <= |m|
    ensures v < TWO32
  {
    (m[p] as int) + 256 * (m[p + 1] as int) + 65536 * (m[p + 2] as int) + 16777216 * (m[p + 3] as int)
  }

  /** The four bytes `setUint32(p, v, true)` stores: `v` reduced modulo 2^32 (ToUint32), low byte first. */
  function LE32(v: int): (b: seq<Byte>)
    ensures |b| == 4
  {
    var u := v % TWO32;
    var q1 := u / 256;
    var q2 := q1 / 256;
    var q3 := q2 / 256;
    [u % 256, q1 % 256, q2 % 256, q3 % 256]
  }

  /** Memory after `setUint32(p, v, true)`. */
  function Put32(m: seq<Byte>, p: int, v: int): (r: seq<Byte>)
    requires 0 <= p && p + 4 <= |m|
    ensures |r| == |m|
    ensures r[..p] == m[..p] && r[p + 4..] == m[p + 4..]
  {
    m[..p] + LE32(v) + m[p + 4..]
  }

  lemma LE32Decodes(v: int)
    ensures Get32(LE32(v), 0) == v % TWO32
  {
    var u := v % TWO32;
    var q1 := u / 256;
    var q2 := q1 / 256;
    var q3 := q2 / 256;
    assert u == u % 256 + 256 * q1;
    assert q1 == q1 % 256 + 256 * q2;
    assert q2 == q2 % 256 + 256 * q3;
    assert q1 < 16777216 && q2 < 65536 && q3 < 256;
    assert q3 % 256 == q3;
  }

  /** A stored word reads back as the stored value modulo 2^32. */
  lemma {:induction false} GetPut32(m: seq<Byte>, p: int, v: int)
    requires 0 <= p && p + 4 <= |m|
    ensures Get32(Put32(m, p, v), p) == v % TWO32
  {
    var r := Put32(m, p, v);
    var b := LE32(v);
    assert r[p] == b[0] && r[p + 1] == b[1] && r[p + 2] == b[2] && r[p + 3] == b[3];
    LE32Decodes(v);
  }

  /** A stored word leaves every word that does not overlap it unchanged. */
  lemma GetPut32Other(m: seq<Byte>, p: int, q: int, v: int)
    requires 0 <= p && p + 4 <= |m| && 0 <= q && q + 4 <= |m|
    requires q + 4 <= p || p + 4 <= q
    ensures Get32(Put32(m, p, v), q) == Get32(m, q)
  {
    var r := Put32(m, p, v);
    if q + 4 <= p {
      assert r[q..q + 4] == m[q..q + 4] by { assert r[..p] == m[..p]; }
    } else {
      assert forall k :: p + 4 <= k < |m| ==> r[k] == m[k] by {
        forall k | p + 4 <= k < |m| ensures r[k] == m[k] {
          assert r[k] == r[p + 4..][k - p - 4];
        }
      }
    }
  }

  /** The value an `Int32Array` element holds for the unsigned word `u`. */
  function AsInt32(u: nat): (i: int)
    requires u < TWO32
    ensures -TWO31 <= i < TWO31
    ensures 0 <= i ==> i == u
  {
    if u >= TWO31 then u - TWO32 else u
  }

  // ---- UTF-8, as TextEncoder.encode produces it ----

  function Utf8Char(c: char): (b: seq<Byte>)
    ensures 1 <= |b| <= 4
    ensures (c as int < 128) <==> |b| == 1
    ensures |b| == 1 ==> b[0] == c as int
  {
    var n := c as int;
    if n < 0x80 then [n]
    else if n < 0x800 then [0xC0 + n / 64, 0x80 + n % 64]
    else if n < 0x10000 then [0xE0 + n / 4096, 0x80 + (n / 64) % 64, 0x80 + n % 64]
    else [0xF0 + n / 262144, 0x80 + (n / 4096) % 64, 0x80 + (n / 64) % 64, 0x80 + n % 64]
  }

  /** `new TextEncoder().encode(s)`. */
  function Utf8(s: string): seq<Byte> {
    if s == [] then [] else Utf8Char(s[0]) + Utf8(s[1..])
  }

  lemma {:induction false} Utf8Append(a: string, b: string)
    ensures Utf8(a + b) == Utf8(a) + Utf8(b)
    decreases |a|
  {
    if a == [] {
      assert a + b == b;
    } else {
      assert (a + b)[1..] == a[1..] + b;
      Utf8Append(a[1..], b);
    }
  }

  /** Every character costs one to four bytes. */
  lemma {:induction false} Utf8Length(s: string)
    ensures |s| <= |Utf8(s)| <= 4 * |s|
  {
    if s != [] {
      Utf8Length(s[1..]);
    }
  }

  /** Text that ends in a line feed encodes to bytes ending in byte 10 (a line feed is one byte). */
  lemma Utf8EndsWithNewline(s: string)
    ensures Utf8(s + "\n") == Utf8(s) + [10]
    ensures Utf8(s + "\n")[|Utf8(s + "\n")| - 1] == 10
  {
    Utf8Append(s, "\n");
  }
}
