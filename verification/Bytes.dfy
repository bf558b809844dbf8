/** Bytes, 16-bit words with Go's wrap-around, and the byte-list helpers the PDU layouts share. */
module Bytes {

  type Byte = i: int | 0 <= i < 0x100

  type U16 = i: int | 0 <= i < 0x1_0000

  /** Conversion to uint16: Go keeps the low 16 bits. */
  function Wrap(i: int): U16 {
    i % 0x1_0000
  }

  /** h++ and h-- on uint16. */
  function Inc(h: U16): U16 {
    if h == 0xFFFF then 0 else h + 1
  }

  function Dec(h: U16): U16 {
    if h == 0 then 0xFFFF else h - 1
  }

  /** n increments. */
  function Skip(h: U16, n: nat): U16 {
    if n == 0 then h else Inc(Skip(h, n - 1))
  }

  lemma {:induction false} SkipAdd(h: U16, a: nat, b: nat)
    ensures Skip(Skip(h, a), b) == Skip(h, a + b)
  {
    if b > 0 {
      SkipAdd(h, a, b - 1);
    }
  }

  /** Without wrap-around, n increments add n. */
  lemma {:induction false} SkipIsPlus(h: U16, n: nat)
    requires h + n < 0x1_0000
    ensures Skip(h, n) == h + n
  {
    if n > 0 {
      SkipIsPlus(h, n - 1);
    }
  }

  /** Conversion to byte: Go keeps the low 8 bits. */
  function LowByte(i: int): Byte {
    i % 0x100
  }

  /** binary.LittleEndian.PutUint16 */
  function PutU16(v: U16): (b: seq<Byte>)
    ensures |b| == 2
  {
    [v % 0x100, v / 0x100]
  }

  /** binary.LittleEndian.Uint16 at offset i */
  function U16At(b: seq<Byte>, i: nat): U16
    requires i + 2 <= |b|
  {
    b[i] as int + 0x100 * (b[i + 1] as int)
  }

  lemma U16RoundTrip(v: U16)
    ensures U16At(PutU16(v), 0) == v
  {
  }

  function Min(a: int, b: int): (m: int)
    ensures m <= a && m <= b && (m == a || m == b)
  {
    if a <= b then a else b
  }

  lemma SliceOf<T>(s: seq<T>, a: nat, n: nat)
    requires a + n <= |s|
    ensures s[a..][..n] == s[a..a + n]
  {
  }

  lemma SliceSplit<T>(s: seq<T>, i: nat, j: nat)
    requires i <= j <= |s|
    ensures s[..j] == s[..i] + s[i..j]
  {
  }

  /** The concatenation of a list of lists. */
  function Flat<T>(ss: seq<seq<T>>): seq<T> {
    if ss == [] then [] else ss[0] + Flat(ss[1..])
  }

  lemma {:induction false} FlatAppend<T>(xs: seq<seq<T>>, ys: seq<seq<T>>)
    ensures Flat(xs + ys) == Flat(xs) + Flat(ys)
  {
    if xs == [] {
      assert xs + ys == ys;
    } else {
      assert (xs + ys)[1..] == xs[1..] + ys;
      FlatAppend(xs[1..], ys);
    }
  }

  /** Equal-sized pieces make a list whose length is a multiple of the size. */
  lemma {:induction false} FlatLength<T>(ss: seq<seq<T>>, d: nat)
    requires forall i :: 0 <= i < |ss| ==> |ss[i]| == d
    ensures |Flat(ss)| == |ss| * d
  {
    if ss != [] {
      FlatLength(ss[1..], d);
      assert |ss| * d == d + (|ss| - 1) * d;
    }
  }

  /** Go's copy into a byte slice that has room for all of v. */
  method CopyInto(buf: array<Byte>, at: nat, v: seq<Byte>)
    requires at + |v| <= buf.Length
    modifies buf
    ensures buf[at..at + |v|] == v
    ensures forall i :: 0 <= i < at || at + |v| <= i < buf.Length ==> buf[i] == old(buf[i])
  {
    for i := 0 to |v|
      invariant buf[at..at + i] == v[..i]
      invariant forall k :: 0 <= k < at || at + |v| <= k < buf.Length ==> buf[k] == old(buf[k])
    {
      buf[at + i] := v[i];
    }
  }
}
