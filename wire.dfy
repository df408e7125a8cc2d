/** Fixed-width big-endian numbers, the only number format of Quill notebook
    files: the `struct` formats `>h`, `>i`, `>q` (signed, two's complement)
    and `>f` (an IEEE-754 single, kept here as its 32-bit pattern). */
module Wire {

  newtype byte = b: int | 0 <= b < 0x100
  newtype int16 = x: int | -0x8000 <= x < 0x8000
  newtype int32 = x: int | -0x8000_0000 <= x < 0x8000_0000
  newtype int64 = x: int | -0x8000_0000_0000_0000 <= x < 0x8000_0000_0000_0000
  /** The bit pattern of a `>f` field; its value as a real number is never used by the decoder. */
  newtype bits32 = x: int | 0 <= x < 0x1_0000_0000

  datatype Option<+T> = None | Some(value: T)

  function Min(a: int, b: int): int { if a <= b then a else b }

  /** 256 to the power `n`: the number of values an `n`-byte field can hold. */
  function Pow256(n: nat): (r: nat)
    ensures r >= 1
  {
    if n == 0 then 1 else 0x100 * Pow256(n - 1)
  }

  lemma Pow256Widths()
    ensures Pow256(1) == 0x100 && Pow256(2) == 0x1_0000
    ensures Pow256(4) == 0x1_0000_0000 && Pow256(8) == 0x1_0000_0000_0000_0000
  {
  }

  /** The unsigned value of `s`, most significant byte first. */
  function Unsigned(s: seq<byte>): nat
  {
    if s == [] then 0 else Unsigned(s[..|s| - 1]) * 0x100 + s[|s| - 1] as int
  }

  /** The `width` bytes whose unsigned big-endian value is `v`. */
  function EncodeUnsigned(v: nat, width: nat): (s: seq<byte>)
    requires v < Pow256(width)
    ensures |s| == width
  {
    if width == 0 then [] else EncodeUnsigned(v / 0x100, width - 1) + [(v % 0x100) as byte]
  }

  /** An `n`-byte field holds one of 256^n values. */
  lemma {:induction false} UnsignedBound(s: seq<byte>)
    ensures Unsigned(s) < Pow256(|s|)
  {
    if s != [] {
      UnsignedBound(s[..|s| - 1]);
    }
  }

  /** Decoding an encoded unsigned value gives it back. */
  lemma {:induction false} UnsignedOfEncode(v: nat, width: nat)
    requires v < Pow256(width)
    ensures Unsigned(EncodeUnsigned(v, width)) == v
  {
    if width > 0 {
      var s := EncodeUnsigned(v, width);
      UnsignedOfEncode(v / 0x100, width - 1);
      assert s[..|s| - 1] == EncodeUnsigned(v / 0x100, width - 1);
    }
  }

  /** Every byte string is the encoding of its unsigned value. */
  lemma {:induction false} EncodeOfUnsigned(s: seq<byte>)
    ensures Unsigned(s) < Pow256(|s|) && EncodeUnsigned(Unsigned(s), |s|) == s
  {
    UnsignedBound(s);
    if s != [] {
      var init := s[..|s| - 1];
      EncodeOfUnsigned(init);
      var u := Unsigned(s);
      assert u / 0x100 == Unsigned(init) && u % 0x100 == s[|s| - 1] as int;
      assert s == init + [s[|s| - 1]];
    }
  }

  /** Big-endian means the first byte is the most significant one. */
  lemma {:induction false} UnsignedLeadingByte(s: seq<byte>)
    requires |s| > 0
    ensures Unsigned(s) == s[0] as int * Pow256(|s| - 1) + Unsigned(s[1..])
  {
    if |s| > 1 {
      var init, tail := s[..|s| - 1], s[1..];
      var a, last := s[0] as int, s[|s| - 1] as int;
      UnsignedLeadingByte(init);
      assert init[1..] == tail[..|tail| - 1];
      var p, r := Pow256(|s| - 2), Unsigned(init[1..]);
      assert Unsigned(init) == a * p + r;
      assert Unsigned(tail) == r * 0x100 + last;
      assert Pow256(|s| - 1) == 0x100 * p;
      ShiftByte(a, p, r);
    } else {
      assert s[1..] == [] && s[..0] == [];
    }
  }

  lemma ShiftByte(a: int, p: int, r: int)
    ensures (a * p + r) * 0x100 == a * (0x100 * p) + r * 0x100
  {
  }

  lemma MulSucc(a: int, b: int)
    ensures a * (b + 1) == a * b + a
  {
  }

  lemma MulMonotone(a: int, b: int, c: int)
    requires a <= b && c >= 0
    ensures a * c <= b * c
  {
    assert b * c - a * c == (b - a) * c;
  }

  /** The top bit of a field is the top bit of its first byte. */
  lemma TopBit(s: seq<byte>)
    requires |s| > 0
    ensures 2 * Unsigned(s) >= Pow256(|s|) <==> s[0] >= 0x80
  {
    UnsignedLeadingByte(s);
    UnsignedBound(s[1..]);
    var p := Pow256(|s| - 1);
    assert Pow256(|s|) == 0x100 * p;
    if s[0] >= 0x80 {
      MulMonotone(0x80, s[0] as int, p);
    } else {
      MulMonotone(s[0] as int, 0x7F, p);
    }
  }

  /** Unsigned values appended: the bytes of `a` are the high part. */
  lemma {:induction false} UnsignedAppend(a: seq<byte>, b: seq<byte>)
    ensures Unsigned(a + b) == Unsigned(a) * Pow256(|b|) + Unsigned(b)
    decreases |b|
  {
    if b == [] {
      assert a + b == a;
    } else {
      var init := b[..|b| - 1];
      assert (a + b)[..|a + b| - 1] == a + init;
      UnsignedAppend(a, init);
      ShiftByte(Unsigned(a), Pow256(|init|), Unsigned(init));
    }
  }

  // The widths the file format uses, written out byte by byte.

  function Be16(s: seq<byte>): nat
    requires |s| == 2
  {
    s[0] as int * 0x100 + s[1] as int
  }

  function Be32(s: seq<byte>): nat
    requires |s| == 4
  {
    s[0] as int * 0x100_0000 + s[1] as int * 0x1_0000 + s[2] as int * 0x100 + s[3] as int
  }

  function Be64(s: seq<byte>): nat
    requires |s| == 8
  {
    Be32(s[..4]) * 0x1_0000_0000 + Be32(s[4..])
  }

  /** The written-out widths agree with the general big-endian value. */
  lemma Be16IsUnsigned(s: seq<byte>)
    requires |s| == 2
    ensures Be16(s) == Unsigned(s)
  {
    assert s == [s[0]] + [s[1]];
    UnsignedAppend([s[0]], [s[1]]);
    assert [s[0]][..0] == [] && [s[1]][..0] == [];
  }

  lemma Be32IsUnsigned(s: seq<byte>)
    requires |s| == 4
    ensures Be32(s) == Unsigned(s)
  {
    var hi, lo := s[..2], s[2..];
    assert s == hi + lo;
    UnsignedAppend(hi, lo);
    Be16IsUnsigned(hi);
    Be16IsUnsigned(lo);
    Pow256Widths();
  }

  lemma Be64IsUnsigned(s: seq<byte>)
    requires |s| == 8
    ensures Be64(s) == Unsigned(s)
  {
    var hi, lo := s[..4], s[4..];
    assert s == hi + lo;
    UnsignedAppend(hi, lo);
    Be32IsUnsigned(hi);
    Be32IsUnsigned(lo);
    Pow256Widths();
  }

  // Two's-complement values: an unsigned value with the top bit set stands
  // for that value minus 256^width.

  function Int16Of(s: seq<byte>): int16
    requires |s| == 2
  {
    var u := Be16(s);
    (if u < 0x8000 then u else u - 0x1_0000) as int16
  }

  function Int32Of(s: seq<byte>): int32
    requires |s| == 4
  {
    var u := Be32(s);
    (if u < 0x8000_0000 then u else u - 0x1_0000_0000) as int32
  }

  function Int64Of(s: seq<byte>): int64
    requires |s| == 8
  {
    var u := Be64(s);
    assert u < 0x1_0000_0000_0000_0000;
    (if u < 0x8000_0000_0000_0000 then u else u - 0x1_0000_0000_0000_0000) as int64
  }

  /** The bit pattern of a `>f` field. */
  function Bits32Of(s: seq<byte>): bits32
    requires |s| == 4
  {
    Be32(s) as bits32
  }

  // The encoders of the written-out widths, most significant byte first.

  function Be16Bytes(u: nat): (s: seq<byte>)
    requires u < 0x1_0000
    ensures |s| == 2
  {
    [(u / 0x100) as byte, (u % 0x100) as byte]
  }

  function Be32Bytes(u: nat): (s: seq<byte>)
    requires u < 0x1_0000_0000
    ensures |s| == 4
  {
    Be16Bytes(u / 0x1_0000) + Be16Bytes(u % 0x1_0000)
  }

  function Be64Bytes(u: nat): (s: seq<byte>)
    requires u < 0x1_0000_0000_0000_0000
    ensures |s| == 8
  {
    Be32Bytes(u / 0x1_0000_0000) + Be32Bytes(u % 0x1_0000_0000)
  }

  lemma Be16RoundTrip(u: nat)
    requires u < 0x1_0000
    ensures Be16(Be16Bytes(u)) == u
  {
  }

  lemma Be32RoundTrip(u: nat)
    requires u < 0x1_0000_0000
    ensures Be32(Be32Bytes(u)) == u
  {
    var s, hi, lo := Be32Bytes(u), u / 0x1_0000, u % 0x1_0000;
    Be16RoundTrip(hi);
    Be16RoundTrip(lo);
    assert Be32(s) == Be16(s[..2]) * 0x1_0000 + Be16(s[2..]);
    assert s[..2] == Be16Bytes(hi) && s[2..] == Be16Bytes(lo);
  }

  lemma Be64RoundTrip(u: nat)
    requires u < 0x1_0000_0000_0000_0000
    ensures Be64(Be64Bytes(u)) == u
  {
    var s, hi, lo := Be64Bytes(u), u / 0x1_0000_0000, u % 0x1_0000_0000;
    Be32RoundTrip(hi);
    Be32RoundTrip(lo);
    assert s[..4] == Be32Bytes(hi) && s[4..] == Be32Bytes(lo);
  }

  lemma Be16BytesRoundTrip(s: seq<byte>)
    requires |s| == 2
    ensures Be16(s) < 0x1_0000 && Be16Bytes(Be16(s)) == s
  {
  }

  lemma Be32BytesRoundTrip(s: seq<byte>)
    requires |s| == 4
    ensures Be32(s) < 0x1_0000_0000 && Be32Bytes(Be32(s)) == s
  {
    var hi, lo := s[..2], s[2..];
    Be16BytesRoundTrip(hi);
    Be16BytesRoundTrip(lo);
    assert Be32(s) == Be16(hi) * 0x1_0000 + Be16(lo);
    assert s == hi + lo;
  }

  lemma Be64BytesRoundTrip(s: seq<byte>)
    requires |s| == 8
    ensures Be64(s) < 0x1_0000_0000_0000_0000 && Be64Bytes(Be64(s)) == s
  {
    var hi, lo := s[..4], s[4..];
    Be32BytesRoundTrip(hi);
    Be32BytesRoundTrip(lo);
    Split32(Be32(hi), Be32(lo));
    assert s == hi + lo;
  }

  lemma Split32(h: nat, l: nat)
    requires l < 0x1_0000_0000
    ensures (h * 0x1_0000_0000 + l) / 0x1_0000_0000 == h
    ensures (h * 0x1_0000_0000 + l) % 0x1_0000_0000 == l
  {
  }

  /** The written-out encoders agree with the general big-endian encoding. */
  lemma Be16BytesIsEncode(u: nat)
    requires u < 0x1_0000
    ensures Pow256(2) == 0x1_0000 && Be16Bytes(u) == EncodeUnsigned(u, 2)
  {
    Pow256Widths();
    Be16RoundTrip(u);
    Be16IsUnsigned(Be16Bytes(u));
    EncodeOfUnsigned(Be16Bytes(u));
  }

  lemma Be32BytesIsEncode(u: nat)
    requires u < 0x1_0000_0000
    ensures Pow256(4) == 0x1_0000_0000 && Be32Bytes(u) == EncodeUnsigned(u, 4)
  {
    Pow256Widths();
    Be32RoundTrip(u);
    Be32IsUnsigned(Be32Bytes(u));
    EncodeOfUnsigned(Be32Bytes(u));
  }

  lemma Be64BytesIsEncode(u: nat)
    requires u < 0x1_0000_0000_0000_0000
    ensures Pow256(8) == 0x1_0000_0000_0000_0000 && Be64Bytes(u) == EncodeUnsigned(u, 8)
  {
    Pow256Widths();
    Be64RoundTrip(u);
    Be64IsUnsigned(Be64Bytes(u));
    EncodeOfUnsigned(Be64Bytes(u));
  }

  function Int16Bytes(v: int16): (s: seq<byte>)
    ensures |s| == 2
  {
    Be16Bytes(if v < 0 then v as int + 0x1_0000 else v as int)
  }

  function Int32Bytes(v: int32): (s: seq<byte>)
    ensures |s| == 4
  {
    Be32Bytes(if v < 0 then v as int + 0x1_0000_0000 else v as int)
  }

  function Int64Bytes(v: int64): (s: seq<byte>)
    ensures |s| == 8
  {
    Be64Bytes(if v < 0 then v as int + 0x1_0000_0000_0000_0000 else v as int)
  }

  function Bits32Bytes(v: bits32): (s: seq<byte>)
    ensures |s| == 4
  {
    Be32Bytes(v as nat)
  }

  // Decoding and encoding are inverse to each other, in both directions.

  lemma Int16RoundTrip(v: int16)
    ensures Int16Of(Int16Bytes(v)) == v
  {
    Be16RoundTrip(if v < 0 then v as int + 0x1_0000 else v as int);
  }

  lemma Int32RoundTrip(v: int32)
    ensures Int32Of(Int32Bytes(v)) == v
  {
    Be32RoundTrip(if v < 0 then v as int + 0x1_0000_0000 else v as int);
  }

  lemma Int64RoundTrip(v: int64)
    ensures Int64Of(Int64Bytes(v)) == v
  {
    Be64RoundTrip(if v < 0 then v as int + 0x1_0000_0000_0000_0000 else v as int);
  }

  lemma Bits32RoundTrip(v: bits32)
    ensures Bits32Of(Bits32Bytes(v)) == v
  {
    Be32RoundTrip(v as nat);
  }

  lemma Int16BytesRoundTrip(s: seq<byte>)
    requires |s| == 2
    ensures Int16Bytes(Int16Of(s)) == s
  {
    Be16BytesRoundTrip(s);
  }

  lemma Int32BytesRoundTrip(s: seq<byte>)
    requires |s| == 4
    ensures Int32Bytes(Int32Of(s)) == s
  {
    Be32BytesRoundTrip(s);
  }

  lemma Int64BytesRoundTrip(s: seq<byte>)
    requires |s| == 8
    ensures Int64Bytes(Int64Of(s)) == s
  {
    Be64BytesRoundTrip(s);
  }

  lemma Bits32BytesRoundTrip(s: seq<byte>)
    requires |s| == 4
    ensures Bits32Bytes(Bits32Of(s)) == s
  {
    Be32BytesRoundTrip(s);
  }

  /** A signed field is negative exactly when the top bit of its first byte is set. */
  lemma Int16SignBit(s: seq<byte>)
    requires |s| == 2
    ensures Int16Of(s) < 0 <==> s[0] >= 0x80
  {
    Be16IsUnsigned(s);
    TopBit(s);
    UnsignedBound(s);
    Pow256Widths();
  }

  lemma Int32SignBit(s: seq<byte>)
    requires |s| == 4
    ensures Int32Of(s) < 0 <==> s[0] >= 0x80
  {
    Be32IsUnsigned(s);
    TopBit(s);
    UnsignedBound(s);
    Pow256Widths();
  }

  lemma Int64SignBit(s: seq<byte>)
    requires |s| == 8
    ensures Int64Of(s) < 0 <==> s[0] >= 0x80
  {
    Be64IsUnsigned(s);
    TopBit(s);
    UnsignedBound(s);
    Pow256Widths();
  }
}
