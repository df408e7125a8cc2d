/** Sequential reading of a notebook file: the file handle `fp` that both
    decoders advance with `fp.read(n)`, the `struct.unpack` calls that turn
    what was read into numbers, and the same reads as pure functions of the
    file contents and a position. */
module ByteStream {
  import opened Wire

  /** Size of the ids both files hold, each read by `fp.read(36)`. */
  const IdSize := 36

  /** How many times `for _ in xrange(n)` runs: never for a zero or negative `n`. */
  function Iterations(n: int): nat
  {
    if n < 0 then 0 else n
  }

  /** What `fp.read(n)` returns at position `pos`: the next `n` bytes, or
      everything that remains when fewer are left or `n` is negative.
      It never fails. */
  function Chunk(data: seq<byte>, pos: nat, n: int): (c: seq<byte>)
    requires pos <= |data|
    ensures pos + |c| <= |data| && c == data[pos..pos + |c|]
    ensures |c| == n || (pos + |c| == |data| && (n < 0 || |c| < n))
  {
    if n < 0 || pos + n > |data| then data[pos..] else data[pos..pos + n]
  }

  /** `struct.unpack(">h", c)`: it accepts exactly two bytes and nothing else. */
  function UnpackI16(c: seq<byte>): (r: Option<int16>)
    ensures r.Some? <==> |c| == 2
  {
    if |c| == 2 then Some(Int16Of(c)) else None
  }

  /** `struct.unpack(">i", c)` */
  function UnpackI32(c: seq<byte>): (r: Option<int32>)
    ensures r.Some? <==> |c| == 4
  {
    if |c| == 4 then Some(Int32Of(c)) else None
  }

  /** `struct.unpack(">q", c)` */
  function UnpackI64(c: seq<byte>): (r: Option<int64>)
    ensures r.Some? <==> |c| == 8
  {
    if |c| == 8 then Some(Int64Of(c)) else None
  }

  /** `struct.unpack(">f", c)`, keeping the single-precision bit pattern. */
  function UnpackF32(c: seq<byte>): (r: Option<bits32>)
    ensures r.Some? <==> |c| == 4
  {
    if |c| == 4 then Some(Bits32Of(c)) else None
  }

  /** `struct.unpack(">?", c)`: any non-zero byte is true. */
  function UnpackBool(c: seq<byte>): (r: Option<bool>)
    ensures r.Some? <==> |c| == 1
  {
    if |c| == 1 then Some(c[0] != 0) else None
  }

  /** The outcome of decoding something that starts at some position: the
      value and the position just after it, or the position of the
      fixed-width field that found too few bytes left. */
  datatype Decoded<+T> = Ok(value: T, next: nat) | Truncated(at: nat)

  // The typed reads of the decoders, as functions of the file contents and
  // the position: a field of `w` bytes needs `w` bytes left.

  function I16At(data: seq<byte>, pos: nat): (r: Decoded<int16>)
    ensures r.Ok? <==> pos + 2 <= |data|
    ensures r.Ok? ==> r.next == pos + 2 && r.value == Int16Of(data[pos..pos + 2])
    ensures r.Truncated? ==> r.at == pos
  {
    if pos + 2 <= |data| then Ok(Int16Of(data[pos..pos + 2]), pos + 2) else Truncated(pos)
  }

  function I32At(data: seq<byte>, pos: nat): (r: Decoded<int32>)
    ensures r.Ok? <==> pos + 4 <= |data|
    ensures r.Ok? ==> r.next == pos + 4 && r.value == Int32Of(data[pos..pos + 4])
    ensures r.Truncated? ==> r.at == pos
  {
    if pos + 4 <= |data| then Ok(Int32Of(data[pos..pos + 4]), pos + 4) else Truncated(pos)
  }

  function I64At(data: seq<byte>, pos: nat): (r: Decoded<int64>)
    ensures r.Ok? <==> pos + 8 <= |data|
    ensures r.Ok? ==> r.next == pos + 8 && r.value == Int64Of(data[pos..pos + 8])
    ensures r.Truncated? ==> r.at == pos
  {
    if pos + 8 <= |data| then Ok(Int64Of(data[pos..pos + 8]), pos + 8) else Truncated(pos)
  }

  function F32At(data: seq<byte>, pos: nat): (r: Decoded<bits32>)
    ensures r.Ok? <==> pos + 4 <= |data|
    ensures r.Ok? ==> r.next == pos + 4 && r.value == Bits32Of(data[pos..pos + 4])
    ensures r.Truncated? ==> r.at == pos
  {
    if pos + 4 <= |data| then Ok(Bits32Of(data[pos..pos + 4]), pos + 4) else Truncated(pos)
  }

  function BoolAt(data: seq<byte>, pos: nat): (r: Decoded<bool>)
    ensures r.Ok? <==> pos + 1 <= |data|
    ensures r.Ok? ==> r.next == pos + 1 && r.value == (data[pos] != 0)
    ensures r.Truncated? ==> r.at == pos
  {
    if pos + 1 <= |data| then Ok(data[pos] != 0, pos + 1) else Truncated(pos)
  }

  /** A fixed-width field that is read and never used: all that matters is
      whether its `width` bytes were there. */
  function SkipAt(data: seq<byte>, pos: nat, width: nat): (r: Decoded<()>)
    ensures r.Ok? <==> pos + width <= |data|
    ensures r.Ok? ==> r.next == pos + width
    ensures r.Truncated? ==> r.at == pos
  {
    if pos + width <= |data| then Ok((), pos + width) else Truncated(pos)
  }

  /** The one byte `struct.pack(">?", b)` writes. */
  function BoolBytes(b: bool): (s: seq<byte>)
    ensures |s| == 1
  {
    [if b then 1 else 0]
  }

  /** The `n` bytes of `data` from `pos` on, collected one at a time. */
  function Window(data: seq<byte>, pos: nat, n: nat): (w: seq<byte>)
    requires pos + n <= |data|
    ensures |w| == n
  {
    if n == 0 then [] else Window(data, pos, n - 1) + [data[pos + n - 1]]
  }

  lemma {:induction false} WindowIsSlice(data: seq<byte>, pos: nat, n: nat)
    requires pos + n <= |data|
    ensures Window(data, pos, n) == data[pos..pos + n]
  {
    if n > 0 {
      WindowIsSlice(data, pos, n - 1);
      assert data[pos..pos + n] == data[pos..pos + n - 1] + [data[pos + n - 1]];
    }
  }

  /** `e` occurs in `data` starting at `pos`. */
  ghost predicate IsAt(e: seq<byte>, data: seq<byte>, pos: nat)
  {
    pos + |e| <= |data| && Window(data, pos, |e|) == e
  }

  /** `e` occurs in `data` starting at `pos`, as a slice. */
  lemma IsAtSlice(e: seq<byte>, data: seq<byte>, pos: nat)
    ensures IsAt(e, data, pos) <==> pos + |e| <= |data| && data[pos..pos + |e|] == e
  {
    if pos + |e| <= |data| {
      WindowIsSlice(data, pos, |e|);
    }
  }

  lemma SplitAt(a: seq<byte>, b: seq<byte>, data: seq<byte>, pos: nat)
    requires IsAt(a + b, data, pos)
    ensures IsAt(a, data, pos) && IsAt(b, data, pos + |a|)
  {
    IsAtSlice(a + b, data, pos);
    IsAtSlice(a, data, pos);
    IsAtSlice(b, data, pos + |a|);
    assert data[pos..pos + |a|] == (a + b)[..|a|];
    assert data[pos + |a|..pos + |a| + |b|] == (a + b)[|a|..];
  }

  lemma PrefixAt(e: seq<byte>, rest: seq<byte>)
    ensures IsAt(e, e + rest, 0)
  {
    IsAtSlice(e, e + rest, 0);
    assert (e + rest)[..|e|] == e;
  }

  // Each typed read gives back what the matching encoder wrote.

  lemma I16ReadsBack(data: seq<byte>, pos: nat, v: int16)
    requires IsAt(Int16Bytes(v), data, pos)
    ensures I16At(data, pos) == Ok(v, pos + 2)
  {
    IsAtSlice(Int16Bytes(v), data, pos);
    Int16RoundTrip(v);
  }

  lemma I32ReadsBack(data: seq<byte>, pos: nat, v: int32)
    requires IsAt(Int32Bytes(v), data, pos)
    ensures I32At(data, pos) == Ok(v, pos + 4)
  {
    IsAtSlice(Int32Bytes(v), data, pos);
    Int32RoundTrip(v);
  }

  lemma I64ReadsBack(data: seq<byte>, pos: nat, v: int64)
    requires IsAt(Int64Bytes(v), data, pos)
    ensures I64At(data, pos) == Ok(v, pos + 8)
  {
    IsAtSlice(Int64Bytes(v), data, pos);
    Int64RoundTrip(v);
  }

  lemma F32ReadsBack(data: seq<byte>, pos: nat, v: bits32)
    requires IsAt(Bits32Bytes(v), data, pos)
    ensures F32At(data, pos) == Ok(v, pos + 4)
  {
    IsAtSlice(Bits32Bytes(v), data, pos);
    Bits32RoundTrip(v);
  }

  lemma BoolReadsBack(data: seq<byte>, pos: nat, b: bool)
    requires IsAt(BoolBytes(b), data, pos)
    ensures BoolAt(data, pos) == Ok(b, pos + 1)
  {
    IsAtSlice(BoolBytes(b), data, pos);
    assert data[pos] == data[pos..pos + 1][0];
  }

  lemma RawReadsBack(data: seq<byte>, pos: nat, e: seq<byte>)
    requires IsAt(e, data, pos)
    ensures Chunk(data, pos, |e|) == e
  {
    IsAtSlice(e, data, pos);
  }

  // The loops `for _ in xrange(k)` that append one record per turn.

  /** The first `k` records that `read` finds one after the other from
      `start`, as a loop appending one record per turn collects them; the
      first record that cannot be read ends the loop. */
  function Repeat<T>(read: (seq<byte>, nat) -> Decoded<T>, data: seq<byte>, start: nat, k: nat)
    : (r: Decoded<seq<T>>)
    ensures r.Ok? ==> |r.value| == k
    decreases k
  {
    if k == 0 then Ok([], start)
    else
      match Repeat(read, data, start, k - 1)
      case Truncated(at) => Truncated(at)
      case Ok(items, p) =>
      match read(data, p)
      case Truncated(at) => Truncated(at)
      case Ok(item, p) =>
      Ok(items + [item], p)
  }

  /** Once a record cannot be read, later turns change nothing. */
  lemma {:induction false} RepeatStaysTruncated<T>(read: (seq<byte>, nat) -> Decoded<T>, data: seq<byte>,
                                                   start: nat, j: nat, k: nat)
    requires j <= k && Repeat(read, data, start, j).Truncated?
    ensures Repeat(read, data, start, k) == Repeat(read, data, start, j)
    decreases k
  {
    if j < k {
      RepeatStaysTruncated(read, data, start, j, k - 1);
    }
  }

  /** The first `i` turns read the first `i` records of the list. */
  lemma {:induction false} RepeatPrefix<T>(read: (seq<byte>, nat) -> Decoded<T>, data: seq<byte>,
                                           start: nat, k: nat, i: nat)
    requires Repeat(read, data, start, k).Ok? && i <= k
    ensures Repeat(read, data, start, i).Ok?
    ensures Repeat(read, data, start, i).value == Repeat(read, data, start, k).value[..i]
    decreases k
  {
    var r := Repeat(read, data, start, k);
    if i == k {
      assert r.value[..i] == r.value;
    } else {
      var before := Repeat(read, data, start, k - 1);
      assert r.value == before.value + [r.value[k - 1]];
      RepeatPrefix(read, data, start, k - 1, i);
      assert r.value[..i] == before.value[..i];
    }
  }

  /** Record `i` is what `read` finds where the first `i` records end, and
      the next record starts where it ends. */
  lemma RepeatNth<T>(read: (seq<byte>, nat) -> Decoded<T>, data: seq<byte>, start: nat, k: nat, i: nat)
    requires Repeat(read, data, start, k).Ok? && i < k
    ensures Repeat(read, data, start, i).Ok? && Repeat(read, data, start, i + 1).Ok?
    ensures read(data, Repeat(read, data, start, i).next)
              == Ok(Repeat(read, data, start, k).value[i], Repeat(read, data, start, i + 1).next)
  {
    RepeatPrefix(read, data, start, k, i);
    RepeatPrefix(read, data, start, k, i + 1);
    var items := Repeat(read, data, start, k).value;
    assert items[..i + 1] == items[..i] + [items[i]];
  }

  /** The total size of `items`, each taking `size` bytes. */
  function TotalSize<T>(size: T -> nat, items: seq<T>): nat
  {
    if items == [] then 0 else TotalSize(size, items[..|items| - 1]) + size(items[|items| - 1])
  }

  /** When each record takes `size` bytes, the records end as many bytes
      after `start` as they take together. */
  lemma {:induction false} RepeatEnd<T>(read: (seq<byte>, nat) -> Decoded<T>, size: T -> nat,
                                        data: seq<byte>, start: nat, k: nat)
    requires forall p: nat :: read(data, p).Ok? ==> read(data, p).next == p + size(read(data, p).value)
    requires Repeat(read, data, start, k).Ok?
    ensures Repeat(read, data, start, k).next == start + TotalSize(size, Repeat(read, data, start, k).value)
    decreases k
  {
    if k > 0 {
      var items := Repeat(read, data, start, k).value;
      RepeatEnd(read, size, data, start, k - 1);
      assert items[..k - 1] == Repeat(read, data, start, k - 1).value;
    }
  }

  /** When each record takes `size` bytes, record `i` is what `read` finds
      as many bytes after `start` as the records before it take. */
  lemma RepeatNthAt<T>(read: (seq<byte>, nat) -> Decoded<T>, size: T -> nat,
                       data: seq<byte>, start: nat, k: nat, i: nat)
    requires forall p: nat :: read(data, p).Ok? ==> read(data, p).next == p + size(read(data, p).value)
    requires Repeat(read, data, start, k).Ok? && i < k
    ensures
      var items := Repeat(read, data, start, k).value;
      read(data, start + TotalSize(size, items[..i])) == Ok(items[i], start + TotalSize(size, items[..i + 1]))
  {
    var items := Repeat(read, data, start, k).value;
    var before, after := Repeat(read, data, start, i), Repeat(read, data, start, i + 1);
    RepeatNth(read, data, start, k, i);
    RepeatPrefix(read, data, start, k, i);
    RepeatPrefix(read, data, start, k, i + 1);
    assert before.next == start + TotalSize(size, items[..i]) by {
      RepeatEnd(read, size, data, start, i);
    }
    assert after.next == start + TotalSize(size, items[..i + 1]) by {
      RepeatEnd(read, size, data, start, i + 1);
    }
  }

  /** When every record takes `w` bytes and reads exactly when they are
      there, `k` records read exactly when their `w * k` bytes are there,
      and record `i` is the one `w * i` bytes after the start. */
  lemma {:induction false} RepeatFixed<T>(read: (seq<byte>, nat) -> Decoded<T>, w: nat,
                                          data: seq<byte>, start: nat, k: nat)
    requires forall p: nat :: read(data, p).Ok? <==> p + w <= |data|
    requires forall p: nat :: read(data, p).Ok? ==> read(data, p).next == p + w
    ensures Repeat(read, data, start, k).Ok? <==> k == 0 || start + w * k <= |data|
    ensures Repeat(read, data, start, k).Ok? ==> Repeat(read, data, start, k).next == start + w * k
    ensures Repeat(read, data, start, k).Ok? ==> forall i :: 0 <= i < k ==>
      read(data, start + w * i) == Ok(Repeat(read, data, start, k).value[i], start + w * (i + 1))
    decreases k
  {
    if k > 0 {
      RepeatFixed(read, w, data, start, k - 1);
      var before, r := Repeat(read, data, start, k - 1), Repeat(read, data, start, k);
      MulSucc(w, k - 1);
      if before.Truncated? {
        MulMonotone(k - 1, k, w);
      } else if r.Ok? {
        assert r.value == before.value + [r.value[k - 1]];
        forall i | 0 <= i < k
          ensures read(data, start + w * i) == Ok(r.value[i], start + w * (i + 1))
        {
          if i < k - 1 {
            assert r.value[i] == before.value[i];
          }
        }
      }
    }
  }

  /** The records `items` written one after the other by `encode`. */
  function Concat<T>(encode: T -> seq<byte>, items: seq<T>): seq<byte>
  {
    if items == [] then [] else Concat(encode, items[..|items| - 1]) + encode(items[|items| - 1])
  }

  /** Records of `w` bytes each take `w` bytes per record. */
  lemma {:induction false} ConcatSize<T>(encode: T -> seq<byte>, w: nat, items: seq<T>)
    requires forall x :: |encode(x)| == w
    ensures |Concat(encode, items)| == w * |items|
    decreases |items|
  {
    if items != [] {
      ConcatSize(encode, w, items[..|items| - 1]);
      MulSucc(w, |items| - 1);
    }
  }

  /** Records that take `size` bytes each take `TotalSize` bytes together. */
  lemma {:induction false} ConcatTotal<T>(encode: T -> seq<byte>, size: T -> nat, ok: T -> bool, items: seq<T>)
    requires forall x :: ok(x) ==> |encode(x)| == size(x)
    requires forall i :: 0 <= i < |items| ==> ok(items[i])
    ensures |Concat(encode, items)| == TotalSize(size, items)
    decreases |items|
  {
    if items != [] {
      ConcatTotal(encode, size, ok, items[..|items| - 1]);
      assert ok(items[|items| - 1]);
    }
  }

  lemma SplitLast<T>(s: seq<T>)
    requires s != []
    ensures s[..|s| - 1] + [s[|s| - 1]] == s
  {
  }

  /** When `read` gives back every record `ok` accepts from what `encode`
      writes, a loop of `read` gives back every list of such records from
      their concatenation. */
  lemma {:induction false} ConcatReadsBack<T>(read: (seq<byte>, nat) -> Decoded<T>, encode: T -> seq<byte>,
                                              ok: T -> bool, items: seq<T>, data: seq<byte>, start: nat)
    requires forall x, d, p: nat :: ok(x) && IsAt(encode(x), d, p) ==> read(d, p) == Ok(x, p + |encode(x)|)
    requires forall i :: 0 <= i < |items| ==> ok(items[i])
    requires IsAt(Concat(encode, items), data, start)
    ensures Repeat(read, data, start, |items|) == Ok(items, start + |Concat(encode, items)|)
    decreases |items|
  {
    if items != [] {
      var init, last := items[..|items| - 1], items[|items| - 1];
      var p := start + |Concat(encode, init)|;
      SplitAt(Concat(encode, init), encode(last), data, start);
      ConcatReadsBack(read, encode, ok, init, data, start);
      assert ok(last) && IsAt(encode(last), data, p);
      assert read(data, p) == Ok(last, p + |encode(last)|);
      assert Concat(encode, items) == Concat(encode, init) + encode(last);
      assert Repeat(read, data, start, |items|) == Ok(init + [last], p + |encode(last)|);
      SplitLast(items);
    }
  }

  /** The notebook file handle: the file's bytes and the read position. */
  class Cursor {
    const data: seq<byte>
    var pos: nat

    ghost predicate Valid()
      reads this
    {
      pos <= |data|
    }

    constructor (data: seq<byte>)
      ensures Valid() && this.data == data && pos == 0
    {
      this.data := data;
      pos := 0;
    }

    /** `fp.read(n)` */
    method Read(n: int) returns (c: seq<byte>)
      requires Valid()
      modifies this
      ensures Valid() && c == Chunk(data, old(pos), n) && pos == old(pos) + |c|
    {
      if n < 0 || pos + n > |data| {
        c := data[pos..];
      } else {
        c := data[pos..pos + n];
      }
      pos := pos + |c|;
    }

    /** `struct.unpack(">h", fp.read(2))` */
    method ReadI16() returns (r: Decoded<int16>)
      requires Valid()
      modifies this
      ensures Valid() && r == I16At(data, old(pos)) && pos == Min(old(pos) + 2, |data|)
    {
      var at := pos;
      var c := Read(2);
      var v := UnpackI16(c);
      r := if v.Some? then Ok(v.value, pos) else Truncated(at);
    }

    /** `struct.unpack(">i", fp.read(4))` */
    method ReadI32() returns (r: Decoded<int32>)
      requires Valid()
      modifies this
      ensures Valid() && r == I32At(data, old(pos)) && pos == Min(old(pos) + 4, |data|)
    {
      var at := pos;
      var c := Read(4);
      var v := UnpackI32(c);
      r := if v.Some? then Ok(v.value, pos) else Truncated(at);
    }

    /** `struct.unpack(">q", fp.read(8))` */
    method ReadI64() returns (r: Decoded<int64>)
      requires Valid()
      modifies this
      ensures Valid() && r == I64At(data, old(pos)) && pos == Min(old(pos) + 8, |data|)
    {
      var at := pos;
      var c := Read(8);
      var v := UnpackI64(c);
      r := if v.Some? then Ok(v.value, pos) else Truncated(at);
    }

    /** `struct.unpack(">f", fp.read(4))` */
    method ReadF32() returns (r: Decoded<bits32>)
      requires Valid()
      modifies this
      ensures Valid() && r == F32At(data, old(pos)) && pos == Min(old(pos) + 4, |data|)
    {
      var at := pos;
      var c := Read(4);
      var v := UnpackF32(c);
      r := if v.Some? then Ok(v.value, pos) else Truncated(at);
    }

    /** `struct.unpack(">?", fp.read(1))` */
    method ReadBool() returns (r: Decoded<bool>)
      requires Valid()
      modifies this
      ensures Valid() && r == BoolAt(data, old(pos)) && pos == Min(old(pos) + 1, |data|)
    {
      var at := pos;
      var c := Read(1);
      var v := UnpackBool(c);
      r := if v.Some? then Ok(v.value, pos) else Truncated(at);
    }
  }
}
