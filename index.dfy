/** The notebook index file (`index.quill_data`), decoded by
    `QuillIndex.__init__` in parse_quill.py:

      i32 version | i32 page count | count x (i16, 36-byte page id) |
      i32 current page | i16 title length, title bytes | i64 ctime | i64 mtime |
      i16, 36-byte id

    The i16 in front of each 36-byte id is read and never used. */
module QuillIndex {
  import opened Wire
  import opened ByteStream

  /** Size of one entry of the page list: the unused i16 and the id. */
  const EntrySize := 38

  datatype Index = Index(
    version: int32,
    pageCount: int32,
    pages: seq<seq<byte>>,
    currentPage: int32,
    title: seq<byte>,
    ctime: int64,
    mtime: int64,
    trailingId: seq<byte>)

  /** One entry of the page list: an unused i16, then `fp.read(36)`. */
  function EntryAt(data: seq<byte>, pos: nat): Decoded<seq<byte>>
  {
    match SkipAt(data, pos, 2)
    case Truncated(at) => Truncated(at)
    case Ok(_, p) =>
    var u := Chunk(data, p, IdSize);
    Ok(u, p + |u|)
  }

  /** The first `k` entries of the page list that starts at `start`, read as
      the loop over `xrange(npages)` reads them, one entry after the other. */
  function EntriesAt(data: seq<byte>, start: nat, k: nat): (r: Decoded<seq<seq<byte>>>)
    ensures r.Ok? ==> |r.value| == k
  {
    Repeat(EntryAt, data, start, k)
  }

  /** The index decoded from the start of `data`, and how many bytes it took. */
  function IndexAt(data: seq<byte>): Decoded<Index>
  {
    match I32At(data, 0)
    case Truncated(at) => Truncated(at)
    case Ok(version, p) =>
    match I32At(data, p)
    case Truncated(at) => Truncated(at)
    case Ok(npages, p) =>
    match EntriesAt(data, p, Iterations(npages as int))
    case Truncated(at) => Truncated(at)
    case Ok(pages, p) =>
    IndexTailAt(data, p, version, npages, pages)
  }

  /** The fields after the page list, which starts at `pos`, and the index
      they complete. */
  function IndexTailAt(data: seq<byte>, pos: nat, version: int32, npages: int32,
                       pages: seq<seq<byte>>): Decoded<Index>
  {
    match I32At(data, pos)
    case Truncated(at) => Truncated(at)
    case Ok(currentPage, p) =>
    match I16At(data, p)
    case Truncated(at) => Truncated(at)
    case Ok(titleLen, p) =>
    var title := Chunk(data, p, titleLen as int);
    match TrailerAt(data, p + |title|)
    case Truncated(at) => Truncated(at)
    case Ok(t, p) =>
    Ok(Index(version, npages, pages, currentPage, title, t.ctime, t.mtime, t.id), p)
  }

  /** The last fields of the index: the two timestamps and the final id. */
  datatype Trailer = Trailer(ctime: int64, mtime: int64, id: seq<byte>)

  function TrailerAt(data: seq<byte>, pos: nat): Decoded<Trailer>
  {
    match I64At(data, pos)
    case Truncated(at) => Truncated(at)
    case Ok(ctime, p) =>
    match I64At(data, p)
    case Truncated(at) => Truncated(at)
    case Ok(mtime, p) =>
    match SkipAt(data, p, 2)
    case Truncated(at) => Truncated(at)
    case Ok(_, p) =>
    var u := Chunk(data, p, IdSize);
    Ok(Trailer(ctime, mtime, u), p + |u|)
  }

  /** `QuillIndex.__init__`: reads the index through the file handle. */
  method DecodeIndex(data: seq<byte>) returns (r: Decoded<Index>)
    ensures r == IndexAt(data)
  {
    var fp := new Cursor(data);
    var version := fp.ReadI32();
    if version.Truncated? { return Truncated(version.at); }
    var npages := fp.ReadI32();
    if npages.Truncated? { return Truncated(npages.at); }
    var pages := ReadEntries(fp, npages.value);
    if pages.Truncated? { return Truncated(pages.at); }
    r := ReadIndexTail(fp, version.value, npages.value, pages.value);
  }

  /** The page list: `for x in xrange(npages)` appending one id per turn. */
  method ReadEntries(fp: Cursor, npages: int32) returns (r: Decoded<seq<seq<byte>>>)
    requires fp.Valid()
    modifies fp
    ensures fp.Valid() && r == EntriesAt(fp.data, old(fp.pos), Iterations(npages as int))
    ensures r.Ok? ==> fp.pos == r.next
  {
    var pages: seq<seq<byte>> := [];
    var x := 0;
    while x < npages as int
      invariant fp.Valid()
      invariant 0 <= x <= Iterations(npages as int)
      invariant EntriesAt(fp.data, old(fp.pos), x) == Ok(pages, fp.pos)
    {
      var nbytes := fp.ReadI16();
      if nbytes.Truncated? {
        RepeatStaysTruncated(EntryAt, fp.data, old(fp.pos), x + 1, Iterations(npages as int));
        return Truncated(nbytes.at);
      }
      var u := fp.Read(IdSize);
      pages := pages + [u];
      x := x + 1;
    }
    return Ok(pages, fp.pos);
  }

  /** The rest of `QuillIndex.__init__`, after the page list. */
  method ReadIndexTail(fp: Cursor, version: int32, npages: int32, pages: seq<seq<byte>>)
    returns (r: Decoded<Index>)
    requires fp.Valid()
    modifies fp
    ensures fp.Valid() && r == IndexTailAt(fp.data, old(fp.pos), version, npages, pages)
    ensures r.Ok? ==> fp.pos == r.next
  {
    var currentPage := fp.ReadI32();
    if currentPage.Truncated? { return Truncated(currentPage.at); }
    var titleLen := fp.ReadI16();
    if titleLen.Truncated? { return Truncated(titleLen.at); }
    var title := fp.Read(titleLen.value as int);
    assert title == Chunk(fp.data, titleLen.next, titleLen.value as int);
    var t := ReadTrailer(fp);
    if t.Truncated? { return Truncated(t.at); }
    r := Ok(Index(version, npages, pages, currentPage.value, title, t.value.ctime, t.value.mtime, t.value.id),
            t.next);
  }

  /** The timestamps and the final id, the last reads of `QuillIndex.__init__`. */
  method ReadTrailer(fp: Cursor) returns (r: Decoded<Trailer>)
    requires fp.Valid()
    modifies fp
    ensures fp.Valid() && r == TrailerAt(fp.data, old(fp.pos))
    ensures r.Ok? ==> fp.pos == r.next
  {
    var ctime := fp.ReadI64();
    if ctime.Truncated? { return Truncated(ctime.at); }
    var mtime := fp.ReadI64();
    if mtime.Truncated? { return Truncated(mtime.at); }
    var idLen := fp.ReadI16();
    if idLen.Truncated? { return Truncated(idLen.at); }
    var u := fp.Read(IdSize);
    r := Ok(Trailer(ctime.value, mtime.value, u), fp.pos);
  }

  /** The page list reads as long as each unused i16 is there in full; it
      ends 38 bytes per entry after its start, or at the end of the file when
      the last id comes out short; and entry `i` is the 36 bytes after the
      i-th unused i16, cut short only by the end of the file. */
  lemma {:induction false} EntriesLayout(data: seq<byte>, start: nat, k: nat)
    ensures EntriesAt(data, start, k).Ok? <==> k == 0 || start + EntrySize * (k - 1) + 2 <= |data|
    ensures EntriesAt(data, start, k).Ok? ==>
      EntriesAt(data, start, k).next == (if k == 0 then start else Min(start + EntrySize * k, |data|))
    ensures EntriesAt(data, start, k).Ok? ==> forall i :: 0 <= i < k ==>
      EntriesAt(data, start, k).value[i]
        == data[start + EntrySize * i + 2..Min(start + EntrySize * (i + 1), |data|)]
  {
    if k > 0 {
      EntriesLayout(data, start, k - 1);
    }
  }

  /** Where the timestamps and the final id sit: only that id may come out
      short, and then only because the file ends. */
  lemma TrailerLayout(data: seq<byte>, pos: nat)
    requires TrailerAt(data, pos).Ok?
    ensures
      var t, end := TrailerAt(data, pos).value, TrailerAt(data, pos).next;
      && t.ctime == Int64Of(data[pos..pos + 8])
      && t.mtime == Int64Of(data[pos + 8..pos + 16])
      && end == pos + 18 + |t.id| <= |data|
      && t.id == data[pos + 18..end]
      && (|t.id| == IdSize || (|t.id| < IdSize && end == |data|))
  {
    assert SkipAt(data, pos + 16, 2).Ok?;
  }

  /** Where the fields after the page list sit: the title is exactly as long
      as its i16 prefix says (so that prefix is never negative in a decoded
      index), and the trailer follows it. */
  lemma IndexTailLayout(data: seq<byte>, pos: nat, version: int32, npages: int32,
                        pages: seq<seq<byte>>)
    requires IndexTailAt(data, pos, version, npages, pages).Ok?
    ensures
      var idx, end := IndexTailAt(data, pos, version, npages, pages).value,
                      IndexTailAt(data, pos, version, npages, pages).next;
      var t, len := pos + 4, |idx.title|;
      && idx.version == version && idx.pageCount == npages && idx.pages == pages
      && idx.currentPage == Int32Of(data[pos..t])
      && Int16Of(data[t..t + 2]) as int == len
      && t + 2 + len <= |data|
      && idx.title == data[t + 2..t + 2 + len]
      && TrailerAt(data, t + 2 + len) == Ok(Trailer(idx.ctime, idx.mtime, idx.trailingId), end)
  {
    var titleLen := I16At(data, pos + 4);
    var title := Chunk(data, pos + 6, titleLen.value as int);
    assert TrailerAt(data, pos + 6 + |title|).Ok?;
    assert I64At(data, pos + 6 + |title|).Ok?;
    assert |title| == titleLen.value as int;
  }

  /** Where every field of a decoded index sits in the file: one id per
      declared page (none for a negative count), each the 36 bytes after its
      unused i16 whatever that i16 says, then the fields after the page list
      as IndexTailLayout places them, 4+4+38n bytes from the start. */
  lemma IndexLayout(data: seq<byte>)
    requires IndexAt(data).Ok?
    ensures
      var idx := IndexAt(data).value;
      var n := |idx.pages|;
      && n == Iterations(idx.pageCount as int)
      && idx.version == Int32Of(data[0..4])
      && idx.pageCount == Int32Of(data[4..8])
      && (forall i :: 0 <= i < n ==>
            |idx.pages[i]| == IdSize && 8 + EntrySize * (i + 1) <= |data|
            && idx.pages[i] == data[8 + EntrySize * i + 2..8 + EntrySize * (i + 1)])
      && IndexTailAt(data, 8 + EntrySize * n, idx.version, idx.pageCount, idx.pages)
           == IndexAt(data)
  {
    var n := Iterations(Int32Of(data[4..8]) as int);
    IndexHead(data);
    EntriesLayout(data, 8, n);
    assert EntriesAt(data, 8, n).next == 8 + EntrySize * n;
    EntriesInFull(data, 8, n);
  }

  /** A decoded index is its two counts, the page list they declare, and
      the fields after the list, which start where the list ends. */
  lemma IndexHead(data: seq<byte>)
    requires IndexAt(data).Ok?
    ensures 8 <= |data|
    ensures
      var e := EntriesAt(data, 8, Iterations(Int32Of(data[4..8]) as int));
      && e.Ok? && e.next + 4 <= |data|
      && IndexAt(data) == IndexTailAt(data, e.next, Int32Of(data[0..4]), Int32Of(data[4..8]), e.value)
      && IndexAt(data).value.version == Int32Of(data[0..4])
      && IndexAt(data).value.pageCount == Int32Of(data[4..8])
      && IndexAt(data).value.pages == e.value
  {
    var e := EntriesAt(data, 8, Iterations(Int32Of(data[4..8]) as int));
    assert e.Ok? && I32At(data, e.next).Ok?;
    IndexTailLayout(data, e.next, Int32Of(data[0..4]), Int32Of(data[4..8]), e.value);
  }

  /** A page list followed by at least its full 38 bytes per entry holds
      full ids, entry `i` being the 36 bytes after the i-th unused i16. */
  lemma EntriesInFull(data: seq<byte>, start: nat, k: nat)
    requires EntriesAt(data, start, k).Ok? && start + EntrySize * k <= |data|
    ensures forall i :: 0 <= i < k ==>
      |EntriesAt(data, start, k).value[i]| == IdSize && start + EntrySize * (i + 1) <= |data|
      && EntriesAt(data, start, k).value[i] == data[start + EntrySize * i + 2..start + EntrySize * (i + 1)]
  {
    EntriesLayout(data, start, k);
    var ids := EntriesAt(data, start, k).value;
    forall i | 0 <= i < k
      ensures start + EntrySize * (i + 1) <= |data|
      ensures ids[i] == data[start + EntrySize * i + 2..start + EntrySize * (i + 1)]
    {
      MulMonotone(i + 1, k, EntrySize);
    }
  }

  /** The trailer reads exactly when its two timestamps and the unused i16
      are there; the final id is `fp.read(36)`, which never fails, so a file
      that ends inside it still decodes, with a short id. */
  lemma TrailerReads(data: seq<byte>, pos: nat)
    ensures TrailerAt(data, pos).Ok? <==> pos + 18 <= |data|
  {
  }

  /** The fields after the page list read exactly when the current page and
      the title length are there, the length is not negative (a negative one
      reads the title to the end of the file), and the trailer reads after
      the title. */
  lemma IndexTailReads(data: seq<byte>, pos: nat, version: int32, npages: int32, pages: seq<seq<byte>>)
    ensures IndexTailAt(data, pos, version, npages, pages).Ok? <==>
      && pos + 6 <= |data|
      && 0 <= Int16Of(data[pos + 4..pos + 6]) as int
      && pos + 6 + Int16Of(data[pos + 4..pos + 6]) as int + 18 <= |data|
  {
  }

  /** The index decodes exactly when both counts are there, every declared
      entry's i16 is there, and the fields after the page list read as
      IndexTailReads says. */
  lemma IndexReads(data: seq<byte>)
    ensures IndexAt(data).Ok? <==>
      && 8 <= |data|
      && var e := EntriesAt(data, 8, Iterations(Int32Of(data[4..8]) as int));
         && e.Ok? && e.next + 6 <= |data|
         && 0 <= Int16Of(data[e.next + 4..e.next + 6]) as int
         && e.next + 6 + Int16Of(data[e.next + 4..e.next + 6]) as int + 18 <= |data|
  {
    if 8 <= |data| {
      var version, npages := I32At(data, 0), I32At(data, 4);
      var e := EntriesAt(data, 8, Iterations(npages.value as int));
      if e.Ok? {
        assert IndexAt(data) == IndexTailAt(data, e.next, version.value, npages.value, e.value);
        IndexTailReads(data, e.next, version.value, npages.value, e.value);
      }
    }
  }

  /** A decoded index with a full final id took 4+4+38n+4+2+len+8+8+2+36 bytes. */
  lemma IndexConsumes(data: seq<byte>)
    requires IndexAt(data).Ok? && |IndexAt(data).value.trailingId| == IdSize
    ensures IndexAt(data).next == 68 + EntrySize * |IndexAt(data).value.pages| + |IndexAt(data).value.title|
  {
    var idx := IndexAt(data).value;
    IndexLayout(data);
    var p := 8 + EntrySize * |idx.pages|;
    IndexTailLayout(data, p, idx.version, idx.pageCount, idx.pages);
    TrailerLayout(data, p + 6 + |idx.title|);
  }

  /** A decoded index with a full final id is one the encoder can write, so
      IndexRoundTrip applies to it. */
  lemma DecodedWellFormed(data: seq<byte>)
    requires IndexAt(data).Ok? && |IndexAt(data).value.trailingId| == IdSize
    ensures WellFormed(IndexAt(data).value)
  {
    var idx := IndexAt(data).value;
    IndexLayout(data);
    var p := 8 + EntrySize * |idx.pages|;
    IndexTailLayout(data, p, idx.version, idx.pageCount, idx.pages);
    assert Int16Of(data[p + 4..p + 6]) as int == |idx.title|;
  }

  /** The index is well formed when the encoder below can write it so that it
      reads back: one full id per declared page and a title whose length fits
      its i16 prefix. */
  predicate WellFormed(idx: Index)
  {
    && |idx.pages| == Iterations(idx.pageCount as int)
    && (forall i :: 0 <= i < |idx.pages| ==> |idx.pages[i]| == IdSize)
    && |idx.title| < 0x8000
    && |idx.trailingId| == IdSize
  }

  function EncodeEntries(ids: seq<seq<byte>>): (s: seq<byte>)
    requires forall i :: 0 <= i < |ids| ==> |ids[i]| == IdSize
    ensures |s| == EntrySize * |ids|
  {
    if ids == [] then []
    else EncodeEntries(ids[..|ids| - 1]) + (Int16Bytes(IdSize as int16) + ids[|ids| - 1])
  }

  function TrailerBytes(t: Trailer): seq<byte>
  {
    Int64Bytes(t.ctime) + (Int64Bytes(t.mtime) + (Int16Bytes(IdSize as int16) + t.id))
  }

  /** The bytes after the page list of an index file holding `idx`. */
  function IndexTailBytes(idx: Index): seq<byte>
    requires |idx.title| < 0x8000
  {
    Int32Bytes(idx.currentPage)
      + (Int16Bytes(|idx.title| as int16)
      + (idx.title + TrailerBytes(Trailer(idx.ctime, idx.mtime, idx.trailingId))))
  }

  /** An index file holding `idx`; every unused i16 says 36. */
  function EncodeIndex(idx: Index): seq<byte>
    requires WellFormed(idx)
  {
    Int32Bytes(idx.version) + (Int32Bytes(idx.pageCount) + (EncodeEntries(idx.pages) + IndexTailBytes(idx)))
  }

  lemma {:induction false} EntriesReadBack(ids: seq<seq<byte>>, data: seq<byte>, start: nat)
    requires forall i :: 0 <= i < |ids| ==> |ids[i]| == IdSize
    requires IsAt(EncodeEntries(ids), data, start)
    ensures EntriesAt(data, start, |ids|) == Ok(ids, start + EntrySize * |ids|)
  {
    if ids != [] {
      var init, last := ids[..|ids| - 1], ids[|ids| - 1];
      var p := start + EntrySize * |init|;
      SplitAt(EncodeEntries(init), Int16Bytes(IdSize as int16) + last, data, start);
      EntriesReadBack(init, data, start);
      SplitAt(Int16Bytes(IdSize as int16), last, data, p);
      RawReadsBack(data, p + 2, last);
      EntriesStep(data, start, |ids|, init, p, last);
      SplitLast(ids);
    }
  }

  /** One more entry: the unused i16, then the id. */
  lemma EntriesStep(data: seq<byte>, start: nat, k: nat, ids: seq<seq<byte>>, p: nat, u: seq<byte>)
    requires k > 0 && EntriesAt(data, start, k - 1) == Ok(ids, p)
    requires |u| == IdSize && p + 2 <= |data| && Chunk(data, p + 2, |u|) == u
    ensures EntriesAt(data, start, k) == Ok(ids + [u], p + EntrySize)
  {
  }

  /** Where the parts of an encoded trailer lie. */
  lemma TrailerPartsAt(t: Trailer, data: seq<byte>, pos: nat)
    requires IsAt(TrailerBytes(t), data, pos)
    ensures IsAt(Int64Bytes(t.ctime), data, pos) && IsAt(Int64Bytes(t.mtime), data, pos + 8)
    ensures IsAt(Int16Bytes(IdSize as int16), data, pos + 16) && IsAt(t.id, data, pos + 18)
  {
    var b2 := Int16Bytes(IdSize as int16) + t.id;
    SplitAt(Int64Bytes(t.ctime), Int64Bytes(t.mtime) + b2, data, pos);
    SplitAt(Int64Bytes(t.mtime), b2, data, pos + 8);
    SplitAt(Int16Bytes(IdSize as int16), t.id, data, pos + 16);
  }

  lemma TrailerReadBack(t: Trailer, data: seq<byte>, pos: nat)
    requires |t.id| == IdSize && IsAt(TrailerBytes(t), data, pos)
    ensures |TrailerBytes(t)| == 54
    ensures TrailerAt(data, pos) == Ok(t, pos + 54)
  {
    TrailerPartsAt(t, data, pos);
    assert I64At(data, pos) == Ok(t.ctime, pos + 8) by {
      I64ReadsBack(data, pos, t.ctime);
    }
    assert I64At(data, pos + 8) == Ok(t.mtime, pos + 16) by {
      I64ReadsBack(data, pos + 8, t.mtime);
    }
    assert SkipAt(data, pos + 16, 2) == Ok((), pos + 18);
    assert Chunk(data, pos + 18, IdSize) == t.id by {
      RawReadsBack(data, pos + 18, t.id);
    }
  }

  /** Where the parts of the encoded fields after the page list lie. */
  lemma IndexTailPartsAt(idx: Index, data: seq<byte>, pos: nat)
    requires |idx.title| < 0x8000 && IsAt(IndexTailBytes(idx), data, pos)
    ensures IsAt(Int32Bytes(idx.currentPage), data, pos)
    ensures IsAt(Int16Bytes(|idx.title| as int16), data, pos + 4)
    ensures IsAt(idx.title, data, pos + 6)
    ensures IsAt(TrailerBytes(Trailer(idx.ctime, idx.mtime, idx.trailingId)), data, pos + 6 + |idx.title|)
  {
    var t := Trailer(idx.ctime, idx.mtime, idx.trailingId);
    var b2 := idx.title + TrailerBytes(t);
    SplitAt(Int32Bytes(idx.currentPage), Int16Bytes(|idx.title| as int16) + b2, data, pos);
    SplitAt(Int16Bytes(|idx.title| as int16), b2, data, pos + 4);
    SplitAt(idx.title, TrailerBytes(t), data, pos + 6);
  }

  /** The fields after the page list read back from their encoding. */
  lemma IndexTailReadBack(idx: Index, data: seq<byte>, pos: nat)
    requires |idx.title| < 0x8000 && |idx.trailingId| == IdSize && IsAt(IndexTailBytes(idx), data, pos)
    ensures |IndexTailBytes(idx)| == 60 + |idx.title|
    ensures IndexTailAt(data, pos, idx.version, idx.pageCount, idx.pages)
              == Ok(idx, pos + 60 + |idx.title|)
  {
    var t := Trailer(idx.ctime, idx.mtime, idx.trailingId);
    IndexTailPartsAt(idx, data, pos);
    I32ReadsBack(data, pos, idx.currentPage);
    I16ReadsBack(data, pos + 4, |idx.title| as int16);
    RawReadsBack(data, pos + 6, idx.title);
    TrailerReadBack(t, data, pos + 6 + |idx.title|);
    IndexTailFromParts(idx, data, pos);
  }

  /** The fields after the page list are the current page, the title with
      its length before it, and the trailer. */
  lemma IndexTailFromParts(idx: Index, data: seq<byte>, pos: nat)
    requires |idx.title| < 0x8000
    requires I32At(data, pos) == Ok(idx.currentPage, pos + 4)
    requires I16At(data, pos + 4) == Ok(|idx.title| as int16, pos + 4 + 2)
    requires Chunk(data, pos + 6, |idx.title|) == idx.title
    requires TrailerAt(data, pos + 6 + |idx.title|)
               == Ok(Trailer(idx.ctime, idx.mtime, idx.trailingId), pos + 6 + |idx.title| + 54)
    ensures IndexTailAt(data, pos, idx.version, idx.pageCount, idx.pages) == Ok(idx, pos + 60 + |idx.title|)
  {
  }

  lemma EncodeIndexSize(idx: Index)
    requires WellFormed(idx)
    ensures |IndexTailBytes(idx)| == 60 + |idx.title|
    ensures |EncodeIndex(idx)| == 68 + EntrySize * |idx.pages| + |idx.title|
  {
  }

  /** Where the parts of an encoded index lie. */
  lemma IndexPartsAt(idx: Index, data: seq<byte>)
    requires WellFormed(idx) && IsAt(EncodeIndex(idx), data, 0)
    ensures IsAt(Int32Bytes(idx.version), data, 0) && IsAt(Int32Bytes(idx.pageCount), data, 4)
    ensures IsAt(EncodeEntries(idx.pages), data, 8)
    ensures IsAt(IndexTailBytes(idx), data, 8 + EntrySize * |idx.pages|)
  {
    var b2 := EncodeEntries(idx.pages) + IndexTailBytes(idx);
    SplitAt(Int32Bytes(idx.version), Int32Bytes(idx.pageCount) + b2, data, 0);
    SplitAt(Int32Bytes(idx.pageCount), b2, data, 4);
    SplitAt(EncodeEntries(idx.pages), IndexTailBytes(idx), data, 8);
  }

  /** The index reads back from its encoding wherever in `data` it lies at the start. */
  lemma IndexReadBack(idx: Index, data: seq<byte>)
    requires WellFormed(idx) && IsAt(EncodeIndex(idx), data, 0)
    ensures IndexAt(data) == Ok(idx, 68 + EntrySize * |idx.pages| + |idx.title|)
  {
    IndexPartsAt(idx, data);
    IndexPartsReadBack(idx, data);
  }

  /** The parts of an encoded index, each where IndexPartsAt puts it, read back. */
  lemma IndexPartsReadBack(idx: Index, data: seq<byte>)
    requires WellFormed(idx)
    requires IsAt(Int32Bytes(idx.version), data, 0) && IsAt(Int32Bytes(idx.pageCount), data, 4)
    requires IsAt(EncodeEntries(idx.pages), data, 8)
    requires IsAt(IndexTailBytes(idx), data, 8 + EntrySize * |idx.pages|)
    ensures IndexAt(data) == Ok(idx, 68 + EntrySize * |idx.pages| + |idx.title|)
  {
    var p := 8 + EntrySize * |idx.pages|;
    I32ReadsBack(data, 0, idx.version);
    I32ReadsBack(data, 4, idx.pageCount);
    EntriesReadBack(idx.pages, data, 8);
    IndexTailReadBack(idx, data, p);
    IndexFromParts(idx, data, p, p + 60 + |idx.title|);
  }

  /** The index is its two counts, its page list and what follows it. */
  lemma IndexFromParts(idx: Index, data: seq<byte>, p: nat, end: nat)
    requires I32At(data, 0) == Ok(idx.version, 0 + 4) && I32At(data, 4) == Ok(idx.pageCount, 4 + 4)
    requires |idx.pages| == Iterations(idx.pageCount as int) && EntriesAt(data, 8, |idx.pages|) == Ok(idx.pages, p)
    requires IndexTailAt(data, p, idx.version, idx.pageCount, idx.pages) == Ok(idx, end)
    ensures IndexAt(data) == Ok(idx, end)
  {
  }

  /** Decoding an encoded index gives it back, whatever follows it in the
      file, and consumes 4+4+38n+4+2+len+8+8+2+36 bytes. */
  lemma IndexRoundTrip(idx: Index, rest: seq<byte>)
    requires WellFormed(idx)
    ensures var enc := EncodeIndex(idx);
      && |enc| == 68 + EntrySize * |idx.pages| + |idx.title|
      && IndexAt(enc + rest) == Ok(idx, |enc|)
  {
    EncodeIndexSize(idx);
    PrefixAt(EncodeIndex(idx), rest);
    IndexReadBack(idx, EncodeIndex(idx) + rest);
  }
}
