/** One page file (`page_<id>.quill_data`), decoded by `QuillPage.__init__`
    in parse_quill.py:

      79-byte header | stroke count x stroke | i32 lines | i32 | i32 text

    The header is

      i32 version | i16, 36-byte id | i32 tool-set version | i32 tag count |
      i32 | i32 | i32 paper type | i32 image count | i32 | bool read-only |
      f32 aspect ratio | i32 stroke count

    and a stroke is five i32 fields (version, colour, thickness, tool,
    point count) followed by that many points of three f32 fields each
    (x, y, pressure). The unnamed fields are read and never used. */
module QuillPage {
  import opened Wire
  import opened ByteStream

  /** Bytes before the first stroke: 4+2+36+4+4+4+4+4+4+4+1+4+4. */
  const HeaderSize := 79
  /** The five i32 fields in front of a stroke's points. */
  const StrokeHeadSize := 20
  const PointSize := 12
  /** The three i32 fields after the last stroke. */
  const ClosingSize := 12

  datatype Point = Point(x: bits32, y: bits32, pressure: bits32)

  datatype Stroke = Stroke(
    version: int32,
    color: int32,
    thickness: int32,
    tool: int32,
    pointCount: int32,
    points: seq<Point>)

  datatype Header = Header(
    version: int32,
    id: seq<byte>,
    tsVersion: int32,
    tagCount: int32,
    paperType: int32,
    imageCount: int32,
    readOnly: bool,
    aspectRatio: bits32,
    strokeCount: int32)

  datatype Page = Page(header: Header, strokes: seq<Stroke>, lineCount: int32, textCount: int32)

  // The decoder as functions of the file contents and the read position.
  // The header is read in three stages; each stage receives the header read
  // so far and fills in its own fields, as `QuillPage.__init__` assigns
  // them to `self` one after the other.

  /** The header at the start of the page file. */
  function HeaderAt(data: seq<byte>): Decoded<Header>
  {
    match I32At(data, 0)
    case Truncated(at) => Truncated(at)
    case Ok(version, p) =>
    match SkipAt(data, p, 2)
    case Truncated(at) => Truncated(at)
    case Ok(_, p) =>
    var u := Chunk(data, p, IdSize);
    match I32At(data, p + |u|)
    case Truncated(at) => Truncated(at)
    case Ok(tsVersion, p) =>
    match I32At(data, p)
    case Truncated(at) => Truncated(at)
    case Ok(ntags, p) =>
    HeaderPaperAt(data, p, Header(version, u, tsVersion, ntags, 0, 0, false, 0, 0))
  }

  /** From the two unused i32 fields after the tag count to the image count. */
  function HeaderPaperAt(data: seq<byte>, pos: nat, h: Header): Decoded<Header>
  {
    match SkipAt(data, pos, 4)
    case Truncated(at) => Truncated(at)
    case Ok(_, p) =>
    match SkipAt(data, p, 4)
    case Truncated(at) => Truncated(at)
    case Ok(_, p) =>
    match I32At(data, p)
    case Truncated(at) => Truncated(at)
    case Ok(paperType, p) =>
    match I32At(data, p)
    case Truncated(at) => Truncated(at)
    case Ok(nimages, p) =>
    HeaderStyleAt(data, p, h.(paperType := paperType, imageCount := nimages))
  }

  /** From the unused i32 after the image count to the stroke count. */
  function HeaderStyleAt(data: seq<byte>, pos: nat, h: Header): Decoded<Header>
  {
    match SkipAt(data, pos, 4)
    case Truncated(at) => Truncated(at)
    case Ok(_, p) =>
    match BoolAt(data, p)
    case Truncated(at) => Truncated(at)
    case Ok(readOnly, p) =>
    match F32At(data, p)
    case Truncated(at) => Truncated(at)
    case Ok(aspect, p) =>
    match I32At(data, p)
    case Truncated(at) => Truncated(at)
    case Ok(nstrokes, p) =>
    Ok(h.(readOnly := readOnly, aspectRatio := aspect, strokeCount := nstrokes), p)
  }

  function PointAt(data: seq<byte>, pos: nat): Decoded<Point>
  {
    match F32At(data, pos)
    case Truncated(at) => Truncated(at)
    case Ok(x, p) =>
    match F32At(data, p)
    case Truncated(at) => Truncated(at)
    case Ok(y, p) =>
    match F32At(data, p)
    case Truncated(at) => Truncated(at)
    case Ok(pressure, p) =>
    Ok(Point(x, y, pressure), p)
  }

  function StrokeAt(data: seq<byte>, pos: nat): Decoded<Stroke>
  {
    match I32At(data, pos)
    case Truncated(at) => Truncated(at)
    case Ok(version, p) =>
    match I32At(data, p)
    case Truncated(at) => Truncated(at)
    case Ok(color, p) =>
    match I32At(data, p)
    case Truncated(at) => Truncated(at)
    case Ok(thickness, p) =>
    match I32At(data, p)
    case Truncated(at) => Truncated(at)
    case Ok(tool, p) =>
    match I32At(data, p)
    case Truncated(at) => Truncated(at)
    case Ok(n, p) =>
    match Repeat(PointAt, data, p, Iterations(n as int))
    case Truncated(at) => Truncated(at)
    case Ok(points, p) =>
    Ok(Stroke(version, color, thickness, tool, n, points), p)
  }

  /** The whole page file, and how many bytes it took. */
  function PageAt(data: seq<byte>): Decoded<Page>
  {
    match HeaderAt(data)
    case Truncated(at) => Truncated(at)
    case Ok(h, p) =>
    PageBodyAt(data, p, h)
  }

  /** What follows the header: the strokes, then the line count, an unused
      i32 and the text count. */
  function PageBodyAt(data: seq<byte>, pos: nat, h: Header): Decoded<Page>
  {
    match Repeat(StrokeAt, data, pos, Iterations(h.strokeCount as int))
    case Truncated(at) => Truncated(at)
    case Ok(strokes, p) =>
    match I32At(data, p)
    case Truncated(at) => Truncated(at)
    case Ok(nlines, p) =>
    match SkipAt(data, p, 4)
    case Truncated(at) => Truncated(at)
    case Ok(_, p) =>
    match I32At(data, p)
    case Truncated(at) => Truncated(at)
    case Ok(ntext, p) =>
    Ok(Page(h, strokes, nlines, ntext), p)
  }

  // The decoder through the file handle, as `QuillPage.__init__` runs it.

  /** `QuillPage.__init__`: reads one page through the file handle. */
  method DecodePage(data: seq<byte>) returns (r: Decoded<Page>)
    ensures r == PageAt(data)
  {
    var fp := new Cursor(data);
    var h := ReadHeader(fp);
    if h.Truncated? { return Truncated(h.at); }
    assert PageAt(data) == PageBodyAt(data, fp.pos, h.value);
    var strokes := ReadStrokes(fp, h.value.strokeCount);
    if strokes.Truncated? { return Truncated(strokes.at); }
    var nlines := fp.ReadI32();
    if nlines.Truncated? { return Truncated(nlines.at); }
    var dummy := fp.ReadI32();
    if dummy.Truncated? { return Truncated(dummy.at); }
    var ntext := fp.ReadI32();
    if ntext.Truncated? { return Truncated(ntext.at); }
    r := Ok(Page(h.value, strokes.value, nlines.value, ntext.value), fp.pos);
  }

  method ReadHeader(fp: Cursor) returns (r: Decoded<Header>)
    requires fp.Valid() && fp.pos == 0
    modifies fp
    ensures fp.Valid() && r == HeaderAt(fp.data)
    ensures r.Ok? ==> fp.pos == r.next
  {
    var version := fp.ReadI32();
    if version.Truncated? { return Truncated(version.at); }
    var nbytes := fp.ReadI16();
    if nbytes.Truncated? { return Truncated(nbytes.at); }
    var u := fp.Read(IdSize);
    var tsVersion := fp.ReadI32();
    if tsVersion.Truncated? { return Truncated(tsVersion.at); }
    var ntags := fp.ReadI32();
    if ntags.Truncated? { return Truncated(ntags.at); }
    r := ReadHeaderPaper(fp, Header(version.value, u, tsVersion.value, ntags.value, 0, 0, false, 0, 0));
  }

  method ReadHeaderPaper(fp: Cursor, h: Header) returns (r: Decoded<Header>)
    requires fp.Valid()
    modifies fp
    ensures fp.Valid() && r == HeaderPaperAt(fp.data, old(fp.pos), h)
    ensures r.Ok? ==> fp.pos == r.next
  {
    var foo := fp.ReadI32();
    if foo.Truncated? { return Truncated(foo.at); }
    foo := fp.ReadI32();
    if foo.Truncated? { return Truncated(foo.at); }
    var paperType := fp.ReadI32();
    if paperType.Truncated? { return Truncated(paperType.at); }
    var nimages := fp.ReadI32();
    if nimages.Truncated? { return Truncated(nimages.at); }
    r := ReadHeaderStyle(fp, h.(paperType := paperType.value, imageCount := nimages.value));
  }

  method ReadHeaderStyle(fp: Cursor, h: Header) returns (r: Decoded<Header>)
    requires fp.Valid()
    modifies fp
    ensures fp.Valid() && r == HeaderStyleAt(fp.data, old(fp.pos), h)
    ensures r.Ok? ==> fp.pos == r.next
  {
    var dummy := fp.ReadI32();
    if dummy.Truncated? { return Truncated(dummy.at); }
    var readOnly := fp.ReadBool();
    if readOnly.Truncated? { return Truncated(readOnly.at); }
    var aspect := fp.ReadF32();
    if aspect.Truncated? { return Truncated(aspect.at); }
    var nstrokes := fp.ReadI32();
    if nstrokes.Truncated? { return Truncated(nstrokes.at); }
    r := Ok(h.(readOnly := readOnly.value, aspectRatio := aspect.value, strokeCount := nstrokes.value),
            fp.pos);
  }

  /** `for stroke in xrange(nstrokes)`: one stroke per turn, in file order. */
  method ReadStrokes(fp: Cursor, nstrokes: int32) returns (r: Decoded<seq<Stroke>>)
    requires fp.Valid()
    modifies fp
    ensures fp.Valid() && r == Repeat(StrokeAt, fp.data, old(fp.pos), Iterations(nstrokes as int))
    ensures r.Ok? ==> fp.pos == r.next
  {
    var strokes: seq<Stroke> := [];
    var i := 0;
    while i < nstrokes as int
      invariant fp.Valid()
      invariant 0 <= i <= Iterations(nstrokes as int)
      invariant Repeat(StrokeAt, fp.data, old(fp.pos), i) == Ok(strokes, fp.pos)
    {
      var stroke := ReadStroke(fp);
      if stroke.Truncated? {
        RepeatStaysTruncated(StrokeAt, fp.data, old(fp.pos), i + 1, Iterations(nstrokes as int));
        return Truncated(stroke.at);
      }
      strokes := strokes + [stroke.value];
      i := i + 1;
    }
    assert i == Iterations(nstrokes as int);
    return Ok(strokes, fp.pos);
  }

  /** The body of the stroke loop: five i32 fields, then the points. */
  method ReadStroke(fp: Cursor) returns (r: Decoded<Stroke>)
    requires fp.Valid()
    modifies fp
    ensures fp.Valid() && r == StrokeAt(fp.data, old(fp.pos))
    ensures r.Ok? ==> fp.pos == r.next
  {
    var version := fp.ReadI32();
    if version.Truncated? { return Truncated(version.at); }
    var color := fp.ReadI32();
    if color.Truncated? { return Truncated(color.at); }
    var thickness := fp.ReadI32();
    if thickness.Truncated? { return Truncated(thickness.at); }
    var tool := fp.ReadI32();
    if tool.Truncated? { return Truncated(tool.at); }
    var n := fp.ReadI32();
    if n.Truncated? { return Truncated(n.at); }
    var points := ReadPoints(fp, n.value);
    if points.Truncated? { return Truncated(points.at); }
    r := Ok(Stroke(version.value, color.value, thickness.value, tool.value, n.value, points.value), fp.pos);
  }

  /** The body of the point loop: x, y and pressure. */
  method ReadPoint(fp: Cursor) returns (r: Decoded<Point>)
    requires fp.Valid()
    modifies fp
    ensures fp.Valid() && r == PointAt(fp.data, old(fp.pos))
    ensures r.Ok? ==> fp.pos == r.next
  {
    var x := fp.ReadF32();
    if x.Truncated? { return Truncated(x.at); }
    var y := fp.ReadF32();
    if y.Truncated? { return Truncated(y.at); }
    var pressure := fp.ReadF32();
    if pressure.Truncated? { return Truncated(pressure.at); }
    r := Ok(Point(x.value, y.value, pressure.value), fp.pos);
  }

  /** `for instance in xrange(N)`: appends one point per turn. */
  method ReadPoints(fp: Cursor, n: int32) returns (r: Decoded<seq<Point>>)
    requires fp.Valid()
    modifies fp
    ensures fp.Valid() && r == Repeat(PointAt, fp.data, old(fp.pos), Iterations(n as int))
    ensures r.Ok? ==> fp.pos == r.next
  {
    var points: seq<Point> := [];
    var i := 0;
    while i < n as int
      invariant fp.Valid()
      invariant 0 <= i <= Iterations(n as int)
      invariant Repeat(PointAt, fp.data, old(fp.pos), i) == Ok(points, fp.pos)
    {
      var point := ReadPoint(fp);
      if point.Truncated? {
        RepeatStaysTruncated(PointAt, fp.data, old(fp.pos), i + 1, Iterations(n as int));
        return Truncated(point.at);
      }
      points := points + [point.value];
      i := i + 1;
    }
    assert i == Iterations(n as int);
    return Ok(points, fp.pos);
  }

  // Where the decoder finds each field.

  /** A point is three f32 fields, x then y then pressure. */
  lemma PointLayout(data: seq<byte>, pos: nat)
    ensures PointAt(data, pos).Ok? <==> pos + PointSize <= |data|
    ensures PointAt(data, pos).Ok? ==>
      PointAt(data, pos) == Ok(Point(Bits32Of(data[pos..pos + 4]), Bits32Of(data[pos + 4..pos + 8]),
                                     Bits32Of(data[pos + 8..pos + 12])), pos + PointSize)
  {
  }

  /** A list of `k` points reads when its 12k bytes are there; point `i` is
      read 12i bytes after the start, so the points keep their file order. */
  lemma PointsLayout(data: seq<byte>, start: nat, k: nat)
    ensures Repeat(PointAt, data, start, k).Ok? <==> k == 0 || start + PointSize * k <= |data|
    ensures Repeat(PointAt, data, start, k).Ok? ==> Repeat(PointAt, data, start, k).next == start + PointSize * k
    ensures Repeat(PointAt, data, start, k).Ok? ==> forall i :: 0 <= i < k ==>
      PointAt(data, start + PointSize * i)
        == Ok(Repeat(PointAt, data, start, k).value[i], start + PointSize * (i + 1))
  {
    forall p: nat
      ensures PointAt(data, p).Ok? <==> p + PointSize <= |data|
      ensures PointAt(data, p).Ok? ==> PointAt(data, p).next == p + PointSize
    {
      PointLayout(data, p);
    }
    RepeatFixed(PointAt, PointSize, data, start, k);
  }

  /** The bytes a decoded stroke takes in the file. */
  function StrokeSize(s: Stroke): nat
  {
    StrokeHeadSize + PointSize * |s.points|
  }

  /** A stroke is five i32 fields and then as many points as the fifth one
      says (none when it is zero or negative); it takes 20 + 12N bytes, and
      it reads exactly when those bytes are there. */
  lemma StrokeLayout(data: seq<byte>, pos: nat)
    ensures StrokeAt(data, pos).Ok? <==>
      pos + StrokeHeadSize <= |data|
      && var n := Int32Of(data[pos + 16..pos + 20]) as int;
         n <= 0 || pos + StrokeHeadSize + PointSize * n <= |data|
    ensures StrokeAt(data, pos).Ok? ==>
      var s, end := StrokeAt(data, pos).value, StrokeAt(data, pos).next;
      && s.version == Int32Of(data[pos..pos + 4])
      && s.color == Int32Of(data[pos + 4..pos + 8])
      && s.thickness == Int32Of(data[pos + 8..pos + 12])
      && s.tool == Int32Of(data[pos + 12..pos + 16])
      && s.pointCount == Int32Of(data[pos + 16..pos + 20])
      && |s.points| == Iterations(s.pointCount as int)
      && Repeat(PointAt, data, pos + StrokeHeadSize, |s.points|) == Ok(s.points, end)
      && end == pos + StrokeSize(s)
  {
    if pos + StrokeHeadSize <= |data| {
      var n := I32At(data, pos + 16);
      PointsLayout(data, pos + StrokeHeadSize, Iterations(n.value as int));
    }
  }

  /** Each stroke takes the bytes StrokeSize counts. */
  lemma StrokeSizes(data: seq<byte>)
    ensures forall p: nat :: StrokeAt(data, p).Ok? ==> StrokeAt(data, p).next == p + StrokeSize(StrokeAt(data, p).value)
  {
    forall p: nat | StrokeAt(data, p).Ok?
      ensures StrokeAt(data, p).next == p + StrokeSize(StrokeAt(data, p).value)
    {
      StrokeLayout(data, p);
    }
  }

  /** The strokes end as many bytes after their start as they take. */
  lemma StrokesEnd(data: seq<byte>, start: nat, k: nat)
    requires Repeat(StrokeAt, data, start, k).Ok?
    ensures Repeat(StrokeAt, data, start, k).next
              == start + TotalSize(StrokeSize, Repeat(StrokeAt, data, start, k).value)
  {
    StrokeSizes(data);
    RepeatEnd(StrokeAt, StrokeSize, data, start, k);
  }

  /** The strokes follow each other without gaps: stroke `i` starts where
      the strokes before it end, so they keep their file order. */
  lemma StrokeNth(data: seq<byte>, start: nat, k: nat, i: nat)
    requires Repeat(StrokeAt, data, start, k).Ok? && i < k
    ensures
      var strokes := Repeat(StrokeAt, data, start, k).value;
      StrokeAt(data, start + TotalSize(StrokeSize, strokes[..i]))
        == Ok(strokes[i], start + TotalSize(StrokeSize, strokes[..i + 1]))
  {
    StrokeSizes(data);
    RepeatNthAt(StrokeAt, StrokeSize, data, start, k, i);
  }

  /** The last four header fields: the unused i32, the read-only flag, the
      aspect ratio and the stroke count, 13 bytes in all. */
  lemma HeaderStyleLayout(data: seq<byte>, pos: nat, h: Header)
    ensures HeaderStyleAt(data, pos, h).Ok? <==> pos + 13 <= |data|
    ensures HeaderStyleAt(data, pos, h).Ok? ==>
      HeaderStyleAt(data, pos, h)
        == Ok(h.(readOnly := data[pos + 4] != 0, aspectRatio := Bits32Of(data[pos + 5..pos + 9]),
                 strokeCount := Int32Of(data[pos + 9..pos + 13])), pos + 13)
  {
  }

  /** The middle of the header: two unused i32 fields, the paper type and the
      image count, then the last four fields. */
  lemma HeaderPaperLayout(data: seq<byte>, pos: nat, h: Header)
    ensures HeaderPaperAt(data, pos, h).Ok? <==> pos + 29 <= |data|
    ensures HeaderPaperAt(data, pos, h).Ok? ==>
      HeaderPaperAt(data, pos, h)
        == HeaderStyleAt(data, pos + 16, h.(paperType := Int32Of(data[pos + 8..pos + 12]),
                                            imageCount := Int32Of(data[pos + 12..pos + 16])))
  {
    if pos + 16 <= |data| {
      HeaderStyleLayout(data, pos + 16, h.(paperType := Int32Of(data[pos + 8..pos + 12]),
                                           imageCount := Int32Of(data[pos + 12..pos + 16])));
    }
  }

  /** The header reads exactly when the file has its 79 bytes, and every
      kept field sits at a fixed offset; the id is never cut short, since
      the i32 after it would fail first. */
  lemma HeaderLayout(data: seq<byte>)
    ensures HeaderAt(data).Ok? <==> |data| >= HeaderSize
    ensures HeaderAt(data).Ok? ==>
      HeaderAt(data) == Ok(Header(Int32Of(data[0..4]), data[6..42], Int32Of(data[42..46]),
                                  Int32Of(data[46..50]), Int32Of(data[58..62]), Int32Of(data[62..66]),
                                  data[70] != 0, Bits32Of(data[71..75]), Int32Of(data[75..79])),
                           HeaderSize)
  {
    if |data| >= 6 {
      var u := Chunk(data, 6, IdSize);
      if |data| >= 50 {
        var h := Header(Int32Of(data[0..4]), u, Int32Of(data[42..46]), Int32Of(data[46..50]), 0, 0, false, 0, 0);
        assert HeaderAt(data) == HeaderPaperAt(data, 50, h);
        HeaderPaperLayout(data, 50, h);
        if |data| >= 66 {
          HeaderStyleLayout(data, 66, h.(paperType := Int32Of(data[58..62]), imageCount := Int32Of(data[62..66])));
        }
      } else {
        assert |u| < IdSize || I32At(data, 6 + |u|).Truncated? || I32At(data, 46).Truncated?;
      }
    }
  }

  /** The unused fields of the header (bytes 4-6, 50-58 and 66-70) never
      change what is decoded. */
  lemma HeaderIgnoresReserved(d: seq<byte>, e: seq<byte>)
    requires |d| >= HeaderSize && |e| >= HeaderSize
    requires d[..4] == e[..4] && d[6..50] == e[6..50] && d[58..66] == e[58..66] && d[70..79] == e[70..79]
    ensures HeaderAt(d) == HeaderAt(e)
  {
    HeaderLayout(d);
    HeaderLayout(e);
    assert d[0..4] == d[..4] && e[0..4] == e[..4];
    assert d[6..42] == d[6..50][..36] && e[6..42] == e[6..50][..36];
    assert d[42..46] == d[6..50][36..40] && e[42..46] == e[6..50][36..40];
    assert d[46..50] == d[6..50][40..44] && e[46..50] == e[6..50][40..44];
    assert d[58..62] == d[58..66][..4] && e[58..62] == e[58..66][..4];
    assert d[62..66] == d[58..66][4..] && e[62..66] == e[58..66][4..];
    assert d[70] == d[70..79][0] && e[70] == e[70..79][0];
    assert d[71..75] == d[70..79][1..5];
    assert e[71..75] == e[70..79][1..5];
    assert d[75..79] == d[70..79][5..] && e[75..79] == e[70..79][5..];
  }

  /** A page reads exactly when its header is there, every declared stroke
      reads in full after it, and the three trailing i32 fields follow. */
  lemma PageReads(data: seq<byte>)
    ensures PageAt(data).Ok? <==>
      |data| >= HeaderSize
      && var strokes := Repeat(StrokeAt, data, HeaderSize, Iterations(Int32Of(data[75..79]) as int));
         strokes.Ok? && strokes.next + ClosingSize <= |data|
  {
    var h := HeaderAt(data);
    HeaderShape(data);
    if h.Ok? {
      assert PageAt(data) == PageBodyAt(data, HeaderSize, h.value);
      PageBodyReads(data, HeaderSize, h.value);
    }
  }

  /** The header reads when its 79 bytes are there; the stroke count is its last field. */
  lemma HeaderShape(data: seq<byte>)
    ensures HeaderAt(data).Ok? <==> |data| >= HeaderSize
    ensures HeaderAt(data).Ok? ==>
      HeaderAt(data).next == HeaderSize && HeaderAt(data).value.strokeCount == Int32Of(data[75..79])
  {
    HeaderLayout(data);
  }

  /** The body reads exactly when the declared strokes read and twelve more bytes follow. */
  lemma PageBodyReads(data: seq<byte>, pos: nat, h: Header)
    ensures PageBodyAt(data, pos, h).Ok? <==>
      var strokes := Repeat(StrokeAt, data, pos, Iterations(h.strokeCount as int));
      strokes.Ok? && strokes.next + ClosingSize <= |data|
  {
  }

  lemma PageBodyParts(data: seq<byte>, pos: nat, h: Header)
    requires PageBodyAt(data, pos, h).Ok?
    ensures
      var strokes := Repeat(StrokeAt, data, pos, Iterations(h.strokeCount as int));
      && strokes.Ok? && I32At(data, strokes.next).Ok? && I32At(data, strokes.next + 8).Ok?
      && PageBodyAt(data, pos, h) == Ok(Page(h, strokes.value, I32At(data, strokes.next).value,
                                            I32At(data, strokes.next + 8).value), strokes.next + 12)
  {
  }

  /** What follows the header: the declared strokes one after the other,
      then the line and text counts in the 12 bytes after the last stroke,
      which is where decoding stops. */
  lemma PageBodyLayout(data: seq<byte>, pos: nat, h: Header)
    requires PageBodyAt(data, pos, h).Ok?
    ensures
      var page, end := PageBodyAt(data, pos, h).value, PageBodyAt(data, pos, h).next;
      var s := pos + TotalSize(StrokeSize, page.strokes);
      && page.header == h
      && |page.strokes| == Iterations(h.strokeCount as int)
      && Repeat(StrokeAt, data, pos, |page.strokes|) == Ok(page.strokes, s)
      && end == s + ClosingSize <= |data|
      && I32At(data, s) == Ok(page.lineCount, s + 4)
      && I32At(data, s + 8) == Ok(page.textCount, end)
  {
    var k := Iterations(h.strokeCount as int);
    PageBodyParts(data, pos, h);
    StrokesEnd(data, pos, k);
  }

  /** A decoded page is its 79-byte header followed by what PageBodyLayout
      places after it. */
  lemma PageLayout(data: seq<byte>)
    requires PageAt(data).Ok?
    ensures HeaderAt(data) == Ok(PageAt(data).value.header, HeaderSize)
    ensures PageBodyAt(data, HeaderSize, PageAt(data).value.header) == PageAt(data)
  {
    var h := HeaderAt(data);
    assert h.Ok? && h.next == HeaderSize by {
      HeaderLayout(data);
    }
    assert PageAt(data) == PageBodyAt(data, HeaderSize, h.value);
  }

  /** A zero or negative stroke count reads no stroke: the three trailing
      fields come straight after the header. */
  lemma PageWithoutStrokes(data: seq<byte>)
    requires |data| >= HeaderSize && Int32Of(data[75..79]) <= 0
    ensures PageAt(data).Ok? <==> |data| >= HeaderSize + ClosingSize
    ensures PageAt(data).Ok? ==> PageAt(data).value.strokes == [] && PageAt(data).next == HeaderSize + ClosingSize
  {
    HeaderLayout(data);
  }

  /** `for point in xrange(len(points) - 1)`: the line segments the renderer
      draws for one stroke, each from a point to the next one. */
  method Segments(points: seq<Point>) returns (segments: seq<(Point, Point)>)
    ensures |segments| == Iterations(|points| - 1)
    ensures forall i :: 0 <= i < |segments| ==> segments[i] == (points[i], points[i + 1])
  {
    segments := [];
    var point := 0;
    while point < |points| - 1
      invariant 0 <= point <= Iterations(|points| - 1)
      invariant |segments| == point
      invariant forall i :: 0 <= i < point ==> segments[i] == (points[i], points[i + 1])
    {
      segments := segments + [(points[point], points[point + 1])];
      point := point + 1;
    }
  }

  // Writing a page, and reading back what was written.

  function PointBytes(pt: Point): (s: seq<byte>)
    ensures |s| == PointSize
  {
    Bits32Bytes(pt.x) + (Bits32Bytes(pt.y) + Bits32Bytes(pt.pressure))
  }

  /** A stroke as the decoder expects it: as many points as its count says. */
  predicate StrokeWellFormed(s: Stroke)
  {
    |s.points| == Iterations(s.pointCount as int)
  }

  function StrokeBytes(s: Stroke): seq<byte>
  {
    Int32Bytes(s.version) + (Int32Bytes(s.color) + (Int32Bytes(s.thickness)
      + (Int32Bytes(s.tool) + (Int32Bytes(s.pointCount) + Concat(PointBytes, s.points)))))
  }

  /** The first part of the header, up to the tag count; the unused i16
      before the id says 36. */
  function HeaderHeadBytes(h: Header): seq<byte>
  {
    Int32Bytes(h.version) + (Int16Bytes(IdSize as int16) + (h.id + (Int32Bytes(h.tsVersion) + Int32Bytes(h.tagCount))))
  }

  /** The middle of the header; the two unused i32 fields are zero. */
  function HeaderPaperBytes(h: Header): (s: seq<byte>)
    ensures |s| == 16
  {
    Int32Bytes(0) + (Int32Bytes(0) + (Int32Bytes(h.paperType) + Int32Bytes(h.imageCount)))
  }

  /** The last part of the header; the unused i32 is zero. */
  function HeaderStyleBytes(h: Header): (s: seq<byte>)
    ensures |s| == 13
  {
    Int32Bytes(0) + (BoolBytes(h.readOnly) + (Bits32Bytes(h.aspectRatio) + Int32Bytes(h.strokeCount)))
  }

  function HeaderBytes(h: Header): seq<byte>
  {
    HeaderHeadBytes(h) + (HeaderPaperBytes(h) + HeaderStyleBytes(h))
  }

  /** A page as the decoder can give it back: a full id, one stroke per
      declared stroke, each well formed. */
  predicate PageWellFormed(page: Page)
  {
    && |page.header.id| == IdSize
    && |page.strokes| == Iterations(page.header.strokeCount as int)
    && forall i :: 0 <= i < |page.strokes| ==> StrokeWellFormed(page.strokes[i])
  }

  /** A page file holding `page`; the unused i32 after the line count is zero. */
  function PageBytes(page: Page): seq<byte>
  {
    HeaderBytes(page.header)
      + (Concat(StrokeBytes, page.strokes)
      + (Int32Bytes(page.lineCount) + (Int32Bytes(0) + Int32Bytes(page.textCount))))
  }

  lemma PointReadsBack(pt: Point, data: seq<byte>, pos: nat)
    requires IsAt(PointBytes(pt), data, pos)
    ensures PointAt(data, pos) == Ok(pt, pos + PointSize)
  {
    var tail := Bits32Bytes(pt.y) + Bits32Bytes(pt.pressure);
    SplitAt(Bits32Bytes(pt.x), tail, data, pos);
    SplitAt(Bits32Bytes(pt.y), Bits32Bytes(pt.pressure), data, pos + 4);
    F32ReadsBack(data, pos, pt.x);
    F32ReadsBack(data, pos + 4, pt.y);
    F32ReadsBack(data, pos + 8, pt.pressure);
  }

  lemma PointsReadBack(points: seq<Point>, data: seq<byte>, pos: nat)
    requires IsAt(Concat(PointBytes, points), data, pos)
    ensures Repeat(PointAt, data, pos, |points|) == Ok(points, pos + |Concat(PointBytes, points)|)
  {
    forall x, d, p: nat | IsAt(PointBytes(x), d, p)
      ensures PointAt(d, p) == Ok(x, p + |PointBytes(x)|)
    {
      PointReadsBack(x, d, p);
    }
    ConcatReadsBack(PointAt, PointBytes, (x: Point) => true, points, data, pos);
  }

  /** Where the parts of an encoded stroke lie. */
  lemma StrokePartsAt(s: Stroke, data: seq<byte>, pos: nat)
    requires IsAt(StrokeBytes(s), data, pos)
    ensures IsAt(Int32Bytes(s.version), data, pos) && IsAt(Int32Bytes(s.color), data, pos + 4)
    ensures IsAt(Int32Bytes(s.thickness), data, pos + 8) && IsAt(Int32Bytes(s.tool), data, pos + 12)
    ensures IsAt(Int32Bytes(s.pointCount), data, pos + 16)
    ensures IsAt(Concat(PointBytes, s.points), data, pos + StrokeHeadSize)
  {
    var b4 := Int32Bytes(s.pointCount) + Concat(PointBytes, s.points);
    var b3 := Int32Bytes(s.tool) + b4;
    var b2 := Int32Bytes(s.thickness) + b3;
    SplitAt(Int32Bytes(s.version), Int32Bytes(s.color) + b2, data, pos);
    SplitAt(Int32Bytes(s.color), b2, data, pos + 4);
    SplitAt(Int32Bytes(s.thickness), b3, data, pos + 8);
    SplitAt(Int32Bytes(s.tool), b4, data, pos + 12);
    SplitAt(Int32Bytes(s.pointCount), Concat(PointBytes, s.points), data, pos + 16);
  }

  lemma StrokeReadsBack(s: Stroke, data: seq<byte>, pos: nat)
    requires StrokeWellFormed(s) && IsAt(StrokeBytes(s), data, pos)
    ensures |StrokeBytes(s)| == StrokeSize(s)
    ensures StrokeAt(data, pos) == Ok(s, pos + StrokeSize(s))
  {
    ConcatSize(PointBytes, PointSize, s.points);
    StrokePartsAt(s, data, pos);
    assert I32At(data, pos) == Ok(s.version, pos + 4) by {
      I32ReadsBack(data, pos, s.version);
    }
    assert I32At(data, pos + 4) == Ok(s.color, pos + 8) by {
      I32ReadsBack(data, pos + 4, s.color);
    }
    assert I32At(data, pos + 8) == Ok(s.thickness, pos + 12) by {
      I32ReadsBack(data, pos + 8, s.thickness);
    }
    assert I32At(data, pos + 12) == Ok(s.tool, pos + 16) by {
      I32ReadsBack(data, pos + 12, s.tool);
    }
    assert I32At(data, pos + 16) == Ok(s.pointCount, pos + 20) by {
      I32ReadsBack(data, pos + 16, s.pointCount);
    }
    assert Repeat(PointAt, data, pos + StrokeHeadSize, |s.points|) == Ok(s.points, pos + StrokeSize(s)) by {
      PointsReadBack(s.points, data, pos + StrokeHeadSize);
    }
  }

  lemma HeaderStyleReadsBack(h: Header, g: Header, data: seq<byte>, pos: nat)
    requires IsAt(HeaderStyleBytes(h), data, pos)
    ensures HeaderStyleAt(data, pos, g)
              == Ok(g.(readOnly := h.readOnly, aspectRatio := h.aspectRatio, strokeCount := h.strokeCount), pos + 13)
  {
    var b2 := Bits32Bytes(h.aspectRatio) + Int32Bytes(h.strokeCount);
    SplitAt(Int32Bytes(0), BoolBytes(h.readOnly) + b2, data, pos);
    SplitAt(BoolBytes(h.readOnly), b2, data, pos + 4);
    SplitAt(Bits32Bytes(h.aspectRatio), Int32Bytes(h.strokeCount), data, pos + 5);
    BoolReadsBack(data, pos + 4, h.readOnly);
    F32ReadsBack(data, pos + 5, h.aspectRatio);
    I32ReadsBack(data, pos + 9, h.strokeCount);
  }

  lemma HeaderPaperReadsBack(h: Header, g: Header, data: seq<byte>, pos: nat)
    requires IsAt(HeaderPaperBytes(h) + HeaderStyleBytes(h), data, pos)
    ensures HeaderPaperAt(data, pos, g)
              == Ok(g.(paperType := h.paperType, imageCount := h.imageCount, readOnly := h.readOnly,
                       aspectRatio := h.aspectRatio, strokeCount := h.strokeCount), pos + 29)
  {
    var b3 := Int32Bytes(h.imageCount) + HeaderStyleBytes(h);
    var b2 := Int32Bytes(h.paperType) + b3;
    SplitAt(HeaderPaperBytes(h), HeaderStyleBytes(h), data, pos);
    assert HeaderPaperBytes(h) + HeaderStyleBytes(h) == Int32Bytes(0) + (Int32Bytes(0) + b2);
    SplitAt(Int32Bytes(0), Int32Bytes(0) + b2, data, pos);
    SplitAt(Int32Bytes(0), b2, data, pos + 4);
    SplitAt(Int32Bytes(h.paperType), b3, data, pos + 8);
    SplitAt(Int32Bytes(h.imageCount), HeaderStyleBytes(h), data, pos + 12);
    I32ReadsBack(data, pos + 8, h.paperType);
    I32ReadsBack(data, pos + 12, h.imageCount);
    HeaderStyleReadsBack(h, g.(paperType := h.paperType, imageCount := h.imageCount), data, pos + 16);
  }

  /** The header reads back from its encoding at the start of a file. */
  lemma HeaderReadsBack(h: Header, data: seq<byte>)
    requires |h.id| == IdSize && IsAt(HeaderBytes(h), data, 0)
    ensures |HeaderBytes(h)| == HeaderSize
    ensures HeaderAt(data) == Ok(h, HeaderSize)
  {
    var b3 := h.id + (Int32Bytes(h.tsVersion) + Int32Bytes(h.tagCount));
    var b2 := Int16Bytes(IdSize as int16) + b3;
    var rest := HeaderPaperBytes(h) + HeaderStyleBytes(h);
    SplitAt(HeaderHeadBytes(h), rest, data, 0);
    SplitAt(Int32Bytes(h.version), b2, data, 0);
    SplitAt(Int16Bytes(IdSize as int16), b3, data, 4);
    SplitAt(h.id, Int32Bytes(h.tsVersion) + Int32Bytes(h.tagCount), data, 6);
    SplitAt(Int32Bytes(h.tsVersion), Int32Bytes(h.tagCount), data, 42);
    I32ReadsBack(data, 0, h.version);
    RawReadsBack(data, 6, h.id);
    I32ReadsBack(data, 42, h.tsVersion);
    I32ReadsBack(data, 46, h.tagCount);
    var g := Header(h.version, h.id, h.tsVersion, h.tagCount, 0, 0, false, 0, 0);
    assert HeaderAt(data) == HeaderPaperAt(data, 50, g);
    HeaderPaperReadsBack(h, g, data, 50);
  }

  /** Every well-formed stroke reads back from its encoding, wherever it lies. */
  lemma StrokeEncodingReadsBack()
    ensures forall x, d, p: nat :: StrokeWellFormed(x) && IsAt(StrokeBytes(x), d, p) ==>
      StrokeAt(d, p) == Ok(x, p + |StrokeBytes(x)|)
  {
    forall x, d, p: nat | StrokeWellFormed(x) && IsAt(StrokeBytes(x), d, p)
      ensures StrokeAt(d, p) == Ok(x, p + |StrokeBytes(x)|)
    {
      StrokeReadsBack(x, d, p);
    }
  }

  /** An encoded stroke takes the bytes StrokeSize counts. */
  lemma StrokeEncodingSizes()
    ensures forall x :: StrokeWellFormed(x) ==> |StrokeBytes(x)| == StrokeSize(x)
  {
    forall x | StrokeWellFormed(x)
      ensures |StrokeBytes(x)| == StrokeSize(x)
    {
      ConcatSize(PointBytes, PointSize, x.points);
    }
  }

  lemma StrokesReadBack(strokes: seq<Stroke>, data: seq<byte>, pos: nat)
    requires forall i :: 0 <= i < |strokes| ==> StrokeWellFormed(strokes[i])
    requires IsAt(Concat(StrokeBytes, strokes), data, pos)
    ensures |Concat(StrokeBytes, strokes)| == TotalSize(StrokeSize, strokes)
    ensures Repeat(StrokeAt, data, pos, |strokes|) == Ok(strokes, pos + TotalSize(StrokeSize, strokes))
  {
    StrokeEncodingSizes();
    ConcatTotal(StrokeBytes, StrokeSize, StrokeWellFormed, strokes);
    StrokeEncodingReadsBack();
    ConcatReadsBack(StrokeAt, StrokeBytes, StrokeWellFormed, strokes, data, pos);
  }

  /** The three trailing fields read back from their encoding. */
  lemma ClosingReadsBack(lines: int32, text: int32, data: seq<byte>, pos: nat)
    requires IsAt(Int32Bytes(lines) + (Int32Bytes(0) + Int32Bytes(text)), data, pos)
    ensures I32At(data, pos) == Ok(lines, pos + 4) && I32At(data, pos + 8) == Ok(text, pos + 12)
  {
    SplitAt(Int32Bytes(lines), Int32Bytes(0) + Int32Bytes(text), data, pos);
    SplitAt(Int32Bytes(0), Int32Bytes(text), data, pos + 4);
    I32ReadsBack(data, pos, lines);
    I32ReadsBack(data, pos + 8, text);
  }

  /** The body is its strokes followed by the two counts. */
  lemma PageBodyFromParts(data: seq<byte>, pos: nat, h: Header, strokes: seq<Stroke>, lines: int32, text: int32, s: nat)
    requires |strokes| == Iterations(h.strokeCount as int) && Repeat(StrokeAt, data, pos, |strokes|) == Ok(strokes, s)
    requires IsAt(Int32Bytes(lines) + (Int32Bytes(0) + Int32Bytes(text)), data, s)
    ensures PageBodyAt(data, pos, h) == Ok(Page(h, strokes, lines, text), s + 12)
  {
    ClosingReadsBack(lines, text, data, s);
  }

  /** What follows the header reads back from its encoding. */
  lemma PageBodyReadsBack(page: Page, data: seq<byte>, pos: nat)
    requires PageWellFormed(page)
    requires IsAt(Concat(StrokeBytes, page.strokes)
                  + (Int32Bytes(page.lineCount) + (Int32Bytes(0) + Int32Bytes(page.textCount))), data, pos)
    ensures PageBodyAt(data, pos, page.header)
              == Ok(page, pos + TotalSize(StrokeSize, page.strokes) + ClosingSize)
  {
    var strokes := Concat(StrokeBytes, page.strokes);
    var closing := Int32Bytes(page.lineCount) + (Int32Bytes(0) + Int32Bytes(page.textCount));
    SplitAt(strokes, closing, data, pos);
    StrokesReadBack(page.strokes, data, pos);
    PageBodyFromParts(data, pos, page.header, page.strokes, page.lineCount, page.textCount, pos + |strokes|);
  }

  /** A page reads back from its encoding at the start of a file. */
  lemma PageReadsBack(page: Page, data: seq<byte>)
    requires PageWellFormed(page) && IsAt(PageBytes(page), data, 0)
    ensures PageAt(data) == Ok(page, HeaderSize + TotalSize(StrokeSize, page.strokes) + ClosingSize)
  {
    var body := Concat(StrokeBytes, page.strokes)
                + (Int32Bytes(page.lineCount) + (Int32Bytes(0) + Int32Bytes(page.textCount)));
    SplitAt(HeaderBytes(page.header), body, data, 0);
    HeaderReadsBack(page.header, data);
    assert PageAt(data) == PageBodyAt(data, HeaderSize, page.header);
    PageBodyReadsBack(page, data, HeaderSize);
  }

  lemma PageBytesSize(page: Page)
    requires PageWellFormed(page)
    ensures |HeaderBytes(page.header)| == HeaderSize
    ensures |PageBytes(page)| == HeaderSize + TotalSize(StrokeSize, page.strokes) + ClosingSize
  {
    StrokeEncodingSizes();
    ConcatTotal(StrokeBytes, StrokeSize, StrokeWellFormed, page.strokes);
  }

  /** Decoding an encoded page gives it back, whatever follows it in the
      file, and consumes 79 bytes of header, 20 + 12N bytes per stroke of
      N points and 12 bytes of trailing fields. */
  lemma PageRoundTrip(page: Page, rest: seq<byte>)
    requires PageWellFormed(page)
    ensures var enc := PageBytes(page);
      && |enc| == HeaderSize + TotalSize(StrokeSize, page.strokes) + ClosingSize
      && PageAt(enc + rest) == Ok(page, |enc|)
  {
    PageBytesSize(page);
    PrefixAt(PageBytes(page), rest);
    PageReadsBack(page, PageBytes(page) + rest);
  }

  /** Every stroke the stroke loop reads has as many points as its count asks for. */
  lemma StrokesWellFormed(data: seq<byte>, start: nat, k: nat)
    requires Repeat(StrokeAt, data, start, k).Ok?
    ensures forall i :: 0 <= i < k ==> StrokeWellFormed(Repeat(StrokeAt, data, start, k).value[i])
  {
    var strokes := Repeat(StrokeAt, data, start, k).value;
    forall i | 0 <= i < k
      ensures StrokeWellFormed(strokes[i])
    {
      RepeatNth(StrokeAt, data, start, k, i);
      StrokeLayout(data, Repeat(StrokeAt, data, start, i).next);
    }
  }

  /** Every decoded page lies in the domain of `PageRoundTrip`. */
  lemma DecodedPageWellFormed(data: seq<byte>)
    requires PageAt(data).Ok?
    ensures PageWellFormed(PageAt(data).value)
  {
    var page := PageAt(data).value;
    assert |page.header.id| == IdSize by {
      PageLayout(data);
      HeaderLayout(data);
    }
    var k := |page.strokes|;
    assert k == Iterations(page.header.strokeCount as int)
        && Repeat(StrokeAt, data, HeaderSize, k).Ok?
        && Repeat(StrokeAt, data, HeaderSize, k).value == page.strokes by {
      PageLayout(data);
      PageBodyLayout(data, HeaderSize, page.header);
    }
    StrokesWellFormed(data, HeaderSize, k);
  }
}
