# Quill notebook decoder

A model of the decoding core of `parse_quill.py` (quill_utils), the converter
that turns a Quill handwriting notebook into one SVG drawing per page.

A notebook directory holds:

- an index file, `index.quill_data`: the notebook's version, the ids of its
  pages in order, the current page, the title, two timestamps and a final id;
- one file per page, `page_<id>.quill_data`: a 79-byte header, the pen
  strokes (five `>i` fields and then that many points of three `>f` fields)
  and three closing `>i` fields.

Every number is big-endian. The `>f` fields are kept as their 32-bit
patterns.

`QuillPage.__init__` keeps only the header fields and the closing counts as
attributes. The five `>i` fields of each stroke are locals that are not used
after they are read, except `N`, which bounds the point loop. Only the points'
x, y and pressure are handed to Cairo (parse_quill.py:96-98). The model's `QuillPage.Page` also collects the strokes, so that
what was read can be stated and read back. It is not a copy of the Python
object's attributes.

The project has five modules:

- `Wire`: the fixed-width number formats.
- `ByteStream`: the file handle `fp`, its `read(n)`, the `struct.unpack` calls
  on what it returns, and the same reads written as pure functions of the
  bytes and a position.
- `QuillIndex`: `QuillIndex.__init__`.
- `QuillPage`: the decoding parts of `QuillPage.__init__`.
- `Notebook`: the loop in the main program that converts the pages.

Each decoder is written twice:

- as an imperative method that advances a `Cursor` object with while loops,
  as the Python code does;
- as a function of the file contents.

Each method is proved to compute its function. Lemmas about the functions
then state:

- where each field sits in the file;
- how many bytes each record takes;
- that records keep their file order;
- when decoding fails;
- that decoding inverts an encoder (round trips), whatever bytes follow.

The conversion loop is specified by a function (`Notebook.Run`) that takes
the page decoder as a parameter. Its ordering and stopping properties are
proved for any decoder. `Notebook.ConvertPages` is proved to compute `Run`
with `QuillPage.PageAt`.

The model follows what parse_quill.py does:

- No "malformed" error exists. A negative page, stroke or point count runs
  `xrange` zero times and reads nothing.
- `fp.read(36)` and `fp.read(title_len)` never fail. They return fewer bytes
  at the end of the file, and everything that remains for a negative length.
  Only `struct.unpack` fails, and only on a short read.
- The title is kept as bytes. No text encoding is applied.
- The run is not all-or-nothing. The first failing page raises, but the pages
  before it have already been converted. `Outcome` keeps both the converted
  pages and the error.
- Page files are found by the name `page_<id>.quill_data`.

## Model

| member | source | states |
|---|---|---|
| Wire.UnsignedOfEncode | parse_quill.py:44 | Decoding the big-endian encoding of an in-range value gives that value back |
| Wire.EncodeOfUnsigned | parse_quill.py:44 | Every byte string is the encoding of its unsigned value, and that value fits its width |
| Wire.UnsignedBound | parse_quill.py:44 | An n-byte field holds a value below 256^n |
| Wire.UnsignedLeadingByte | parse_quill.py:44 | The first byte is the most significant one |
| Wire.TopBit | parse_quill.py:44 | The top bit of a field is the top bit of its first byte |
| Wire.UnsignedAppend | parse_quill.py:44 | The bytes read first are the high part of a big-endian value |
| Wire.Be16IsUnsigned | parse_quill.py:45 | The two-byte formula is the big-endian value of the two bytes |
| Wire.Be32IsUnsigned | parse_quill.py:44 | The four-byte formula is the big-endian value of the four bytes |
| Wire.Be64IsUnsigned | parse_quill.py:128 | The eight-byte formula is the big-endian value of the eight bytes |
| Wire.Int16Of | parse_quill.py:45 | `struct.unpack(">h")`: the two bytes as a big-endian two's-complement value; `Int16RoundTrip`, `Int16BytesRoundTrip` and `Int16SignBit` state its properties |
| Wire.Int32Of | parse_quill.py:44 | `struct.unpack(">i")`: the four bytes as a big-endian two's-complement value; `Int32RoundTrip`, `Int32BytesRoundTrip` and `Int32SignBit` state its properties |
| Wire.Int64Of | parse_quill.py:128-129 | `struct.unpack(">q")`: the eight bytes as a big-endian two's-complement value; `Int64RoundTrip`, `Int64BytesRoundTrip` and `Int64SignBit` state its properties |
| Wire.Bits32Of | parse_quill.py:57 | `struct.unpack(">f")` kept as its 32-bit pattern, most significant byte first; `Bits32RoundTrip` and `Bits32BytesRoundTrip` state its properties |
| Wire.Be16Bytes | parse_quill.py:45 | The two-byte encoder writes two bytes |
| Wire.Be32Bytes | parse_quill.py:44 | The four-byte encoder writes four bytes |
| Wire.Be64Bytes | parse_quill.py:128 | The eight-byte encoder writes eight bytes |
| Wire.Be16RoundTrip | parse_quill.py:45 | Reading back two encoded bytes gives the value below 2^16 that was written |
| Wire.Be32RoundTrip | parse_quill.py:44 | Reading back four encoded bytes gives the value below 2^32 that was written |
| Wire.Be64RoundTrip | parse_quill.py:128 | Reading back eight encoded bytes gives the value below 2^64 that was written |
| Wire.Be16BytesRoundTrip | parse_quill.py:45 | Any two bytes are the encoding of their value, which is below 2^16 |
| Wire.Be32BytesRoundTrip | parse_quill.py:44 | Any four bytes are the encoding of their value, which is below 2^32 |
| Wire.Be64BytesRoundTrip | parse_quill.py:128 | Any eight bytes are the encoding of their value, which is below 2^64 |
| Wire.Be32BytesIsEncode | parse_quill.py:44 | The four-byte encoder is the general big-endian encoding at width 4 |
| Wire.Be16BytesIsEncode | parse_quill.py:45 | The two-byte encoder is the general big-endian encoding at width 2 |
| Wire.Be64BytesIsEncode | parse_quill.py:128 | The eight-byte encoder is the general big-endian encoding at width 8 |
| Wire.Int16RoundTrip | parse_quill.py:45 | `>h` of the encoding of any int16 gives it back |
| Wire.Int32RoundTrip | parse_quill.py:44 | `>i` of the encoding of any int32 gives it back |
| Wire.Int64RoundTrip | parse_quill.py:128-129 | `>q` of the encoding of any int64 gives it back |
| Wire.Bits32RoundTrip | parse_quill.py:57 | `>f` bit patterns survive encoding and decoding |
| Wire.Int16BytesRoundTrip | parse_quill.py:45 | Every 2 bytes are the encoding of their `>h` value |
| Wire.Int32BytesRoundTrip | parse_quill.py:44 | Every 4 bytes are the encoding of their `>i` value |
| Wire.Int64BytesRoundTrip | parse_quill.py:128-129 | Every 8 bytes are the encoding of their `>q` value |
| Wire.Bits32BytesRoundTrip | parse_quill.py:57 | Every 4 bytes are the encoding of their `>f` pattern |
| Wire.Int16SignBit | parse_quill.py:45 | A `>h` value is negative exactly when its first byte has the top bit set |
| Wire.Int32SignBit | parse_quill.py:44 | A `>i` value is negative exactly when its first byte has the top bit set |
| Wire.Int64SignBit | parse_quill.py:128 | A `>q` value is negative exactly when its first byte has the top bit set |
| ByteStream.Iterations | parse_quill.py:118 | How many turns `for _ in xrange(n)` takes: n, and none for a zero or negative n; `Repeat`, `EntriesAt` and the loop methods run this many turns |
| ByteStream.Chunk | parse_quill.py:126 | `fp.read(n)` gives the next n bytes, or everything left when fewer remain or n is negative; it never fails |
| ByteStream.UnpackI16 | parse_quill.py:45 | `>h` accepts exactly 2 bytes |
| ByteStream.UnpackI32 | parse_quill.py:44 | `>i` accepts exactly 4 bytes |
| ByteStream.UnpackI64 | parse_quill.py:128 | `>q` accepts exactly 8 bytes |
| ByteStream.UnpackF32 | parse_quill.py:57 | `>f` accepts exactly 4 bytes |
| ByteStream.UnpackBool | parse_quill.py:56 | `>?` accepts exactly 1 byte |
| ByteStream.I16At | parse_quill.py:45 | Reads exactly when 2 bytes remain, giving their two's-complement value, else fails at the read's start |
| ByteStream.I32At | parse_quill.py:44 | Reads exactly when 4 bytes remain, giving their two's-complement value, else fails at the read's start |
| ByteStream.I64At | parse_quill.py:128 | Reads exactly when 8 bytes remain, giving their two's-complement value, else fails at the read's start |
| ByteStream.F32At | parse_quill.py:57 | Reads exactly when 4 bytes remain, giving their bit pattern |
| ByteStream.BoolAt | parse_quill.py:56 | Reads exactly when 1 byte remains; any non-zero byte is true |
| ByteStream.SkipAt | parse_quill.py:50-51 | An unused field still fails on a short read and otherwise takes its width |
| ByteStream.I16ReadsBack | parse_quill.py:45 | An encoded int16 reads back wherever it lies |
| ByteStream.I32ReadsBack | parse_quill.py:44 | An encoded int32 reads back wherever it lies |
| ByteStream.I64ReadsBack | parse_quill.py:128 | An encoded int64 reads back wherever it lies |
| ByteStream.F32ReadsBack | parse_quill.py:57 | An encoded bit pattern reads back wherever it lies |
| ByteStream.BoolReadsBack | parse_quill.py:56 | An encoded flag reads back wherever it lies |
| ByteStream.RawReadsBack | parse_quill.py:46 | A raw read of n bytes gives back the n bytes stored there |
| ByteStream.Repeat | parse_quill.py:89-93 | A count-driven loop that succeeds yields exactly as many records as it ran turns |
| ByteStream.RepeatStaysTruncated | parse_quill.py:89-93 | Once a record fails, further turns change nothing |
| ByteStream.RepeatPrefix | parse_quill.py:89-93 | The first i turns yield the first i records of the whole list |
| ByteStream.RepeatNth | parse_quill.py:89-93 | Record i is what the read finds where the first i records end |
| ByteStream.RepeatEnd | parse_quill.py:81-93 | Records that each take a known size end that total size after the start |
| ByteStream.RepeatNthAt | parse_quill.py:81-93 | Record i starts after the total size of the records before it, so records keep file order |
| ByteStream.RepeatFixed | parse_quill.py:89-93 | k fixed-width records read exactly when their w*k bytes are there, and record i is at start + w*i |
| ByteStream.ConcatSize | parse_quill.py:89-93 | k encoded records of width w take w*k bytes |
| ByteStream.ConcatTotal | parse_quill.py:81-93 | Encoded records take the total of their sizes |
| ByteStream.ConcatReadsBack | parse_quill.py:81-93 | Records written one after another read back, in order, by the loop |
| ByteStream.Cursor.constructor | parse_quill.py:42 | Opening a file starts reading at its first byte |
| ByteStream.Cursor.Read | parse_quill.py:46 | `fp.read(n)` returns the bytes `Chunk` names and advances past them |
| ByteStream.Cursor.ReadI16 | parse_quill.py:45 | Computes `I16At` at the handle's position and advances by up to 2 bytes |
| ByteStream.Cursor.ReadI32 | parse_quill.py:44 | Computes `I32At` at the handle's position and advances by up to 4 bytes |
| ByteStream.Cursor.ReadI64 | parse_quill.py:128 | Computes `I64At` at the handle's position and advances by up to 8 bytes |
| ByteStream.Cursor.ReadF32 | parse_quill.py:57 | Computes `F32At` at the handle's position and advances by up to 4 bytes |
| ByteStream.Cursor.ReadBool | parse_quill.py:56 | Computes `BoolAt` at the handle's position and advances by up to 1 byte |
| QuillIndex.EntryAt | parse_quill.py:119-120 | One page-list entry: a discarded i16, then `fp.read(36)`; fails only when the i16 is cut short |
| QuillIndex.EntriesAt | parse_quill.py:118-121 | The page list is `Repeat` of `EntryAt`; when read, it has exactly as many ids as turns |
| QuillIndex.IndexAt | parse_quill.py:113-131 | The index read from the start of the file: version, page count, max(0, n) page-list entries, then the fields after the list; the first short read fails at its start; `IndexReads` says exactly when it decodes; `IndexLayout`, `IndexConsumes`, `DecodedWellFormed` and `IndexRoundTrip` state its properties |
| QuillIndex.IndexTailAt | parse_quill.py:123-131 | The current page, the i16 title length, `fp.read` of that many bytes as the title, then the trailer; `IndexTailReads` says exactly when it decodes; `IndexTailLayout` states its properties |
| QuillIndex.TrailerAt | parse_quill.py:128-131 | ctime, mtime, a discarded i16 and `fp.read(36)` as the final id; `TrailerReads` says exactly when it decodes; `TrailerLayout` and `TrailerReadBack` state its properties |
| QuillIndex.DecodeIndex | parse_quill.py:109-131 | The imperative decoder computes `IndexAt` |
| QuillIndex.ReadEntries | parse_quill.py:118-121 | The append loop computes `EntriesAt` for `max(0, npages)` turns and leaves the handle after the list |
| QuillIndex.ReadIndexTail | parse_quill.py:123-131 | Reads the fields after the page list as `IndexTailAt` does |
| QuillIndex.ReadTrailer | parse_quill.py:128-131 | Reads the timestamps and the final id as `TrailerAt` does |
| QuillIndex.EntriesLayout | parse_quill.py:118-121 | The page list reads iff each discarded i16 is there in full; it ends 38 bytes per entry after its start (or at end of file); id i is the 36 bytes after the i-th i16, whatever that i16 says |
| QuillIndex.TrailerLayout | parse_quill.py:128-131 | ctime and mtime are the 8-byte fields at the start; the final id follows the discarded i16 and is short only at end of file |
| QuillIndex.IndexTailLayout | parse_quill.py:123-131 | The current page is the first i32; the title is exactly as long as its i16 prefix, so a decoded index never has a negative prefix; the trailer follows the title |
| QuillIndex.IndexLayout | parse_quill.py:113-131 | A decoded index has max(0, npages) ids, each exactly 36 bytes in file order, and the fields after the list start at 8 + 38n |
| QuillIndex.IndexHead | parse_quill.py:113-121 | A decoded index read its two counts from the first 8 bytes and its page list right after them, and the rest of it is `IndexTailAt` at the end of that list |
| QuillIndex.EntriesInFull | parse_quill.py:118-121 | When the file holds 38 bytes per entry, every id is the full 36 bytes after its i16 |
| QuillIndex.TrailerReads | parse_quill.py:128-131 | The trailer decodes iff 18 bytes remain (the id itself may be short) |
| QuillIndex.IndexTailReads | parse_quill.py:123-131 | The fields after the page list decode iff the i16 title length is there, is not negative, and the title and an 18-byte trailer head fit |
| QuillIndex.IndexReads | parse_quill.py:113-131 | The index decodes iff the two counts are there, the page list reads, and the fields after it decode as `IndexTailReads` says |
| QuillIndex.IndexConsumes | parse_quill.py:113-131 | A decoded index whose final id is full took exactly 68 + 38n + title bytes |
| QuillIndex.DecodedWellFormed | parse_quill.py:113-131 | A decoded index whose final id is full is well formed (what the encoder accepts) |
| QuillIndex.EncodeEntries | parse_quill.py:118-121 | An encoded page list takes 38 bytes per id |
| QuillIndex.EntriesReadBack | parse_quill.py:118-121 | An encoded page list reads back in order |
| QuillIndex.TrailerPartsAt | parse_quill.py:128-131 | Where the parts of an encoded trailer lie |
| QuillIndex.TrailerReadBack | parse_quill.py:128-131 | An encoded trailer takes 54 bytes and reads back |
| QuillIndex.IndexTailPartsAt | parse_quill.py:123-131 | Where the parts of the encoded fields after the page list lie |
| QuillIndex.IndexTailReadBack | parse_quill.py:123-131 | The fields after the page list take 60 + title bytes and read back |
| QuillIndex.EncodeIndexSize | parse_quill.py:113-131 | An encoded index takes 4+4+38n+4+2+title+8+8+2+36 bytes |
| QuillIndex.IndexPartsAt | parse_quill.py:113-131 | Where the parts of an encoded index lie |
| QuillIndex.IndexReadBack | parse_quill.py:113-131 | An encoded index at the start of a file decodes to itself and takes its full size |
| QuillIndex.IndexPartsReadBack | parse_quill.py:113-131 | The two counts, the page list and the fields after it, each encoded where the index puts it, decode to the index |
| QuillIndex.IndexRoundTrip | parse_quill.py:113-131 | Decoding an encoded index gives it back, whatever bytes follow |
| QuillPage.HeaderAt | parse_quill.py:44-49 | The version, a discarded i16, `fp.read(36)` as the id, the timestamp version and the tag count, then the rest of the header; `HeaderLayout` states its properties |
| QuillPage.HeaderPaperAt | parse_quill.py:50-58 | Two discarded i32s, the paper type and the image count, then the end of the header; `HeaderPaperLayout` states its properties |
| QuillPage.HeaderStyleAt | parse_quill.py:55-58 | A discarded i32, the read-only flag, the aspect-ratio pattern and the stroke count; `HeaderStyleLayout` states its properties |
| QuillPage.PointAt | parse_quill.py:90-93 | One point: x, y and pressure as `>f` patterns; `PointLayout` and `PointReadsBack` state its properties |
| QuillPage.StrokeAt | parse_quill.py:82-93 | One stroke: five i32s, the last of which, N, drives max(0, N) point reads; `StrokeLayout` and `StrokeReadsBack` state its properties |
| QuillPage.PageAt | parse_quill.py:44-106 | A whole page file: the header, then the body; `PageReads`, `PageLayout` and `PageRoundTrip` state its properties |
| QuillPage.PageBodyAt | parse_quill.py:81-106 | max(0, nstrokes) strokes, then the line count, a discarded i32 and the text count; `PageBodyLayout` and `PageBodyReadsBack` state its properties |
| QuillPage.DecodePage | parse_quill.py:42-106 | The imperative decoder computes `PageAt` |
| QuillPage.ReadHeader | parse_quill.py:44-58 | Reads the header as `HeaderAt` does and leaves the handle after it |
| QuillPage.ReadHeaderPaper | parse_quill.py:50-58 | Reads the middle of the header as `HeaderPaperAt` does |
| QuillPage.ReadHeaderStyle | parse_quill.py:55-58 | Reads the last header fields as `HeaderStyleAt` does |
| QuillPage.ReadStrokes | parse_quill.py:81-93 | The stroke loop reads max(0, nstrokes) strokes in file order, as `Repeat` of `StrokeAt` |
| QuillPage.ReadStroke | parse_quill.py:82-93 | One turn of the stroke loop computes `StrokeAt` |
| QuillPage.ReadPoint | parse_quill.py:90-93 | One turn of the point loop computes `PointAt` |
| QuillPage.ReadPoints | parse_quill.py:88-93 | The point loop appends max(0, N) points in file order, as `Repeat` of `PointAt` |
| QuillPage.PointLayout | parse_quill.py:90-93 | A point reads iff 12 bytes remain, as (x, y, pressure) in read order |
| QuillPage.PointsLayout | parse_quill.py:89-93 | k points read iff their 12k bytes are there; point i is read at start + 12i |
| QuillPage.StrokeLayout | parse_quill.py:82-93 | A stroke reads iff its 20 bytes and, for N > 0, its 12N point bytes are there; it yields max(0, N) points and takes 20 + 12N bytes |
| QuillPage.StrokeSizes | parse_quill.py:82-93 | Every decoded stroke takes `StrokeSize` bytes |
| QuillPage.StrokesEnd | parse_quill.py:81-93 | The strokes end their total size after their start |
| QuillPage.StrokeNth | parse_quill.py:81-93 | Stroke i starts where the strokes before it end, so strokes keep file order |
| QuillPage.HeaderStyleLayout | parse_quill.py:55-58 | The last 13 header bytes read iff present: unused i32, flag, aspect-ratio pattern, stroke count |
| QuillPage.HeaderPaperLayout | parse_quill.py:50-58 | The paper type and image count follow two unused i32s; the middle reads iff 29 bytes remain |
| QuillPage.HeaderLayout | parse_quill.py:44-58 | The header reads iff the file has 79 bytes; every kept field sits at a fixed offset and the id is never short |
| QuillPage.HeaderIgnoresReserved | parse_quill.py:45-55 | The discarded i16 and the unused i32s (`foo`, `foo`, `dummy`) never change the decoded header |
| QuillPage.PageReads | parse_quill.py:44-106 | A page decodes iff its header is there, every declared stroke reads, and 12 bytes follow the last stroke |
| QuillPage.HeaderShape | parse_quill.py:44-58 | The header reads iff 79 bytes are there; it then ends at byte 79 and its stroke count is bytes 75-79 |
| QuillPage.PageBodyReads | parse_quill.py:81-106 | What follows the header reads iff every declared stroke reads and 12 bytes follow the last one |
| QuillPage.PageBodyLayout | parse_quill.py:81-106 | After the header come max(0, nstrokes) strokes, then the line count, an unused i32 and the text count, where decoding stops |
| QuillPage.PageLayout | parse_quill.py:44-106 | A decoded page is its 79-byte header followed by the body `PageBodyLayout` places |
| QuillPage.PageWithoutStrokes | parse_quill.py:81-106 | A zero or negative stroke count reads no stroke, and the three closing i32s still have to be there |
| QuillPage.Segments | parse_quill.py:95 | A stroke of n points gives max(0, n-1) segments, segment i joining point i to point i+1 |
| QuillPage.PointBytes | parse_quill.py:90-92 | An encoded point takes 12 bytes |
| QuillPage.HeaderPaperBytes | parse_quill.py:50-54 | The encoded middle of the header takes 16 bytes |
| QuillPage.HeaderStyleBytes | parse_quill.py:55-58 | The encoded end of the header takes 13 bytes |
| QuillPage.PointReadsBack | parse_quill.py:90-93 | An encoded point reads back |
| QuillPage.PointsReadBack | parse_quill.py:89-93 | Encoded points read back in order |
| QuillPage.StrokePartsAt | parse_quill.py:82-93 | Where the parts of an encoded stroke lie |
| QuillPage.StrokeReadsBack | parse_quill.py:82-93 | A well-formed encoded stroke takes `StrokeSize` bytes and reads back |
| QuillPage.HeaderStyleReadsBack | parse_quill.py:55-58 | The encoded end of the header reads back into any partial header |
| QuillPage.HeaderPaperReadsBack | parse_quill.py:50-58 | The encoded middle and end of the header read back into any partial header |
| QuillPage.HeaderReadsBack | parse_quill.py:44-58 | An encoded header takes 79 bytes and reads back |
| QuillPage.StrokeEncodingReadsBack | parse_quill.py:82-93 | Every well-formed stroke reads back from its encoding, wherever it lies |
| QuillPage.StrokeEncodingSizes | parse_quill.py:82-93 | Every well-formed encoded stroke takes `StrokeSize` bytes |
| QuillPage.StrokesReadBack | parse_quill.py:81-93 | Encoded strokes read back in order and take their total size |
| QuillPage.PageBodyReadsBack | parse_quill.py:81-106 | The encoded strokes and closing fields read back after the header |
| QuillPage.ClosingReadsBack | parse_quill.py:104-106 | The encoded line count, unused i32 and text count read back as the two counts |
| QuillPage.PageReadsBack | parse_quill.py:44-106 | An encoded page at the start of a file decodes to itself |
| QuillPage.PageBytesSize | parse_quill.py:44-106 | An encoded page takes 79 + its strokes' sizes + 12 bytes |
| QuillPage.PageRoundTrip | parse_quill.py:44-106 | Decoding an encoded page gives it back and stops at its end, whatever bytes follow |
| QuillPage.StrokesWellFormed | parse_quill.py:81-93 | Every stroke the stroke loop reads holds exactly max(0, N) points, N being its own count |
| QuillPage.DecodedPageWellFormed | parse_quill.py:44-106 | Every decoded page is well formed (full id, max(0, nstrokes) strokes, each with its count of points), so it lies in `PageRoundTrip`'s domain |
| Notebook.PageFileName | parse_quill.py:153 | The page file is named `page_`, the id, then `.quill_data` |
| Notebook.PageFileNameInjective | parse_quill.py:153 | Different ids name different files |
| Notebook.PageStep | parse_quill.py:152-154 | One turn of the loop: a missing `page_<id>.quill_data` or a failing decode stops the run; otherwise the page is converted as number i+1 with the title as output directory; `ConvertPage` computes it |
| Notebook.Run | parse_quill.py:151-154 | The first k turns: the pages converted so far, plus the first failure if there was one; `RunInOrder`, `RunStaysStopped` and `ConvertsAll` state its properties |
| Notebook.ConvertPage | parse_quill.py:153 | One turn opens the id's file (missing file: error) and decodes it (truncated: error), numbering the page as given |
| Notebook.ConvertPages | parse_quill.py:151-154 | The loop computes `Run` with the page decoder over all of the index's ids |
| Notebook.RunStaysStopped | parse_quill.py:151-154 | After the first failing page, later turns change nothing |
| Notebook.RunInOrder | parse_quill.py:151-154 | Page i comes out numbered i+1, with id i, the title as output directory, and the decoding of file `page_<id i>.quill_data`; at most k pages in k turns, all k iff no error; an error names the first unconverted page and why it failed |
| Notebook.ConvertsAll | parse_quill.py:151-154 | The run converts every page iff every named file exists and decodes |
| Notebook.Convert | parse_quill.py:149-154 | A truncated index ends the run before any page; otherwise the pages of the decoded index are converted in order |

## Left out

- Notebook.RunInOrder: it says the run stops only at a missing or truncated
  page file. In the program, creating a page's output directory
  (`os.mkdir(q.title)`) and its SVG file can also raise, for example on a
  title with a NUL byte or a `/` whose parent directory does not exist. That
  ends the run at a page that exists and decodes. Such failures are not
  modelled, because directory and file creation are outside this model.
- Notebook.ConvertsAll: it says every page converts exactly when every named
  file exists and decodes. This holds only in the model. The program can
  also stop when creating the output directory or the SVG file fails (see
  the previous line).
- Rendering through Cairo is not modelled. This covers the SVG surface, line
  cap and join, the 0.003 line width scaled by average pressure, `move_to`,
  `line_to` and `stroke`, and the 850×1100 canvas. It is floating-point
  drawing through a foreign library. Only the segments it draws are
  modelled (`QuillPage.Segments`).
- Side effects before the stroke loop are left out. These are
  `os.mkdir(output_dir)` and the creation of `page_%03d.svg`. They happen even
  for a page that later fails, which the model does not record.
- Archive and file-system plumbing is left out. This covers the tar
  extraction, the temporary directory and its removal, the `notebook_<name>`
  directory, and the command-line options. The notebook directory is a map
  from file names to contents. The map is taken to hold only names a
  directory can hold, so none contains a NUL byte; in the program, `open()`
  on such a name raises `TypeError`. A missing index file is not modelled: the
  index is passed in as bytes.
- The `>f` fields are not interpreted as real numbers. They are kept as their
  bit patterns.
- The title is not decoded as text.
- The PDF exporter (`src/quill/exporter/pdf.py`) is not part of this model. It
  only hands a Cairo surface to another library.
- The attributes `page_path`, `index_path`, `width` and `height` record inputs
  and constants only. They are not kept in the decoded values.
