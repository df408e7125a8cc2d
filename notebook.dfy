/** The conversion loop of parse_quill.py: the index is decoded first, then
    every page it lists, in the index's order, each numbered by its position
    (1, 2, ...) and looked up as `page_<id>.quill_data` in the notebook's
    directory. The first page that cannot be opened or decoded raises and
    ends the run; the pages before it have already been converted. Creating
    a page's output directory and drawing are not part of this model, so
    neither are the ways they can end the run. */
module Notebook {
  import opened Wire
  import opened ByteStream
  import QuillIndex
  import QuillPage

  /** `page_` in ASCII */
  const PagePrefix: seq<byte> := [0x70, 0x61, 0x67, 0x65, 0x5F]
  /** `.quill_data` in ASCII */
  const PageSuffix: seq<byte> := [0x2E, 0x71, 0x75, 0x69, 0x6C, 0x6C, 0x5F, 0x64, 0x61, 0x74, 0x61]

  /** `"page_%s.quill_data" % page`: the file that holds the page with id `id`. */
  function PageFileName(id: seq<byte>): (name: seq<byte>)
    ensures |name| == |id| + 16
    ensures name[..5] == PagePrefix && name[5..|id| + 5] == id && name[|id| + 5..] == PageSuffix
  {
    PagePrefix + id + PageSuffix
  }

  /** Different ids name different files, so no two pages of an index share one. */
  lemma PageFileNameInjective(a: seq<byte>, b: seq<byte>)
    requires PageFileName(a) == PageFileName(b)
    ensures a == b
  {
    var na, nb := PageFileName(a), PageFileName(b);
    assert |a| == |b|;
    assert a == na[5..5 + |a|];
    assert b == nb[5..5 + |b|];
  }

  /** A page that was converted: its number, its id, the directory its
      drawing goes to (the notebook's title) and its decoded contents. */
  datatype Converted = Converted(number: nat, id: seq<byte>, outputDir: seq<byte>, page: QuillPage.Page)

  /** Why the run ended early: the index was truncated, a page's file is
      missing (`open` raises), or a page file was truncated (`struct.unpack`
      raises); `at` is where the failing read started. */
  datatype ConvertError =
    | BadIndex(at: nat)
    | MissingPage(number: nat, name: seq<byte>)
    | BadPage(number: nat, name: seq<byte>, at: nat)

  /** The pages converted before the run ended, and why it ended early, if it did. */
  datatype Outcome = Outcome(converted: seq<Converted>, error: Option<ConvertError>)

  /** What happened to one page: converted, or the error that ended the run. */
  datatype PageResult = Done(c: Converted) | Stopped(e: ConvertError)

  /** What the loop does with a page file's contents. The loop's properties
      below hold for any such decoder; the program's own is `QuillPage.PageAt`. */
  type PageDecoder = seq<byte> -> Decoded<QuillPage.Page>

  /** Page `i` of the index, number `i + 1`: its file is opened (it must
      exist) and decoded (it must not be truncated). */
  function PageStep(decode: PageDecoder, ids: seq<seq<byte>>, i: nat, title: seq<byte>,
                    files: map<seq<byte>, seq<byte>>): PageResult
    requires i < |ids|
  {
    var name := PageFileName(ids[i]);
    if name !in files then Stopped(MissingPage(i + 1, name))
    else
      match decode(files[name])
      case Truncated(at) => Stopped(BadPage(i + 1, name, at))
      case Ok(page, _) => Done(Converted(i + 1, ids[i], title, page))
  }

  /** The first `k` turns of the loop: the pages converted so far, or the
      first page that failed and the pages before it. */
  function Run(decode: PageDecoder, ids: seq<seq<byte>>, title: seq<byte>,
               files: map<seq<byte>, seq<byte>>, k: nat): Outcome
    requires k <= |ids|
  {
    if k == 0 then Outcome([], None)
    else
      var before := Run(decode, ids, title, files, k - 1);
      if before.error.Some? then before
      else
        match PageStep(decode, ids, k - 1, title, files)
        case Done(c) => Outcome(before.converted + [c], None)
        case Stopped(e) => Outcome(before.converted, Some(e))
  }

  /** One turn of the loop: `QuillPage(page_path = ..., page_number = number,
      output_dir = q.title)` for page `i` of the index. */
  method ConvertPage(ids: seq<seq<byte>>, i: nat, number: nat, title: seq<byte>,
                     files: map<seq<byte>, seq<byte>>)
    returns (r: PageResult)
    requires i < |ids| && number == i + 1
    ensures r == PageStep(QuillPage.PageAt, ids, i, title, files)
  {
    var name := PageFileName(ids[i]);
    if name !in files {
      return Stopped(MissingPage(number, name));
    }
    var qp := QuillPage.DecodePage(files[name]);
    if qp.Truncated? {
      return Stopped(BadPage(number, name, qp.at));
    }
    return Done(Converted(number, ids[i], title, qp.value));
  }

  /** `for page in q.pages`: converts the pages in index order, numbering
      them from 1, until one of them fails. */
  method ConvertPages(ids: seq<seq<byte>>, title: seq<byte>, files: map<seq<byte>, seq<byte>>)
    returns (r: Outcome)
    ensures r == Run(QuillPage.PageAt, ids, title, files, |ids|)
  {
    var converted: seq<Converted> := [];
    var pageNumber := 1;
    for i := 0 to |ids|
      invariant pageNumber == i + 1
      invariant Run(QuillPage.PageAt, ids, title, files, i) == Outcome(converted, None)
    {
      var page := ConvertPage(ids, i, pageNumber, title, files);
      if page.Stopped? {
        RunStaysStopped(QuillPage.PageAt, ids, title, files, i + 1, |ids|);
        return Outcome(converted, Some(page.e));
      }
      converted := converted + [page.c];
      pageNumber := pageNumber + 1;
    }
    return Outcome(converted, None);
  }

  /** Once a page has failed, later turns change nothing. */
  lemma {:induction false} RunStaysStopped(decode: PageDecoder, ids: seq<seq<byte>>, title: seq<byte>,
                                           files: map<seq<byte>, seq<byte>>, j: nat, k: nat)
    requires j <= k <= |ids| && Run(decode, ids, title, files, j).error.Some?
    ensures Run(decode, ids, title, files, k) == Run(decode, ids, title, files, j)
    decreases k
  {
    if j < k {
      RunStaysStopped(decode, ids, title, files, j, k - 1);
    }
  }

  /** Page `i` of `ids` (number i + 1) was converted from its file into `c`. */
  ghost predicate ConvertedFrom(decode: PageDecoder, c: Converted, i: nat, ids: seq<seq<byte>>,
                                title: seq<byte>, files: map<seq<byte>, seq<byte>>)
    requires i < |ids|
  {
    && c.number == i + 1
    && c.id == ids[i]
    && c.outputDir == title
    && PageFileName(ids[i]) in files
    && decode(files[PageFileName(ids[i])]).Ok?
    && decode(files[PageFileName(ids[i])]).value == c.page
  }

  /** Why page `i` of `ids` (number i + 1) could not be converted. */
  ghost predicate FailsWith(decode: PageDecoder, e: ConvertError, i: nat, ids: seq<seq<byte>>,
                            files: map<seq<byte>, seq<byte>>)
    requires i < |ids|
  {
    var name := PageFileName(ids[i]);
    if name !in files then e == MissingPage(i + 1, name)
    else decode(files[name]).Truncated? && e == BadPage(i + 1, name, decode(files[name]).at)
  }

  /** The pages come out in index order, page `i` numbered `i + 1` and
      decoded from the file its id names; in this model the run stops only
      at a page whose file is missing or truncated, and otherwise converts
      every page. */
  lemma {:induction false} RunInOrder(decode: PageDecoder, ids: seq<seq<byte>>, title: seq<byte>,
                                      files: map<seq<byte>, seq<byte>>, k: nat)
    requires k <= |ids|
    ensures
      var r := Run(decode, ids, title, files, k);
      && |r.converted| <= k
      && (forall i :: 0 <= i < |r.converted| ==> ConvertedFrom(decode, r.converted[i], i, ids, title, files))
      && (r.error.None? <==> |r.converted| == k)
      && (r.error.Some? ==> FailsWith(decode, r.error.value, |r.converted|, ids, files))
    decreases k
  {
    if k > 0 {
      RunInOrder(decode, ids, title, files, k - 1);
      var before := Run(decode, ids, title, files, k - 1);
      if before.error.None? {
        var r := Run(decode, ids, title, files, k);
        forall i | 0 <= i < |before.converted|
          ensures r.converted[i] == before.converted[i]
        {
        }
      }
    }
  }

  /** In this model, every page converts exactly when every file the index
      names is there and decodes. */
  lemma ConvertsAll(decode: PageDecoder, ids: seq<seq<byte>>, title: seq<byte>, files: map<seq<byte>, seq<byte>>)
    ensures Run(decode, ids, title, files, |ids|).error.None? <==>
      forall i :: 0 <= i < |ids| ==>
        PageFileName(ids[i]) in files && decode(files[PageFileName(ids[i])]).Ok?
  {
    var r := Run(decode, ids, title, files, |ids|);
    RunInOrder(decode, ids, title, files, |ids|);
    if r.error.Some? {
      var k := |r.converted|;
      assert !(PageFileName(ids[k]) in files && decode(files[PageFileName(ids[k])]).Ok?);
    } else {
      forall i | 0 <= i < |ids|
        ensures PageFileName(ids[i]) in files && decode(files[PageFileName(ids[i])]).Ok?
      {
        assert ConvertedFrom(decode, r.converted[i], i, ids, title, files);
      }
    }
  }

  /** The whole run on the notebook's directory: `index.quill_data` holds
      the index; the other files are found by name. */
  method Convert(index: seq<byte>, files: map<seq<byte>, seq<byte>>) returns (r: Outcome)
    ensures QuillIndex.IndexAt(index).Truncated? ==>
      r == Outcome([], Some(BadIndex(QuillIndex.IndexAt(index).at)))
    ensures QuillIndex.IndexAt(index).Ok? ==>
      var q := QuillIndex.IndexAt(index).value;
      r == Run(QuillPage.PageAt, q.pages, q.title, files, |q.pages|)
  {
    var q := QuillIndex.DecodeIndex(index);
    if q.Truncated? {
      return Outcome([], Some(BadIndex(q.at)));
    }
    r := ConvertPages(q.value.pages, q.value.title, files);
  }
}
