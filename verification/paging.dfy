/** The page builder of lettersmith/paging.py: `gen_paging` splits a
    sequence of stubs into pages of `perPage` items and synthesises one page
    document per page, numbered from 1, each carrying the page count, the
    page size, its own items, the template chain and an output path. */
module Paging {
  import opened Wrappers
  import opened Chunking
  import opened Formatting
  import opened PageArithmetic

  /** `TEMPLATES`: the fallback template chain of every page. */
  const Templates: seq<string> := ["list.html", "default.html"]

  /** `OUTPUT_PATH_TEMPLATE`: where a page is written when the caller does
      not say otherwise. */
  const OutputPathTemplate: string := "page/{n}/index.html"

  /** The `meta` mapping of a page document. */
  datatype PageMeta<T> = PageMeta(pageN: nat, perPage: int, pageCount: nat, pageList: seq<T>)

  /** A synthesised page document, as handed to the document constructor. */
  datatype PageDoc<T> = PageDoc(
    idPath: string,
    outputPath: string,
    title: string,
    meta: PageMeta<T>,
    templates: seq<string>)

  /** The caller's template, when given (even an empty name), goes in front
      of the fallback chain. */
  function TemplateChain(template: Option<string>): seq<string>
  {
    match template
    case Some(t) => [t] + Templates
    case None => Templates
  }

  /** The caller's output-path template is used unless it is missing or
      empty, in which case the default applies. */
  function PathTemplate(outputPathTemplate: Option<string>): string
  {
    match outputPathTemplate
    case Some(t) => if t != "" then t else OutputPathTemplate
    case None => OutputPathTemplate
  }

  /** The page document for page number `n` holding `pageList`. */
  function BuildPage<T>(pageList: seq<T>, n: nat, pageCount: nat, perPage: int,
                        templates: seq<string>, pathTemplate: string): PageDoc<T>
  {
    var outputPath := FormatN(pathTemplate, n);
    PageDoc(outputPath, outputPath, "Page " + NatToString(n),
            PageMeta(n, perPage, pageCount, pageList), templates)
  }

  /** `gen_paging(stubs, template, output_path_template, per_page)`: one page
      document per group of `perPage` consecutive stubs, in order. */
  function GenPaging<T>(stubs: seq<T>, template: Option<string>,
                        outputPathTemplate: Option<string>, perPage: int)
    : (r: Result<seq<PageDoc<T>>, Error>)
    ensures r.Failure? <==> perPage <= 0
    ensures r.Failure? ==> r.error == NonPositivePageSize
    ensures r.Success? ==> WellChunked(PageLists(r.value), perPage)
    ensures r.Success? ==> forall i :: 0 <= i < |r.value| ==>
      1 <= r.value[i].meta.pageN == i + 1 <= r.value[i].meta.pageCount == |r.value|
  {
    if perPage <= 0 then Failure(NonPositivePageSize)
    else
      var paged := Chunk(stubs, perPage);
      var templates := TemplateChain(template);
      var pathTemplate := PathTemplate(outputPathTemplate);
      var docs := seq(|paged|, i requires 0 <= i < |paged| =>
        BuildPage(paged[i], i + 1, |paged|, perPage, templates, pathTemplate));
      assert PageLists(docs) == paged;
      Success(docs)
  }

  /** The `page_list` of each document, in order. */
  function PageLists<T>(docs: seq<PageDoc<T>>): (r: seq<seq<T>>)
    ensures |r| == |docs|
  {
    seq(|docs|, i requires 0 <= i < |docs| => docs[i].meta.pageList)
  }

  /** The page lists of a successful run are the chunks of the stubs. */
  lemma PageListsAreChunks<T>(stubs: seq<T>, template: Option<string>,
                              outputPathTemplate: Option<string>, perPage: int)
    requires perPage > 0
    ensures PageLists(GenPaging(stubs, template, outputPathTemplate, perPage).value)
            == Chunk(stubs, perPage)
  {
  }

  /** Concatenating the page lists gives back the stubs, in order: no stub
      is lost, repeated or moved. */
  lemma GenPagingCoverage<T>(stubs: seq<T>, template: Option<string>,
                             outputPathTemplate: Option<string>, perPage: int)
    requires perPage > 0
    ensures Flatten(PageLists(GenPaging(stubs, template, outputPathTemplate, perPage).value)) == stubs
  {
    PageListsAreChunks(stubs, template, outputPathTemplate, perPage);
    ChunkFlatten(stubs, perPage);
  }

  /** The groups hold `ceil(|s| / k)` elements' worth: their number is the
      page count that `count_pages` computes for `|s|`. */
  lemma ChunkCountIsCountPages<T>(s: seq<T>, k: nat)
    requires k > 0
    ensures CountPages(|s|, k) == Success(|Chunk(s, k)|)
  {
    ChunkCount(s, k);
    CeilingUnique(CountPages(|s|, k).value, |Chunk(s, k)|, |s|, k);
  }

  /** Group `i` of the chunking is page `i` as `slice_page` cuts it. */
  lemma ChunkIsSlicePage<T>(s: seq<T>, k: nat, i: nat)
    requires k > 0
    requires i < |Chunk(s, k)|
    ensures SlicePage(s, i, k) == Success(Chunk(s, k)[i])
  {
    ChunkWindow(s, k, i);
    SlicePageWindow(s, i, k);
  }

  /** Exactly `count_pages(|stubs|, perPage)` documents come out; none at
      all for no stubs. */
  lemma GenPagingCount<T>(stubs: seq<T>, template: Option<string>,
                          outputPathTemplate: Option<string>, perPage: int)
    requires perPage > 0
    ensures CountPages(|stubs|, perPage)
            == Success(|GenPaging(stubs, template, outputPathTemplate, perPage).value|)
    ensures GenPaging(stubs, template, outputPathTemplate, perPage).value == [] <==> stubs == []
  {
    ChunkCountIsCountPages(stubs, perPage);
    CountPagesOfLength(|stubs|, perPage);
  }

  /** Document `i` carries page number `i + 1`, the shared page count and
      the caller's page size, and its items are page `i` as `slice_page`
      cuts it. */
  lemma GenPagingMeta<T>(stubs: seq<T>, template: Option<string>,
                         outputPathTemplate: Option<string>, perPage: int, i: nat)
    requires perPage > 0
    requires i < |GenPaging(stubs, template, outputPathTemplate, perPage).value|
    ensures var m := GenPaging(stubs, template, outputPathTemplate, perPage).value[i].meta;
      && m.pageN == i + 1
      && CountPages(|stubs|, perPage) == Success(m.pageCount)
      && m.perPage == perPage
      && SlicePage(stubs, i, perPage) == Success(m.pageList)
  {
    ChunkCountIsCountPages(stubs, perPage);
    ChunkIsSlicePage(stubs, perPage, i);
  }

  /** Document `i` is written to, and identified by, the output-path
      template in force formatted with its page number. */
  lemma GenPagingOutputPath<T>(stubs: seq<T>, template: Option<string>,
                               outputPathTemplate: Option<string>, perPage: int, i: nat)
    requires perPage > 0
    requires i < |GenPaging(stubs, template, outputPathTemplate, perPage).value|
    ensures var d := GenPaging(stubs, template, outputPathTemplate, perPage).value[i];
      d.idPath == d.outputPath == FormatN(PathTemplate(outputPathTemplate), i + 1)
  {
  }

  /** Document `i` is found under the formatted output path for page
      number `i + 1` (also its id path), is titled "Page" and the number,
      and tries the caller's template before the fallback chain. */
  lemma GenPagingFields<T>(stubs: seq<T>, template: Option<string>,
                           outputPathTemplate: Option<string>, perPage: int, i: nat)
    requires perPage > 0
    requires i < |GenPaging(stubs, template, outputPathTemplate, perPage).value|
    ensures var d := GenPaging(stubs, template, outputPathTemplate, perPage).value[i];
      && d.idPath == d.outputPath
      && (outputPathTemplate.Some? && outputPathTemplate.value != "" ==>
            d.outputPath == FormatN(outputPathTemplate.value, i + 1))
      && (outputPathTemplate.None? || outputPathTemplate == Some("") ==>
            d.outputPath == "page/" + NatToString(i + 1) + "/index.html")
      && d.title == "Page " + NatToString(i + 1)
      && (template.Some? ==> d.templates == [template.value, "list.html", "default.html"])
      && (template.None? ==> d.templates == ["list.html", "default.html"])
  {
    var paged := Chunk(stubs, perPage);
    var d := GenPaging(stubs, template, outputPathTemplate, perPage).value[i];
    var pathTemplate := PathTemplate(outputPathTemplate);
    assert d == BuildPage(paged[i], i + 1, |paged|, perPage, TemplateChain(template), pathTemplate);
    assert d.outputPath == FormatN(pathTemplate, i + 1);
    if outputPathTemplate.None? || outputPathTemplate == Some("") {
      assert pathTemplate == OutputPathTemplate;
      DefaultOutputPath(i + 1);
    }
  }

  /** The default template puts page `n` at `page/<n>/index.html`. */
  lemma DefaultOutputPath(n: nat)
    ensures FormatN(OutputPathTemplate, n) == "page/" + NatToString(n) + "/index.html"
  {
    assert OutputPathTemplate == "page/" + "{n}" + "/index.html";
    FormatOneField("page/", "/index.html", n);
  }

  /** Under the default template no two pages share an output path. */
  lemma DefaultOutputPathsDistinct(m: nat, n: nat)
    ensures FormatN(OutputPathTemplate, m) == FormatN(OutputPathTemplate, n) <==> m == n
  {
    DefaultOutputPath(m);
    DefaultOutputPath(n);
    var a, b := NatToString(m), NatToString(n);
    if "page/" + a + "/index.html" == "page/" + b + "/index.html" {
      var x, y := "page/" + a + "/index.html", "page/" + b + "/index.html";
      assert |a| == |b|;
      assert a == x[5..5 + |a|];
      assert b == y[5..5 + |b|];
    }
    NatToStringInjective(m, n);
  }

  /** With the default output-path template, distinct documents of one run
      are written to distinct paths. */
  lemma GenPagingDefaultPathsDistinct<T>(stubs: seq<T>, template: Option<string>,
                                         perPage: int, i: nat, j: nat)
    requires perPage > 0
    requires i < |GenPaging(stubs, template, None, perPage).value|
    requires j < |GenPaging(stubs, template, None, perPage).value|
    ensures var docs := GenPaging(stubs, template, None, perPage).value;
      docs[i].outputPath == docs[j].outputPath <==> i == j
  {
    var m, n := i + 1, j + 1;
    GenPagingOutputPath(stubs, template, None, perPage, i);
    GenPagingOutputPath(stubs, template, None, perPage, j);
    DefaultOutputPathsDistinct(m, n);
  }

  /** Cutting `s` with `slice_page` for every page index below
      `count_pages(|s|, perPage)` and concatenating the slices gives back
      `s`; every slice is non-empty and all but the last are full. */
  lemma SlicesReassemble<T>(s: seq<T>, perPage: int)
    requires perPage > 0
    ensures CountPages(|s|, perPage).Success?
    ensures var c := CountPages(|s|, perPage).value;
      var pages := seq(c, i requires 0 <= i < c => SlicePage(s, i, perPage).value);
      Flatten(pages) == s && WellChunked(pages, perPage)
  {
    ChunkCountIsCountPages(s, perPage);
    var chunks := Chunk(s, perPage);
    var c := CountPages(|s|, perPage).value;
    forall i | 0 <= i < c
      ensures SlicePage(s, i, perPage).value == chunks[i]
    {
      ChunkIsSlicePage(s, perPage, i);
    }
    var pages := seq(c, i requires 0 <= i < c => SlicePage(s, i, perPage).value);
    assert pages == chunks;
    ChunkFlatten(s, perPage);
  }

  /** Twenty-five stubs at ten per page give three pages of 10, 10 and 5
      stubs, numbered 1 to 3, each knowing there are 3 pages. */
  lemma TwentyFiveStubs<T>(stubs: seq<T>)
    requires |stubs| == 25
    ensures GenPaging(stubs, None, None, 10).Success?
    ensures var docs := GenPaging(stubs, None, None, 10).value;
      && |docs| == 3
      && docs[0].meta.pageList == stubs[..10]
      && docs[1].meta.pageList == stubs[10..20]
      && docs[2].meta.pageList == stubs[20..]
      && (forall i :: 0 <= i < 3 ==> docs[i].meta.pageN == i + 1 && docs[i].meta.pageCount == 3)
  {
    var docs := GenPaging(stubs, None, None, 10).value;
    assert Chunk(stubs, 10) == [stubs[..10]] + Chunk(stubs[10..], 10);
    var t := stubs[10..];
    assert t[..10] == stubs[10..20] && t[10..] == stubs[20..];
    assert Chunk(t, 10) == [stubs[10..20]] + Chunk(stubs[20..], 10);
    assert Chunk(stubs[20..], 10) == [stubs[20..]];
    var paged := Chunk(stubs, 10);
    PageListsAreChunks(stubs, None, None, 10);
    assert PageLists(docs) == paged;
    assert docs[0].meta.pageList == paged[0];
    assert docs[1].meta.pageList == paged[1];
    assert docs[2].meta.pageList == paged[2];
  }
}
