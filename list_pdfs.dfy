/**
 * The pure part of the admin route that lists waiver PDFs held in S3: which
 * key prefix is listed, which listed objects are kept (the PDFs), what each
 * kept object is reported as, and which page of them is returned.
 * The S3 request itself, authentication and the HTTP plumbing are outside
 * the model: the bucket name, the region and the listing S3 returns are
 * inputs.
 */
module ListPdfs {
  import opened Wrappers
  import opened JsText

  const TemplatesPrefix := "waivers/templates/"
  const CompletedPrefix := "waivers/completed/"
  /** The `type` used when the query has none. */
  const DefaultType := "template"
  const DefaultPage := 1
  const DefaultLimit := 8

  /** A query parameter after `searchParams.get(name) || fallback`: a missing
      parameter (`null`) and an empty one both give the fallback. */
  function ParamOr(p: Option<string>, fallback: string): (v: string)
    ensures v == fallback <==> p.None? || p.value == "" || p.value == fallback
    ensures v != fallback ==> p == Some(v)
  {
    if p.None? || p.value == "" then fallback else p.value
  }

  /** The key prefix that is listed: templates when the (defaulted) `type`
      is exactly "template", completed waivers for every other value. */
  function ListPrefix(typeParam: Option<string>): (prefix: string)
    ensures prefix == TemplatesPrefix || prefix == CompletedPrefix
    ensures prefix == TemplatesPrefix <==> ParamOr(typeParam, DefaultType) == DefaultType
  {
    if ParamOr(typeParam, DefaultType) == "template" then TemplatesPrefix else CompletedPrefix
  }

  /** The `type` values that select the templates prefix: none, the empty
      string and "template"; every other value selects completed waivers. */
  lemma PrefixByType(typeParam: Option<string>)
    ensures ListPrefix(typeParam) == TemplatesPrefix <==>
      typeParam.None? || typeParam == Some("") || typeParam == Some("template")
    ensures ListPrefix(typeParam) == CompletedPrefix || ListPrefix(typeParam) == TemplatesPrefix
  {
  }

  /** An instant as S3 reports it (`LastModified`); its ISO formatting is not modelled. */
  type Instant = int

  /** One entry of the S3 listing (`ListObjectsV2` `Contents`); every field may be absent. */
  datatype S3Object = S3Object(key: Option<string>, lastModified: Option<Instant>, size: Option<int>)

  /** One reported PDF. */
  datatype PdfItem = PdfItem(key: string, url: string, name: string, lastModified: Option<Instant>, size: Option<int>)

  /** `item.Key || ""`. */
  function KeyOrEmpty(o: S3Object): string {
    o.key.GetOr("")
  }

  /** The filter test: the key, lower-cased, ends with ".pdf"; a missing key counts as "". */
  predicate IsPdf(o: S3Object): (b: bool)
    ensures b <==> o.key.Some? && var k := o.key.value;
      && |k| >= 4 && LowerChar(k[|k| - 4]) == '.' && LowerChar(k[|k| - 3]) == 'p'
      && LowerChar(k[|k| - 2]) == 'd' && LowerChar(k[|k| - 1]) == 'f'
  {
    var lower := ToLower(KeyOrEmpty(o));
    assert |lower| >= 4 ==> lower[|lower| - 4..] == [lower[|lower| - 4], lower[|lower| - 3], lower[|lower| - 2], lower[|lower| - 1]];
    EndsWith(lower, ".pdf")
  }

  /** An object without a key is never a PDF. */
  lemma MissingKeyDropped(o: S3Object)
    requires o.key.None? || o.key == Some("")
    ensures !IsPdf(o)
  {
  }

  /** The objects of `objs` that pass the filter, in listing order. */
  function FilterPdfs(objs: seq<S3Object>): (r: seq<S3Object>)
    ensures |r| == |PdfIndices(objs)|
    ensures forall j :: 0 <= j < |r| ==> r[j] == objs[PdfIndices(objs)[j]]
  {
    if objs == [] then []
    else
      var init := objs[..|objs| - 1];
      var last := objs[|objs| - 1];
      assert forall j :: 0 <= j < |PdfIndices(init)| ==> init[PdfIndices(init)[j]] == objs[PdfIndices(init)[j]];
      FilterPdfs(init) + if IsPdf(last) then [last] else []
  }

  /** The positions in `objs` of the objects that pass the filter: strictly
      increasing, so in listing order and each at most once, and holding
      exactly the positions whose object passes. */
  function PdfIndices(objs: seq<S3Object>): (ix: seq<nat>)
    ensures forall j :: 0 <= j < |ix| ==> ix[j] < |objs|
    ensures forall j, k :: 0 <= j < k < |ix| ==> ix[j] < ix[k]
    ensures forall i :: 0 <= i < |objs| ==> (i in ix <==> IsPdf(objs[i]))
  {
    if objs == [] then []
    else
      var n := |objs| - 1;
      var init := objs[..n];
      assert forall i :: 0 <= i < n ==> init[i] == objs[i];
      PdfIndices(init) + if IsPdf(objs[n]) then [n] else []
  }

  /** Every object the filter keeps passes the test. */
  lemma FilterKeepsOnlyPdfs(objs: seq<S3Object>)
    ensures forall o :: o in FilterPdfs(objs) ==> IsPdf(o) && o in objs
  {
    var r := FilterPdfs(objs);
    forall o | o in r ensures IsPdf(o) && o in objs {
      var j :| 0 <= j < |r| && r[j] == o;
      var i := PdfIndices(objs)[j];
      assert i in PdfIndices(objs);
    }
  }

  /** Filtering commutes with concatenating listings. */
  lemma {:induction false} FilterAppend(a: seq<S3Object>, b: seq<S3Object>)
    ensures FilterPdfs(a + b) == FilterPdfs(a) + FilterPdfs(b)
    decreases |b|
  {
    if b == [] {
      assert a + b == a;
    } else {
      var b' := b[..|b| - 1];
      assert (a + b)[..|a + b| - 1] == a + b';
      FilterAppend(a, b');
    }
  }

  /** The item reported for an object: its key, its public URL, the part of
      the key after the last `/`, and the object's date and size. */
  function ToItem(o: S3Object, bucket: string, region: string): (item: PdfItem)
    ensures item.key == o.key.GetOr("")
    ensures EndsWith(item.url, KeyText(o))
    ensures '/' !in item.name && EndsWith(item.key, item.name)
    ensures o.key.None? ==> item.name == ""
    ensures item.lastModified == o.lastModified && item.size == o.size
  {
    var host := "https://" + bucket + ".s3." + region + ".amazonaws.com/";
    EndsWithAppended(host, KeyText(o));
    PdfItem(
      KeyOrEmpty(o),
      host + KeyText(o),
      if o.key.Some? then LastSegment(o.key.value) else "",
      o.lastModified,
      o.size)
  }

  /** The key as a template literal shows it: `${item.Key}` is "undefined" when the key is missing. */
  function KeyText(o: S3Object): string {
    if o.key.Some? then o.key.value else "undefined"
  }

  /** What an item reported for a PDF object holds: the object's own key
      (which, lower-cased, ends with ".pdf"), a URL that is the bucket's
      public address followed by that key, and a name with no `/` that the
      key ends with and that is all of the key after its last `/`. */
  lemma ItemFacts(o: S3Object, bucket: string, region: string)
    requires IsPdf(o)
    ensures var item := ToItem(o, bucket, region);
      && o.key == Some(item.key)
      && EndsWith(ToLower(item.key), ".pdf")
      && item.url == "https://" + bucket + ".s3." + region + ".amazonaws.com/" + item.key
      && EndsWith(item.url, item.key)
      && '/' !in item.name
      && EndsWith(item.key, item.name)
      && (item.name == item.key || item.key[|item.key| - |item.name| - 1] == '/')
      && item.lastModified == o.lastModified && item.size == o.size
  {
    KeyOfPdf(o);
    var k := o.key.value;
    var host := "https://" + bucket + ".s3." + region + ".amazonaws.com/";
    ItemOfKeyed(o, bucket, region, host);
    EndsWithAppended(host, k);
  }

  /** The item of an object with a key `k`. */
  lemma ItemOfKeyed(o: S3Object, bucket: string, region: string, host: string)
    requires o.key.Some? && host == "https://" + bucket + ".s3." + region + ".amazonaws.com/"
    ensures ToItem(o, bucket, region) == PdfItem(o.key.value, host + o.key.value, LastSegment(o.key.value), o.lastModified, o.size)
  {
  }

  /** A PDF object has a (non-empty) key. */
  lemma KeyOfPdf(o: S3Object)
    requires IsPdf(o)
    ensures o.key.Some? && o.key.value != ""
  {
  }

  lemma EndsWithAppended(prefix: string, s: string)
    ensures EndsWith(prefix + s, s)
  {
    assert (prefix + s)[|prefix|..] == s;
  }

  /** `allPDFs`: the PDF objects of the listing, each reported as an item; a
      listing with no `Contents` gives none. */
  function AllPdfs(contents: Option<seq<S3Object>>, bucket: string, region: string): (r: seq<PdfItem>)
    ensures contents.None? ==> r == []
    ensures contents.Some? ==>
      && |r| == |PdfIndices(contents.value)|
      && forall j :: 0 <= j < |r| ==> r[j] == ToItem(contents.value[PdfIndices(contents.value)[j]], bucket, region)
  {
    match contents
    case None => []
    case Some(objs) =>
      var kept := FilterPdfs(objs);
      seq(|kept|, j requires 0 <= j < |kept| => ToItem(kept[j], bucket, region))
  }

  /** Every reported item comes from a PDF object of the listing and so has
      the facts of `ItemFacts`; in particular its key, lower-cased, ends with ".pdf". */
  lemma AllPdfsArePdfs(objs: seq<S3Object>, bucket: string, region: string, j: int)
    requires 0 <= j < |AllPdfs(Some(objs), bucket, region)|
    ensures var item := AllPdfs(Some(objs), bucket, region)[j];
      && EndsWith(ToLower(item.key), ".pdf")
      && EndsWith(item.url, item.key)
      && '/' !in item.name && EndsWith(item.key, item.name)
  {
    var i := PdfIndices(objs)[j];
    assert i in PdfIndices(objs);
    ItemFacts(objs[i], bucket, region);
  }

  // ---------------------------------------------------------------------
  // Pagination

  /** The index `Array.prototype.slice` uses for a (whole-number) argument:
      a negative one counts back from the end; both are clamped to the sequence. */
  function SliceIndex(len: nat, k: int): (i: nat)
    ensures i <= len
    ensures 0 <= k <= len ==> i == k
    ensures k > len ==> i == len
    ensures k < 0 ==> i == if len + k < 0 then 0 else len + k
  {
    if k < 0 then (if len + k < 0 then 0 else len + k)
    else if k < len then k else len
  }

  /** `s.slice(start, end)` for whole-number arguments. */
  function Slice<T>(s: seq<T>, start: int, end: int): (r: seq<T>)
    ensures var from, to := SliceIndex(|s|, start), SliceIndex(|s|, end);
      && |r| == (if from < to then to - from else 0)
      && forall k :: 0 <= k < |r| ==> r[k] == s[from + k]
  {
    var from, to := SliceIndex(|s|, start), SliceIndex(|s|, end);
    if from < to then s[from..to] else []
  }

  /** `Math.ceil(a / b)` for a whole `a >= 0` and a whole `b != 0`. For
      `b > 0` it is the least `n` with `n * b >= a`. */
  function CeilDiv(a: nat, b: int): (n: int)
    requires b != 0
    ensures b > 0 ==> n >= 0 && n * b >= a && (n - 1) * b < a
    ensures b < 0 ==> n <= 0 && n * b <= a && a < (n - 1) * b
  {
    if b > 0 then (a + b - 1) / b else a / b
  }

  /** `totalPages`: `Math.ceil(totalPDFs / limit)`. A zero `limit` makes it
      Infinity or NaN, which the JSON response carries as `null` (`None`). */
  function TotalPages(total: nat, limit: int): (r: Option<int>)
    ensures r.None? <==> limit == 0
    ensures limit > 0 ==> r.Some? && r.value >= 0 && r.value * limit >= total && (r.value - 1) * limit < total
  {
    if limit == 0 then None else Some(CeilDiv(total, limit))
  }

  /** The page numbered `page` (from 1) of `limit` items each: `allPDFs.slice(startIndex, endIndex)`. */
  function Page<T>(all: seq<T>, page: int, limit: int): (r: seq<T>)
    ensures |r| <= |all|
    ensures limit >= 0 ==> |r| <= limit
    ensures forall x :: x in r ==> x in all
  {
    var startIndex := (page - 1) * limit;
    var endIndex := startIndex + limit;
    Slice(all, startIndex, endIndex)
  }

  /** With a positive `limit` and `page`, the page holds
      `min(limit, max(0, total - (page - 1) * limit))` items, the ones
      starting at position `(page - 1) * limit`; so never more than `limit`. */
  lemma PageContents<T>(all: seq<T>, page: int, limit: int)
    requires limit > 0 && page >= 1
    ensures var start := (page - 1) * limit; var rest := |all| - start;
      && |Page(all, page, limit)| == (if rest <= 0 then 0 else if rest < limit then rest else limit)
      && forall k :: 0 <= k < |Page(all, page, limit)| ==> Page(all, page, limit)[k] == all[start + k]
  {
    var start := (page - 1) * limit;
    assert start >= 0 by { NonNegativeProduct(page - 1, limit); }
  }

  lemma NonNegativeProduct(a: int, b: int)
    requires a >= 0 && b >= 0
    ensures a * b >= 0
  {
  }

  /** Pages 1 to `n`, concatenated. */
  function PagesUpTo<T>(all: seq<T>, limit: int, n: nat): seq<T> {
    if n == 0 then [] else PagesUpTo(all, limit, n - 1) + Page(all, n, limit)
  }

  /** Pages 1 to `n` together are the first `n * limit` items (or all of them). */
  lemma {:induction false} PagesUpToPrefix<T>(all: seq<T>, limit: int, n: nat)
    requires limit > 0
    ensures PagesUpTo(all, limit, n) == all[..if n * limit < |all| then n * limit else |all|]
  {
    if n > 0 {
      PagesUpToPrefix(all, limit, n - 1);
      var lo := (n - 1) * limit;
      assert lo >= 0 by { NonNegativeProduct(n - 1, limit); }
      assert n * limit == lo + limit;
      var a := if lo < |all| then lo else |all|;
      var b := if lo + limit < |all| then lo + limit else |all|;
      assert Page(all, n, limit) == all[a..b] by { WindowSlice(all, lo, limit); }
      assert all[..b] == all[..a] + all[a..b];
    }
  }

  /** The window of `limit` items from position `lo`, clamped to the sequence. */
  lemma WindowSlice<T>(all: seq<T>, lo: int, limit: int)
    requires lo >= 0 && limit > 0
    ensures Slice(all, lo, lo + limit) ==
      all[(if lo < |all| then lo else |all|)..(if lo + limit < |all| then lo + limit else |all|)]
  {
  }

  /** With a positive `limit`, pages 1 to `totalPages` concatenated are the
      whole filtered list, and every later page is empty. */
  lemma PagesCoverAll<T>(all: seq<T>, limit: int)
    requires limit > 0
    ensures var tp := TotalPages(|all|, limit).value;
      && PagesUpTo(all, limit, tp) == all
      && forall page :: page > tp ==> Page(all, page, limit) == []
  {
    var tp := TotalPages(|all|, limit).value;
    PagesUpToPrefix(all, limit, tp);
    assert all[..|all|] == all;
    forall page | page > tp ensures Page(all, page, limit) == [] {
      PageBeyondLast(all, limit, tp, page);
    }
  }

  lemma PageBeyondLast<T>(all: seq<T>, limit: int, tp: int, page: int)
    requires limit > 0 && tp >= 0 && tp * limit >= |all| && page > tp
    ensures Page(all, page, limit) == []
  {
    MonotoneProduct(tp, page - 1, limit);
    PageContents(all, page, limit);
  }

  lemma MonotoneProduct(a: int, b: int, c: int)
    requires a <= b && c >= 0
    ensures a * c <= b * c
  {
  }

  // ---------------------------------------------------------------------
  // The response

  /** The JSON body of a successful response. */
  datatype ListResponse = ListResponse(pdfs: seq<PdfItem>, page: int, limit: int, totalPDFs: nat, totalPages: Option<int>)

  /** The response for the listing `contents` S3 returned: `pageParam` and
      `limitParam` are the parsed query parameters (`None` when absent or
      empty), defaulting to 1 and 8. The response echoes the page and limit,
      counts every PDF in `totalPDFs` and returns one page of them. */
  function Respond(pageParam: Option<int>, limitParam: Option<int>, bucket: string, region: string,
                   contents: Option<seq<S3Object>>): (r: ListResponse)
    ensures r.page == pageParam.GetOr(DefaultPage) && r.limit == limitParam.GetOr(DefaultLimit)
    ensures r.totalPDFs == |AllPdfs(contents, bucket, region)|
    ensures r.totalPages == TotalPages(r.totalPDFs, r.limit)
    ensures r.pdfs == Page(AllPdfs(contents, bucket, region), r.page, r.limit)
  {
    var page := pageParam.GetOr(DefaultPage);
    var limit := limitParam.GetOr(DefaultLimit);
    var all := AllPdfs(contents, bucket, region);
    ListResponse(Page(all, page, limit), page, limit, |all|, TotalPages(|all|, limit))
  }

  /** With positive page and limit, the page never holds more than `limit`
      items nor more than `totalPDFs`, and the pages 1 to `totalPages` of the
      same listing together return every PDF. */
  lemma RespondPages(pageParam: Option<int>, limitParam: Option<int>, bucket: string, region: string,
                     contents: Option<seq<S3Object>>)
    requires pageParam.GetOr(DefaultPage) >= 1 && limitParam.GetOr(DefaultLimit) > 0
    ensures var r := Respond(pageParam, limitParam, bucket, region, contents);
      && |r.pdfs| <= r.limit && |r.pdfs| <= r.totalPDFs
      && r.totalPages.Some?
      && PagesUpTo(AllPdfs(contents, bucket, region), r.limit, r.totalPages.value) == AllPdfs(contents, bucket, region)
  {
    var r := Respond(pageParam, limitParam, bucket, region, contents);
    PageContents(AllPdfs(contents, bucket, region), r.page, r.limit);
    PagesCoverAll(AllPdfs(contents, bucket, region), r.limit);
  }
}
