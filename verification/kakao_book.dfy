/** The Kakao book-search adapter: the API's response records, the thumbnail
    file-name extraction, and the conversion into a `SearchBookDTO`. The HTTP
    client itself is a function parameter. */
module KakaoBook {
  import opened Wrappers
  import opened JavaTime
  import opened SearchBookDto
  import UrlDecoding

  // ---------------------------------------------------------------------------
  // KakaoSearchBookDTO
  // ---------------------------------------------------------------------------

  /** One search hit as the API returns it; `datetime` may be absent. */
  datatype Document = Document(
    title: string,
    contents: string,
    isbn: string,
    publisher: string,
    authors: seq<string>,
    thumbnail: string,
    datetime: Option<OffsetDateTime>,
    price: int,
    salePrice: int,
    status: string,
    url: string,
    translators: seq<string>)

  datatype Meta = Meta(isEnd: bool, pageableCount: int, totalCount: int)

  datatype KakaoSearchBookDTO = KakaoSearchBookDTO(documents: seq<Document>, meta: Meta)

  /** `Character.isWhitespace`: the Unicode space, line and paragraph
      separators other than the no-break spaces, plus the ASCII controls
      U+0009..U+000D and U+001C..U+001F. */
  predicate IsJavaWhitespace(c: char) {
    || '\U{0009}' <= c <= '\U{000D}'
    || '\U{001C}' <= c <= '\U{0020}'
    || c == '\U{1680}'
    || '\U{2000}' <= c <= '\U{2006}'
    || '\U{2008}' <= c <= '\U{200A}'
    || c == '\U{2028}' || c == '\U{2029}' || c == '\U{205F}' || c == '\U{3000}'
  }

  /** `String.isBlank`. */
  predicate IsBlank(s: string) {
    forall i :: 0 <= i < |s| ==> IsJavaWhitespace(s[i])
  }

  const FileNameMarker: string := "fname="

  predicate OccursAt(s: string, pattern: string, i: int) {
    0 <= i && i + |pattern| <= |s| && s[i..i + |pattern|] == pattern
  }

  /** `s.indexOf(pattern)` searching from `from`: the first position at or after
      `from` where `pattern` occurs, or -1. */
  function IndexOfFrom(s: string, pattern: string, from: nat): (r: int)
    requires from <= |s|
    ensures r == -1 || from <= r <= |s| - |pattern|
    ensures r == -1 <==> forall i :: from <= i <= |s| ==> !OccursAt(s, pattern, i)
    ensures r != -1 ==> OccursAt(s, pattern, r) && forall i :: from <= i < r ==> !OccursAt(s, pattern, i)
    decreases |s| - from
  {
    if OccursAt(s, pattern, from) then from
    else if from == |s| then -1
    else IndexOfFrom(s, pattern, from + 1)
  }

  /** `s.indexOf(pattern)`. */
  function IndexOf(s: string, pattern: string): (r: int)
    ensures r == -1 <==> forall i :: 0 <= i <= |s| ==> !OccursAt(s, pattern, i)
    ensures r != -1 ==> OccursAt(s, pattern, r) && forall i :: 0 <= i < r ==> !OccursAt(s, pattern, i)
  {
    IndexOfFrom(s, pattern, 0)
  }

  /** What the `try` block yields for a decoded suffix: the text, or `""` when
      `decode` throws. */
  function DecodedOrEmpty(s: string): string {
    match UrlDecoding.Decode(s)
    case Some(text) => text
    case None => []
  }

  /** `Document.extractThumbnailFileName`. A blank thumbnail gives `""`; otherwise
      the URL-decoded text after the first `fname=`. Without the marker the cut
      falls at index 5 (`-1 + 6`), and a thumbnail shorter than that makes
      `substring` throw, caught as `""`. */
  function ExtractThumbnailFileName(d: Document): (r: string)
    ensures IsBlank(d.thumbnail) ==> r == []
    ensures !IsBlank(d.thumbnail) && IndexOf(d.thumbnail, FileNameMarker) >= 0 ==>
              r == DecodedOrEmpty(d.thumbnail[IndexOf(d.thumbnail, FileNameMarker) + |FileNameMarker|..])
    ensures !IsBlank(d.thumbnail) && IndexOf(d.thumbnail, FileNameMarker) == -1 ==>
              r == (if |d.thumbnail| < 5 then [] else DecodedOrEmpty(d.thumbnail[5..]))
  {
    var t := d.thumbnail;
    if IsBlank(t) then []
    else
      var begin := IndexOf(t, FileNameMarker) + |FileNameMarker|;
      if begin > |t| then []     // StringIndexOutOfBoundsException, caught
      else DecodedOrEmpty(t[begin..])
  }

  /** Appending the marker to a text without it puts the first occurrence
      right after that text: no occurrence can straddle the join. */
  lemma FirstMarkerAfter(base: string, rest: string)
    requires forall i :: 0 <= i <= |base| ==> !OccursAt(base, FileNameMarker, i)
    ensures IndexOf(base + FileNameMarker + rest, FileNameMarker) == |base|
  {
    var t := base + FileNameMarker + rest;
    var n := |base|;
    assert t[n..n + 6] == FileNameMarker;
    assert OccursAt(t, FileNameMarker, n);
    forall i | 0 <= i < n
      ensures !OccursAt(t, FileNameMarker, i)
    {
      // an occurrence reaching past the join would need its '=' inside "fname"
      if i + 6 <= n {
        assert base[i..i + 6] == t[i..i + 6];
        assert !OccursAt(base, FileNameMarker, i);
      } else {
        assert t[i + 5] == FileNameMarker[i + 5 - n] != '=';
        assert i + 6 <= |t| ==> t[i..i + 6][5] == t[i + 5];
        assert FileNameMarker[5] == '=' && |FileNameMarker| == 6;
      }
    }
  }

  /** A thumbnail URL that carries an encoded file name after the only
      `fname=` gives that file name back. */
  lemma ExtractRecoversEncodedName(base: string, name: string, d: Document)
    requires forall i :: 0 <= i <= |base| ==> !OccursAt(base, FileNameMarker, i)
    requires d.thumbnail == base + FileNameMarker + UrlDecoding.Encode(name)
    ensures ExtractThumbnailFileName(d) == name
  {
    var t := d.thumbnail;
    var n := |base|;
    FirstMarkerAfter(base, UrlDecoding.Encode(name));
    assert t[n] == 'f' && !IsJavaWhitespace(t[n]);
    assert t[n + 6..] == UrlDecoding.Encode(name);
    UrlDecoding.DecodeEncode(name);
  }

  /** A thumbnail too short to hold the marker gives `""`. */
  lemma ExtractShortThumbnail(d: Document)
    requires |d.thumbnail| < 6
    ensures ExtractThumbnailFileName(d) == []
  {
  }

  // ---------------------------------------------------------------------------
  // KakaoBookAdapter
  // ---------------------------------------------------------------------------

  const DefaultSize: int := 10
  const DefaultSort: string := "accuracy"

  /** The parameters `KakaoApiClient.searchBooks` is called with. */
  datatype KakaoRequest = KakaoRequest(query: string, page: int, size: int, sort: string)

  /** The author shown when the API lists none. */
  const UnknownAuthor: string := "작자 미상"

  /** `convertAuthor`. */
  function ConvertAuthor(authors: seq<string>): (r: string)
    ensures |authors| > 0 ==> r == authors[0]
    ensures |authors| == 0 ==> r == UnknownAuthor
  {
    if |authors| == 0 then UnknownAuthor else authors[0]
  }

  /** `convertPublishedDate`. */
  function ConvertPublishedDate(publishedDate: Option<OffsetDateTime>): (r: LocalDate)
    ensures publishedDate.None? ==> r == Epoch
    ensures publishedDate.Some? ==> r == ToLocalDate(publishedDate.value)
  {
    match publishedDate
    case None => Epoch
    case Some(t) => ToLocalDate(t)
  }

  function ConvertBook(d: Document): (b: Book)
    ensures b.title == d.title
    ensures b.author == ConvertAuthor(d.authors)
    ensures b.publishedAt == ConvertPublishedDate(d.datetime)
    ensures b.thumbnail == ExtractThumbnailFileName(d)
  {
    Book(d.title, ConvertAuthor(d.authors), ConvertPublishedDate(d.datetime), ExtractThumbnailFileName(d))
  }

  /** `convertBooks`: one book per document, in order. */
  function ConvertBooks(documents: seq<Document>): (books: seq<Book>)
    ensures |books| == |documents|
    ensures forall i :: 0 <= i < |documents| ==> books[i] == ConvertBook(documents[i])
  {
    seq(|documents|, i requires 0 <= i < |documents| => ConvertBook(documents[i]))
  }

  /** Converting a concatenation converts each part: nothing is reordered,
      dropped or merged. */
  lemma ConvertBooksAppend(a: seq<Document>, b: seq<Document>)
    ensures ConvertBooks(a + b) == ConvertBooks(a) + ConvertBooks(b)
  {
  }

  /** `convertPageInfo`: the counts from the API, the page from the caller. */
  function ConvertPageInfo(meta: Meta, currentPage: int): (p: PageInfo)
    ensures p.isEnd == meta.isEnd && p.pageableCount == meta.pageableCount && p.totalCount == meta.totalCount
    ensures p.page == currentPage
  {
    PageInfo(meta.isEnd, meta.pageableCount, meta.totalCount, currentPage)
  }

  /** `convertResponse`. */
  function ConvertResponse(dto: KakaoSearchBookDTO, page: int): (r: SearchBookDTO)
    ensures r.books == ConvertBooks(dto.documents)
    ensures r.pageInfo == ConvertPageInfo(dto.meta, page)
  {
    SearchBookDTO(ConvertBooks(dto.documents), ConvertPageInfo(dto.meta, page))
  }

  /** The request `search` sends: always ten results, sorted by accuracy. */
  function Request(query: string, page: int): (q: KakaoRequest)
    ensures q.query == query && q.page == page
    ensures q.size == 10 && q.sort == "accuracy"
  {
    KakaoRequest(query, page, DefaultSize, DefaultSort)
  }

  /** `search(query, page)`, with the API client as `api`. */
  function Search(query: string, page: int, api: KakaoRequest -> KakaoSearchBookDTO): (r: SearchBookDTO)
    ensures |r.books| == |api(Request(query, page)).documents|
    ensures forall i :: 0 <= i < |r.books| ==> r.books[i] == ConvertBook(api(Request(query, page)).documents[i])
    ensures r.pageInfo.page == page
    ensures r.pageInfo.isEnd == api(Request(query, page)).meta.isEnd
  {
    ConvertResponse(api(Request(query, page)), page)
  }

  /** The adapter answers with the page it was asked for, whatever the API
      reports, and its book count is the API's. */
  lemma SearchEchoesPage(query: string, page: int, api: KakaoRequest -> KakaoSearchBookDTO)
    ensures Search(query, page, api).pageInfo.page == page
    ensures |Search(query, page, api).books| == |api(KakaoRequest(query, page, 10, "accuracy")).documents|
  {
  }
}
