/** `TestSearchBookAdapter`: the stand-in for the book API used in load tests.
    It makes up a result count from the query, then the page's books from two
    fixed lists. Its random draws are inputs here: `totalDraw` for
    `nextInt` in `determineTotalResults`, and one `BookDraw` per book index.

    Page arithmetic is Java `int` arithmetic and is written out with `Wrap32`;
    `SearchPageExact` is the same computation on exact integers. */
module TestSearchBookAdapter {
  import opened Wrappers
  import opened JavaText
  import opened JavaTime
  import opened SearchBookDto

  const BookTitles: seq<string> := [
    "Effective Java", "Clean Code", "Spring in Action",
    "Java: The Complete Reference", "Head First Design Patterns",
    "Microservices Patterns", "Building Microservices",
    "Spring Boot in Action", "Java Concurrency in Practice",
    "Domain-Driven Design", "Clean Architecture", "Refactoring"]

  const Authors: seq<string> := [
    "Joshua Bloch", "Robert C. Martin", "Craig Walls",
    "Herbert Schildt", "Eric Freeman", "Chris Richardson",
    "Sam Newman", "Craig Walls", "Brian Goetz",
    "Eric Evans", "Robert C. Martin", "Martin Fowler"]

  const PageSize: int := 10
  const MaxPageableCount: int := 1000
  const ThumbnailPrefix: string := "https://via.placeholder.com/120x160?text=Book"

  /** `List.get` with an index outside the list. */
  datatype Failure = IndexOutOfBounds(index: int)

  /** The per-book random draws: whether the title mentions the query
      (`nextDouble() < 0.7`), and the publication date (today minus up to ten
      years, read from the clock). */
  datatype BookDraw = BookDraw(withQuery: bool, publishedAt: LocalDate)

  function Min(a: int, b: int): int {
    if a <= b then a else b
  }

  function Max(a: int, b: int): int {
    if a >= b then a else b
  }

  /** `List.get`. */
  function ListGet<T>(xs: seq<T>, index: int): (r: Result<T, Failure>)
    ensures r.Ok? <==> 0 <= index < |xs|
    ensures r.Ok? ==> r.value == xs[index]
  {
    if 0 <= index < |xs| then Ok(xs[index]) else Err(IndexOutOfBounds(index))
  }

  // ---------------------------------------------------------------------------
  // determineTotalResults
  // ---------------------------------------------------------------------------

  /** The smallest count the lower-cased query can get. */
  function TotalBase(lower: string): int {
    if lower == "springboot" || lower == "spring" then 150
    else if lower == "java" then 200
    else if lower == "python" then 80
    else if lower == "redis" then 50
    else if lower == "mysql" then 60
    else 20
  }

  /** The bound passed to `nextInt` for the lower-cased query. */
  function TotalSpread(lower: string): int {
    if lower == "springboot" || lower == "spring" then 50
    else if lower == "java" then 100
    else if lower == "python" then 40
    else if lower == "redis" then 30
    else if lower == "mysql" then 25
    else 30
  }

  /** `determineTotalResults`, with `totalDraw` the value `nextInt` returned. */
  function DetermineTotalResults(query: string, totalDraw: int): (total: int)
    requires 0 <= totalDraw < TotalSpread(ToLower(query))
    ensures var q := ToLower(query);
            && ((q == "springboot" || q == "spring") ==> 150 <= total <= 199)
            && (q == "java" ==> 200 <= total <= 299)
            && (q == "python" ==> 80 <= total <= 119)
            && (q == "redis" ==> 50 <= total <= 79)
            && (q == "mysql" ==> 60 <= total <= 84)
            && (q !in {"springboot", "spring", "java", "python", "redis", "mysql"} ==> 20 <= total <= 49)
    ensures 20 <= total < 300
  {
    TotalBase(ToLower(query)) + totalDraw
  }

  /** Every count in a query's range is reachable by some draw, and nothing else. */
  lemma TotalResultsRange(query: string, total: int)
    ensures (exists d :: 0 <= d < TotalSpread(ToLower(query)) && DetermineTotalResults(query, d) == total) <==>
            TotalBase(ToLower(query)) <= total < TotalBase(ToLower(query)) + TotalSpread(ToLower(query))
  {
    var lower := ToLower(query);
    if TotalBase(lower) <= total < TotalBase(lower) + TotalSpread(lower) {
      assert DetermineTotalResults(query, total - TotalBase(lower)) == total;
    }
  }

  // ---------------------------------------------------------------------------
  // Titles and thumbnails
  // ---------------------------------------------------------------------------

  /** `capitalizeFirst`: the first character upper-cased, the rest lower-cased. */
  function CapitalizeFirst(s: string): (r: string)
    ensures s == [] ==> r == []
    ensures s != [] ==> r == [UpperChar(s[0])] + ToLower(s[1..])
  {
    if s == [] then [] else ToUpper(s[..1]) + ToLower(s[1..])
  }

  /** Capitalizing twice is capitalizing once. */
  lemma CapitalizeFirstIdempotent(s: string)
    ensures CapitalizeFirst(CapitalizeFirst(s)) == CapitalizeFirst(s)
  {
    if s != [] {
      var r := CapitalizeFirst(s);
      assert r[1..] == ToLower(s[1..]);
      ToLowerIdempotent(s[1..]);
    }
  }

  /** The result does not depend on the case of ASCII letters in the input. */
  lemma CapitalizeFirstIgnoresCase(s: string)
    ensures CapitalizeFirst(ToUpper(s)) == CapitalizeFirst(s)
  {
    if s != [] {
      assert ToUpper(s)[1..] == ToUpper(s[1..]);
      ToLowerOfToUpper(s[1..]);
    }
  }

  lemma CapitalizeFirstExample(s: string)
    requires s == "springboot"
    ensures CapitalizeFirst(s) == "Springboot"
  {
    var tail := s[1..];
    assert tail == "pringboot";
    ToLowerCharwise(tail, tail);
  }

  /** The title that mentions the query. */
  function QueryTitle(query: string, index: nat): string {
    BookTitles[index % 12] + ": " + CapitalizeFirst(query) + " Edition"
  }

  /** The title with a volume number 1..5. */
  function VolumeTitle(index: nat): string {
    BookTitles[index % 12] + " (Vol." + DecimalText(index % 5 + 1) + ")"
  }

  /** `generateTitle`, with the `nextDouble() < 0.7` outcome as `withQuery`. */
  function GenerateTitle(query: string, index: int, withQuery: bool): (r: Result<string, Failure>)
    ensures index >= 0 ==> r.Ok?
    ensures index >= 0 && withQuery ==> r.value == QueryTitle(query, index)
    ensures index >= 0 && !withQuery ==> r.value == VolumeTitle(index)
    ensures r.Err? <==> JavaRem(index, 12) != 0 && index < 0
  {
    var baseTitle :- ListGet(BookTitles, JavaRem(index, 12));
    if withQuery then Ok(baseTitle + ": " + CapitalizeFirst(query) + " Edition")
    else Ok(baseTitle + " (Vol." + IntText(JavaRem(index, 5) + 1) + ")")
  }

  /** `generateThumbnailUrl`. */
  function GenerateThumbnailUrl(index: int): (url: string)
    ensures 0 <= index < IntMax ==> url == ThumbnailPrefix + DecimalText(index + 1)
  {
    ThumbnailPrefix + IntText(Wrap32(index + 1))
  }

  /** Different books get different thumbnails. */
  lemma ThumbnailsDistinct(i: int, j: int)
    requires 0 <= i < IntMax && 0 <= j < IntMax && i != j
    ensures GenerateThumbnailUrl(i) != GenerateThumbnailUrl(j)
  {
    if GenerateThumbnailUrl(i) == GenerateThumbnailUrl(j) {
      var n := |ThumbnailPrefix|;
      assert GenerateThumbnailUrl(i)[n..] == DecimalText(i + 1);
      assert GenerateThumbnailUrl(j)[n..] == DecimalText(j + 1);
      DecimalTextInjective(i + 1, j + 1);
    }
  }

  // ---------------------------------------------------------------------------
  // generateBooks
  // ---------------------------------------------------------------------------

  /** One iteration of the loop in `generateBooks`. `AUTHORS.get` is given the
      index `BOOK_TITLES.get` has just accepted, and both lists have 12 entries,
      so only the title lookup can throw. */
  function GenerateBook(query: string, index: int, draw: BookDraw): (r: Result<Book, Failure>)
    ensures r.Ok? <==> JavaRem(index, 12) == 0 || index >= 0
  {
    match GenerateTitle(query, index, draw.withQuery)
    case Err(e) => Err(e)
    case Ok(title) => Ok(Book(title, Authors[JavaRem(index, 12)], draw.publishedAt, GenerateThumbnailUrl(index)))
  }

  /** What the book at a non-negative index holds. */
  predicate IsBookAt(query: string, index: nat, draw: BookDraw, b: Book) {
    && b.title == (if draw.withQuery then QueryTitle(query, index) else VolumeTitle(index))
    && b.author == Authors[index % 12]
    && b.publishedAt == draw.publishedAt
    && b.thumbnail == ThumbnailPrefix + DecimalText(index + 1)
  }

  /** The `for` loop of `generateBooks` over the indexes `from` up to `end`, with
      `step` as its body: the books in order, or the first exception thrown. */
  function Collect(step: int -> Result<Book, Failure>, from: int, end: int): (r: Result<seq<Book>, Failure>)
    ensures (forall i :: from <= i < end ==> step(i).Ok?) ==> r.Ok?
    ensures r.Err? ==> exists i :: from <= i < end && step(i) == Err(r.error)
    ensures r.Ok? ==> |r.value| == Max(0, end - from)
    ensures r.Ok? ==> forall k :: 0 <= k < |r.value| ==> step(from + k) == Ok(r.value[k])
    decreases end - from
  {
    if from >= end then Ok([])
    else
      var b :- step(from);
      var rest :- Collect(step, from + 1, end);
      assert forall k :: 1 <= k < 1 + |rest| ==> ([b] + rest)[k] == rest[k - 1];
      Ok([b] + rest)
  }

  /** At a non-negative index the loop body builds exactly the book of that index. */
  lemma GenerateBookIsBookAt(query: string, index: int, draw: BookDraw)
    requires 0 <= index < IntMax
    ensures GenerateBook(query, index, draw).Ok?
    ensures IsBookAt(query, index, draw, GenerateBook(query, index, draw).value)
  {
  }

  /** `generateBooks`: the books for indexes `from` up to `end`, or the
      exception the first bad index throws. From a non-negative index, the
      `k`-th book is the book of index `from + k`. */
  function GenerateBooks(query: string, from: int, end: int, draws: int -> BookDraw): (r: Result<seq<Book>, Failure>)
    requires IsInt32(from) && IsInt32(end)
    ensures from >= 0 ==> r.Ok?
    ensures r.Ok? ==> |r.value| == Max(0, end - from)
    ensures r.Ok? && from >= 0 ==> forall k :: 0 <= k < |r.value| ==> IsBookAt(query, from + k, draws(from + k), r.value[k])
  {
    var step := i => GenerateBook(query, i, draws(i));
    var r := Collect(step, from, end);
    if from >= 0 then
      forall i | from <= i < end
        ensures step(i).Ok?
      {
        assert step(i) == GenerateBook(query, i, draws(i));
      }
      assert forall k :: 0 <= k < |r.value| ==> IsBookAt(query, from + k, draws(from + k), r.value[k]) by {
        forall k | 0 <= k < |r.value|
          ensures IsBookAt(query, from + k, draws(from + k), r.value[k])
        {
          GenerateBookIsBookAt(query, from + k, draws(from + k));
          assert step(from + k) == Ok(r.value[k]);
        }
      }
      r
    else r
  }

  /** A range of at least two indexes that starts below zero always throws:
      the first index, or the one after it, is not a multiple of 12. */
  lemma {:induction false} NegativeRangeThrows(query: string, from: int, end: int, draws: int -> BookDraw)
    requires IsInt32(from) && IsInt32(end)
    requires from < 0 && end >= from + 2
    ensures GenerateBooks(query, from, end, draws).Err?
  {
    if GenerateBook(query, from, draws(from)).Ok? {
      assert JavaRem(from, 12) == 0;
      assert JavaRem(from + 1, 12) != 0;
      assert from + 1 < 0;
      assert GenerateBook(query, from + 1, draws(from + 1)).Err?;
      assert GenerateBooks(query, from + 1, end, draws).Err?;
    }
  }

  // ---------------------------------------------------------------------------
  // generateTestSearchResult
  // ---------------------------------------------------------------------------

  /** `(page - 1) * pageSize` in `int` arithmetic. */
  function StartIndex(page: int): (start: int)
    requires IsInt32(page)
    ensures IsInt32(start)
    ensures 1 - IntMax / PageSize <= page <= IntMax / PageSize ==> start == (page - 1) * PageSize
  {
    Wrap32(Wrap32(page - 1) * PageSize)
  }

  /** `generateTestSearchResult` once the total is drawn: the page's slice of
      the made-up results and its paging information. */
  function SearchPage(query: string, page: int, total: int, draws: int -> BookDraw): (r: Result<SearchBookDTO, Failure>)
    requires IsInt32(page) && 0 <= total <= MaxPageableCount
    ensures r.Ok? ==> r.value.pageInfo == PageInfo(Wrap32(StartIndex(page) + PageSize) >= total, total, total, page)
  {
    var start := StartIndex(page);
    var end := Min(Wrap32(start + PageSize), total);
    var books :- GenerateBooks(query, start, end, draws);
    Ok(SearchBookDTO(books, PageInfo(Wrap32(start + PageSize) >= total, Min(total, MaxPageableCount), total, page)))
  }

  /** `generateTestSearchResult` (and so `search`, which adds only a sleep, a log
      line and a request counter). */
  function GenerateTestSearchResult(query: string, page: int, totalDraw: int, draws: int -> BookDraw): (r: Result<SearchBookDTO, Failure>)
    requires IsInt32(page)
    requires 0 <= totalDraw < TotalSpread(ToLower(query))
    ensures r.Ok? ==> 20 <= r.value.pageInfo.totalCount < 300
    ensures r.Ok? ==> r.value.pageInfo.pageableCount == r.value.pageInfo.totalCount
    ensures r.Ok? ==> r.value.pageInfo.page == page
  {
    SearchPage(query, page, DetermineTotalResults(query, totalDraw), draws)
  }

  /** The largest page whose arithmetic stays inside `int`. */
  const MaxExactPage: int := IntMax / PageSize

  /** A page from 1 to `MaxExactPage`: the slice `[(page-1)*10, page*10)` of the
      made-up results, cut at the total; `isEnd` exactly when the slice reaches
      the total, so a page that is not the end is full. */
  lemma PageContents(query: string, page: int, total: int, draws: int -> BookDraw)
    requires 1 <= page <= MaxExactPage
    requires 0 <= total <= MaxPageableCount
    ensures var r := SearchPage(query, page, total, draws);
            var start := (page - 1) * PageSize;
            && r.Ok?
            && |r.value.books| == Max(0, Min(PageSize, total - start))
            && (r.value.pageInfo.isEnd <==> start + PageSize >= total)
            && (!r.value.pageInfo.isEnd ==> |r.value.books| == PageSize)
            && r.value.pageInfo.pageableCount == total
            && r.value.pageInfo.totalCount == total
            && r.value.pageInfo.page == page
            && forall k :: 0 <= k < |r.value.books| ==> IsBookAt(query, start + k, draws(start + k), r.value.books[k])
  {
    var start := StartIndex(page);
    assert start == (page - 1) * PageSize;
    assert Wrap32(start + PageSize) == start + PageSize;
    var end := Min(start + PageSize, total);
    var books := GenerateBooks(query, start, end, draws);
    assert books.Ok?;
    assert SearchPage(query, page, total, draws)
        == Ok(SearchBookDTO(books.value, PageInfo(start + PageSize >= total, total, total, page)));
  }

  /** Pages 0 and below throw (`List.get` with a negative index), as long as the
      page arithmetic does not wrap and there is a second result to fetch. */
  lemma NonPositivePageThrows(query: string, page: int, total: int, draws: int -> BookDraw)
    requires 1 - MaxExactPage <= page <= 0
    requires 0 <= total <= MaxPageableCount
    ensures SearchPage(query, page, total, draws).Err?
  {
    var start := StartIndex(page);
    assert start == (page - 1) * PageSize <= -PageSize;
    assert Min(Wrap32(start + PageSize), total) == start + PageSize;
    NegativeRangeThrows(query, start, start + PageSize, draws);
  }

  /** Past the last result, at page 214748365: `startIndex + 10` wraps to a
      negative number, so the page is empty but does not report the end. */
  lemma OverflowPageClaimsMore(query: string, total: int, draws: int -> BookDraw)
    requires 0 < total <= MaxPageableCount
    ensures var r := SearchPage(query, MaxExactPage + 1, total, draws);
            && r.Ok?
            && r.value.books == []
            && !r.value.pageInfo.isEnd
  {
    assert Wrap32(MaxExactPage + 1 - 1) == 214748364;
    assert Wrap32(214748364 * PageSize) == 2147483640;
    var start := StartIndex(MaxExactPage + 1);
    assert start == 2147483640;
    assert Wrap32(start + PageSize) == -2147483646;
    assert GenerateBooks(query, start, -2147483646, draws) == Ok([]);
  }

  /** `generateTestSearchResult` once the total is drawn, on exact integers, as
      evidently intended: the same slice and the same `isEnd` test, with no
      wrap-around. */
  function SearchPageExact(query: string, page: int, total: int, draws: int -> BookDraw): (r: Result<SearchBookDTO, Failure>)
    requires IsInt32(page) && 0 <= total <= MaxPageableCount
    ensures page >= 1 ==> r.Ok?
  {
    var start := (page - 1) * PageSize;
    var end := Min(start + PageSize, total);
    if start < IntMin then Err(IndexOutOfBounds(start))
    else if start > IntMax then Ok(SearchBookDTO([], PageInfo(true, total, total, page)))
    else
      var books :- GenerateBooks(query, start, end, draws);
      Ok(SearchBookDTO(books, PageInfo(start + PageSize >= total, total, total, page)))
  }

  /** With exact arithmetic every positive page keeps the paging promise: a page
      that is not the end is full, and an empty page is the end. */
  lemma ExactPagesKeepPromise(query: string, page: int, total: int, draws: int -> BookDraw)
    requires IsInt32(page) && page >= 1
    requires 0 <= total <= MaxPageableCount
    ensures var r := SearchPageExact(query, page, total, draws);
            && r.Ok?
            && (!r.value.pageInfo.isEnd ==> |r.value.books| == PageSize)
            && (r.value.books == [] ==> r.value.pageInfo.isEnd)
  {
  }

  /** The two agree wherever `int` arithmetic does not wrap. */
  lemma ExactAgreesBelowOverflow(query: string, page: int, total: int, draws: int -> BookDraw)
    requires 1 - MaxExactPage <= page <= MaxExactPage
    requires 0 <= total <= MaxPageableCount
    ensures SearchPageExact(query, page, total, draws) == SearchPage(query, page, total, draws)
  {
  }
}
