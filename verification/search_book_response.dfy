/** `SearchBookResponse`: the result returned to clients and stored in the cache,
    built from a `SearchBookDTO` by a field-for-field copy. */
module SearchBookResponse {
  import opened JavaTime
  import Dto = SearchBookDto

  datatype Book = Book(title: string, author: string, publishedAt: LocalDate, thumbnail: string)

  datatype PageInfo = PageInfo(isEnd: bool, pageableCount: int, totalCount: int, page: int)

  datatype SearchBookResponse = SearchBookResponse(books: seq<Book>, pageInfo: PageInfo)

  /** `SearchBookResponse.from`. */
  function From(dto: Dto.SearchBookDTO): (r: SearchBookResponse)
    // every book, in order, nothing filtered
    ensures |r.books| == |dto.books|
    ensures forall i :: 0 <= i < |dto.books| ==>
              && r.books[i].title == dto.books[i].title
              && r.books[i].author == dto.books[i].author
              && r.books[i].publishedAt == dto.books[i].publishedAt
              && r.books[i].thumbnail == dto.books[i].thumbnail
    ensures r.pageInfo.isEnd == dto.pageInfo.isEnd
    ensures r.pageInfo.pageableCount == dto.pageInfo.pageableCount
    ensures r.pageInfo.totalCount == dto.pageInfo.totalCount
    ensures r.pageInfo.page == dto.pageInfo.page
  {
    var books := seq(|dto.books|, i requires 0 <= i < |dto.books| =>
      var b := dto.books[i];
      Book(b.title, b.author, b.publishedAt, b.thumbnail));
    var p := dto.pageInfo;
    SearchBookResponse(books, PageInfo(p.isEnd, p.pageableCount, p.totalCount, p.page))
  }

  /** The copy in the other direction. */
  function ToDto(r: SearchBookResponse): Dto.SearchBookDTO {
    var books := seq(|r.books|, i requires 0 <= i < |r.books| =>
      var b := r.books[i];
      Dto.Book(b.title, b.author, b.publishedAt, b.thumbnail));
    var p := r.pageInfo;
    Dto.SearchBookDTO(books, Dto.PageInfo(p.isEnd, p.pageableCount, p.totalCount, p.page))
  }

  /** `From` loses nothing: copying back gives the original result. */
  lemma FromLosesNothing(dto: Dto.SearchBookDTO)
    ensures ToDto(From(dto)) == dto
  {
    var back := ToDto(From(dto));
    assert back.books == dto.books;
  }

  /** ... and every response is the copy of some search result. */
  lemma FromIsOnto(r: SearchBookResponse)
    ensures From(ToDto(r)) == r
  {
    var back := From(ToDto(r));
    assert back.books == r.books;
  }

  /** Distinct search results give distinct responses. */
  lemma FromInjective(a: Dto.SearchBookDTO, b: Dto.SearchBookDTO)
    requires From(a) == From(b)
    ensures a == b
  {
    FromLosesNothing(a);
    FromLosesNothing(b);
  }
}
