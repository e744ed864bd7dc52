/** `SearchBookDTO`: the adapter-neutral search result both adapters produce. */
module SearchBookDto {
  import opened JavaTime

  datatype Book = Book(title: string, author: string, publishedAt: LocalDate, thumbnail: string)

  datatype PageInfo = PageInfo(isEnd: bool, pageableCount: int, totalCount: int, page: int)

  datatype SearchBookDTO = SearchBookDTO(books: seq<Book>, pageInfo: PageInfo)
}
