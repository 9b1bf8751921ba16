/**
 * The response envelopes of the API: a page of a collection with its paging metadata, and a
 * single resource, each carrying a list of hypermedia links.
 */
module Responses {

  /** A hypermedia link: target, relation and HTTP method (the Method property). */
  datatype Link = Link(href: string, rel: string, verb: string)

  /** A List<Link> that links are appended to. */
  class LinkList {
    var items: seq<Link>

    constructor()
      ensures items == []
    {
      items := [];
    }

    method Add(link: Link)
      modifies this
      ensures items == old(items) + [link]
    {
      items := items + [link];
    }
  }

  /** The number of pages of size pageSize that hold count rows: the ceiling of count / pageSize. */
  function CeilDiv(count: int, pageSize: int): (pages: int)
    requires pageSize > 0
    ensures (pages - 1) * pageSize < count <= pages * pageSize
  {
    if count % pageSize == 0 then count / pageSize else count / pageSize + 1
  }

  /**
   * TotalPages of a PagedResponse: the ceiling of totalCount / pageSize, and 0 when the page
   * size is not positive.
   */
  function TotalPages(totalCount: int, pageSize: int): (pages: int)
    ensures pageSize <= 0 ==> pages == 0
    ensures pageSize > 0 ==> (pages - 1) * pageSize < totalCount <= pages * pageSize
  {
    if pageSize > 0 then CeilDiv(totalCount, pageSize) else 0
  }

  /** The two bounds of TotalPages determine it: it is the only such number. */
  lemma TotalPagesUnique(totalCount: int, pageSize: int, pages: int)
    requires pageSize > 0
    requires (pages - 1) * pageSize < totalCount <= pages * pageSize
    ensures pages == TotalPages(totalCount, pageSize)
  {
  }

  /** An empty collection has no pages; a non-empty one has at least one. */
  lemma TotalPagesOfCount(totalCount: int, pageSize: int)
    requires pageSize > 0 && totalCount >= 0
    ensures TotalPages(totalCount, pageSize) == 0 <==> totalCount == 0
    ensures TotalPages(totalCount, pageSize) >= 0
    ensures totalCount <= pageSize ==> TotalPages(totalCount, pageSize) <= 1
  {
  }

  /**
   * PagedResponse: the items of one page, the size of the whole collection, the page asked
   * for and the number of pages, and an initially empty list of links.
   */
  class PagedResponse<T> {
    const items: seq<T>
    const totalCount: int
    const pageNumber: int
    const pageSize: int
    const totalPages: int
    const links: LinkList

    constructor(items: seq<T>, totalCount: int, pageNumber: int, pageSize: int)
      ensures this.items == items && this.totalCount == totalCount
      ensures this.pageNumber == pageNumber && this.pageSize == pageSize
      ensures totalPages == TotalPages(totalCount, pageSize)
      ensures fresh(links) && links.items == []
    {
      this.items := items;
      this.totalCount := totalCount;
      this.pageNumber := pageNumber;
      this.pageSize := pageSize;
      totalPages := TotalPages(totalCount, pageSize);
      links := new LinkList();
    }
  }

  /** ResourceResponse: one resource and an initially empty list of links. */
  class ResourceResponse<T> {
    const data: T
    const links: LinkList

    constructor(data: T)
      ensures this.data == data
      ensures fresh(links) && links.items == []
    {
      this.data := data;
      links := new LinkList();
    }
  }
}
