/**
 * The listing queries of the controllers: one page of a table's rows, ordered by primary key,
 * cut out with Skip((pageNumber - 1) * pageSize).Take(pageSize).
 */
module Paging {
  import Responses
  import opened Rows

  /** Skip(count): the rows after the first count; all of them when count is not positive. */
  function Skip<R>(rows: seq<R>, count: int): (rest: seq<R>)
    ensures count <= 0 ==> rest == rows
    ensures 0 <= count <= |rows| ==> rest == rows[count..]
    ensures count >= |rows| ==> rest == []
  {
    if count <= 0 then rows else if count >= |rows| then [] else rows[count..]
  }

  /** Take(count): the first count rows; all of them when there are fewer. */
  function Take<R>(rows: seq<R>, count: int): (first: seq<R>)
    ensures count <= 0 ==> first == []
    ensures 0 <= count <= |rows| ==> first == rows[..count]
    ensures count >= |rows| ==> first == rows
  {
    if count <= 0 then [] else if count >= |rows| then rows else rows[..count]
  }

  /** The rows of page pageNumber (counting from 1) when pages hold pageSize rows. */
  function Page<R>(rows: seq<R>, pageNumber: int, pageSize: int): (page: seq<R>)
    requires pageNumber > 0 && pageSize > 0
    ensures |page| <= pageSize
    ensures var start := (pageNumber - 1) * pageSize;
      && |page| == (if start >= |rows| then 0 else if |rows| - start < pageSize then |rows| - start else pageSize)
      && forall i | 0 <= i < |page| :: page[i] == rows[start + i]
  {
    Take(Skip(rows, (pageNumber - 1) * pageSize), pageSize)
  }

  /**
   * Row i is the (i mod pageSize)-th row of page i / pageSize + 1, and that page is one of the
   * TotalPages pages: every row is on exactly the page its position says.
   */
  lemma RowOnItsPage<R>(rows: seq<R>, pageSize: int, i: int)
    requires pageSize > 0 && 0 <= i < |rows|
    ensures var p := i / pageSize + 1;
      && 1 <= p <= Responses.TotalPages(|rows|, pageSize)
      && i % pageSize < |Page(rows, p, pageSize)|
      && Page(rows, p, pageSize)[i % pageSize] == rows[i]
  {
    var q, r := i / pageSize, i % pageSize;
    var p := q + 1;
    var start := (p - 1) * pageSize;
    assert start + r == i;
    var t := Responses.TotalPages(|rows|, pageSize);
    assert start < t * pageSize;
    LessByMultiple(p - 1, t, pageSize);
    var page := Page(rows, p, pageSize);
    assert r < |page|;
    assert page[r] == rows[start + r];
  }

  lemma LessByMultiple(a: int, b: int, c: int)
    requires c > 0 && a * c < b * c
    ensures a < b
  {
  }

  lemma MultiplyMonotone(a: int, b: int, c: int)
    requires a <= b && c > 0
    ensures a * c <= b * c
  {
  }

  /** A page has rows exactly when its number is at most TotalPages. */
  lemma PageNonEmpty<R>(rows: seq<R>, pageNumber: int, pageSize: int)
    requires pageNumber > 0 && pageSize > 0
    ensures Page(rows, pageNumber, pageSize) != [] <==> pageNumber <= Responses.TotalPages(|rows|, pageSize)
  {
    var t := Responses.TotalPages(|rows|, pageSize);
    if pageNumber <= t {
      MultiplyMonotone(pageNumber - 1, t - 1, pageSize);
    } else {
      MultiplyMonotone(t, pageNumber - 1, pageSize);
    }
  }

  /** Every page before the last is full. */
  lemma PageBeforeLastIsFull<R>(rows: seq<R>, pageNumber: int, pageSize: int)
    requires pageNumber > 0 && pageSize > 0
    requires pageNumber < Responses.TotalPages(|rows|, pageSize)
    ensures |Page(rows, pageNumber, pageSize)| == pageSize
  {
    var t := Responses.TotalPages(|rows|, pageSize);
    MultiplyMonotone(pageNumber, t - 1, pageSize);
  }

  /** A page of rows in key order is itself in key order. */
  lemma PageOrdered<R>(rows: seq<R>, key: R -> int, pageNumber: int, pageSize: int)
    requires pageNumber > 0 && pageSize > 0 && Ordered(rows, key)
    ensures Ordered(Page(rows, pageNumber, pageSize), key)
  {
    var start := (pageNumber - 1) * pageSize;
    var page := Page(rows, pageNumber, pageSize);
    forall a, b | 0 <= a < b < |page|
      ensures key(page[a]) < key(page[b])
    {
      assert page[a] == rows[start + a] && page[b] == rows[start + b];
    }
  }
}
