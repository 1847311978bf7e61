/** The book list and the new-book form. Both work on the version 3 shape of a book: one
    author string, the series as a name and an estimated release date. */
module BookList {
  import opened Common
  import opened Legacy

  /** The books a list view holds; `Insert` is `context.insert`. */
  class Shelf {
    var books: seq<BookV3>

    constructor ()
      ensures books == []
    {
      books := [];
    }

    method Insert(b: BookV3)
      modifies this
      ensures books == old(books) + [b]
    {
      books := books + [b];
    }
  }

  // ------------------------------------------------------------------ new book

  /** The Add button is disabled while the title or the author is empty. */
  predicate AddDisabled(title: string, author: string)
  {
    title == "" || author == ""
  }

  /** `addBook` (NewBookView.swift): builds the book from the form and inserts it. The
      series and its order are set only when a series name was entered, the estimated
      release only when the book is a future release. */
  method AddBook(shelf: Shelf, title: string, author: string, series: string, seriesOrder: int,
                 isFutureRelease: bool, estRelease: Date, now: Date)
    returns (newBook: BookV3)
    modifies shelf
    ensures fresh(newBook) && shelf.books == old(shelf.books) + [newBook]
    ensures newBook.title == title && newBook.author == author && newBook.added == now
    ensures newBook.sortAuthor == SortAuthorOf(author, "Unknown")
    ensures newBook.series == (if series == "" then None else Some(series))
    ensures newBook.seriesOrder == (if series == "" then None else Some(seriesOrder))
    ensures newBook.estRelease == (if isFutureRelease then Some(estRelease) else None)
  {
    newBook := new BookV3(title, None, None, author, now, None);
    if series != "" {
      newBook.series := Some(series);
      newBook.seriesOrder := Some(seriesOrder);
    }
    if isFutureRelease {
      newBook.estRelease := Some(estRelease);
    }
    shelf.Insert(newBook);
  }

  // ----------------------------------------------------------- last in series

  /** The order used when comparing against another book: none counts as 0. */
  function OrderOf(b: BookV3): int
    reads b
  {
    b.seriesOrder.GetOr(0)
  }

  /** `lastInSeries`: a book with a series and an order is last unless some listed book
      of the same series has a greater order; every other book is last. */
  predicate LastInSeries(books: seq<BookV3>, book: BookV3)
    reads books, book
  {
    book.series.None? || book.seriesOrder.None? ||
    !exists i :: 0 <= i < |books| && books[i].series == book.series && book.seriesOrder.value < OrderOf(books[i])
  }

  /** Whether a row is shown: all of them, or only the last of each series while
      the toggle is on. */
  predicate Shown(lastOnly: bool, books: seq<BookV3>, book: BookV3)
    reads books, book
  {
    !lastOnly || LastInSeries(books, book)
  }

  /** A book with a series and an order is last exactly when it has the greatest order,
      with none counted as 0, among the listed books of its series; so books tied at the
      top are all last. */
  lemma LastIsGreatest(books: seq<BookV3>, book: BookV3)
    requires book.series.Some? && book.seriesOrder.Some?
    ensures LastInSeries(books, book) <==>
            forall i :: 0 <= i < |books| && books[i].series == book.series ==> OrderOf(books[i]) <= OrderOf(book)
  {
  }

  /** A listed book of series `s` whose order is greatest among the first `n` listed
      books of that series. */
  lemma {:induction false} GreatestInSeries(books: seq<BookV3>, s: string, n: nat, k: nat) returns (m: nat)
    requires k < n <= |books| && books[k].series == Some(s)
    ensures m < n && books[m].series == Some(s)
    ensures forall i :: 0 <= i < n && books[i].series == Some(s) ==> OrderOf(books[i]) <= OrderOf(books[m])
  {
    if n == k + 1 {
      var before := n - 1;
      if exists i :: 0 <= i < before && books[i].series == Some(s) {
        var j :| 0 <= j < before && books[j].series == Some(s);
        var p := GreatestInSeries(books, s, before, j);
        m := if OrderOf(books[k]) >= OrderOf(books[p]) then k else p;
      } else {
        m := k;
      }
    } else {
      var p := GreatestInSeries(books, s, n - 1, k);
      m := if books[n - 1].series == Some(s) && OrderOf(books[n - 1]) > OrderOf(books[p]) then n - 1 else p;
    }
  }

  /** With the toggle on, every series that has a listed book still shows at least one
      of them. */
  lemma SeriesKeepsARow(books: seq<BookV3>, s: string, k: nat)
    requires k < |books| && books[k].series == Some(s)
    ensures exists i :: 0 <= i < |books| && books[i].series == Some(s) && Shown(true, books, books[i])
  {
    var m := GreatestInSeries(books, s, |books|, k);
    assert LastInSeries(books, books[m]);
  }

  /** Books without a series, or without an order, are always shown. */
  lemma UnorderedShown(lastOnly: bool, books: seq<BookV3>, book: BookV3)
    requires book.series.None? || book.seriesOrder.None?
    ensures Shown(lastOnly, books, book)
  {
  }
}
