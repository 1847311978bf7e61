/** The content of the store (`BookDB.context`) as a value: the books, authors and series
    keyed by persistent id, with the inverse relationships `Book.authors`/`Author.books`
    and `Book.series`/`Series.books` kept in step by every operation, as the store does
    for relationships declared with an inverse and the nullify delete rule. */
module Store {
  import opened Common
  import opened Records

  /** `next` is the id the next inserted record gets. */
  datatype Db = Db(books: map<Id, Book>, authors: map<Id, Author>, series: map<Id, Series>, next: Id)

  function Empty(): (d: Db)
    ensures Linked(d) && Paired(d)
  {
    Db(map[], map[], map[], 0)
  }

  /** Every id in use lies below `next`. */
  ghost predicate Fresh(d: Db)
  {
    forall id :: (id in d.books || id in d.authors || id in d.series) ==> id < d.next
  }

  /** b in a.books <==> a in b.authors, and both ends are stored. */
  ghost predicate AuthorsInverse(d: Db)
  {
    AuthorsListBooks(d) && BooksListAuthors(d)
  }

  /** Every author a book lists is stored and lists the book. */
  ghost predicate AuthorsListBooks(d: Db)
  {
    forall b, a :: b in d.books && a in d.books[b].authors ==> a in d.authors && b in d.authors[a].books
  }

  /** Every book an author lists is stored and lists the author. */
  ghost predicate BooksListAuthors(d: Db)
  {
    forall a, b :: a in d.authors && b in d.authors[a].books ==> b in d.books && a in d.books[b].authors
  }

  /** b in s.books <==> b.series == s, and both ends are stored. */
  ghost predicate SeriesInverse(d: Db)
  {
    (forall b :: b in d.books && d.books[b].series.Some? ==>
       d.books[b].series.value in d.series && b in d.series[d.books[b].series.value].books) &&
    (forall s, b :: s in d.series && b in d.series[s].books ==> b in d.books && d.books[b].series == Some(s))
  }

  /** The store's integrity: ids are fresh and both relationships are symmetric. */
  ghost predicate Linked(d: Db)
  {
    Fresh(d) && AuthorsInverse(d) && SeriesInverse(d)
  }

  /** A book has a series exactly when it has a series order. */
  ghost predicate Paired(d: Db)
  {
    forall b :: b in d.books ==> (d.books[b].series.Some? <==> d.books[b].seriesOrder.Some?)
  }

  // ---------------------------------------------------------------- insertion

  /** `context.insert(Book(title:release:))`. */
  function InsertBook(d: Db, title: string, release: Option<Date>, now: Date): Db
  {
    d.(books := d.books[d.next := NewBook(title, release, now)], next := d.next + 1)
  }

  /** `context.insert(Author(lastName:firstName:))`. */
  function InsertAuthor(d: Db, uuid: Uuid, lastName: string, firstName: string): Db
  {
    d.(authors := d.authors[d.next := NewAuthor(uuid, lastName, firstName)], next := d.next + 1)
  }

  /** `context.insert(Series(name:))`. */
  function InsertSeries(d: Db, name: string): Db
  {
    d.(series := d.series[d.next := NewSeries(name)], next := d.next + 1)
  }

  /** Adding a key a map does not hold adds one entry. */
  lemma AddedKey<V>(m: map<Id, V>, k: Id, v: V)
    requires k !in m
    ensures m[k := v].Keys == m.Keys + {k} && |m[k := v]| == |m| + 1
  {
  }

  /** Each insertion adds exactly one record of its kind, under the id `next`, and
      changes no other record. */
  lemma InsertBookShape(d: Db, title: string, release: Option<Date>, now: Date)
    requires Fresh(d)
    ensures var r := InsertBook(d, title, release, now);
            d.next !in d.books && r.books.Keys == d.books.Keys + {d.next} && |r.books| == |d.books| + 1 &&
            r.books[d.next].title == title && r.authors == d.authors && r.series == d.series
  {
    AddedKey(d.books, d.next, NewBook(title, release, now));
  }

  lemma InsertAuthorShape(d: Db, uuid: Uuid, lastName: string, firstName: string)
    requires Fresh(d)
    ensures var r := InsertAuthor(d, uuid, lastName, firstName);
            d.next !in d.authors && r.authors.Keys == d.authors.Keys + {d.next} && |r.authors| == |d.authors| + 1 &&
            Name(r.authors[d.next]) == firstName + " " + lastName && r.books == d.books && r.series == d.series
  {
    AddedKey(d.authors, d.next, NewAuthor(uuid, lastName, firstName));
  }

  lemma InsertSeriesShape(d: Db, name: string)
    requires Fresh(d)
    ensures var r := InsertSeries(d, name);
            d.next !in d.series && r.series.Keys == d.series.Keys + {d.next} && |r.series| == |d.series| + 1 &&
            r.series[d.next].name == name && r.books == d.books && r.authors == d.authors
  {
    AddedKey(d.series, d.next, NewSeries(name));
  }

  /** Inserting a book keeps the store linked and paired. */
  lemma InsertBookKeeps(d: Db, title: string, release: Option<Date>, now: Date)
    requires Linked(d)
    ensures Linked(InsertBook(d, title, release, now))
    ensures Paired(d) ==> Paired(InsertBook(d, title, release, now))
  {
    var r := InsertBook(d, title, release, now);
    assert BookAddedFrom(d, r);
    BookAddedLinked(d, r);
  }

  /** `r` is `d` with one more book, under the id `d.next`, that has no authors, no
      series and no order. */
  ghost predicate BookAddedFrom(d: Db, r: Db)
  {
    d.next !in d.books && r.next == d.next + 1 && r.authors == d.authors && r.series == d.series &&
    r.books.Keys == d.books.Keys + {d.next} &&
    (forall b :: b in d.books ==> r.books[b] == d.books[b]) &&
    r.books[d.next].authors == [] && r.books[d.next].series.None? && r.books[d.next].seriesOrder.None?
  }

  lemma BookAddedLinked(d: Db, r: Db)
    requires Linked(d) && BookAddedFrom(d, r)
    ensures Linked(r) && (Paired(d) ==> Paired(r))
  {
    BookAddedAuthors(d, r);
    BookAddedSeries(d, r);
  }

  lemma BookAddedAuthors(d: Db, r: Db)
    requires AuthorsInverse(d) && BookAddedFrom(d, r)
    ensures AuthorsInverse(r)
  {
    forall b, a | b in r.books && a in r.books[b].authors
      ensures a in r.authors && b in r.authors[a].books
    {
      assert b != d.next && a in d.books[b].authors;
    }
    forall a, b | a in r.authors && b in r.authors[a].books
      ensures b in r.books && a in r.books[b].authors
    {
      assert b in d.books && b != d.next;
    }
  }

  lemma BookAddedSeries(d: Db, r: Db)
    requires SeriesInverse(d) && BookAddedFrom(d, r)
    ensures SeriesInverse(r)
  {
    forall b | b in r.books && r.books[b].series.Some?
      ensures r.books[b].series.value in r.series && b in r.series[r.books[b].series.value].books
    {
      assert b != d.next;
    }
    forall x, b | x in r.series && b in r.series[x].books
      ensures b in r.books && r.books[b].series == Some(x)
    {
      assert b in d.books && b != d.next;
    }
  }

  /** Inserting an author keeps the store linked and paired. */
  lemma InsertAuthorKeeps(d: Db, uuid: Uuid, lastName: string, firstName: string)
    requires Linked(d)
    ensures Linked(InsertAuthor(d, uuid, lastName, firstName))
    ensures Paired(d) ==> Paired(InsertAuthor(d, uuid, lastName, firstName))
  {
    var r := InsertAuthor(d, uuid, lastName, firstName);
    assert Fresh(r);
    assert AuthorsInverse(r) by {
      forall b, a | b in r.books && a in r.books[b].authors
        ensures a in r.authors && b in r.authors[a].books
      {
        assert a in d.authors && a != d.next && r.authors[a] == d.authors[a];
      }
      forall a, b | a in r.authors && b in r.authors[a].books
        ensures b in r.books && a in r.books[b].authors
      {
        assert a != d.next;
      }
    }
    assert SeriesInverse(r);
    assert Paired(d) ==> Paired(r);
  }

  /** Inserting a series keeps the store linked and paired. */
  lemma InsertSeriesKeeps(d: Db, name: string)
    requires Linked(d)
    ensures Linked(InsertSeries(d, name)) && (Paired(d) ==> Paired(InsertSeries(d, name)))
  {
    var r := InsertSeries(d, name);
    assert Fresh(r);
    assert AuthorsInverse(r);
    assert SeriesInverse(r) by {
      forall s, b | s in r.series && b in r.series[s].books
        ensures b in r.books && r.books[b].series == Some(s)
      {
        assert s != d.next;
      }
    }
    assert Paired(d) ==> Paired(r);
  }

  // ---------------------------------------------------------------- updates

  /** `book.title = title`. */
  function SetTitle(d: Db, b: Id, title: string): Db
  {
    if b in d.books then d.(books := d.books[b := d.books[b].(title := title)]) else d
  }

  /** `book.release = release`. */
  function SetRelease(d: Db, b: Id, release: Option<Date>): Db
  {
    if b in d.books then d.(books := d.books[b := d.books[b].(release := release)]) else d
  }

  /** `book.seriesOrder = order`. */
  function SetOrder(d: Db, b: Id, order: Option<int>): Db
  {
    if b in d.books then d.(books := d.books[b := d.books[b].(seriesOrder := order)]) else d
  }

  /** `author.firstName = firstName; author.lastName = lastName`. */
  function SetAuthorName(d: Db, a: Id, firstName: string, lastName: string): Db
  {
    if a in d.authors then d.(authors := d.authors[a := d.authors[a].(firstName := firstName, lastName := lastName)]) else d
  }

  /** `series.name = name`. */
  function SetSeriesName(d: Db, s: Id, name: string): Db
  {
    if s in d.series then d.(series := d.series[s := d.series[s].(name := name)]) else d
  }

  /** `author.books` after `book.authors` is set: the book is related when the author is
      listed and dropped when not. */
  function Relinked(books: seq<Id>, listed: bool, b: Id): seq<Id>
  {
    if listed then AddIfAbsent(books, b) else Remove(books, b)
  }

  /** `book.authors = ids`, with the inverse `Author.books` kept in step. */
  function SetAuthors(d: Db, b: Id, ids: seq<Id>): Db
    requires forall a :: a in ids ==> a in d.authors
  {
    if b !in d.books then d
    else d.(books := d.books[b := d.books[b].(authors := ids)],
            authors := map a | a in d.authors :: d.authors[a].(books := Relinked(d.authors[a].books, a in ids, b)))
  }

  /** `book.series = s`, with the inverse `Series.books` kept in step. */
  function SetSeries(d: Db, b: Id, s: Option<Id>): Db
    requires s.Some? ==> s.value in d.series
  {
    if b !in d.books then d
    else d.(books := d.books[b := d.books[b].(series := s)],
            series := map x | x in d.series :: d.series[x].(books := Relinked(d.series[x].books, s == Some(x), b)))
  }

  /** `author.books = []`, with the inverse `Book.authors` kept in step. */
  function ClearAuthorBooks(d: Db, a: Id): Db
  {
    if a !in d.authors then d
    else d.(authors := d.authors[a := d.authors[a].(books := [])],
            books := map b | b in d.books :: d.books[b].(authors := Remove(d.books[b].authors, a)))
  }

  /** `book.authors.append(author)`: the author goes at the end of the book's list and
      the book joins the author's `books`. */
  function AppendAuthor(d: Db, b: Id, a: Id): Db
  {
    if b !in d.books || a !in d.authors then d
    else d.(books := d.books[b := d.books[b].(authors := d.books[b].authors + [a])],
            authors := d.authors[a := d.authors[a].(books := AddIfAbsent(d.authors[a].books, b))])
  }

  /** Appending a stored author to a stored book keeps the store linked and paired and
      changes only that book's list and that author's list. */
  lemma AppendAuthorKeeps(d: Db, b: Id, a: Id)
    requires Linked(d) && b in d.books && a in d.authors
    ensures var r := AppendAuthor(d, b, a);
            Linked(r) && (Paired(d) ==> Paired(r)) &&
            r.books.Keys == d.books.Keys && r.authors.Keys == d.authors.Keys && r.series == d.series &&
            r.books[b].authors == d.books[b].authors + [a] && b in r.authors[a].books &&
            (forall x :: x in r.books && x != b ==> r.books[x] == d.books[x])
  {
    AppendListBooks(d, b, a);
    AppendBooksList(d, b, a);
    AppendSeriesPaired(d, b, a);
  }

  lemma AppendSeriesPaired(d: Db, b: Id, a: Id)
    requires Linked(d) && b in d.books && a in d.authors
    ensures var r := AppendAuthor(d, b, a);
            Fresh(r) && SeriesInverse(r) && (Paired(d) ==> Paired(r))
  {
    var r := AppendAuthor(d, b, a);
    assert r.books.Keys == d.books.Keys && r.authors.Keys == d.authors.Keys && r.series == d.series;
    forall x | x in r.books
      ensures r.books[x].series == d.books[x].series && r.books[x].seriesOrder == d.books[x].seriesOrder
    {
    }
  }

  lemma AppendListBooks(d: Db, b: Id, a: Id)
    requires AuthorsListBooks(d) && b in d.books && a in d.authors
    ensures AuthorsListBooks(AppendAuthor(d, b, a))
  {
    var r := AppendAuthor(d, b, a);
    forall b' | b' in r.books
      ensures forall a' :: a' in r.books[b'].authors ==> a' in r.authors && b' in r.authors[a'].books
    {
      forall a' | a' in r.books[b'].authors
        ensures a' in r.authors && b' in r.authors[a'].books
      {
        if a' != a {
          assert a' in d.books[b'].authors;
        }
      }
    }
  }

  lemma AppendBooksList(d: Db, b: Id, a: Id)
    requires BooksListAuthors(d) && b in d.books && a in d.authors
    ensures BooksListAuthors(AppendAuthor(d, b, a))
  {
    var r := AppendAuthor(d, b, a);
    forall a' | a' in r.authors
      ensures forall b' :: b' in r.authors[a'].books ==> b' in r.books && a' in r.books[b'].authors
    {
      forall b' | b' in r.authors[a'].books
        ensures b' in r.books && a' in r.books[b'].authors
      {
        if a' != a || b' != b {
          assert b' in d.authors[a'].books;
        }
      }
    }
  }

  /** Writing a plain field keeps the links and the pairing. */
  lemma SetTitleKeeps(d: Db, b: Id, title: string)
    requires Linked(d)
    ensures Linked(SetTitle(d, b, title)) && (Paired(d) ==> Paired(SetTitle(d, b, title)))
  {
  }

  lemma SetReleaseKeeps(d: Db, b: Id, release: Option<Date>)
    requires Linked(d)
    ensures Linked(SetRelease(d, b, release)) && (Paired(d) ==> Paired(SetRelease(d, b, release)))
  {
  }

  lemma SetAuthorNameKeeps(d: Db, a: Id, firstName: string, lastName: string)
    requires Linked(d)
    ensures Linked(SetAuthorName(d, a, firstName, lastName))
    ensures Paired(d) ==> Paired(SetAuthorName(d, a, firstName, lastName))
  {
  }

  lemma SetSeriesNameKeeps(d: Db, s: Id, name: string)
    requires Linked(d)
    ensures Linked(SetSeriesName(d, s, name)) && (Paired(d) ==> Paired(SetSeriesName(d, s, name)))
  {
  }

  /** Setting the order keeps the links; it keeps the pairing when the order is cleared
      together with the series or set on a book that has one. */
  lemma SetOrderKeeps(d: Db, b: Id, order: Option<int>)
    requires Linked(d)
    ensures Linked(SetOrder(d, b, order))
    ensures Paired(d) && b in d.books && (d.books[b].series.Some? <==> order.Some?) ==> Paired(SetOrder(d, b, order))
  {
    if b in d.books {
      var r := SetOrder(d, b, order);
      assert SameLinks(d, r);
      SameLinksLinked(d, r);
      if Paired(d) && (d.books[b].series.Some? <==> order.Some?) {
        PairedAfterSet(d, r, b);
      }
    }
  }

  /** `r` differs from `d` at most in the books' scalar fields: the records, the ids and
      both relationships are the same. */
  ghost predicate SameLinks(d: Db, r: Db)
  {
    r.authors == d.authors && r.series == d.series && r.next == d.next && r.books.Keys == d.books.Keys &&
    forall x :: x in d.books ==> r.books[x].authors == d.books[x].authors && r.books[x].series == d.books[x].series
  }

  lemma SameLinksLinked(d: Db, r: Db)
    requires Linked(d) && SameLinks(d, r)
    ensures Linked(r)
  {
    SameLinksAuthors(d, r);
    SameLinksSeries(d, r);
  }

  lemma SameLinksAuthors(d: Db, r: Db)
    requires AuthorsInverse(d) && SameLinks(d, r)
    ensures AuthorsInverse(r)
  {
    assert AuthorsListBooks(r);
  }

  lemma SameLinksSeries(d: Db, r: Db)
    requires SeriesInverse(d) && SameLinks(d, r)
    ensures SeriesInverse(r)
  {
  }

  /** After `book.authors = ids` the store is still linked, the book lists exactly `ids`,
      every listed author lists the book, and every other author does not. */
  lemma SetAuthorsKeeps(d: Db, b: Id, ids: seq<Id>)
    requires Linked(d) && b in d.books
    requires forall a :: a in ids ==> a in d.authors
    ensures var r := SetAuthors(d, b, ids);
            Linked(r) && (Paired(d) ==> Paired(r)) &&
            r.books[b].authors == ids && r.series == d.series &&
            r.authors.Keys == d.authors.Keys &&
            (forall a :: a in r.authors ==> (b in r.authors[a].books <==> a in ids))
  {
    var r := SetAuthors(d, b, ids);
    assert AuthorsRelinkedFrom(d, r, b, ids);
    AuthorsRelinkedFresh(d, r, b, ids);
    AuthorsRelinkedListBooks(d, r, b, ids);
    AuthorsRelinkedBooksList(d, r, b, ids);
    AuthorsRelinkedBook(d, r, b, ids);
  }

  /** `r` differs from `d` as `book.authors = ids` leaves it. */
  ghost predicate AuthorsRelinkedFrom(d: Db, r: Db, b: Id, ids: seq<Id>)
  {
    b in d.books && r.next == d.next && r.series == d.series &&
    r.books.Keys == d.books.Keys && r.authors.Keys == d.authors.Keys &&
    r.books[b] == d.books[b].(authors := ids) &&
    (forall x :: x in d.books && x != b ==> r.books[x] == d.books[x]) &&
    (forall a :: a in d.authors ==> r.authors[a] == d.authors[a].(books := Relinked(d.authors[a].books, a in ids, b)))
  }

  lemma AuthorsRelinkedFresh(d: Db, r: Db, b: Id, ids: seq<Id>)
    requires Linked(d) && AuthorsRelinkedFrom(d, r, b, ids)
    ensures Fresh(r) && SeriesInverse(r) && (Paired(d) ==> Paired(r))
  {
    forall x | x in r.books
      ensures r.books[x].series == d.books[x].series && r.books[x].seriesOrder == d.books[x].seriesOrder
    {
      if x != b {
        assert r.books[x] == d.books[x];
      }
    }
  }

  lemma AuthorsRelinkedListBooks(d: Db, r: Db, b: Id, ids: seq<Id>)
    requires Linked(d) && AuthorsRelinkedFrom(d, r, b, ids) && (forall a :: a in ids ==> a in d.authors)
    ensures AuthorsListBooks(r)
  {
    forall y, a | y in r.books && a in r.books[y].authors
      ensures a in r.authors && y in r.authors[a].books
    {
      RelinkedHas(d.authors[a].books, a in ids, b, y);
      if y != b {
        assert a in d.books[y].authors;
      }
    }
  }

  lemma AuthorsRelinkedBooksList(d: Db, r: Db, b: Id, ids: seq<Id>)
    requires BooksListAuthors(d) && AuthorsRelinkedFrom(d, r, b, ids)
    ensures BooksListAuthors(r)
  {
    forall a | a in r.authors
      ensures forall y :: y in r.authors[a].books ==> y in r.books && a in r.books[y].authors
    {
      AuthorRelinkedBooks(d, r, b, ids, a);
    }
  }

  lemma AuthorRelinkedBooks(d: Db, r: Db, b: Id, ids: seq<Id>, a: Id)
    requires BooksListAuthors(d) && AuthorsRelinkedFrom(d, r, b, ids) && a in r.authors
    ensures forall y :: y in r.authors[a].books ==> y in r.books && a in r.books[y].authors
  {
    forall y | y in r.authors[a].books
      ensures y in r.books && a in r.books[y].authors
    {
      AuthorsRelinkedListed(d, r, b, ids, a, y);
    }
  }

  lemma AuthorsRelinkedListed(d: Db, r: Db, b: Id, ids: seq<Id>, a: Id, y: Id)
    requires BooksListAuthors(d) && AuthorsRelinkedFrom(d, r, b, ids)
    requires a in r.authors && y in r.authors[a].books
    ensures y in r.books && a in r.books[y].authors
  {
    assert r.authors[a].books == Relinked(d.authors[a].books, a in ids, b);
    RelinkedHas(d.authors[a].books, a in ids, b, y);
    if y == b {
      assert a in ids && r.books[b].authors == ids;
    } else {
      assert y in d.authors[a].books;
      assert y in d.books && a in d.books[y].authors;
      assert r.books[y] == d.books[y];
    }
  }

  lemma AuthorsRelinkedBook(d: Db, r: Db, b: Id, ids: seq<Id>)
    requires AuthorsRelinkedFrom(d, r, b, ids)
    ensures forall a :: a in r.authors ==> (b in r.authors[a].books <==> a in ids)
  {
    forall a | a in r.authors
      ensures b in r.authors[a].books <==> a in ids
    {
      RelinkedHas(d.authors[a].books, a in ids, b, b);
    }
  }

  /** Who a relinked list holds: the book exactly when it is to be listed, and every other
      id as before. */
  lemma RelinkedHas(books: seq<Id>, listed: bool, b: Id, y: Id)
    ensures y in Relinked(books, listed, b) <==> (y == b && listed) || (y != b && y in books)
  {
  }

  /** `book.series = s` record by record: only that book's series and the series' `books`
      change. */
  lemma SetSeriesShape(d: Db, b: Id, s: Option<Id>)
    requires b in d.books && (s.Some? ==> s.value in d.series)
    ensures var r := SetSeries(d, b, s);
            r.next == d.next && r.authors == d.authors &&
            r.books.Keys == d.books.Keys && r.series.Keys == d.series.Keys &&
            r.books[b] == d.books[b].(series := s) &&
            (forall x :: x in d.books && x != b ==> r.books[x] == d.books[x]) &&
            (forall x :: x in d.series ==> r.series[x] == d.series[x].(books := Relinked(d.series[x].books, s == Some(x), b)))
  {
  }

  /** `r` differs from `d` as `book.series = s` leaves it. */
  ghost predicate RelinkedFrom(d: Db, r: Db, b: Id, s: Option<Id>)
  {
    b in d.books && r.next == d.next && r.authors == d.authors &&
    r.books.Keys == d.books.Keys && r.series.Keys == d.series.Keys &&
    r.books[b] == d.books[b].(series := s) &&
    (forall x :: x in d.books && x != b ==> r.books[x] == d.books[x]) &&
    (forall x :: x in d.series ==> r.series[x] == d.series[x].(books := Relinked(d.series[x].books, s == Some(x), b)))
  }

  lemma RelinkedAuthors(d: Db, r: Db, b: Id, s: Option<Id>)
    requires Linked(d) && RelinkedFrom(d, r, b, s)
    ensures Fresh(r) && AuthorsInverse(r)
  {
    forall y | y in d.books
      ensures r.books[y].authors == d.books[y].authors
    {
    }
    AuthorListsKept(d, r);
  }

  /** A store whose authors and whose books' author lists are those of `d` keeps the
      author inverse of `d`. */
  lemma AuthorListsKept(d: Db, r: Db)
    requires AuthorsInverse(d) && r.authors == d.authors && r.books.Keys == d.books.Keys
    requires forall y :: y in d.books ==> r.books[y].authors == d.books[y].authors
    ensures AuthorsInverse(r)
  {
    assert AuthorsListBooks(r);
  }

  lemma RelinkedListed(d: Db, r: Db, b: Id, s: Option<Id>)
    requires SeriesInverse(d) && RelinkedFrom(d, r, b, s) && (s.Some? ==> s.value in d.series)
    ensures forall y :: y in r.books && r.books[y].series.Some? ==>
              r.books[y].series.value in r.series && y in r.series[r.books[y].series.value].books
  {
    forall y | y in r.books && r.books[y].series.Some?
      ensures r.books[y].series.value in r.series && y in r.series[r.books[y].series.value].books
    {
      if y != b {
        assert d.books[y].series == r.books[y].series;
      }
    }
  }

  lemma RelinkedMembers(d: Db, r: Db, b: Id, s: Option<Id>)
    requires SeriesInverse(d) && RelinkedFrom(d, r, b, s)
    ensures forall x, y :: x in r.series && y in r.series[x].books ==> y in r.books && r.books[y].series == Some(x)
  {
    forall x, y | x in r.series && y in r.series[x].books
      ensures y in r.books && r.books[y].series == Some(x)
    {
      RelinkedMember(d, r, b, s, x, y);
    }
  }

  lemma RelinkedBook(d: Db, r: Db, b: Id, s: Option<Id>)
    requires RelinkedFrom(d, r, b, s)
    ensures forall x :: x in r.series ==> (b in r.series[x].books <==> s == Some(x))
  {
    forall x | x in r.series
      ensures b in r.series[x].books <==> s == Some(x)
    {
      assert r.series[x].books == Relinked(d.series[x].books, s == Some(x), b);
    }
  }

  lemma RelinkedMember(d: Db, r: Db, b: Id, s: Option<Id>, x: Id, y: Id)
    requires SeriesInverse(d) && RelinkedFrom(d, r, b, s)
    requires x in r.series && y in r.series[x].books
    ensures y in r.books && r.books[y].series == Some(x)
  {
    assert r.series[x].books == Relinked(d.series[x].books, s == Some(x), b);
    if y != b {
      assert y in d.series[x].books;
      assert d.books[y].series == Some(x);
    }
  }

  /** After `book.series = s` the store is still linked, and the book is in exactly the
      `books` of `s`. */
  lemma SetSeriesKeeps(d: Db, b: Id, s: Option<Id>)
    requires Linked(d) && b in d.books
    requires s.Some? ==> s.value in d.series
    ensures var r := SetSeries(d, b, s);
            Linked(r) && r.books[b].series == s && r.authors == d.authors &&
            r.series.Keys == d.series.Keys &&
            (forall x :: x in r.series ==> (b in r.series[x].books <==> s == Some(x)))
  {
    SetSeriesShape(d, b, s);
    var r := SetSeries(d, b, s);
    RelinkedAuthors(d, r, b, s);
    RelinkedListed(d, r, b, s);
    RelinkedMembers(d, r, b, s);
    RelinkedBook(d, r, b, s);
  }

  /** `update(book:series:order:)` with both set or both cleared keeps the pairing. */
  lemma SetSeriesAndOrderPaired(d: Db, b: Id, s: Option<Id>, order: Option<int>)
    requires Linked(d) && Paired(d) && b in d.books
    requires s.Some? ==> s.value in d.series
    requires s.Some? <==> order.Some?
    ensures Linked(SetOrder(SetSeries(d, b, s), b, order)) && Paired(SetOrder(SetSeries(d, b, s), b, order))
  {
    SetSeriesKeeps(d, b, s);
    SetSeriesShape(d, b, s);
    var r := SetSeries(d, b, s);
    SetOrderKeeps(r, b, order);
    SeriesAndOrderPaired(d, r, b, s, order);
  }

  /** Setting a book's order next to the series it was just given keeps the store paired. */
  lemma SeriesAndOrderPaired(d: Db, r: Db, b: Id, s: Option<Id>, order: Option<int>)
    requires Paired(d) && b in d.books && (s.Some? <==> order.Some?)
    requires r.books.Keys == d.books.Keys && r.books[b].series == s
    requires forall x :: x in d.books && x != b ==> r.books[x] == d.books[x]
    ensures Paired(SetOrder(r, b, order))
  {
    PairedAfterSet(d, SetOrder(r, b, order), b);
  }

  /** A store that differs from a paired one only in book `b`, which is paired itself, is
      paired. */
  lemma PairedAfterSet(d: Db, q: Db, b: Id)
    requires Paired(d) && q.books.Keys == d.books.Keys
    requires forall x :: x in d.books && x != b ==> q.books[x].series == d.books[x].series && q.books[x].seriesOrder == d.books[x].seriesOrder
    requires b in q.books ==> (q.books[b].series.Some? <==> q.books[b].seriesOrder.Some?)
    ensures Paired(q)
  {
  }

  /** After `author.books = []` the store is still linked and no book lists the author. */
  lemma ClearAuthorBooksKeeps(d: Db, a: Id)
    requires Linked(d)
    ensures var r := ClearAuthorBooks(d, a);
            Linked(r) && (Paired(d) ==> Paired(r)) && r.series == d.series &&
            r.books.Keys == d.books.Keys && r.authors.Keys == d.authors.Keys &&
            (forall b :: b in r.books ==> a !in r.books[b].authors)
  {
    if a in d.authors {
      var r := ClearAuthorBooks(d, a);
      ClearAuthorBooksShape(d, a);
      ClearedListBooks(d, r, a);
      ClearedBooksList(d, r, a);
      ClearedSeries(d, r, a);
    } else {
      assert ClearAuthorBooks(d, a) == d;
    }
  }

  lemma ClearedSeries(d: Db, r: Db, a: Id)
    requires Fresh(d) && SeriesInverse(d) && ClearedFrom(d, r, a)
    ensures Fresh(r) && SeriesInverse(r) && (Paired(d) ==> Paired(r))
  {
    assert forall b :: b in r.books ==> r.books[b].series == d.books[b].series && r.books[b].seriesOrder == d.books[b].seriesOrder;
  }

  /** `author.books = []` record by record. */
  lemma ClearAuthorBooksShape(d: Db, a: Id)
    requires a in d.authors
    ensures ClearedFrom(d, ClearAuthorBooks(d, a), a)
  {
  }

  /** `r` differs from `d` as `author.books = []` leaves it. */
  ghost predicate ClearedFrom(d: Db, r: Db, a: Id)
  {
    a in d.authors && r.next == d.next && r.series == d.series &&
    r.books.Keys == d.books.Keys && r.authors.Keys == d.authors.Keys &&
    r.authors[a] == d.authors[a].(books := []) &&
    (forall x :: x in d.authors && x != a ==> r.authors[x] == d.authors[x]) &&
    (forall b :: b in d.books ==> r.books[b] == d.books[b].(authors := Remove(d.books[b].authors, a)))
  }

  lemma ClearedListBooks(d: Db, r: Db, a: Id)
    requires AuthorsListBooks(d) && ClearedFrom(d, r, a)
    ensures AuthorsListBooks(r) && forall b :: b in r.books ==> a !in r.books[b].authors
  {
    forall b | b in r.books
      ensures a !in r.books[b].authors
      ensures forall x :: x in r.books[b].authors ==> x in r.authors && b in r.authors[x].books
    {
      ClearedBook(d, r, a, b);
    }
  }

  /** Book `b` after `author.books = []`: it no longer lists `a`, and every author it
      still lists lists it back. */
  lemma ClearedBook(d: Db, r: Db, a: Id, b: Id)
    requires AuthorsListBooks(d) && ClearedFrom(d, r, a) && b in r.books
    ensures a !in r.books[b].authors
    ensures forall x :: x in r.books[b].authors ==> x in r.authors && b in r.authors[x].books
  {
    assert r.books[b].authors == Remove(d.books[b].authors, a);
    forall x | x in r.books[b].authors
      ensures x in r.authors && b in r.authors[x].books
    {
      assert x in d.books[b].authors && x != a;
      assert r.authors[x] == d.authors[x];
    }
  }

  lemma ClearedBooksList(d: Db, r: Db, a: Id)
    requires BooksListAuthors(d) && ClearedFrom(d, r, a)
    ensures BooksListAuthors(r)
  {
    forall x, b | x in r.authors && b in r.authors[x].books
      ensures b in r.books && x in r.books[b].authors
    {
      assert x != a && r.authors[x] == d.authors[x];
      assert b in d.authors[x].books && x in d.books[b].authors;
      assert r.books[b].authors == Remove(d.books[b].authors, a);
    }
  }

  // ---------------------------------------------------------------- deletion

  /** `delete(element: book)`: the book goes, and the nullify rule drops it from its
      authors' and its series' `books`. */
  function DeleteBook(d: Db, b: Id): Db
  {
    d.(books := d.books - {b},
       authors := map a | a in d.authors :: d.authors[a].(books := Remove(d.authors[a].books, b)),
       series := map s | s in d.series :: d.series[s].(books := Remove(d.series[s].books, b)))
  }

  /** `delete(element: author)`: the author goes and no book lists it any more. */
  function DeleteAuthor(d: Db, a: Id): Db
  {
    d.(authors := d.authors - {a},
       books := map b | b in d.books :: d.books[b].(authors := Remove(d.books[b].authors, a)))
  }

  /** `delete(element: series)`: the series goes and its books lose it; the nullify rule
      does not touch `seriesOrder`. */
  function DeleteSeries(d: Db, s: Id): Db
  {
    d.(series := d.series - {s},
       books := map b | b in d.books :: if d.books[b].series == Some(s) then d.books[b].(series := None) else d.books[b])
  }

  /** Deleting a book removes exactly that book, deletes no related record and changes no
      other book. */
  lemma DeleteBookShape(d: Db, id: Id)
    ensures var r := DeleteBook(d, id);
            r.books.Keys == d.books.Keys - {id} &&
            r.authors.Keys == d.authors.Keys && r.series.Keys == d.series.Keys &&
            (forall b :: b in r.books ==> r.books[b] == d.books[b])
  {
  }

  /** Deleting a book keeps `Book.authors`/`Author.books` symmetric, one direction
      at a time. */
  lemma DeleteBookAuthorsOf(d: Db, id: Id)
    requires AuthorsInverse(d)
    ensures AuthorsListBooks(DeleteBook(d, id))
  {
    var r := DeleteBook(d, id);
    forall b, a | b in r.books && a in r.books[b].authors
      ensures a in r.authors && b in r.authors[a].books
    {
      assert b in d.books && b != id && r.books[b] == d.books[b];
      assert a in d.authors && b in d.authors[a].books;
    }
  }

  lemma DeleteBookBooksOf(d: Db, id: Id)
    requires AuthorsInverse(d)
    ensures BooksListAuthors(DeleteBook(d, id))
  {
    var r := DeleteBook(d, id);
    forall a, b | a in r.authors && b in r.authors[a].books
      ensures b in r.books && a in r.books[b].authors
    {
      assert b in d.authors[a].books && b != id;
    }
  }

  lemma DeleteBookAuthors(d: Db, id: Id)
    requires AuthorsInverse(d)
    ensures AuthorsInverse(DeleteBook(d, id))
  {
    DeleteBookAuthorsOf(d, id);
    DeleteBookBooksOf(d, id);
  }

  /** Deleting a book keeps `Book.series`/`Series.books` symmetric. */
  lemma DeleteBookSeries(d: Db, id: Id)
    requires SeriesInverse(d)
    ensures SeriesInverse(DeleteBook(d, id))
  {
    var r := DeleteBook(d, id);
    forall b | b in r.books && r.books[b].series.Some?
      ensures r.books[b].series.value in r.series && b in r.series[r.books[b].series.value].books
    {
      assert r.books[b] == d.books[b];
    }
    forall x, b | x in r.series && b in r.series[x].books
      ensures b in r.books && r.books[b].series == Some(x)
    {
      assert b in d.series[x].books && b != id;
    }
  }

  /** Deleting a book keeps the store linked and paired; the book is gone from every
      author's and every series' `books`. */
  lemma DeleteBookKeeps(d: Db, id: Id)
    requires Linked(d)
    ensures Linked(DeleteBook(d, id)) && (Paired(d) ==> Paired(DeleteBook(d, id)))
    ensures forall a :: a in DeleteBook(d, id).authors ==> id !in DeleteBook(d, id).authors[a].books
    ensures forall s :: s in DeleteBook(d, id).series ==> id !in DeleteBook(d, id).series[s].books
  {
    DeleteBookShape(d, id);
    DeleteBookAuthors(d, id);
    DeleteBookSeries(d, id);
  }

  /** Deleting an author removes exactly that author and changes only the author lists of
      the books. */
  lemma DeleteAuthorShape(d: Db, id: Id)
    ensures var r := DeleteAuthor(d, id);
            r.authors.Keys == d.authors.Keys - {id} && r.books.Keys == d.books.Keys && r.series == d.series &&
            (forall a :: a in r.authors ==> r.authors[a] == d.authors[a]) &&
            (forall b :: b in r.books ==> r.books[b] == d.books[b].(authors := Remove(d.books[b].authors, id)))
  {
  }

  /** What deleting author `id` leaves: `r` is `d` without the author, and with the
      author dropped from every book's list. */
  ghost predicate AuthorDeletedFrom(d: Db, r: Db, id: Id)
  {
    r.authors.Keys == d.authors.Keys - {id} && r.books.Keys == d.books.Keys &&
    (forall a :: a in r.authors ==> r.authors[a] == d.authors[a]) &&
    (forall b :: b in r.books ==> r.books[b] == d.books[b].(authors := Remove(d.books[b].authors, id)))
  }

  /** After deleting an author, every author a book lists is stored and lists the book. */
  lemma DeleteAuthorListBooks(d: Db, r: Db, id: Id)
    requires AuthorsListBooks(d) && AuthorDeletedFrom(d, r, id)
    ensures AuthorsListBooks(r)
  {
    forall b, a | b in r.books && a in r.books[b].authors
      ensures a in r.authors && b in r.authors[a].books
    {
      assert r.books[b].authors == Remove(d.books[b].authors, id);
      assert a in d.books[b].authors && a != id;
    }
  }

  /** After deleting an author, every book an author lists is stored and lists it. */
  lemma DeleteAuthorBooksList(d: Db, r: Db, id: Id)
    requires BooksListAuthors(d) && AuthorDeletedFrom(d, r, id)
    ensures BooksListAuthors(r)
  {
    forall a, b | a in r.authors && b in r.authors[a].books
      ensures b in r.books && a in r.books[b].authors
    {
      assert a in d.authors && a != id && r.authors[a] == d.authors[a];
      assert b in d.books && a in d.books[b].authors;
    }
  }

  /** Deleting an author removes exactly that author and keeps the store linked and
      paired. */
  lemma DeleteAuthorKeeps(d: Db, id: Id)
    requires Linked(d)
    ensures var r := DeleteAuthor(d, id);
            Linked(r) && (Paired(d) ==> Paired(r)) && r.authors.Keys == d.authors.Keys - {id} &&
            r.books.Keys == d.books.Keys && r.series == d.series &&
            (forall a :: a in r.authors ==> r.authors[a] == d.authors[a])
  {
    var r := DeleteAuthor(d, id);
    DeleteAuthorShape(d, id);
    assert AuthorDeletedFrom(d, r, id);
    DeleteAuthorListBooks(d, r, id);
    DeleteAuthorBooksList(d, r, id);
    assert SeriesInverse(r) by {
      forall b | b in r.books
        ensures r.books[b].series == d.books[b].series
      {
      }
    }
    assert Paired(d) ==> Paired(r) by {
      forall b | b in r.books
        ensures r.books[b].seriesOrder == d.books[b].seriesOrder
      {
      }
    }
  }

  /** Deleting a series removes exactly that series and keeps the store linked. */
  lemma DeleteSeriesKeeps(d: Db, id: Id)
    requires Linked(d)
    ensures var r := DeleteSeries(d, id);
            Linked(r) && r.series.Keys == d.series.Keys - {id} &&
            r.books.Keys == d.books.Keys && r.authors == d.authors &&
            (forall s :: s in r.series ==> r.series[s] == d.series[s])
  {
    var r := DeleteSeries(d, id);
    assert SeriesDeletedFrom(d, r, id);
    SeriesDeletedAuthors(d, r, id);
    SeriesDeletedListed(d, r, id);
    SeriesDeletedMembers(d, r, id);
  }

  /** `r` is `d` without series `id`, its members' `series` set to nil. */
  ghost predicate SeriesDeletedFrom(d: Db, r: Db, id: Id)
  {
    r.next == d.next && r.authors == d.authors &&
    r.series.Keys == d.series.Keys - {id} && r.books.Keys == d.books.Keys &&
    (forall s :: s in r.series ==> r.series[s] == d.series[s]) &&
    (forall b :: b in r.books ==> r.books[b] == if d.books[b].series == Some(id) then d.books[b].(series := None) else d.books[b])
  }

  lemma SeriesDeletedAuthors(d: Db, r: Db, id: Id)
    requires Linked(d) && SeriesDeletedFrom(d, r, id)
    ensures Fresh(r) && AuthorsInverse(r)
  {
    assert forall b :: b in r.books ==> r.books[b].authors == d.books[b].authors;
  }

  lemma SeriesDeletedListed(d: Db, r: Db, id: Id)
    requires SeriesInverse(d) && SeriesDeletedFrom(d, r, id)
    ensures forall b :: b in r.books && r.books[b].series.Some? ==>
              r.books[b].series.value in r.series && b in r.series[r.books[b].series.value].books
  {
    forall b | b in r.books && r.books[b].series.Some?
      ensures r.books[b].series.value in r.series && b in r.series[r.books[b].series.value].books
    {
      assert r.books[b] == d.books[b];
    }
  }

  lemma SeriesDeletedMembers(d: Db, r: Db, id: Id)
    requires SeriesInverse(d) && SeriesDeletedFrom(d, r, id)
    ensures forall s, b :: s in r.series && b in r.series[s].books ==> b in r.books && r.books[b].series == Some(s)
  {
    forall s, b | s in r.series && b in r.series[s].books
      ensures b in r.books && r.books[b].series == Some(s)
    {
      assert b in d.series[s].books && d.books[b].series == Some(s);
    }
  }

  /** Deleting a series through the store alone breaks the pairing of its books: each keeps
      its order without a series. */
  lemma DeleteSeriesUnpairs(d: Db, s: Id, b: Id)
    requires Linked(d) && b in d.books && d.books[b].series == Some(s) && d.books[b].seriesOrder.Some?
    ensures !Paired(DeleteSeries(d, s))
  {
    assert DeleteSeries(d, s).books[b].series.None?;
  }
}
