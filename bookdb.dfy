/** `BookDB` (Read/Model/BookDB.swift): the one place that writes the store. Every write is
    followed by a save that may throw; a thrown save does not undo the write, because the
    write already happened in the context. `fault` stands for the error the save, fetch or
    delete throws, if any. */
module Repository {
  import opened Common
  import opened Records
  import opened Store
  import opened Order

  /** An author handed to `update(book:authors:)`: one the store holds, or a new
      `Author(lastName:firstName:)` the relationship inserts. */
  datatype AuthorRef = Stored(id: Id) | Unstored(uuid: Uuid, lastName: string, firstName: string)

  /** A series handed to `update(book:series:order:)`: stored, or a new `Series(name:)`. */
  datatype SeriesRef = StoredSeries(id: Id) | UnstoredSeries(name: string)

  /** Every stored reference names a stored author. */
  predicate RefsStored(d: Db, refs: seq<AuthorRef>)
  {
    forall r :: r in refs && r.Stored? ==> r.id in d.authors
  }

  predicate SeriesRefStored(d: Db, s: Option<SeriesRef>)
  {
    s.Some? && s.value.StoredSeries? ==> s.value.id in d.series
  }

  /** The store after relating the authors, and their ids in order: a stored author keeps
      its id, a new one is inserted under the next id. */
  function Resolve(d: Db, refs: seq<AuthorRef>): (r: (Db, seq<Id>))
    requires RefsStored(d, refs)
    ensures |r.1| == |refs| && d.authors.Keys <= r.0.authors.Keys
    ensures r.0.books == d.books && r.0.series == d.series
    ensures forall id :: id in r.1 ==> id in r.0.authors
    decreases |refs|
  {
    if refs == [] then (d, [])
    else
      var p := Resolve(d, refs[..|refs| - 1]);
      match refs[|refs| - 1]
      case Stored(id) => (p.0, p.1 + [id])
      case Unstored(u, l, f) => (InsertAuthor(p.0, u, l, f), p.1 + [p.0.next])
  }

  /** Relating the authors keeps the links and the pairing, and touches no book or
      series. */
  lemma {:induction false} ResolveKeeps(d: Db, refs: seq<AuthorRef>)
    requires Linked(d) && RefsStored(d, refs)
    ensures var r := Resolve(d, refs);
            Linked(r.0) && (Paired(d) ==> Paired(r.0)) && r.0.books == d.books && r.0.series == d.series
  {
    if refs != [] {
      var q := refs[..|refs| - 1];
      ResolveKeeps(d, q);
      var p := Resolve(d, q);
      if refs[|refs| - 1].Unstored? {
        var x := refs[|refs| - 1];
        InsertAuthorKeeps(p.0, x.uuid, x.lastName, x.firstName);
      }
    }
  }

  /** Relating the authors keeps every stored author and only adds authors under fresh
      ids. */
  lemma {:induction false} ResolveGrows(d: Db, refs: seq<AuthorRef>)
    requires Fresh(d) && RefsStored(d, refs)
    ensures var r := Resolve(d, refs);
            Fresh(r.0) && d.next <= r.0.next &&
            (forall a :: a in d.authors ==> r.0.authors[a] == d.authors[a])
  {
    if refs != [] {
      var q := refs[..|refs| - 1];
      ResolveGrows(d, q);
      var p := Resolve(d, q);
      if refs[|refs| - 1].Unstored? {
        var x := refs[|refs| - 1];
        InsertAuthorShape(p.0, x.uuid, x.lastName, x.firstName);
      }
    }
  }

  /** A stored reference keeps its own id; a new author gets a fresh id holding its
      names. */
  lemma {:induction false} ResolveAt(d: Db, refs: seq<AuthorRef>, i: nat)
    requires Fresh(d) && RefsStored(d, refs) && i < |refs|
    ensures var r := Resolve(d, refs);
            (refs[i].Stored? ==> r.1[i] == refs[i].id) &&
            (refs[i].Unstored? ==> d.next <= r.1[i] && r.0.authors[r.1[i]].lastName == refs[i].lastName &&
                                   r.0.authors[r.1[i]].firstName == refs[i].firstName)
  {
    var n := |refs| - 1;
    var q := refs[..n];
    ResolveGrows(d, q);
    var p := Resolve(d, q);
    var r := Resolve(d, refs);
    if i < n {
      ResolveAt(d, q, i);
      assert refs[i] == q[i] && r.1[i] == p.1[i];
      if refs[n].Unstored? && refs[i].Unstored? {
        assert p.1[i] in p.0.authors;
      }
    }
  }

  /** `ResolveAt` for every position. */
  lemma ResolveIds(d: Db, refs: seq<AuthorRef>)
    requires Fresh(d) && RefsStored(d, refs)
    ensures var r := Resolve(d, refs);
            (forall i :: 0 <= i < |refs| && refs[i].Stored? ==> r.1[i] == refs[i].id) &&
            (forall i :: 0 <= i < |refs| && refs[i].Unstored? ==>
               d.next <= r.1[i] && r.0.authors[r.1[i]].lastName == refs[i].lastName &&
               r.0.authors[r.1[i]].firstName == refs[i].firstName)
  {
    forall i | 0 <= i < |refs|
      ensures var r := Resolve(d, refs);
              (refs[i].Stored? ==> r.1[i] == refs[i].id) &&
              (refs[i].Unstored? ==> d.next <= r.1[i] && r.0.authors[r.1[i]].lastName == refs[i].lastName &&
                                     r.0.authors[r.1[i]].firstName == refs[i].firstName)
    {
      ResolveAt(d, refs, i);
    }
  }

  /** The store after relating the series, and its id. */
  function ResolveSeries(d: Db, s: Option<SeriesRef>): (r: (Db, Option<Id>))
    requires SeriesRefStored(d, s)
    ensures r.1.Some? <==> s.Some?
    ensures r.1.Some? ==> r.1.value in r.0.series
    ensures r.0.books == d.books && r.0.authors == d.authors
  {
    match s
    case None => (d, None)
    case Some(StoredSeries(id)) => (d, Some(id))
    case Some(UnstoredSeries(name)) => (InsertSeries(d, name), Some(d.next))
  }

  /** The three kinds of record `read` can fetch. */
  datatype Kind = BookKind | AuthorKind | SeriesKind

  /** The sort keys `BookState` passes to `read` (Read/Model/State.swift): the title for
      books, the last then the first name for authors, the name for series. */
  function SortKeys(d: Db, k: Kind): (m: map<Id, seq<string>>)
    ensures k == BookKind ==> m.Keys == d.books.Keys
    ensures k == AuthorKind ==> m.Keys == d.authors.Keys
    ensures k == SeriesKind ==> m.Keys == d.series.Keys
  {
    match k
    case BookKind => map b | b in d.books :: [d.books[b].title]
    case AuthorKind => map a | a in d.authors :: [d.authors[a].lastName, d.authors[a].firstName]
    case SeriesKind => map s | s in d.series :: [d.series[s].name]
  }

  // -------------------------------------------------------------------- seeding

  /** The titles and release dates of the four test books; the second is released
      `tomorrow`. */
  function TestBooks(tomorrow: Date): seq<(string, Option<Date>)>
  {
    [("A Standalone Book", None), ("Future Release", Some(tomorrow)),
     ("First book of a series", None), ("Second book of a series", None)]
  }

  /** The store after inserting the books in order. */
  function InsertBooks(d: Db, specs: seq<(string, Option<Date>)>, now: Date): (r: Db)
    ensures r.next == d.next + |specs|
    decreases |specs|
  {
    if specs == [] then d
    else var last := specs[|specs| - 1];
         InsertBook(InsertBooks(d, specs[..|specs| - 1], now), last.0, last.1, now)
  }

  /** The store after `addTestAuthors`: four authors, the first on book 0, the second and
      third on book 1, the fourth on books 2 and 3. */
  function SeedAuthors(d: Db, books: seq<Id>, uuids: (Uuid, Uuid, Uuid, Uuid)): Db
    requires |books| == 4
  {
    SeedLinks(SeedAuthorsInserted(d, uuids), books[0], books[1], books[2], books[3], d.next)
  }

  /** The five links of `addTestAuthors`, with `a` the first of the four new authors. */
  function SeedLinks(d: Db, b0: Id, b1: Id, b2: Id, b3: Id, a: Id): Db
  {
    AppendAuthor(AppendAuthor(AppendAuthor(AppendAuthor(AppendAuthor(d,
      b0, a), b1, a + 1), b1, a + 2), b2, a + 3), b3, a + 3)
  }

  /** The store after `addTestSeries`: books 2 and 3 in "Test Series" as numbers 1 and 2. */
  function SeedSeries(d: Db, books: seq<Id>): Db
    requires |books| == 4
  {
    var s := d.next;
    var d1 := InsertSeries(d, "Test Series");
    SetOrder(SetSeries(SetOrder(SetSeries(d1, books[2], Some(s)), books[2], Some(1)), books[3], Some(s)), books[3], Some(2))
  }

  /** The store `BookDB(addTestData: true)` starts with. */
  function Seeded(now: Date, tomorrow: Date, uuids: (Uuid, Uuid, Uuid, Uuid)): Db
  {
    SeedSeries(SeedAuthors(InsertBooks(Empty(), TestBooks(tomorrow), now), [0, 1, 2, 3], uuids), [0, 1, 2, 3])
  }

  /** Inserting books in order keeps the links and the pairing, and touches no author
      or series. */
  lemma {:induction false} InsertBooksKeeps(d: Db, specs: seq<(string, Option<Date>)>, now: Date)
    requires Linked(d)
    ensures var r := InsertBooks(d, specs, now);
            Linked(r) && (Paired(d) ==> Paired(r)) && r.authors == d.authors && r.series == d.series
  {
    if specs != [] {
      var last := specs[|specs| - 1];
      InsertBooksKeeps(d, specs[..|specs| - 1], now);
      InsertBookKeeps(InsertBooks(d, specs[..|specs| - 1], now), last.0, last.1, now);
    }
  }

  /** The i-th inserted book gets id `next + i` and holds the i-th title and release,
      with no authors and no series. */
  lemma {:induction false} InsertBooksShape(d: Db, specs: seq<(string, Option<Date>)>, now: Date)
    requires Fresh(d)
    ensures var r := InsertBooks(d, specs, now);
            Fresh(r) && r.authors == d.authors && r.series == d.series &&
            (forall b :: b in r.books <==> b in d.books || d.next <= b < d.next + |specs|) &&
            (forall b :: b in d.books ==> r.books[b] == d.books[b]) &&
            (forall i :: 0 <= i < |specs| ==> r.books[d.next + i] == NewBook(specs[i].0, specs[i].1, now))
  {
    if specs != [] {
      var q := specs[..|specs| - 1];
      InsertBooksShape(d, q, now);
      var p := InsertBooks(d, q, now);
      var last := specs[|specs| - 1];
      var r := InsertBook(p, last.0, last.1, now);
      assert r.books == p.books[p.next := NewBook(last.0, last.1, now)];
      assert p.next == d.next + |q| && p.next !in p.books;
      forall i | 0 <= i < |specs|
        ensures r.books[d.next + i] == NewBook(specs[i].0, specs[i].1, now)
      {
        if i < |q| {
          assert specs[i] == q[i];
        }
      }
    }
  }

  /** The test books: ids 0 to 3, linked to nothing. */
  lemma SeedBooksFacts(now: Date, tomorrow: Date)
    ensures var d := InsertBooks(Empty(), TestBooks(tomorrow), now);
            d.next == 4 && d.books.Keys == {0, 1, 2, 3} && d.authors == map[] && d.series == map[] &&
            d.books[0].title == "A Standalone Book" && d.books[1].release == Some(tomorrow) &&
            (forall b :: b in d.books ==> Unlinked(d.books[b]) && d.books[b].seriesOrder.None?)
  {
    var specs := TestBooks(tomorrow);
    InsertBooksShape(Empty(), specs, now);
    var d := InsertBooks(Empty(), specs, now);
    assert d.books[0] == NewBook(specs[0].0, specs[0].1, now);
    assert d.books[1] == NewBook(specs[1].0, specs[1].1, now);
    assert d.books[2] == NewBook(specs[2].0, specs[2].1, now);
    assert d.books[3] == NewBook(specs[3].0, specs[3].1, now);
  }

  /** The four authors `addTestAuthors` creates, before they are related. */
  function SeedAuthorsInserted(d0: Db, uuids: (Uuid, Uuid, Uuid, Uuid)): Db
  {
    InsertAuthor(InsertAuthor(InsertAuthor(InsertAuthor(d0, uuids.0, "Jones", "Davey"),
      uuids.1, "Doe", "John"), uuids.2, "Roe", "Mary"), uuids.3, "McDonald", "Ronald")
  }

  lemma SeedAuthorsInsertedShape(d0: Db, uuids: (Uuid, Uuid, Uuid, Uuid))
    requires d0.next == 4 && d0.authors == map[]
    ensures var d := SeedAuthorsInserted(d0, uuids);
            d.next == 8 && d.books == d0.books && d.series == d0.series && d.authors.Keys == {4, 5, 6, 7} &&
            d.authors[7].lastName == "McDonald" && d.authors[7].firstName == "Ronald" && d.authors[7].books == []
  {
  }

  /** What `addTestAuthors` leaves in each record. */
  lemma SeedAuthorsShape(d0: Db, uuids: (Uuid, Uuid, Uuid, Uuid))
    requires d0.next == 4 && d0.books.Keys == {0, 1, 2, 3} && d0.authors == map[] && d0.series == map[]
    requires forall b :: b in d0.books ==> Unlinked(d0.books[b]) && d0.books[b].seriesOrder.None?
    ensures var d := SeedAuthors(d0, [0, 1, 2, 3], uuids);
            d.next == 8 && d.books.Keys == {0, 1, 2, 3} && d.authors.Keys == {4, 5, 6, 7} && d.series == map[] &&
            d.books[0].authors == [4] && d.books[1].authors == [5, 6] &&
            d.books[2].authors == [7] && d.books[3].authors == [7] &&
            d.authors[7].lastName == "McDonald" && d.authors[7].firstName == "Ronald" &&
            d.authors[7].books == [2, 3] &&
            (forall b :: b in d.books ==> d.books[b].series.None? && d.books[b].seriesOrder.None?)
  {
    SeedAuthorsInsertedShape(d0, uuids);
    var d1 := SeedAuthorsInserted(d0, uuids);
    assert forall x :: x in d1.books ==> d1.books[x].authors == [] && NoSeries(d1.books[x]);
    var e3 := AppendAuthor(AppendAuthor(AppendAuthor(d1, 0, 4), 1, 5), 1, 6);
    SeedFirstBooks(d1);
    SeedLastBooks(e3);
    assert SeedAuthors(d0, [0, 1, 2, 3], uuids) == AppendAuthor(AppendAuthor(e3, 2, 7), 3, 7);
  }

  /** The first three appends of `addTestAuthors`: books 0 and 1 get their authors. */
  lemma SeedFirstBooks(d1: Db)
    requires d1.books.Keys == {0, 1, 2, 3} && d1.authors.Keys == {4, 5, 6, 7}
    requires forall x :: x in d1.books ==> d1.books[x].authors == [] && NoSeries(d1.books[x])
    ensures var e3 := AppendAuthor(AppendAuthor(AppendAuthor(d1, 0, 4), 1, 5), 1, 6);
            e3.next == d1.next && e3.series == d1.series &&
            e3.books.Keys == {0, 1, 2, 3} && e3.authors.Keys == {4, 5, 6, 7} &&
            e3.books[0].authors == [4] && e3.books[1].authors == [5, 6] &&
            e3.books[2].authors == [] && e3.books[3].authors == [] && e3.authors[7] == d1.authors[7] &&
            forall x :: x in e3.books ==> NoSeries(e3.books[x])
  {
    AppendAuthorStep(d1, 0, 4);
    SeedSecondBook(AppendAuthor(d1, 0, 4));
  }

  /** The second and third appends of `addTestAuthors`: book 1 gets two authors. */
  lemma SeedSecondBook(e1: Db)
    requires e1.books.Keys == {0, 1, 2, 3} && e1.authors.Keys == {4, 5, 6, 7}
    requires e1.books[1].authors == [] && forall x :: x in e1.books ==> NoSeries(e1.books[x])
    ensures var e3 := AppendAuthor(AppendAuthor(e1, 1, 5), 1, 6);
            e3.next == e1.next && e3.series == e1.series &&
            e3.books.Keys == {0, 1, 2, 3} && e3.authors.Keys == {4, 5, 6, 7} &&
            e3.books[1].authors == [5, 6] && e3.authors[7] == e1.authors[7] &&
            (forall x :: x in e1.books && x != 1 ==> e3.books[x].authors == e1.books[x].authors) &&
            forall x :: x in e3.books ==> NoSeries(e3.books[x])
  {
    AppendAuthorStep(e1, 1, 5);
    AppendAuthorStep(AppendAuthor(e1, 1, 5), 1, 6);
  }

  /** The last two appends of `addTestAuthors`: books 2 and 3 share author 7. */
  lemma SeedLastBooks(e3: Db)
    requires e3.books.Keys == {0, 1, 2, 3} && e3.authors.Keys == {4, 5, 6, 7}
    requires e3.books[2].authors == [] && e3.books[3].authors == [] && e3.authors[7].books == []
    requires forall x :: x in e3.books ==> NoSeries(e3.books[x])
    ensures var e5 := AppendAuthor(AppendAuthor(e3, 2, 7), 3, 7);
            e5.next == e3.next && e5.series == e3.series &&
            e5.books.Keys == {0, 1, 2, 3} && e5.authors.Keys == {4, 5, 6, 7} &&
            e5.books[0].authors == e3.books[0].authors && e5.books[1].authors == e3.books[1].authors &&
            e5.books[2].authors == [7] && e5.books[3].authors == [7] &&
            e5.authors[7] == e3.authors[7].(books := [2, 3]) &&
            forall x :: x in e5.books ==> NoSeries(e5.books[x])
  {
    assert AddIfAbsent([], 2) == [2] && AddIfAbsent([2], 3) == [2, 3];
    var e4 := AppendAuthor(e3, 2, 7);
    AppendAuthorStep(e3, 2, 7);
    assert e4.authors[7] == e3.authors[7].(books := [2]);
    AppendAuthorStep(e4, 3, 7);
  }

  /** `AppendAuthorAt`, and no book gains a series or an order. */
  lemma AppendAuthorStep(d: Db, b: Id, a: Id)
    requires b in d.books && a in d.authors
    ensures var r := AppendAuthor(d, b, a);
            r.next == d.next && r.series == d.series &&
            r.books.Keys == d.books.Keys && r.authors.Keys == d.authors.Keys &&
            r.books[b].authors == d.books[b].authors + [a] &&
            (forall x :: x in d.books && x != b ==> r.books[x].authors == d.books[x].authors) &&
            r.authors[a].books == AddIfAbsent(d.authors[a].books, b) &&
            (forall y :: y in d.authors && y != a ==> r.authors[y] == d.authors[y]) &&
            ((forall x :: x in d.books ==> NoSeries(d.books[x])) ==> forall x :: x in r.books ==> NoSeries(r.books[x]))
  {
    AppendAuthorAt(d, b, a);
  }

  /** A book outside every series and without an order. */
  predicate NoSeries(b: Book)
  {
    b.series.None? && b.seriesOrder.None?
  }

  /** One `book.authors.append(author)` of a stored author to a stored book, record by
      record. */
  lemma AppendAuthorAt(d: Db, b: Id, a: Id)
    requires b in d.books && a in d.authors
    ensures var r := AppendAuthor(d, b, a);
            r.next == d.next && r.series == d.series &&
            r.books.Keys == d.books.Keys && r.authors.Keys == d.authors.Keys &&
            r.books[b] == d.books[b].(authors := d.books[b].authors + [a]) &&
            (forall x :: x in d.books && x != b ==> r.books[x] == d.books[x]) &&
            r.authors[a] == d.authors[a].(books := AddIfAbsent(d.authors[a].books, b)) &&
            (forall y :: y in d.authors && y != a ==> r.authors[y] == d.authors[y])
  {
  }

  /** `addTestAuthors` keeps the store linked and paired. */
  lemma SeedAuthorsLinked(d0: Db, uuids: (Uuid, Uuid, Uuid, Uuid))
    requires Linked(d0) && Paired(d0) && d0.next == 4 && d0.books.Keys == {0, 1, 2, 3}
    ensures Linked(SeedAuthors(d0, [0, 1, 2, 3], uuids)) && Paired(SeedAuthors(d0, [0, 1, 2, 3], uuids))
  {
    var d1 := InsertAuthor(d0, uuids.0, "Jones", "Davey");
    InsertAuthorKeeps(d0, uuids.0, "Jones", "Davey");
    var d2 := InsertAuthor(d1, uuids.1, "Doe", "John");
    InsertAuthorKeeps(d1, uuids.1, "Doe", "John");
    var d3 := InsertAuthor(d2, uuids.2, "Roe", "Mary");
    InsertAuthorKeeps(d2, uuids.2, "Roe", "Mary");
    var d4 := InsertAuthor(d3, uuids.3, "McDonald", "Ronald");
    InsertAuthorKeeps(d3, uuids.3, "McDonald", "Ronald");
    assert 4 in d4.authors && 5 in d4.authors && 6 in d4.authors && 7 in d4.authors;
    assert d4.books.Keys == {0, 1, 2, 3};
    var e1 := AppendAuthor(d4, 0, 4);
    AppendAuthorKeeps(d4, 0, 4);
    var e2 := AppendAuthor(e1, 1, 5);
    AppendAuthorKeeps(e1, 1, 5);
    var e3 := AppendAuthor(e2, 1, 6);
    AppendAuthorKeeps(e2, 1, 6);
    var e4 := AppendAuthor(e3, 2, 7);
    AppendAuthorKeeps(e3, 2, 7);
    AppendAuthorKeeps(e4, 3, 7);
  }

  /** What `addTestSeries` leaves in each record. */
  lemma SeedSeriesShape(d0: Db)
    requires d0.next == 8 && d0.books.Keys == {0, 1, 2, 3} && d0.series == map[]
    ensures var d := SeedSeries(d0, [0, 1, 2, 3]);
            d.books.Keys == {0, 1, 2, 3} && d.authors == d0.authors && d.series.Keys == {8} &&
            d.series[8].name == "Test Series" && d.series[8].books == [2, 3] &&
            d.books[2].series == Some(8) && d.books[2].seriesOrder == Some(1) &&
            d.books[3].series == Some(8) && d.books[3].seriesOrder == Some(2) &&
            d.books[0] == d0.books[0] && d.books[1] == d0.books[1] &&
            d.books[2].authors == d0.books[2].authors && d.books[3].authors == d0.books[3].authors
  {
    var d1 := InsertSeries(d0, "Test Series");
    var d2 := SetSeries(d1, 2, Some(8));
    assert d2.series[8].books == [2];
    var d3 := SetOrder(d2, 2, Some(1));
    var d4 := SetSeries(d3, 3, Some(8));
    assert d4.series[8].books == [2, 3];
  }

  /** `addTestSeries` keeps the store linked and paired. */
  lemma SeedSeriesLinked(d0: Db)
    requires Linked(d0) && Paired(d0) && d0.next == 8 && d0.books.Keys == {0, 1, 2, 3}
    ensures Linked(SeedSeries(d0, [0, 1, 2, 3])) && Paired(SeedSeries(d0, [0, 1, 2, 3]))
  {
    var d1 := InsertSeries(d0, "Test Series");
    InsertSeriesKeeps(d0, "Test Series");
    SetSeriesAndOrderPaired(d1, 2, Some(8), Some(1));
    var d3 := SetOrder(SetSeries(d1, 2, Some(8)), 2, Some(1));
    SetSeriesAndOrderPaired(d3, 3, Some(8), Some(2));
  }

  /** The seeded store is linked and paired. */
  lemma SeededLinked(now: Date, tomorrow: Date, uuids: (Uuid, Uuid, Uuid, Uuid))
    ensures Linked(Seeded(now, tomorrow, uuids)) && Paired(Seeded(now, tomorrow, uuids))
  {
    SeedBooksFacts(now, tomorrow);
    var d0 := InsertBooks(Empty(), TestBooks(tomorrow), now);
    InsertBooksKeeps(Empty(), TestBooks(tomorrow), now);
    SeedAuthorsShape(d0, uuids);
    SeedAuthorsLinked(d0, uuids);
    SeedSeriesLinked(SeedAuthors(d0, [0, 1, 2, 3], uuids));
  }

  /** The seeded store (Read/Model/BookDB.swift `addTest*`): four books, four authors and
      one series; book 1 has two authors; books 2 and 3 share McDonald and are numbers 1
      and 2 of "Test Series". */
  lemma SeededShape(now: Date, tomorrow: Date, uuids: (Uuid, Uuid, Uuid, Uuid))
    ensures var d := Seeded(now, tomorrow, uuids);
            d.books.Keys == {0, 1, 2, 3} && d.authors.Keys == {4, 5, 6, 7} && d.series.Keys == {8} &&
            |d.books| == 4 && |d.authors| == 4 && |d.series| == 1 &&
            d.books[1].authors == [5, 6] && d.books[2].authors == [7] && d.books[3].authors == [7] &&
            d.authors[7].lastName == "McDonald" && d.authors[7].books == [2, 3] &&
            d.series[8].name == "Test Series" && d.series[8].books == [2, 3] &&
            d.books[2].series == Some(8) && d.books[2].seriesOrder == Some(1) &&
            d.books[3].series == Some(8) && d.books[3].seriesOrder == Some(2) &&
            d.books[0].series.None? && d.books[1].series.None?
  {
    SeedBooksFacts(now, tomorrow);
    var d0 := InsertBooks(Empty(), TestBooks(tomorrow), now);
    SeedAuthorsShape(d0, uuids);
    var d1 := SeedAuthors(d0, [0, 1, 2, 3], uuids);
    SeedSeriesShape(d1);
    SeededCombine(d1, Seeded(now, tomorrow, uuids));
  }

  /** The shape of the seeded store, from the shapes after `addTestAuthors` (`d1`) and
      after `addTestSeries` (`d`). */
  lemma SeededCombine(d1: Db, d: Db)
    requires d1.books.Keys == {0, 1, 2, 3} && d1.authors.Keys == {4, 5, 6, 7} &&
             d1.books[1].authors == [5, 6] && d1.books[2].authors == [7] && d1.books[3].authors == [7] &&
             d1.authors[7].lastName == "McDonald" && d1.authors[7].books == [2, 3] &&
             (forall b :: b in d1.books ==> d1.books[b].series.None?)
    requires d.books.Keys == {0, 1, 2, 3} && d.authors == d1.authors && d.series.Keys == {8} &&
             d.series[8].name == "Test Series" && d.series[8].books == [2, 3] &&
             d.books[2].series == Some(8) && d.books[2].seriesOrder == Some(1) &&
             d.books[3].series == Some(8) && d.books[3].seriesOrder == Some(2) &&
             d.books[0] == d1.books[0] && d.books[1] == d1.books[1] &&
             d.books[2].authors == d1.books[2].authors && d.books[3].authors == d1.books[3].authors
    ensures d.books.Keys == {0, 1, 2, 3} && d.authors.Keys == {4, 5, 6, 7} && d.series.Keys == {8} &&
            |d.books| == 4 && |d.authors| == 4 && |d.series| == 1 &&
            d.books[1].authors == [5, 6] && d.books[2].authors == [7] && d.books[3].authors == [7] &&
            d.authors[7].lastName == "McDonald" && d.authors[7].books == [2, 3] &&
            d.series[8].name == "Test Series" && d.series[8].books == [2, 3] &&
            d.books[2].series == Some(8) && d.books[2].seriesOrder == Some(1) &&
            d.books[3].series == Some(8) && d.books[3].seriesOrder == Some(2) &&
            d.books[0].series.None? && d.books[1].series.None?
  {
    FourIds();
    assert d.books[0] == d1.books[0];
  }

  lemma FourIds()
    ensures var low: set<Id> := {0, 1, 2, 3}; var high: set<Id> := {4, 5, 6, 7}; |low| == 4 && |high| == 4
  {
    CardFour({0, 1, 2, 3}, 0);
    CardFour({4, 5, 6, 7}, 4);
  }

  lemma CardFour(s: set<Id>, n: Id)
    requires s == {n, n + 1, n + 2, n + 3}
    ensures |s| == 4
  {
    assert s == {n} + {n + 1} + {n + 2} + {n + 3};
  }

  class BookDB {
    /** `context`: the records, as the store holds them. */
    var context: Db

    /** `ModelConfiguration(isStoredInMemoryOnly:)`. */
    const inMemory: bool

    /** `init(inMemory:addTestData:)`. Whether the store lives in memory or on disk does
        not change what it holds. */
    constructor (inMemory: bool, addTestData: bool, now: Date, tomorrow: Date, uuids: (Uuid, Uuid, Uuid, Uuid))
      ensures context == if addTestData then Seeded(now, tomorrow, uuids) else Empty()
      ensures this.inMemory == inMemory
    {
      context := Empty();
      this.inMemory := inMemory;
      new;
      if addTestData {
        var books := AddTestBooks(now, tomorrow);
        ghost var d1 := context;
        assert books == [0, 1, 2, 3];
        AddTestAuthors(books, uuids);
        ghost var d2 := context;
        assert d2 == SeedAuthors(d1, [0, 1, 2, 3], uuids);
        AddTestSeries(books);
        assert context == SeedSeries(d2, [0, 1, 2, 3]);
      }
    }

    /** `addTestBooks`: inserts the four test books in order and returns their ids. */
    method AddTestBooks(now: Date, tomorrow: Date) returns (books: seq<Id>)
      modifies this
      ensures context == InsertBooks(old(context), TestBooks(tomorrow), now)
      ensures books == [old(context).next, old(context).next + 1, old(context).next + 2, old(context).next + 3]
    {
      var specs := TestBooks(tomorrow);
      books := [];
      var i := 0;
      while i < |specs|
        invariant 0 <= i <= |specs|
        invariant context == InsertBooks(old(context), specs[..i], now)
        invariant books == seq(i, k => old(context).next + k)
      {
        assert specs[..i + 1][..i] == specs[..i];
        books := books + [context.next];
        context := InsertBook(context, specs[i].0, specs[i].1, now);
        i := i + 1;
      }
      assert specs[..|specs|] == specs;
    }

    /** `addTestAuthors`. */
    method AddTestAuthors(books: seq<Id>, uuids: (Uuid, Uuid, Uuid, Uuid))
      requires |books| == 4
      modifies this
      ensures context == SeedAuthors(old(context), books, uuids)
    {
      var a := context.next;
      InsertTestAuthors(uuids);
      LinkTestAuthors(books[0], books[1], books[2], books[3], a);
    }

    /** The four `insert` calls of `addTestAuthors`. */
    method InsertTestAuthors(uuids: (Uuid, Uuid, Uuid, Uuid))
      modifies this
      ensures context == SeedAuthorsInserted(old(context), uuids)
    {
      var d := context;
      d := InsertAuthor(d, uuids.0, "Jones", "Davey");
      d := InsertAuthor(d, uuids.1, "Doe", "John");
      d := InsertAuthor(d, uuids.2, "Roe", "Mary");
      d := InsertAuthor(d, uuids.3, "McDonald", "Ronald");
      context := d;
    }

    /** The five `books.append` calls of `addTestAuthors`, `a` being the first new author. */
    method LinkTestAuthors(b0: Id, b1: Id, b2: Id, b3: Id, a: Id)
      modifies this
      ensures context == SeedLinks(old(context), b0, b1, b2, b3, a)
    {
      var d := context;
      d := AppendAuthor(d, b0, a);
      d := AppendAuthor(d, b1, a + 1);
      d := AppendAuthor(d, b1, a + 2);
      d := AppendAuthor(d, b2, a + 3);
      d := AppendAuthor(d, b3, a + 3);
      context := d;
    }

    /** `addTestSeries`. */
    method AddTestSeries(books: seq<Id>)
      requires |books| == 4
      modifies this
      ensures context == SeedSeries(old(context), books)
    {
      var s := context.next;
      context := InsertSeries(context, "Test Series");
      context := SetSeries(context, books[2], Some(s));
      context := SetOrder(context, books[2], Some(1));
      context := SetSeries(context, books[3], Some(s));
      context := SetOrder(context, books[3], Some(2));
    }

    // ------------------------------------------------------------------- create

    /** `create(item: Book(title:release:))`: inserts, then saves. */
    method CreateBook(title: string, release: Option<Date>, now: Date, fault: Option<string>) returns (id: Id, err: Option<string>)
      modifies this
      ensures context == InsertBook(old(context), title, release, now) && id == old(context).next
      ensures err == fault
    {
      id := context.next;
      context := InsertBook(context, title, release, now);
      err := fault;
    }

    /** `create(item: Author(lastName:firstName:))`. */
    method CreateAuthor(uuid: Uuid, lastName: string, firstName: string, fault: Option<string>) returns (id: Id, err: Option<string>)
      modifies this
      ensures context == InsertAuthor(old(context), uuid, lastName, firstName) && id == old(context).next
      ensures err == fault
    {
      id := context.next;
      context := InsertAuthor(context, uuid, lastName, firstName);
      err := fault;
    }

    /** `create(item: Series(name:))`. */
    method CreateSeries(name: string, fault: Option<string>) returns (id: Id, err: Option<string>)
      modifies this
      ensures context == InsertSeries(old(context), name) && id == old(context).next
      ensures err == fault
    {
      id := context.next;
      context := InsertSeries(context, name);
      err := fault;
    }

    // --------------------------------------------------------------------- read

    /** `read(sortBy:)`: every record of the kind once, ascending by its sort keys, or the
        fetch error. */
    method Read(k: Kind, fault: Option<string>) returns (r: Result<seq<Id>>)
      ensures fault.Some? ==> r == Err(fault.value)
      ensures fault.None? ==> r.Ok? && Lists(r.value, SortKeys(context, k))
    {
      if fault.Some? {
        return Err(fault.value);
      }
      var ids := SortIds(SortKeys(context, k));
      r := Ok(ids);
    }

    // ------------------------------------------------------------------- update

    /** `update(book:title:)`. */
    method UpdateTitle(b: Id, title: string, fault: Option<string>) returns (err: Option<string>)
      modifies this
      ensures context == SetTitle(old(context), b, title) && err == fault
    {
      context := SetTitle(context, b, title);
      err := fault;
    }

    /** `update(book:authors:)`: relates the authors in order, inserting new ones, then
        makes them the book's authors. */
    method UpdateAuthors(b: Id, refs: seq<AuthorRef>, fault: Option<string>) returns (err: Option<string>)
      requires RefsStored(context, refs)
      modifies this
      ensures var p := Resolve(old(context), refs);
              context == SetAuthors(p.0, b, p.1) && err == fault
    {
      var ids: seq<Id> := [];
      var i := 0;
      while i < |refs|
        invariant 0 <= i <= |refs|
        invariant RefsStored(old(context), refs[..i])
        invariant (context, ids) == Resolve(old(context), refs[..i])
      {
        assert refs[..i + 1][..i] == refs[..i];
        match refs[i] {
          case Stored(id) =>
            ids := ids + [id];
          case Unstored(u, l, f) =>
            ids := ids + [context.next];
            context := InsertAuthor(context, u, l, f);
        }
        i := i + 1;
      }
      assert refs[..|refs|] == refs;
      context := SetAuthors(context, b, ids);
      err := fault;
    }

    /** `update(book:series:order:)`: relates the series, inserting a new one, and sets
        both fields. */
    method UpdateSeries(b: Id, s: Option<SeriesRef>, order: Option<int>, fault: Option<string>) returns (err: Option<string>)
      requires SeriesRefStored(context, s)
      modifies this
      ensures var p := ResolveSeries(old(context), s);
              context == SetOrder(SetSeries(p.0, b, p.1), b, order) && err == fault
    {
      var sid: Option<Id> := None;
      if s.Some? {
        match s.value
        case StoredSeries(id) =>
          sid := Some(id);
        case UnstoredSeries(name) =>
          sid := Some(context.next);
          context := InsertSeries(context, name);
      }
      context := SetSeries(context, b, sid);
      context := SetOrder(context, b, order);
      err := fault;
    }

    /** `update(book:order:)`. */
    method UpdateOrder(b: Id, order: Option<int>, fault: Option<string>) returns (err: Option<string>)
      modifies this
      ensures context == SetOrder(old(context), b, order) && err == fault
    {
      context := SetOrder(context, b, order);
      err := fault;
    }

    /** `update(author:firstName:lastName:)`. */
    method UpdateAuthorName(a: Id, firstName: string, lastName: string, fault: Option<string>) returns (err: Option<string>)
      modifies this
      ensures context == SetAuthorName(old(context), a, firstName, lastName) && err == fault
    {
      context := SetAuthorName(context, a, firstName, lastName);
      err := fault;
    }

    /** `update(series:name:)`. */
    method UpdateSeriesName(s: Id, name: string, fault: Option<string>) returns (err: Option<string>)
      modifies this
      ensures context == SetSeriesName(old(context), s, name) && err == fault
    {
      context := SetSeriesName(context, s, name);
      err := fault;
    }

    // ------------------------------------------------------------------- delete

    /** `delete(element: book)`: a delete that throws removes nothing. */
    method DeleteBook(b: Id, fault: Option<string>) returns (err: Option<string>)
      modifies this
      ensures context == (if fault.None? then Store.DeleteBook(old(context), b) else old(context))
      ensures err == fault
    {
      if fault.None? {
        context := Store.DeleteBook(context, b);
      }
      err := fault;
    }

    /** `delete(element: author)`. */
    method DeleteAuthor(a: Id, fault: Option<string>) returns (err: Option<string>)
      modifies this
      ensures context == (if fault.None? then Store.DeleteAuthor(old(context), a) else old(context))
      ensures err == fault
    {
      if fault.None? {
        context := Store.DeleteAuthor(context, a);
      }
      err := fault;
    }

    /** `delete(element: series)`. */
    method DeleteSeries(s: Id, fault: Option<string>) returns (err: Option<string>)
      modifies this
      ensures context == (if fault.None? then Store.DeleteSeries(old(context), s) else old(context))
      ensures err == fault
    {
      if fault.None? {
        context := Store.DeleteSeries(context, s);
      }
      err := fault;
    }
  }
}
