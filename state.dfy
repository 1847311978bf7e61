/** `BookState` (Read/Model/State.swift): the books, authors and series the views show,
    each as the store last listed them, the store itself and the last error. */
module State {
  import opened Common
  import opened Records
  import opened Store
  import opened Order
  import opened Repository

  /** The lists hold ids in the order `read` returned them. `bookDB` is shared by every
      copy of the state. */
  datatype BookState = BookState(books: seq<Id>, authors: seq<Id>, series: seq<Id>,
                                 bookDB: BookDB, lastError: Option<string>)

  /** `-MEMORY` on the command line, or a preview, keeps the store in memory. */
  function InMemoryFlag(forPreview: bool, memoryArg: bool): bool
  {
    forPreview || memoryArg
  }

  /** `-TESTDATA` on the command line, or the caller, asks for the test records. */
  function TestDataFlag(addTestData: bool, testDataArg: bool): bool
  {
    addTestData || testDataArg
  }

  /** `sortedBooks()`: the books by title. */
  method SortedBooks(st: BookState, fault: Option<string>) returns (r: Result<seq<Id>>)
    ensures fault.Some? ==> r == Err(fault.value)
    ensures fault.None? ==> r.Ok? && Lists(r.value, SortKeys(st.bookDB.context, BookKind))
  {
    r := st.bookDB.Read(BookKind, fault);
  }

  /** `sortedAuthors()`: the authors by last name, then first name. */
  method SortedAuthors(st: BookState, fault: Option<string>) returns (r: Result<seq<Id>>)
    ensures fault.Some? ==> r == Err(fault.value)
    ensures fault.None? ==> r.Ok? && Lists(r.value, SortKeys(st.bookDB.context, AuthorKind))
  {
    r := st.bookDB.Read(AuthorKind, fault);
  }

  /** `sortedSeries()`: the series by name. */
  method SortedSeries(st: BookState, fault: Option<string>) returns (r: Result<seq<Id>>)
    ensures fault.Some? ==> r == Err(fault.value)
    ensures fault.None? ==> r.Ok? && Lists(r.value, SortKeys(st.bookDB.context, SeriesKind))
  {
    r := st.bookDB.Read(SeriesKind, fault);
  }

  /** A list `init` fills: what the read returned, or empty when it threw. */
  ghost predicate Loaded(l: seq<Id>, fault: Option<string>, keys: map<Id, seq<string>>)
  {
    if fault.Some? then l == [] else Lists(l, keys)
  }

  /** `init(forPreview:addTestData:)`. The command-line switches are the inputs
      `memoryArg` and `testDataArg`; `faults` are the errors the three reads throw. */
  method Init(forPreview: bool, addTestData: bool, memoryArg: bool, testDataArg: bool,
              now: Date, tomorrow: Date, uuids: (Uuid, Uuid, Uuid, Uuid),
              faults: (Option<string>, Option<string>, Option<string>)) returns (st: BookState)
    ensures fresh(st.bookDB)
    ensures st.bookDB.inMemory == InMemoryFlag(forPreview, memoryArg)
    ensures st.bookDB.context == if TestDataFlag(addTestData, testDataArg) then Seeded(now, tomorrow, uuids) else Empty()
    ensures Loaded(st.books, faults.0, SortKeys(st.bookDB.context, BookKind))
    ensures Loaded(st.authors, faults.1, SortKeys(st.bookDB.context, AuthorKind))
    ensures Loaded(st.series, faults.2, SortKeys(st.bookDB.context, SeriesKind))
    ensures st.lastError.None?
  {
    var inMemoryFlag := forPreview;
    if memoryArg {
      inMemoryFlag := true;
    }
    var testDataFlag := addTestData;
    if testDataArg {
      testDataFlag := true;
    }
    var db := new BookDB(inMemoryFlag, testDataFlag, now, tomorrow, uuids);
    st := LoadLists(db, faults);
  }

  /** The three reads `init` ends with; a read that throws leaves its list empty. */
  method LoadLists(db: BookDB, faults: (Option<string>, Option<string>, Option<string>)) returns (st: BookState)
    ensures st.bookDB == db && st.lastError.None?
    ensures Loaded(st.books, faults.0, SortKeys(db.context, BookKind))
    ensures Loaded(st.authors, faults.1, SortKeys(db.context, AuthorKind))
    ensures Loaded(st.series, faults.2, SortKeys(db.context, SeriesKind))
  {
    st := BookState([], [], [], db, None);
    var books := SortedBooks(st, faults.0);
    var authors := SortedAuthors(st, faults.1);
    var series := SortedSeries(st, faults.2);
    st := st.(books := if books.Ok? then books.value else [],
              authors := if authors.Ok? then authors.value else [],
              series := if series.Ok? then series.value else []);
  }

  /** With test data the state lists four books, four authors and one series, whether
      or not it is a preview. */
  lemma TestDataCounts(books: seq<Id>, authors: seq<Id>, series: seq<Id>,
                       now: Date, tomorrow: Date, uuids: (Uuid, Uuid, Uuid, Uuid))
    requires var d := Seeded(now, tomorrow, uuids);
             Lists(books, SortKeys(d, BookKind)) && Lists(authors, SortKeys(d, AuthorKind)) &&
             Lists(series, SortKeys(d, SeriesKind))
    ensures |books| == 4 && |authors| == 4 && |series| == 1
  {
    var d := Seeded(now, tomorrow, uuids);
    SeededShape(now, tomorrow, uuids);
    DistinctCard(books, SortKeys(d, BookKind));
    DistinctCard(authors, SortKeys(d, AuthorKind));
    DistinctCard(series, SortKeys(d, SeriesKind));
  }

  /** With test data a stored book belongs to the listed series and a stored author
      lists that book. */
  lemma TestDataLinks(series: seq<Id>, now: Date, tomorrow: Date, uuids: (Uuid, Uuid, Uuid, Uuid))
    requires Lists(series, SortKeys(Seeded(now, tomorrow, uuids), SeriesKind))
    ensures var d := Seeded(now, tomorrow, uuids);
            series != [] &&
            exists b, a :: b in d.books && a in d.authors && d.books[b].series == Some(series[0]) && b in d.authors[a].books
  {
    var d := Seeded(now, tomorrow, uuids);
    SeededShape(now, tomorrow, uuids);
    assert d.authors[7].books == [2, 3];
    OneSeriesLinks(d, series);
  }

  /** In a store with the one series 8, holding book 2, which author 7 lists, the first
      listed series is 8 and has that book and that author. */
  lemma OneSeriesLinks(d: Db, series: seq<Id>)
    requires d.series.Keys == {8} && 2 in d.books && 7 in d.authors
    requires d.books[2].series == Some(8) && 2 in d.authors[7].books
    requires Lists(series, SortKeys(d, SeriesKind))
    ensures series != [] &&
            exists b, a :: b in d.books && a in d.authors && d.books[b].series == Some(series[0]) && b in d.authors[a].books
  {
    assert 8 in SortKeys(d, SeriesKind);
    assert series[0] in SortKeys(d, SeriesKind);
  }
}
