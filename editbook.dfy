/** The book editor (EditBookView.swift): the form is filled from a stored book when it
    appears, and `updateBook` writes the release date and the series back. */
module EditBook {
  import opened Common
  import opened Records
  import opened Store
  import opened Repository
  import opened Reducer
  import opened ReducerFacts
  import opened Forms

  /** The values of the form's fields. */
  datatype Form = Form(release: Date, title: string, selectedAuthors: seq<Author>,
                       seriesName: string, seriesOrder: int, isFutureRelease: bool)

  /** `book.series?.name`. */
  function SeriesNameOf(d: Db, b: Id): (r: Option<string>)
    requires b in d.books
    ensures r.Some? <==> d.books[b].series.Some? && d.books[b].series.value in d.series
  {
    match d.books[b].series
    case None => None
    case Some(s) => if s in d.series then Some(d.series[s].name) else None
  }

  /** `book.authors ?? []`, as records. */
  function AuthorsOf(d: Db, ids: seq<Id>): (r: seq<Author>)
    ensures |r| <= |ids|
    ensures (forall a :: a in ids ==> a in d.authors) ==> |r| == |ids| && forall i :: 0 <= i < |ids| ==> r[i] == d.authors[ids[i]]
  {
    if ids == [] then []
    else (if ids[0] in d.authors then [d.authors[ids[0]]] else []) + AuthorsOf(d, ids[1..])
  }

  /** `onAppear`: the form shows the book's release (or `now` when it has none), its
      title, authors and series name. The series order is not read from the book: it
      keeps its initial value 0. */
  function Opened(d: Db, b: Id, now: Date): (f: Form)
    requires b in d.books
    ensures f.isFutureRelease <==> d.books[b].release.Some?
    ensures f.release == d.books[b].release.GetOr(now)
    ensures f.title == d.books[b].title && f.seriesName == SeriesNameOf(d, b).GetOr("")
    ensures f.seriesOrder == 0
  {
    var book := d.books[b];
    Form(book.release.GetOr(now), book.title, AuthorsOf(d, book.authors),
         SeriesNameOf(d, b).GetOr(""), 0, book.release.Some?)
  }

  /** `onAppear` as evidently intended: the order field also starts at the book's order,
      0 when it has none. */
  function OpenedIntended(d: Db, b: Id, now: Date): (f: Form)
    requires b in d.books
    ensures f == Opened(d, b, now).(seriesOrder := d.books[b].seriesOrder.GetOr(0))
  {
    var o := Opened(d, b, now);
    o.(seriesOrder := d.books[b].seriesOrder.GetOr(0))
  }

  /** `aSeries.books?.append(book)`: a to-many list holds each record once. */
  function AppendSeriesBook(d: Db, x: Id, b: Id): Db
  {
    if x in d.series then d.(series := d.series[x := d.series[x].(books := AddIfAbsent(d.series[x].books, b))]) else d
  }

  /** `updateSeries`: takes the first series of the query with exactly that name, or
      inserts a new one, then sets the book's series and order and appends the book to
      the series' books. */
  function WithSeries(d: Db, b: Id, query: seq<Id>, name: string, order: int): Db
  {
    var p := ResolveSeries(d, Some(GetSeries(d, query, name)));
    var x := p.1.value;
    AppendSeriesBook(SetOrder(SetSeries(p.0, b, Some(x)), b, Some(order)), x, b)
  }

  /** `updateBook`: the release is set from the toggle; then an empty series name clears
      a series whose name differs, a new or changed name goes through `updateSeries`, and
      an unchanged name with a new order writes only the order. The title and the authors
      are not written. */
  function Edited(d: Db, b: Id, query: seq<Id>, f: Form): Db
    requires b in d.books
  {
    var d1 := SetRelease(d, b, if f.isFutureRelease then Some(f.release) else None);
    if d1.books[b].series.None? then
      if f.seriesName != "" then WithSeries(d1, b, query, f.seriesName, f.seriesOrder) else d1
    else if SeriesNameOf(d1, b) != Some(f.seriesName) then
      if f.seriesName == "" then SetOrder(SetSeries(d1, b, None), b, None)
      else WithSeries(d1, b, query, f.seriesName, f.seriesOrder)
    else if d1.books[b].seriesOrder != Some(f.seriesOrder) then SetOrder(d1, b, Some(f.seriesOrder))
    else d1
  }

  /** The editor's state for one book. */
  class EditBookForm {
    const book: Id
    var release: Date
    var title: string
    var selectedAuthors: seq<Author>
    var seriesName: string
    var seriesOrder: int
    var isFutureRelease: bool

    function Values(): Form
      reads this
    {
      Form(release, title, selectedAuthors, seriesName, seriesOrder, isFutureRelease)
    }

    /** The view appearing for a stored book. */
    constructor (d: Db, book: Id, now: Date)
      requires book in d.books
      ensures this.book == book && Values() == Opened(d, book, now)
    {
      this.book := book;
      var b := d.books[book];
      if b.release.Some? {
        release := b.release.value;
        isFutureRelease := true;
      } else {
        release := now;
        isFutureRelease := false;
      }
      title := b.title;
      selectedAuthors := AuthorsOf(d, b.authors);
      seriesName := SeriesNameOf(d, book).GetOr("");
      seriesOrder := 0;
    }

    /** `selectAuthor`, as in the book form. */
    method SelectAuthor(author: Author)
      modifies this
      ensures selectedAuthors == Selected(old(selectedAuthors), author)
      ensures release == old(release) && title == old(title) && seriesName == old(seriesName)
      ensures seriesOrder == old(seriesOrder) && isFutureRelease == old(isFutureRelease)
    {
      if author.uuid !in Uuids(selectedAuthors) {
        selectedAuthors := selectedAuthors + [author];
      }
    }

    /** `updateSeries`. */
    method UpdateSeries(db: BookDB, query: seq<Id>)
      modifies db
      requires book in db.context.books
      ensures db.context == WithSeries(old(db.context), book, query, seriesName, seriesOrder)
    {
      var d := db.context;
      var x: Id;
      match GetSeries(d, query, seriesName) {
        case StoredSeries(id) =>
          x := id;
        case UnstoredSeries(name) =>
          x := d.next;
          d := InsertSeries(d, name);
      }
      d := SetSeries(d, book, Some(x));
      d := SetOrder(d, book, Some(seriesOrder));
      d := AppendSeriesBook(d, x, book);
      db.context := d;
    }

    /** `updateBook`. The save after it is not part of this model. */
    method UpdateBook(db: BookDB, query: seq<Id>)
      modifies db
      requires book in db.context.books
      ensures db.context == Edited(old(db.context), book, query, Values())
    {
      db.context := SetRelease(db.context, book, if isFutureRelease then Some(release) else None);
      var d := db.context;
      if d.books[book].series.None? {
        if seriesName != "" {
          UpdateSeries(db, query);
        }
      } else if SeriesNameOf(d, book) != Some(seriesName) {
        if seriesName == "" {
          db.context := SetOrder(SetSeries(d, book, None), book, None);
        } else {
          UpdateSeries(db, query);
        }
      } else if d.books[book].seriesOrder != Some(seriesOrder) {
        db.context := SetOrder(d, book, Some(seriesOrder));
      }
    }
  }

  // ------------------------------------------------------------------ facts

  /** `aSeries.books?.append(book)` adds nothing: setting `book.series` already put the
      book in the series' books. */
  lemma AppendRedundant(d: Db, b: Id, x: Id, order: Option<int>)
    requires b in d.books && x in d.series
    ensures var r := SetOrder(SetSeries(d, b, Some(x)), b, order);
            AppendSeriesBook(r, x, b) == r
  {
    var r := SetOrder(SetSeries(d, b, Some(x)), b, order);
    SetSeriesOrderShape(d, b, x, order);
    assert r.series[x := r.series[x].(books := r.series[x].books)] == r.series;
  }

  /** `updateSeries` keeps the store linked and paired; the authors stay. */
  lemma WithSeriesKeeps(d: Db, b: Id, query: seq<Id>, name: string, order: int)
    requires Linked(d) && Paired(d) && b in d.books
    ensures var r := WithSeries(d, b, query, name, order);
            Linked(r) && Paired(r) && r.authors == d.authors
  {
    var sr := GetSeries(d, query, name);
    var p := ResolveSeries(d, Some(sr));
    if sr.UnstoredSeries? {
      InsertSeriesKeeps(d, name);
    }
    SetSeriesAndOrderPaired(p.0, b, p.1, Some(order));
    AppendRedundant(p.0, b, p.1.value, Some(order));
  }

  /** After `updateSeries` the book is in a series of that name, holds the order and is
      listed by the series; the series is the first of the query with that name, or a new
      one when the query has none. Nothing else about the book changes. */
  lemma WithSeriesShape(d: Db, b: Id, query: seq<Id>, name: string, order: int)
    requires Fresh(d) && b in d.books
    ensures var r := WithSeries(d, b, query, name, order);
            b in r.books && r.books[b].series.Some? &&
            r.books[b] == d.books[b].(series := r.books[b].series, seriesOrder := Some(order)) &&
            var x := r.books[b].series.value;
            x in r.series && r.series[x].name == name && b in r.series[x].books &&
            (x in d.series ==> GetSeries(d, query, name) == StoredSeries(x)) &&
            (x !in d.series ==> GetSeries(d, query, name).UnstoredSeries?) &&
            r.authors == d.authors && (forall y :: y in r.books && y != b ==> r.books[y] == d.books[y])
  {
    var sr := GetSeries(d, query, name);
    var p := ResolveSeries(d, Some(sr));
    if sr.UnstoredSeries? {
      InsertSeriesShape(d, name);
    }
    SetSeriesOrderShape(p.0, b, p.1.value, Some(order));
    AppendRedundant(p.0, b, p.1.value, Some(order));
  }

  /** `updateBook` keeps the store linked and paired. */
  lemma EditedKeeps(d: Db, b: Id, query: seq<Id>, f: Form)
    requires Linked(d) && Paired(d) && b in d.books
    ensures Linked(Edited(d, b, query, f)) && Paired(Edited(d, b, query, f))
  {
    var d1 := SetRelease(d, b, if f.isFutureRelease then Some(f.release) else None);
    SetReleaseKeeps(d, b, if f.isFutureRelease then Some(f.release) else None);
    if d1.books[b].series.None? {
      if f.seriesName != "" {
        WithSeriesKeeps(d1, b, query, f.seriesName, f.seriesOrder);
      }
    } else if SeriesNameOf(d1, b) != Some(f.seriesName) {
      if f.seriesName == "" {
        SetSeriesAndOrderPaired(d1, b, None, None);
      } else {
        WithSeriesKeeps(d1, b, query, f.seriesName, f.seriesOrder);
      }
    } else if d1.books[b].seriesOrder != Some(f.seriesOrder) {
      SetOrderKeeps(d1, b, Some(f.seriesOrder));
    }
  }

  /** `updateBook` sets the release exactly when the toggle is on, and never writes the
      title, the authors or any other book. */
  lemma EditedRelease(d: Db, b: Id, query: seq<Id>, f: Form)
    requires Fresh(d) && b in d.books
    ensures var r := Edited(d, b, query, f);
            b in r.books && r.books[b].release == (if f.isFutureRelease then Some(f.release) else None) &&
            r.books[b].title == d.books[b].title && r.books[b].authors == d.books[b].authors &&
            r.authors == d.authors && (forall y :: y in r.books && y != b ==> r.books[y] == d.books[y])
  {
    var d1 := SetRelease(d, b, if f.isFutureRelease then Some(f.release) else None);
    if d1.books[b].series.None? {
      if f.seriesName != "" {
        WithSeriesShape(d1, b, query, f.seriesName, f.seriesOrder);
      }
    } else if SeriesNameOf(d1, b) != Some(f.seriesName) {
      if f.seriesName != "" {
        WithSeriesShape(d1, b, query, f.seriesName, f.seriesOrder);
      }
    }
  }

  /** An empty series name leaves the book without a series; its order is cleared with a
      series it had and left alone otherwise. A book whose series is named "" is left in
      it, since its name then matches. */
  lemma EditedNoSeries(d: Db, b: Id, query: seq<Id>, f: Form)
    requires b in d.books && f.seriesName == "" && SeriesNameOf(d, b) != Some("")
    ensures var r := Edited(d, b, query, f);
            b in r.books && r.books[b].series.None? &&
            r.books[b].seriesOrder == (if d.books[b].series.None? then d.books[b].seriesOrder else None)
  {
  }

  /** Setting the release changes only that field of the book. */
  lemma ReleaseShape(d: Db, b: Id, release: Option<Date>)
    requires Fresh(d) && b in d.books
    ensures var r := SetRelease(d, b, release);
            Fresh(r) && (SeriesInverse(d) ==> SeriesInverse(r)) && b in r.books &&
            r.books[b] == d.books[b].(release := release) && r.series == d.series &&
            SeriesNameOf(r, b) == SeriesNameOf(d, b)
  {
  }

  /** A series name that differs from the book's series puts the book in a series of
      that name with the form's order, listed by the series: the first of the query with
      the name, or a new one when the query has none. */
  lemma EditedMoved(d: Db, b: Id, query: seq<Id>, f: Form)
    requires Fresh(d) && b in d.books && f.seriesName != "" && SeriesNameOf(d, b) != Some(f.seriesName)
    ensures var r := Edited(d, b, query, f);
            b in r.books && r.books[b].series.Some? && r.books[b].seriesOrder == Some(f.seriesOrder) &&
            var x := r.books[b].series.value;
            x in r.series && r.series[x].name == f.seriesName && b in r.series[x].books &&
            (x in d.series ==> GetSeries(d, query, f.seriesName) == StoredSeries(x)) &&
            (x !in d.series ==> GetSeries(d, query, f.seriesName).UnstoredSeries?)
  {
    var rel := if f.isFutureRelease then Some(f.release) else None;
    var d1 := SetRelease(d, b, rel);
    ReleaseShape(d, b, rel);
    assert Edited(d, b, query, f) == WithSeries(d1, b, query, f.seriesName, f.seriesOrder);
    WithSeriesShape(d1, b, query, f.seriesName, f.seriesOrder);
    GetSeriesOnlySeries(d, d1, query, f.seriesName);
  }

  /** A series name equal to the book's series' name keeps the book in that series, now
      with the form's order. */
  lemma EditedKept(d: Db, b: Id, query: seq<Id>, f: Form)
    requires b in d.books && SeriesInverse(d) && SeriesNameOf(d, b) == Some(f.seriesName)
    ensures var r := Edited(d, b, query, f);
            b in r.books && r.books[b].series == d.books[b].series && r.books[b].seriesOrder == Some(f.seriesOrder) &&
            r.series == d.series && b in r.series[d.books[b].series.value].books
  {
    var x := d.books[b].series.value;
    assert b in d.series[x].books;
  }

  /** As written, opening the editor on a book that is third in its series and pressing
      Update without changing anything moves the book to order 0. */
  lemma ReopenResetsOrder(now: Date)
    ensures var d := Db(map[0 := Book(now, None, "T", [], Some(1), Some(3))], map[],
                        map[1 := Series("S", [0], false)], 2);
            Edited(d, 0, [1], Opened(d, 0, now)).books[0].seriesOrder == Some(0)
  {
  }

  /** With the order read from the book, opening the editor and pressing Update without
      changing anything leaves the store as it was. */
  lemma ReopenKeepsStore(d: Db, b: Id, query: seq<Id>, now: Date)
    requires Linked(d) && Paired(d) && b in d.books
    ensures Edited(d, b, query, OpenedIntended(d, b, now)) == d
  {
    var f := OpenedIntended(d, b, now);
    var book := d.books[b];
    assert book.(release := if f.isFutureRelease then Some(f.release) else None) == book;
    assert d.books[b := book] == d.books;
    if book.series.Some? {
      assert book.series.value in d.series;
    }
  }
}
