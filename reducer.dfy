/** `ModelReducer` (Read/Model/Reducer.swift): each event makes a few writes through
    `BookDB`, re-reads the collections it changed and turns a thrown error into
    `lastError`. The handlers share one `do` block each, so a throw skips what follows but
    keeps what was already written.

    `Effect` states what an event does to the store, which lists it re-reads and which
    error it records; the handler methods are proved to do exactly that. */
module Reducer {
  import opened Common
  import opened Records
  import opened Store
  import opened Order
  import opened Repository
  import opened State

  /** `ModelEvent`. A record the event carries is named by its id; the records an add
      event carries are new and are given by their fields. */
  datatype ModelEvent =
    | AddAuthorButton(uuid: Uuid, lastName: string, firstName: string)
    | AddBookButton(title: string, release: Option<Date>, now: Date)
    | BookUpdateOrAddButton(book: Id, title: string, authors: seq<AuthorRef>, seriesName: string, seriesOrder: int)
    | EditAuthorDone(author: Id, firstName: string, lastName: string)
    | EditSeriesDone(series: Id, name: string)
    | OnAuthorDelete(author: Id)
    | OnBookDelete(book: Id)
    | OnSeriesDelete(series: Id)

  /** Which store call throws: the calls an event makes (saves, fetches and deletes) are
      numbered from 0 in the order the handler makes them, and the one numbered `failAt`
      throws `description`. A `failAt` past the last call means none throws. */
  datatype Faults = Faults(failAt: nat, description: string) {
    function At(k: nat): (r: Option<string>)
      ensures r.Some? <==> k == failAt
    {
      if k == failAt then Some(description) else None
    }
  }

  /** No event makes more than six store calls, so this many means nothing throws. */
  const MaxCalls := 6

  /** What became of one of the state's lists: kept, or re-read from the store as it
      then was. */
  datatype Refresh = Kept | ReadAt(db: Db)

  /** The progress of a handler: the store, the number of calls made, the three lists and
      the error that ended it, if any. */
  datatype Step = Step(db: Db, calls: nat, books: Refresh, authors: Refresh, series: Refresh, error: Option<string>)

  function Start(d: Db): Step
  {
    Step(d, 0, Kept, Kept, Kept, None)
  }

  /** A write whose save is the next call: the write stays even when the save throws. */
  function Write(s: Step, d: Db, f: Faults): (r: Step)
    ensures r.db == d
  {
    if f.At(s.calls).Some? then s.(db := d, error := f.At(s.calls)) else s.(db := d, calls := s.calls + 1)
  }

  /** A fetch of the list of kind `k` as the store now is, which replaces that list. */
  function Read(s: Step, k: Kind, f: Faults): (r: Step)
    ensures r.db == s.db
  {
    if f.At(s.calls).Some? then s.(error := f.At(s.calls))
    else match k
      case BookKind => s.(calls := s.calls + 1, books := ReadAt(s.db))
      case AuthorKind => s.(calls := s.calls + 1, authors := ReadAt(s.db))
      case SeriesKind => s.(calls := s.calls + 1, series := ReadAt(s.db))
  }

  /** A write, then a re-read of the list of kind `k`. */
  function WriteRead(s: Step, d: Db, k: Kind, f: Faults): (r: Step)
    ensures r.db == d
  {
    var w := Write(s, d, f);
    if w.error.Some? then w else Read(w, k, f)
  }

  /** `delete(element:)` from `before` to `after`, then a re-read: the delete is one call
      with no save after it, and one that throws removes nothing. */
  function DeleteRead(s: Step, before: Db, after: Db, k: Kind, f: Faults): Step
  {
    if f.At(s.calls).Some? then s.(db := before, error := f.At(s.calls))
    else Read(s.(db := after, calls := s.calls + 1), k, f)
  }

  // ------------------------------------------------------- bookUpdateOrAddButtin

  /** `book.authors != authors` is false: the same stored authors in the same order. */
  predicate SameAuthors(ids: seq<Id>, refs: seq<AuthorRef>)
  {
    |ids| == |refs| && forall i :: 0 <= i < |refs| ==> refs[i] == Stored(ids[i])
  }

  /** `getSeries(matching:)`: the first listed series the store holds with exactly that
      name, or a new one. */
  function GetSeries(d: Db, cached: seq<Id>, name: string): (r: SeriesRef)
    ensures r.StoredSeries? ==> r.id in cached && r.id in d.series && d.series[r.id].name == name
    ensures r.UnstoredSeries? ==> r.name == name
  {
    if cached == [] then UnstoredSeries(name)
    else if cached[0] in d.series && d.series[cached[0]].name == name then StoredSeries(cached[0])
    else GetSeries(d, cached[1..], name)
  }

  /** `book.series != series`: a new series always differs. */
  predicate SeriesDiffers(current: Option<Id>, r: SeriesRef)
  {
    r.UnstoredSeries? || current != Some(r.id)
  }

  /** The title step: assigned in memory, then `update(book:title:)` and a re-read of the
      books, only when the title differs. */
  function TitleStep(s: Step, b: Id, title: string, f: Faults): (r: Step)
    requires b in s.db.books
    ensures r.db.books.Keys == s.db.books.Keys && r.db.authors == s.db.authors && r.db.series == s.db.series
  {
    if s.error.Some? || s.db.books[b].title == title then s
    else WriteRead(s, SetTitle(s.db, b, title), BookKind, f)
  }

  /** The author step: `update(book:authors:)` and a re-read of the authors, only when the
      list differs. */
  function AuthorsStep(s: Step, b: Id, refs: seq<AuthorRef>, f: Faults): (r: Step)
    requires b in s.db.books && RefsStored(s.db, refs)
    ensures r.db.books.Keys == s.db.books.Keys && r.db.series == s.db.series
  {
    if s.error.Some? || SameAuthors(s.db.books[b].authors, refs) then s
    else
      var p := Resolve(s.db, refs);
      WriteRead(s, SetAuthors(p.0, b, p.1), AuthorKind, f)
  }

  /** The series step. An empty name clears the series and the order of a book that has
      a series. Otherwise a different series is set with the order, and the series list
      re-read; the same series with a different order gets only the order. */
  function SeriesStep(s: Step, b: Id, cached: seq<Id>, name: string, order: int, f: Faults): Step
    requires b in s.db.books
  {
    if s.error.Some? then s
    else if name == "" then
      if s.db.books[b].series.Some? then Write(s, SetOrder(SetSeries(s.db, b, None), b, None), f) else s
    else
      var r := GetSeries(s.db, cached, name);
      if SeriesDiffers(s.db.books[b].series, r) then
        var p := ResolveSeries(s.db, Some(r));
        WriteRead(s, SetOrder(SetSeries(p.0, b, p.1), b, Some(order)), SeriesKind, f)
      else if s.db.books[b].seriesOrder != Some(order) then Write(s, SetOrder(s.db, b, Some(order)), f)
      else s
  }

  // ---------------------------------------------------------------- onSeriesDelete

  /** `book.series = nil; book.seriesOrder = nil`. */
  function Detach(d: Db, b: Id): Db
  {
    SetOrder(SetSeries(d, b, None), b, None)
  }

  /** The loop over the series' books, in order. */
  function DetachAll(d: Db, bs: seq<Id>): Db
    decreases |bs|
  {
    if bs == [] then d else Detach(DetachAll(d, bs[..|bs| - 1]), bs[|bs| - 1])
  }

  /** The books `series.books` held when the loop started. */
  function MembersOf(d: Db, s: Id): seq<Id>
  {
    if s in d.series then d.series[s].books else []
  }

  // ----------------------------------------------------------------------- effect

  /** The events whose records must be stored: the edited book and the stored authors of
      an update. */
  predicate EventValid(d: Db, e: ModelEvent)
  {
    e.BookUpdateOrAddButton? ==> e.book in d.books && RefsStored(d, e.authors)
  }

  /** What the event does, given the store `d` and the cached series list. */
  function Effect(d: Db, cached: seq<Id>, e: ModelEvent, f: Faults): Step
    requires EventValid(d, e)
  {
    match e
    case AddAuthorButton(u, l, n) => WriteRead(Start(d), InsertAuthor(d, u, l, n), AuthorKind, f)
    case AddBookButton(t, rel, now) => WriteRead(Start(d), InsertBook(d, t, rel, now), BookKind, f)
    case BookUpdateOrAddButton(b, t, refs, name, order) =>
      var s1 := TitleStep(Start(d), b, t, f);
      var s2 := AuthorsStep(s1, b, refs, f);
      SeriesStep(s2, b, cached, name, order, f)
    case EditAuthorDone(a, first, last) => WriteRead(Start(d), SetAuthorName(d, a, first, last), AuthorKind, f)
    case EditSeriesDone(s, name) => WriteRead(Start(d), SetSeriesName(d, s, name), SeriesKind, f)
    case OnAuthorDelete(a) =>
      var d1 := ClearAuthorBooks(d, a);
      DeleteRead(Start(d1), d1, Store.DeleteAuthor(d1, a), AuthorKind, f)
    case OnBookDelete(b) => DeleteRead(Start(d), d, Store.DeleteBook(d, b), BookKind, f)
    case OnSeriesDelete(s) =>
      var d1 := DetachAll(d, MembersOf(d, s));
      DeleteRead(Start(d1), d1, Store.DeleteSeries(d1, s), SeriesKind, f)
  }

  /** The list `now` is what `r` says of the list `was`. */
  ghost predicate Agrees(now: seq<Id>, was: seq<Id>, r: Refresh, k: Kind)
  {
    match r
    case Kept => now == was
    case ReadAt(d) => Lists(now, SortKeys(d, k))
  }

  /** The new state's lists and error are those `s` describes for the old state. */
  ghost predicate Follows(st: BookState, st0: BookState, s: Step)
  {
    st.bookDB == st0.bookDB &&
    Agrees(st.books, st0.books, s.books, BookKind) &&
    Agrees(st.authors, st0.authors, s.authors, AuthorKind) &&
    Agrees(st.series, st0.series, s.series, SeriesKind) &&
    st.lastError == (if s.error.Some? then s.error else st0.lastError)
  }

  // -------------------------------------------------------------------- handlers

  /** A fetch of the list of kind `kind`, which replaces that list when it succeeds. */
  method Fetch(st: BookState, ghost st0: BookState, s: Step, kind: Kind, f: Faults) returns (r: BookState, s': Step)
    requires Follows(st, st0, s) && s.error.None? && st.bookDB.context == s.db
    ensures Follows(r, st0, s') && s' == Read(s, kind, f)
  {
    s' := Read(s, kind, f);
    var rd: Result<seq<Id>>;
    match kind {
      case BookKind => rd := SortedBooks(st, f.At(s.calls));
      case AuthorKind => rd := SortedAuthors(st, f.At(s.calls));
      case SeriesKind => rd := SortedSeries(st, f.At(s.calls));
    }
    if rd.Err? {
      r := st.(lastError := Some(rd.description));
      return;
    }
    match kind {
      case BookKind => r := st.(books := rd.value);
      case AuthorKind => r := st.(authors := rd.value);
      case SeriesKind => r := st.(series := rd.value);
    }
  }

  /** `addAuthorButton`. */
  method AddAuthorButton(st: BookState, uuid: Uuid, lastName: string, firstName: string, f: Faults) returns (r: BookState)
    modifies st.bookDB
    ensures var s := Effect(old(st.bookDB.context), st.series, ModelEvent.AddAuthorButton(uuid, lastName, firstName), f);
            Follows(r, st, s) && st.bookDB.context == s.db
  {
    var _, err := st.bookDB.CreateAuthor(uuid, lastName, firstName, f.At(0));
    if err.Some? {
      r := st.(lastError := err);
      return;
    }
    var s;
    r, s := Fetch(st, st, Start(st.bookDB.context).(calls := 1), AuthorKind, f);
  }

  /** `addBookButton`. */
  method AddBookButton(st: BookState, title: string, release: Option<Date>, now: Date, f: Faults) returns (r: BookState)
    modifies st.bookDB
    ensures var s := Effect(old(st.bookDB.context), st.series, ModelEvent.AddBookButton(title, release, now), f);
            Follows(r, st, s) && st.bookDB.context == s.db
  {
    var _, err := st.bookDB.CreateBook(title, release, now, f.At(0));
    if err.Some? {
      r := st.(lastError := err);
      return;
    }
    var s;
    r, s := Fetch(st, st, Start(st.bookDB.context).(calls := 1), BookKind, f);
  }

  /** `editAuthorDone`. */
  method EditAuthorDone(st: BookState, a: Id, firstName: string, lastName: string, f: Faults) returns (r: BookState)
    modifies st.bookDB
    ensures var s := Effect(old(st.bookDB.context), st.series, ModelEvent.EditAuthorDone(a, firstName, lastName), f);
            Follows(r, st, s) && st.bookDB.context == s.db
  {
    var err := st.bookDB.UpdateAuthorName(a, firstName, lastName, f.At(0));
    if err.Some? {
      r := st.(lastError := err);
      return;
    }
    var s;
    r, s := Fetch(st, st, Start(st.bookDB.context).(calls := 1), AuthorKind, f);
  }

  /** `editSeriesDone`. */
  method EditSeriesDone(st: BookState, series: Id, name: string, f: Faults) returns (r: BookState)
    modifies st.bookDB
    ensures var s := Effect(old(st.bookDB.context), st.series, ModelEvent.EditSeriesDone(series, name), f);
            Follows(r, st, s) && st.bookDB.context == s.db
  {
    var err := st.bookDB.UpdateSeriesName(series, name, f.At(0));
    if err.Some? {
      r := st.(lastError := err);
      return;
    }
    var s;
    r, s := Fetch(st, st, Start(st.bookDB.context).(calls := 1), SeriesKind, f);
  }

  /** `onAuthorDelete`: empties `author.books`, then deletes the author. */
  method OnAuthorDelete(st: BookState, a: Id, f: Faults) returns (r: BookState)
    modifies st.bookDB
    ensures var s := Effect(old(st.bookDB.context), st.series, ModelEvent.OnAuthorDelete(a), f);
            Follows(r, st, s) && st.bookDB.context == s.db
  {
    st.bookDB.context := ClearAuthorBooks(st.bookDB.context, a);
    var err := st.bookDB.DeleteAuthor(a, f.At(0));
    if err.Some? {
      r := st.(lastError := err);
      return;
    }
    var s;
    r, s := Fetch(st, st, Start(st.bookDB.context).(calls := 1), AuthorKind, f);
  }

  /** `onBookDelete`. */
  method OnBookDelete(st: BookState, b: Id, f: Faults) returns (r: BookState)
    modifies st.bookDB
    ensures var s := Effect(old(st.bookDB.context), st.series, ModelEvent.OnBookDelete(b), f);
            Follows(r, st, s) && st.bookDB.context == s.db
  {
    var err := st.bookDB.DeleteBook(b, f.At(0));
    if err.Some? {
      r := st.(lastError := err);
      return;
    }
    var s;
    r, s := Fetch(st, st, Start(st.bookDB.context).(calls := 1), BookKind, f);
  }

  /** `onSeriesDelete`: clears the series and the order of every book the series lists,
      then deletes the series. */
  method OnSeriesDelete(st: BookState, s: Id, f: Faults) returns (r: BookState)
    modifies st.bookDB
    ensures var o := Effect(old(st.bookDB.context), st.series, ModelEvent.OnSeriesDelete(s), f);
            Follows(r, st, o) && st.bookDB.context == o.db
  {
    var db := st.bookDB;
    var bs := if s in db.context.series then db.context.series[s].books else [];
    var i := 0;
    while i < |bs|
      invariant 0 <= i <= |bs| && db == st.bookDB
      invariant db.context == DetachAll(old(db.context), bs[..i])
    {
      assert bs[..i + 1][..i] == bs[..i];
      db.context := Detach(db.context, bs[i]);
      i := i + 1;
    }
    assert bs[..|bs|] == bs;
    var err := db.DeleteSeries(s, f.At(0));
    if err.Some? {
      r := st.(lastError := err);
      return;
    }
    var o;
    r, o := Fetch(st, st, Start(db.context).(calls := 1), SeriesKind, f);
  }

  /** `bookUpdateOrAddButtin`: the title, the authors and the series, each written only
      when it differs from what the book holds; the first error ends the handler. */
  method BookUpdateOrAddButton(st: BookState, b: Id, title: string, refs: seq<AuthorRef>, name: string, order: int, f: Faults)
    returns (r: BookState)
    requires b in st.bookDB.context.books && RefsStored(st.bookDB.context, refs)
    modifies st.bookDB
    ensures var s := Effect(old(st.bookDB.context), st.series, ModelEvent.BookUpdateOrAddButton(b, title, refs, name, order), f);
            Follows(r, st, s) && st.bookDB.context == s.db
  {
    var s := Start(st.bookDB.context);
    r, s := TitleChange(st, st, s, b, title, f);
    if s.error.Some? {
      return;
    }
    r, s := AuthorsChange(r, st, s, b, refs, f);
    if s.error.Some? {
      return;
    }
    r, s := SeriesChange(r, st, s, b, st.series, name, order, f);
  }

  /** The title part of `bookUpdateOrAddButtin`. */
  method TitleChange(r0: BookState, ghost st0: BookState, s0: Step, b: Id, title: string, f: Faults)
    returns (r: BookState, s: Step)
    requires Follows(r0, st0, s0) && s0.error.None? && r0.bookDB.context == s0.db && b in s0.db.books
    modifies r0.bookDB
    ensures s == TitleStep(s0, b, title, f) && Follows(r, st0, s) && r0.bookDB.context == s.db
  {
    var db := r0.bookDB;
    r, s := r0, s0;
    if db.context.books[b].title != title {
      var err := db.UpdateTitle(b, title, f.At(s.calls));
      s := Write(s, db.context, f);
      if err.Some? {
        r := r.(lastError := err);
        return;
      }
      r, s := Fetch(r, st0, s, BookKind, f);
    }
  }

  /** The author part of `bookUpdateOrAddButtin`. */
  method AuthorsChange(r0: BookState, ghost st0: BookState, s0: Step, b: Id, refs: seq<AuthorRef>, f: Faults)
    returns (r: BookState, s: Step)
    requires Follows(r0, st0, s0) && s0.error.None? && r0.bookDB.context == s0.db && b in s0.db.books
    requires RefsStored(s0.db, refs)
    modifies r0.bookDB
    ensures s == AuthorsStep(s0, b, refs, f) && Follows(r, st0, s) && r0.bookDB.context == s.db
  {
    var db := r0.bookDB;
    r, s := r0, s0;
    if !SameAuthors(db.context.books[b].authors, refs) {
      var err := db.UpdateAuthors(b, refs, f.At(s.calls));
      s := Write(s, db.context, f);
      if err.Some? {
        r := r.(lastError := err);
        return;
      }
      r, s := Fetch(r, st0, s, AuthorKind, f);
    }
  }

  /** The series part of `bookUpdateOrAddButtin`, with `cached` the series list the
      state held when the handler began. */
  method SeriesChange(r0: BookState, ghost st0: BookState, s0: Step, b: Id, cached: seq<Id>, name: string, order: int, f: Faults)
    returns (r: BookState, s: Step)
    requires Follows(r0, st0, s0) && s0.error.None? && r0.bookDB.context == s0.db && b in s0.db.books
    modifies r0.bookDB
    ensures s == SeriesStep(s0, b, cached, name, order, f) && Follows(r, st0, s) && r0.bookDB.context == s.db
  {
    var db := r0.bookDB;
    r, s := r0, s0;
    if name == "" {
      if db.context.books[b].series.Some? {
        var err := db.UpdateSeries(b, None, None, f.At(s.calls));
        s := Write(s, db.context, f);
        if err.Some? {
          r := r.(lastError := err);
        }
      }
    } else {
      var sr := GetSeries(db.context, cached, name);
      if SeriesDiffers(db.context.books[b].series, sr) {
        var err := db.UpdateSeries(b, Some(sr), Some(order), f.At(s.calls));
        s := Write(s, db.context, f);
        if err.Some? {
          r := r.(lastError := err);
          return;
        }
        r, s := Fetch(r, st0, s, SeriesKind, f);
      } else if db.context.books[b].seriesOrder != Some(order) {
        var err := db.UpdateOrder(b, Some(order), f.At(s.calls));
        s := Write(s, db.context, f);
        if err.Some? {
          r := r.(lastError := err);
        }
      }
    }
  }

  /** `ModelReducer.reduce`: the handler the event names. */
  method Reduce(st: BookState, e: ModelEvent, f: Faults) returns (r: BookState)
    requires EventValid(st.bookDB.context, e)
    modifies st.bookDB
    ensures var s := Effect(old(st.bookDB.context), st.series, e, f);
            Follows(r, st, s) && st.bookDB.context == s.db
  {
    match e {
      case AddAuthorButton(u, l, n) => r := AddAuthorButton(st, u, l, n, f);
      case AddBookButton(t, rel, now) => r := AddBookButton(st, t, rel, now, f);
      case BookUpdateOrAddButton(b, t, refs, name, order) => r := BookUpdateOrAddButton(st, b, t, refs, name, order, f);
      case EditAuthorDone(a, first, last) => r := EditAuthorDone(st, a, first, last, f);
      case EditSeriesDone(s, name) => r := EditSeriesDone(st, s, name, f);
      case OnAuthorDelete(a) => r := OnAuthorDelete(st, a, f);
      case OnBookDelete(b) => r := OnBookDelete(st, b, f);
      case OnSeriesDelete(s) => r := OnSeriesDelete(st, s, f);
    }
  }
}
